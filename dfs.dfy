/** The evidently intended behaviour of sort_dependencies, as a depth-first
    visit that tells a Table whose visit is still in progress (a real cycle)
    apart from one that is merely listed already or scheduled. A Table that
    is already listed is skipped, so a source named twice, or shared with a
    sibling, is listed once; only a dependency back onto the path of visits
    in progress fails. */
module DfsSort {
  import opened Errors
  import opened Tables
  import opened TopoSort
  import opened SortFacts

  /** From done to r the list only grows, by Tables that t reaches and that
      are not in path, and it stays free of repeats and in dependency order. */
  ghost predicate Grows(g: Graph, path: set<TableId>, t: TableId, done: seq<TableId>, r: seq<TableId>)
  {
    done <= r &&
    (forall x :: x in r[|done|..] ==> Reaches(g, t, x) && x !in path) &&
    (Distinct(done) ==> Distinct(r)) &&
    (DepsBefore(g, done) ==> DepsBefore(g, r))
  }

  /** Visit t: list its sources first, then t. done is the list so far;
      path holds the Tables whose visit is in progress. */
  function Visit(g: Graph, path: set<TableId>, t: TableId, done: seq<TableId>): (r: Result<seq<TableId>>)
    requires ValidGraph(g) && t in g && path <= g.Keys
    ensures r.Err? ==> r.error == CircularDependency
    ensures r.Ok? ==> Grows(g, path, t, done, r.value) && t in r.value
    ensures r.Ok? && t !in done ==> r.value[|r.value| - 1] == t
    decreases |g.Keys - path|, 0
  {
    if t in done then
      VisitNothing(g, path, t, done);
      Ok(done)
    else if t in path then Err(CircularDependency)
    else
      assert g.Keys - (path + {t}) < g.Keys - path;
      match VisitSources(g, path + {t}, t, 0, done)
      case Err(e) => Err(e)
      case Ok(listed) =>
        VisitClose(g, path, t, done, listed);
        Ok(listed + [t])
  }

  lemma VisitNothing(g: Graph, path: set<TableId>, t: TableId, done: seq<TableId>)
    ensures Grows(g, path, t, done, done)
  {
    assert done[|done|..] == [];
  }

  /** What the visit of t promises, given what the visit of its sources did. */
  lemma VisitClose(g: Graph, path: set<TableId>, t: TableId, done: seq<TableId>, listed: seq<TableId>)
    requires ValidGraph(g) && t in g && t !in done && t !in path
    requires Grows(g, path + {t}, t, done, listed)
    requires forall j :: 0 <= j < |g[t].sourceTables| ==> g[t].sourceTables[j].table in listed
    ensures Grows(g, path, t, done, listed + [t])
  {
    assert t !in listed by {
      assert listed == done + listed[|done|..];
    }
    if Distinct(done) {
      AppendDistinct(listed, t);
    }
    if DepsBefore(g, done) {
      AppendDeps(g, listed, t);
    }
    assert (listed + [t])[|done|..] == listed[|done|..] + [t];
    ReachesSelf(g, t);
  }

  /** Visit the sources of t from the i-th on, in the order t lists them. */
  function VisitSources(g: Graph, path: set<TableId>, t: TableId, i: nat, done: seq<TableId>): (r: Result<seq<TableId>>)
    requires ValidGraph(g) && t in g && path <= g.Keys && i <= |g[t].sourceTables|
    ensures r.Err? ==> r.error == CircularDependency
    ensures r.Ok? ==> Grows(g, path, t, done, r.value)
    ensures r.Ok? ==> forall j :: i <= j < |g[t].sourceTables| ==> g[t].sourceTables[j].table in r.value
    decreases |g.Keys - path|, 1, |g[t].sourceTables| - i
  {
    if i == |g[t].sourceTables| then
      VisitNothing(g, path, t, done);
      Ok(done)
    else
      var d := SourceAt(g, t, i);
      match Visit(g, path, d, done)
      case Err(e) => Err(e)
      case Ok(mid) =>
        match VisitSources(g, path, t, i + 1, mid)
        case Err(e) => Err(e)
        case Ok(listed) =>
          VisitSourcesClose(g, path, t, i, done, mid, listed);
          Ok(listed)
  }

  /** What the visit of the sources of t from the i-th on promises, given the
      visit of the i-th and of the rest. */
  lemma VisitSourcesClose(g: Graph, path: set<TableId>, t: TableId, i: nat, done: seq<TableId>, mid: seq<TableId>, listed: seq<TableId>)
    requires ValidGraph(g) && t in g && i < |g[t].sourceTables|
    requires Grows(g, path, g[t].sourceTables[i].table, done, mid) && g[t].sourceTables[i].table in mid
    requires Grows(g, path, t, mid, listed)
    requires forall j :: i + 1 <= j < |g[t].sourceTables| ==> g[t].sourceTables[j].table in listed
    ensures Grows(g, path, t, done, listed)
    ensures forall j :: i <= j < |g[t].sourceTables| ==> g[t].sourceTables[j].table in listed
  {
    var d := SourceAt(g, t, i);
    assert listed[|done|..] == mid[|done|..] + listed[|mid|..];
    forall x | x in mid[|done|..] ensures Reaches(g, t, x) {
      ReachesFromSource(g, t, d, x);
    }
    assert d in listed by {
      assert mid == listed[..|mid|];
    }
  }

  /** One visit, a step at a time: a Table already listed is skipped. */
  lemma VisitListed(g: Graph, path: set<TableId>, t: TableId, done: seq<TableId>)
    requires ValidGraph(g) && t in g && path <= g.Keys && t in done
    ensures Visit(g, path, t, done) == Ok(done)
  {
  }

  /** A Table neither listed nor in progress is listed after its sources. */
  lemma VisitNew(g: Graph, path: set<TableId>, t: TableId, done: seq<TableId>, listed: seq<TableId>)
    requires ValidGraph(g) && t in g && path <= g.Keys && t !in done && t !in path
    requires VisitSources(g, path + {t}, t, 0, done) == Ok(listed)
    ensures Visit(g, path, t, done) == Ok(listed + [t])
  {
  }

  /** No sources left to visit. */
  lemma VisitSourcesEnd(g: Graph, path: set<TableId>, t: TableId, i: nat, done: seq<TableId>)
    requires ValidGraph(g) && t in g && path <= g.Keys && i == |g[t].sourceTables|
    ensures VisitSources(g, path, t, i, done) == Ok(done)
  {
  }

  /** Visit the i-th source, then the rest. */
  lemma VisitSourcesNext(g: Graph, path: set<TableId>, t: TableId, i: nat, done: seq<TableId>, mid: seq<TableId>, listed: seq<TableId>)
    requires ValidGraph(g) && t in g && path <= g.Keys && i < |g[t].sourceTables|
    requires g[t].sourceTables[i].table in g
    requires Visit(g, path, g[t].sourceTables[i].table, done) == Ok(mid)
    requires VisitSources(g, path, t, i + 1, mid) == Ok(listed)
    ensures VisitSources(g, path, t, i, done) == Ok(listed)
  {
  }

  lemma AppendDistinct(s: seq<TableId>, t: TableId)
    requires Distinct(s) && t !in s
    ensures Distinct(s + [t])
  {
  }

  lemma AppendDeps(g: Graph, s: seq<TableId>, t: TableId)
    requires DepsBefore(g, s) && t in g
    requires forall j :: 0 <= j < |g[t].sourceTables| ==> g[t].sourceTables[j].table in s
    ensures DepsBefore(g, s + [t])
  {
    var r := s + [t];
    forall i, d | 0 <= i < |r| && d in SourceIds(g[r[i]])
      ensures d in r[..i]
    {
      if i < |s| {
        assert r[..i] == s[..i];
      } else {
        assert r[..i] == s;
      }
    }
  }

  /** The corrected sort_dependencies(root): on success each Table reachable
      from root is listed exactly once, every Table after its sources, root
      last; the only failure is a dependency back onto a visit in progress. */
  function DfsOrder(g: Graph, root: TableId): (r: Result<seq<TableId>>)
    requires ValidGraph(g) && root in g
    ensures r.Err? ==> r.error == CircularDependency
    ensures r.Ok? ==> IsDependencyOrder(g, root, r.value)
  {
    RootVisitOrder(g, root);
    Visit(g, {}, root, [])
  }

  /** The visit of root, from nothing listed, lists what root reaches and
      nothing else. */
  lemma RootVisitOrder(g: Graph, root: TableId)
    requires ValidGraph(g) && root in g
    ensures Visit(g, {}, root, []).Ok? ==> IsDependencyOrder(g, root, Visit(g, {}, root, []).value)
  {
    if Visit(g, {}, root, []).Ok? {
      var r := Visit(g, {}, root, []).value;
      assert r[0..] == r;
      forall t | Reaches(g, root, t) ensures t in r {
        var set_r := set x | x in r;
        forall x, d | x in set_r && x in g && d in SourceIds(g[x]) ensures d in set_r {
          var i :| 0 <= i < |r| && r[i] == x;
          assert d in r[..i];
        }
        ClosedHoldsReachable(g, root, set_r, t);
      }
    }
  }

  /** The corrected sort fails on no graph where nothing reachable from root
      depends on itself, whether or not a Table is named twice or shared
      between siblings. */
  lemma DfsTotal(g: Graph, root: TableId)
    requires ValidGraph(g) && root in g
    requires forall u :: Reaches(g, root, u) ==> !OnCycle(g, u)
    ensures DfsOrder(g, root).Ok?
  {
    ReachesSelf(g, root);
    VisitOk(g, root, {}, root, []);
  }

  /** Visiting t succeeds when t is reachable from root and every visit in
      progress depends on t: t cannot be in progress itself, since it would
      then depend on itself. */
  lemma VisitOk(g: Graph, root: TableId, path: set<TableId>, t: TableId, done: seq<TableId>)
    requires ValidGraph(g) && t in g && path <= g.Keys
    requires forall u :: Reaches(g, root, u) ==> !OnCycle(g, u)
    requires Reaches(g, root, t)
    requires forall p :: p in path ==> DependsOn(g, p, t)
    ensures Visit(g, path, t, done).Ok?
    decreases |g.Keys - path|, 0
  {
    if t !in done {
      assert t !in path;
      assert g.Keys - (path + {t}) < g.Keys - path;
      forall p | p in path + {t} ensures Reaches(g, p, t) {
        if p == t {
          ReachesSelf(g, t);
        } else {
          DependsReaches(g, p, t);
        }
      }
      VisitSourcesOk(g, root, path + {t}, t, 0, done);
    }
  }

  /** Visiting the sources of t succeeds when t is reachable from root and
      every visit in progress reaches t. */
  lemma VisitSourcesOk(g: Graph, root: TableId, path: set<TableId>, t: TableId, i: nat, done: seq<TableId>)
    requires ValidGraph(g) && t in g && path <= g.Keys && i <= |g[t].sourceTables|
    requires forall u :: Reaches(g, root, u) ==> !OnCycle(g, u)
    requires Reaches(g, root, t)
    requires forall p :: p in path ==> Reaches(g, p, t)
    ensures VisitSources(g, path, t, i, done).Ok?
    decreases |g.Keys - path|, 1, |g[t].sourceTables| - i
  {
    if i < |g[t].sourceTables| {
      var d := SourceAt(g, t, i);
      forall p | p in path ensures DependsOn(g, p, d) {
        DependsStep(g, p, t, d);
      }
      ReachesStep(g, root, t, d);
      VisitOk(g, root, path, d, done);
      VisitSourcesOk(g, root, path, t, i + 1, Visit(g, path, d, done).value);
    }
  }

  /** Depending on t extends along one dependency of t. */
  lemma DependsStep(g: Graph, p: TableId, t: TableId, d: TableId)
    requires Reaches(g, p, t) && t in g && d in SourceIds(g[t]) && d in g
    ensures DependsOn(g, p, d)
  {
    var q :| IsPath(g, q) && q[0] == p && q[|q| - 1] == t;
    assert IsPath(g, q + [d]);
  }

  /** What a Table depends on, it reaches. */
  lemma DependsReaches(g: Graph, p: TableId, t: TableId)
    requires DependsOn(g, p, t)
    ensures Reaches(g, p, t)
  {
    var q :| IsPath(g, q) && |q| >= 2 && q[0] == p && q[|q| - 1] == t;
    assert IsPath(g, q);
  }

  /** Like sort_dependencies, the corrected sort fails when a Table reachable
      from the root depends on itself. */
  lemma DfsCycleFails(g: Graph, root: TableId, t: TableId)
    requires ValidGraph(g) && root in g && Reaches(g, root, t) && OnCycle(g, t)
    ensures DfsOrder(g, root) == Err(CircularDependency)
  {
    if DfsOrder(g, root).Ok? {
      OrderHasNoCycle(g, root, DfsOrder(g, root).value, t);
    }
  }

  /** The corrected sort fails exactly when a Table reachable from the root
      depends on itself. */
  lemma DfsFailsIffCycle(g: Graph, root: TableId)
    requires ValidGraph(g) && root in g
    ensures DfsOrder(g, root).Err? <==> exists t :: Reaches(g, root, t) && OnCycle(g, t)
  {
    if exists t :: Reaches(g, root, t) && OnCycle(g, t) {
      var t :| Reaches(g, root, t) && OnCycle(g, t);
      DfsCycleFails(g, root, t);
    } else {
      DfsTotal(g, root);
    }
  }
}

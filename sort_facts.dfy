/** What follows from the definition of sort_dependencies: when it fails, when
    it must fail, and the order it gives on a small shape of graph. */
module SortFacts {
  import opened Errors
  import opened Tables
  import opened TopoSort

  /** The position of x in a list that holds it. */
  function IndexOf(r: seq<TableId>, x: TableId): (i: nat)
    requires x in r
    ensures i < |r| && r[i] == x
  {
    if r[0] == x then 0 else 1 + IndexOf(r[1..], x)
  }

  /** In a dependency order a source sits strictly before the Table naming it. */
  lemma SourceBefore(g: Graph, r: seq<TableId>, x: TableId, d: TableId)
    requires Distinct(r) && DepsBefore(g, r) && x in r
    requires x in g && d in SourceIds(g[x])
    ensures d in r && IndexOf(r, d) < IndexOf(r, x)
  {
    var i := IndexOf(r, x);
    assert d in r[..i];
    var j :| 0 <= j < i && r[..i][j] == d;
    assert r[j] == d;
    assert IndexOf(r, d) == j;
  }

  /** No dependency order can hold a Table that depends on itself: a source
      sits strictly before its Table, so going round the cycle would put the
      Table before itself. */
  lemma OrderHasNoCycle(g: Graph, root: TableId, r: seq<TableId>, t: TableId)
    requires IsDependencyOrder(g, root, r) && Reaches(g, root, t)
    ensures !OnCycle(g, t)
  {
    if OnCycle(g, t) {
      var p :| IsPath(g, p) && |p| >= 2 && p[0] == t && p[|p| - 1] == t;
      assert t in r;
      var top := IndexOf(r, t);
      SourceBefore(g, r, t, p[1]);
      var m := 1;
      while m < |p| - 1
        invariant 1 <= m <= |p| - 1
        invariant p[m] in r && IndexOf(r, p[m]) < top
      {
        assert p[m] in g && p[m + 1] in SourceIds(g[p[m]]);
        SourceBefore(g, r, p[m], p[m + 1]);
        m := m + 1;
      }
    }
  }

  /** A Table that depends on itself and is reachable from the root makes
      sort_dependencies fail. */
  lemma CycleFails(g: Graph, root: TableId, t: TableId)
    requires ValidGraph(g) && root in g && Reaches(g, root, t) && OnCycle(g, t)
    ensures Sort(g, root) == Err(CircularDependency)
  {
    if Sort(g, root).Ok? {
      OrderHasNoCycle(g, root, Sort(g, root).value, t);
    }
  }

  /** A run that ends reaches the root's list of sources: if the root names
      one Table twice, the assertion fails right away, even with no cycle. */
  lemma ListedTwiceFails(g: Graph, root: TableId)
    requires ValidGraph(g) && root in g && !Distinct(SourceIds(g[root]))
    ensures Sort(g, root) == Err(CircularDependency)
  {
    var ids := SourceIds(g[root]);
    var s := SortState(map[], [root], []);
    assert NotDone(map[], ids) == ids by {
      NotDoneKeeps(map[], ids);
    }
    assert ids[0] in ids;
    UnfoldExpand(g, s);
  }

  /** Filtering out Done Tables keeps a list none of whose Tables is Done. */
  lemma {:induction false} NotDoneKeeps(state: States, ds: seq<TableId>)
    requires forall d :: d in ds ==> MarkOf(state, d) != Done
    ensures NotDone(state, ds) == ds
  {
    if ds != [] {
      NotDoneKeeps(state, ds[1..]);
    }
  }

  /** The marks while the sources of the root are appended: the first k are
      Done, the others Pending, every other Table untouched. */
  ghost predicate LeafMarks(state: States, ids: seq<TableId>, k: nat)
    requires k <= |ids|
  {
    forall x :: MarkOf(state, x) == if x in ids[..k] then Done else if x in ids[k..] then Pending else Unvisited
  }

  /** The requirements shared by the lemmas below: the root's sources are
      distinct Tables without sources, the root not among them. */
  ghost predicate LeafRoot(g: Graph, root: TableId)
  {
    ValidGraph(g) && root in g &&
    Distinct(SourceIds(g[root])) && root !in SourceIds(g[root]) &&
    forall d :: d in SourceIds(g[root]) ==> g[d].sourceTables == []
  }

  /** The loop variables once the first k sources are appended. */
  ghost predicate LeafState(g: Graph, root: TableId, k: nat, s: SortState)
    requires LeafRoot(g, root)
  {
    var ids := SourceIds(g[root]);
    k <= |ids| &&
    s.todo == [root] + Reversed(ids[k..]) &&
    s.result == ids[..k] &&
    LeafMarks(s.state, ids, k)
  }

  /** Every entry of todo is a Table. */
  lemma LeafTodo(g: Graph, root: TableId, k: nat, s: SortState)
    requires LeafRoot(g, root) && LeafState(g, root, k, s)
    ensures forall t :: t in s.todo ==> t in g
  {
    var ids := SourceIds(g[root]);
    ReversedSame(ids[k..]);
    assert forall t :: t in ids[k..] ==> t in ids;
  }

  /** One iteration pops the k-th source, which has nothing to wait for, and appends it. */
  lemma LeafStep(g: Graph, root: TableId, k: nat, s: SortState) returns (next: SortState)
    requires LeafRoot(g, root) && LeafState(g, root, k, s) && k < |SourceIds(g[root])|
    ensures forall t :: t in s.todo ==> t in g
    ensures LeafState(g, root, k + 1, next)
    ensures forall t :: t in next.todo ==> t in g
    ensures SortFrom(g, s) == SortFrom(g, next)
  {
    LeafTodo(g, root, k, s);
    var ids := SourceIds(g[root]);
    var d := ids[k];
    var rest := [root] + Reversed(ids[k + 1..]);
    assert s.todo == rest + [d] by {
      assert ids[k..] == [d] + ids[k + 1..];
      assert ids[k..][1..] == ids[k + 1..];
    }
    assert d in g && g[d].sourceTables == [] by {
      assert d in ids;
    }
    next := SortState(s.state[d := Done], rest, ids[..k + 1]);
    assert SortFrom(g, s) == SortFrom(g, next) by {
      assert NotDone(s.state, SourceIds(g[d])) == [];
      assert s.todo[..|s.todo| - 1] == rest;
      assert ids[..k + 1] == ids[..k] + [d];
      UnfoldAppend(g, s);
    }
    LeafMarksStep(s.state, ids, k);
    LeafTodo(g, root, k + 1, next);
  }

  /** Nothing is left of a list whose entries are all Done. */
  lemma {:induction false} NotDoneAllDone(state: States, ds: seq<TableId>)
    requires forall d :: d in ds ==> MarkOf(state, d) == Done
    ensures NotDone(state, ds) == []
  {
    if ds != [] {
      assert forall d :: d in ds[1..] ==> d in ds;
      NotDoneAllDone(state, ds[1..]);
    }
  }

  /** The last iteration pops the root, all of whose sources are Done. */
  lemma LeafLast(g: Graph, root: TableId, s: SortState)
    requires LeafRoot(g, root) && LeafState(g, root, |SourceIds(g[root])|, s)
    ensures forall t :: t in s.todo ==> t in g
    ensures SortFrom(g, s) == Ok(SourceIds(g[root]) + [root])
  {
    var ids := SourceIds(g[root]);
    assert ids[|ids|..] == [] && ids[..|ids|] == ids;
    assert s.todo == [root];
    NotDoneAllDone(s.state, ids);
    UnfoldAppend(g, s);
  }

  /** The loop appending the leaf sources of the root, one per iteration,
      from the top of todo, which is the first source not yet appended. */
  lemma {:induction false} LeavesLoop(g: Graph, root: TableId, k: nat, s: SortState)
    requires LeafRoot(g, root) && LeafState(g, root, k, s)
    ensures forall t :: t in s.todo ==> t in g
    ensures SortFrom(g, s) == Ok(SourceIds(g[root]) + [root])
    decreases |SourceIds(g[root])| - k
  {
    if k < |SourceIds(g[root])| {
      var next := LeafStep(g, root, k, s);
      LeavesLoop(g, root, k + 1, next);
    } else {
      LeafLast(g, root, s);
    }
  }

  /** A root whose sources are distinct Tables without sources of their own
      comes out as its sources in the order of source_tables, then itself. */
  lemma SortLeavesInSourceOrder(g: Graph, root: TableId)
    requires ValidGraph(g) && root in g
    requires Distinct(SourceIds(g[root])) && root !in SourceIds(g[root])
    requires forall d :: d in SourceIds(g[root]) ==> g[d].sourceTables == []
    ensures Sort(g, root) == Ok(SourceIds(g[root]) + [root])
  {
    var ids := SourceIds(g[root]);
    var s0 := SortState(map[], [root], []);
    if ids == [] {
      assert s0.todo == [root] + Reversed(ids[0..]);
      LeavesLoop(g, root, 0, s0);
    } else {
      assert NotDone(map[], ids) == ids by {
        NotDoneKeeps(map[], ids);
      }
      UnfoldExpand(g, s0);
      var s1 := SortState(MarkPending(map[], ids).value, [root] + Reversed(ids), []);
      assert [root][..0] + [root] + Reversed(ids) == s1.todo;
      assert LeafMarks(s1.state, ids, 0);
      assert ids[0..] == ids;
      LeavesLoop(g, root, 0, s1);
    }
  }

  /** Appending the k-th source marks it Done and moves the boundary by one. */
  lemma LeafMarksStep(state: States, ids: seq<TableId>, k: nat)
    requires Distinct(ids) && k < |ids| && LeafMarks(state, ids, k)
    ensures LeafMarks(state[ids[k] := Done], ids, k + 1)
  {
    var d := ids[k];
    assert d !in ids[..k] && d !in ids[k + 1..] by {
      assert forall j :: 0 <= j < |ids| && j != k ==> ids[j] != d;
    }
    assert ids[..k + 1] == ids[..k] + [d];
    assert ids[k..] == [d] + ids[k + 1..];
    var state' := state[d := Done];
    forall x ensures MarkOf(state', x) ==
                     if x in ids[..k + 1] then Done else if x in ids[k + 1..] then Pending else Unvisited {
      MarkOfUpdate(state, d, Done, x);
    }
  }
}

/** sort_dependencies: a depth-first topological sort with an explicit stack
    (`todo`), a visitation state per Table and the output list `result`.

    Sort/SortFrom give the meaning of one run iteration by iteration, as pure
    functions; SortDependencies is the loop itself and is proved to compute
    exactly Sort. What a successful run returns is proved about Sort. */
module TopoSort {
  import opened Errors
  import opened Tables

  /** The value of state[t]: 0 (the DefaultDict's default), Pending = 1, Done = 2. */
  datatype Mark = Unvisited | Pending | Done

  type States = map<TableId, Mark>

  /** state[t] on a DefaultDict(lambda: 0). */
  function MarkOf(state: States, t: TableId): Mark
  {
    if t in state then state[t] else Unvisited
  }

  lemma MarkOfUpdate(state: States, t: TableId, m: Mark, x: TableId)
    ensures MarkOf(state[t := m], x) == if x == t then m else MarkOf(state, x)
  {
  }

  /** r is ds with some entries left out, the rest in their order. */
  predicate IsSubsequence(r: seq<TableId>, ds: seq<TableId>)
    decreases |ds|
  {
    if r == [] then true
    else if ds == [] then false
    else if r[0] == ds[0] then IsSubsequence(r[1..], ds[1..])
    else IsSubsequence(r, ds[1..])
  }

  /** [d for d in ds if state[d] != Done], order and repetitions kept. */
  function NotDone(state: States, ds: seq<TableId>): (r: seq<TableId>)
    ensures forall d :: d in r <==> d in ds && MarkOf(state, d) != Done
  {
    if ds == [] then []
    else (if MarkOf(state, ds[0]) != Done then [ds[0]] else []) + NotDone(state, ds[1..])
  }

  /** The filter keeps each Table that is not Done as often as ds lists it,
      and drops every copy of a Done one. */
  lemma {:induction false} NotDoneCounts(state: States, ds: seq<TableId>)
    ensures forall d :: multiset(NotDone(state, ds))[d] == if MarkOf(state, d) != Done then multiset(ds)[d] else 0
    decreases |ds|
  {
    if ds != [] {
      NotDoneCounts(state, ds[1..]);
      assert ds == [ds[0]] + ds[1..];
    }
  }

  /** The filter keeps the order of ds. */
  lemma {:induction false} NotDoneOrder(state: States, ds: seq<TableId>)
    ensures IsSubsequence(NotDone(state, ds), ds)
    decreases |ds|
  {
    if ds != [] {
      var rest := NotDone(state, ds[1..]);
      NotDoneOrder(state, ds[1..]);
      if MarkOf(state, ds[0]) != Done {
        assert NotDone(state, ds) == [ds[0]] + rest;
        assert ([ds[0]] + rest)[1..] == rest;
      } else {
        assert NotDone(state, ds) == rest;
        if rest != [] {
          assert rest[0] in rest;
        }
      }
    }
  }

  /** The inner `for d in deps` loop: each d must not be Pending yet (the
      assertion) and becomes Pending. Given deps that are not Done, it succeeds
      exactly when they are all unvisited and no Table is listed twice. */
  function MarkPending(state: States, ds: seq<TableId>): (r: Result<States>)
    requires forall d :: d in ds ==> MarkOf(state, d) != Done
    ensures r.Err? ==> r.error == CircularDependency
    ensures r.Ok? <==> Distinct(ds) && forall d :: d in ds ==> MarkOf(state, d) == Unvisited
    ensures r.Ok? ==> forall t :: MarkOf(r.value, t) == if t in ds then Pending else MarkOf(state, t)
    decreases |ds|
  {
    if ds == [] then Ok(state)
    else if MarkOf(state, ds[0]) == Pending then Err(CircularDependency)
    else
      assert forall d :: d in ds <==> d == ds[0] || d in ds[1..];
      assert forall d :: d in ds[1..] ==> MarkOf(state[ds[0] := Pending], d) != Done by {
        forall d | d in ds[1..] ensures MarkOf(state[ds[0] := Pending], d) != Done {
          MarkOfUpdate(state, ds[0], Pending, d);
        }
      }
      DistinctCons(ds);
      MarkPending(state[ds[0] := Pending], ds[1..])
  }

  lemma DistinctCons(ds: seq<TableId>)
    requires ds != []
    ensures Distinct(ds) <==> Distinct(ds[1..]) && ds[0] !in ds[1..]
  {
    if Distinct(ds) {
      forall i, j | 0 <= i < j < |ds[1..]| ensures ds[1..][i] != ds[1..][j] {
        assert ds[1..][i] == ds[i + 1] && ds[1..][j] == ds[j + 1];
      }
    }
    if Distinct(ds[1..]) && ds[0] !in ds[1..] {
      forall i, j | 0 <= i < j < |ds| ensures ds[i] != ds[j] {
        if i == 0 {
          assert ds[j] == ds[1..][j - 1];
        } else {
          assert ds[i] == ds[1..][i - 1] && ds[j] == ds[1..][j - 1];
        }
      }
    }
  }

  /** todo += reversed(deps). */
  function Reversed(s: seq<TableId>): (r: seq<TableId>)
    ensures |r| == |s|
    ensures forall i :: 0 <= i < |s| ==> r[i] == s[|s| - 1 - i]
  {
    if s == [] then [] else Reversed(s[1..]) + [s[0]]
  }

  function Rank(m: Mark): nat
  {
    match m
    case Unvisited => 2
    case Pending => 1
    case Done => 0
  }

  ghost function Unvisiteds(g: Graph, state: States): set<TableId>
  {
    set t | t in g && MarkOf(state, t) == Unvisited
  }

  ghost function Pendings(g: Graph, state: States): set<TableId>
  {
    set t | t in g && MarkOf(state, t) == Pending
  }

  /** The termination measure: 2 * #(state 0) + #(Pending) over all Tables. */
  ghost function Weight(g: Graph, state: States): nat
  {
    2 * |Unvisiteds(g, state)| + |Pendings(g, state)|
  }

  lemma CardOut(s: set<TableId>, t: TableId)
    ensures |s| == |s - {t}| + (if t in s then 1 else 0)
  {
    if t in s {
      assert s == (s - {t}) + {t};
    } else {
      assert s == s - {t};
    }
  }

  /** Two sets that differ at most in t differ in size by t's membership only. */
  lemma CardSwap(a: set<TableId>, b: set<TableId>, t: TableId)
    requires a - {t} == b - {t}
    ensures |a| + (if t in b then 1 else 0) == |b| + (if t in a then 1 else 0)
  {
    CardOut(a, t);
    CardOut(b, t);
  }

  /** Changing the mark of one Table changes the measure by the difference of ranks. */
  lemma WeightMark(g: Graph, state: States, t: TableId, m: Mark)
    requires t in g
    ensures Weight(g, state[t := m]) + Rank(MarkOf(state, t)) == Weight(g, state) + Rank(m)
  {
    var s' := state[t := m];
    assert forall x :: x != t ==> MarkOf(s', x) == MarkOf(state, x) by {
      forall x | x != t ensures MarkOf(s', x) == MarkOf(state, x) {
        MarkOfUpdate(state, t, m, x);
      }
    }
    assert MarkOf(s', t) == m by {
      MarkOfUpdate(state, t, m, t);
    }
    var u, u' := Unvisiteds(g, state), Unvisiteds(g, s');
    var p, p' := Pendings(g, state), Pendings(g, s');
    assert u - {t} == u' - {t};
    assert p - {t} == p' - {t};
    CardSwap(u, u', t);
    CardSwap(p, p', t);
  }

  /** Marking unvisited Tables Pending lowers the measure by one each. */
  lemma {:induction false} MarkPendingWeight(g: Graph, state: States, ds: seq<TableId>)
    requires forall d :: d in ds ==> d in g && MarkOf(state, d) != Done
    requires MarkPending(state, ds).Ok?
    ensures Weight(g, MarkPending(state, ds).value) + |ds| == Weight(g, state)
    decreases |ds|
  {
    if ds != [] {
      WeightMark(g, state, ds[0], Pending);
      MarkPendingWeight(g, state[ds[0] := Pending], ds[1..]);
    }
  }

  /** The variables of sort_dependencies between two iterations. */
  datatype SortState = SortState(state: States, todo: seq<TableId>, result: seq<TableId>)

  /** The run of the `while todo` loop from state s: Ok(result) when the loop
      ends, Err(CircularDependency) when the assertion fails. */
  function SortFrom(g: Graph, s: SortState): (r: Result<seq<TableId>>)
    requires ValidGraph(g)
    requires forall t :: t in s.todo ==> t in g
    ensures r.Err? ==> r.error == CircularDependency
    decreases Weight(g, s.state), |s.todo|
  {
    if s.todo == [] then Ok(s.result)
    else
      var t := s.todo[|s.todo| - 1];
      var rest := s.todo[..|s.todo| - 1];
      var deps := NotDone(s.state, SourceIds(g[t]));
      if deps == [] then
        WeightMark(g, s.state, t, Done);
        SortFrom(g, SortState(s.state[t := Done], rest, s.result + [t]))
      else
        match MarkPending(s.state, deps)
        case Err(e) => Err(e)
        case Ok(state') =>
          MarkPendingWeight(g, s.state, deps);
          SortFrom(g, SortState(state', rest + [t] + Reversed(deps), s.result))
  }

  /** sort_dependencies(root), run from its initial variables. When it
      returns, its result is a dependency order; the only way it fails is the
      assertion. */
  function Sort(g: Graph, root: TableId): (r: Result<seq<TableId>>)
    requires ValidGraph(g) && root in g
    ensures r.Err? ==> r.error == CircularDependency
    ensures r.Ok? ==> IsDependencyOrder(g, root, r.value)
  {
    InitInv(g, root);
    SortFromCorrect(g, root, SortState(map[], [root], []));
    SortFrom(g, SortState(map[], [root], []))
  }

  /** Every source of a listed Table is listed before it. */
  ghost predicate DepsBefore(g: Graph, r: seq<TableId>)
  {
    (forall i :: 0 <= i < |r| ==> r[i] in g) &&
    forall i, d :: 0 <= i < |r| && d in SourceIds(g[r[i]]) ==> d in r[..i]
  }

  /** What sort_dependencies promises: each Table reachable from root exactly
      once, every Table after its sources, root last. */
  ghost predicate IsDependencyOrder(g: Graph, root: TableId, r: seq<TableId>)
  {
    |r| > 0 && r[|r| - 1] == root &&
    Distinct(r) &&
    DepsBefore(g, r) &&
    forall t :: t in r <==> Reaches(g, root, t)
  }

  /** The `for d in deps` loop of sort_dependencies: asserts that d is not
      Pending yet, then marks it Pending. */
  method MarkEach(state: States, deps: seq<TableId>) returns (r: Result<States>)
    requires forall d :: d in deps ==> MarkOf(state, d) != Done
    ensures r == MarkPending(state, deps)
  {
    var marks: States := state;
    for j := 0 to |deps|
      invariant forall d :: d in deps ==> MarkOf(marks, d) != Done
      invariant MarkPending(state, deps) == MarkPending(marks, deps[j..])
    {
      assert deps[j..] == [deps[j]] + deps[j + 1..];
      if MarkOf(marks, deps[j]) == Pending {
        return Err(CircularDependency);
      }
      forall d | d in deps ensures MarkOf(marks[deps[j] := Pending], d) != Done {
        MarkOfUpdate(marks, deps[j], Pending, d);
      }
      marks := marks[deps[j] := Pending];
    }
    assert deps[|deps|..] == [];
    return Ok(marks);
  }

  /** One iteration that finds no pending source appends the popped Table. */
  lemma UnfoldAppend(g: Graph, s: SortState)
    requires ValidGraph(g) && (forall t :: t in s.todo ==> t in g) && s.todo != []
    requires NotDone(s.state, SourceIds(g[s.todo[|s.todo| - 1]])) == []
    ensures var k := |s.todo| - 1; var t := s.todo[k];
            SortFrom(g, s) == SortFrom(g, SortState(s.state[t := Done], s.todo[..k], s.result + [t]))
  {
  }

  /** One iteration that finds pending sources marks them or fails. */
  lemma UnfoldExpand(g: Graph, s: SortState)
    requires ValidGraph(g) && (forall t :: t in s.todo ==> t in g) && s.todo != []
    requires NotDone(s.state, SourceIds(g[s.todo[|s.todo| - 1]])) != []
    ensures var k := |s.todo| - 1; var t := s.todo[k];
            var deps := NotDone(s.state, SourceIds(g[t]));
            SortFrom(g, s) ==
              match MarkPending(s.state, deps)
              case Err(e) => Err(e)
              case Ok(state') => SortFrom(g, SortState(state', s.todo[..k] + [t] + Reversed(deps), s.result))
  {
  }

  /** One iteration leads from s to s': the run continues the same way, all
      of todo is in the graph, and the termination measure goes down. */
  ghost predicate StepTo(g: Graph, s: SortState, s': SortState)
  {
    ValidGraph(g) && (forall t :: t in s.todo ==> t in g) && (forall t :: t in s'.todo ==> t in g) &&
    SortFrom(g, s) == SortFrom(g, s') &&
    (Weight(g, s'.state) < Weight(g, s.state) ||
     (Weight(g, s'.state) == Weight(g, s.state) && |s'.todo| < |s.todo|))
  }

  lemma StepAppend(g: Graph, s: SortState)
    requires ValidGraph(g) && (forall t :: t in s.todo ==> t in g) && s.todo != []
    requires NotDone(s.state, SourceIds(g[s.todo[|s.todo| - 1]])) == []
    ensures var k := |s.todo| - 1; var t := s.todo[k];
            StepTo(g, s, SortState(s.state[t := Done], s.todo[..k], s.result + [t]))
  {
    var k := |s.todo| - 1;
    var t := s.todo[k];
    UnfoldAppend(g, s);
    WeightMark(g, s.state, t, Done);
  }

  lemma StepExpand(g: Graph, s: SortState)
    requires ValidGraph(g) && (forall t :: t in s.todo ==> t in g) && s.todo != []
    requires NotDone(s.state, SourceIds(g[s.todo[|s.todo| - 1]])) != []
    requires MarkPending(s.state, NotDone(s.state, SourceIds(g[s.todo[|s.todo| - 1]]))).Ok?
    ensures var k := |s.todo| - 1; var t := s.todo[k];
            var deps := NotDone(s.state, SourceIds(g[t]));
            StepTo(g, s, SortState(MarkPending(s.state, deps).value, s.todo[..k] + [t] + Reversed(deps), s.result))
  {
    var k := |s.todo| - 1;
    var t := s.todo[k];
    var deps := NotDone(s.state, SourceIds(g[t]));
    var s' := SortState(MarkPending(s.state, deps).value, s.todo[..k] + [t] + Reversed(deps), s.result);
    assert forall x :: x in s'.todo ==> x in g by {
      ReversedSame(deps);
    }
    assert SortFrom(g, s) == SortFrom(g, s') by {
      UnfoldExpand(g, s);
    }
    assert Weight(g, s'.state) < Weight(g, s.state) by {
      MarkPendingWeight(g, s.state, deps);
    }
  }

  method SortDependencies(g: Graph, root: TableId) returns (r: Result<seq<TableId>>)
    requires ValidGraph(g) && root in g
    ensures r == Sort(g, root)
    ensures r.Err? ==> r.error == CircularDependency
    ensures r.Ok? ==> IsDependencyOrder(g, root, r.value)
  {
    var state: States := map[];
    var todo: seq<TableId> := [root];
    var result: seq<TableId> := [];
    while todo != []
      invariant forall t :: t in todo ==> t in g
      invariant SortFrom(g, SortState(state, todo, result)) == Sort(g, root)
      decreases Weight(g, state), |todo|
    {
      ghost var s := SortState(state, todo, result);
      var t := todo[|todo| - 1];
      todo := todo[..|todo| - 1];
      var deps := NotDone(state, SourceIds(g[t]));
      if deps == [] {
        result := result + [t];
        state := state[t := Done];
        assert StepTo(g, s, SortState(state, todo, result)) by {
          StepAppend(g, s);
        }
        continue;
      }
      todo := todo + [t];
      var marked := MarkEach(state, deps);
      if marked.Err? {
        assert Sort(g, root) == Err(CircularDependency) by {
          UnfoldExpand(g, s);
        }
        return Err(CircularDependency);
      }
      state := marked.value;
      todo := todo + Reversed(deps);
      assert StepTo(g, s, SortState(state, todo, result)) by {
        StepExpand(g, s);
      }
    }
    r := Ok(result);
  }

  /** Entries of todo and result are Tables reachable from root. */
  ghost predicate AllReachable(g: Graph, root: TableId, todo: seq<TableId>, result: seq<TableId>)
  {
    (forall t :: t in todo ==> t in g && Reaches(g, root, t)) &&
    (forall t :: t in result ==> Reaches(g, root, t))
  }

  /** root sits at the bottom of todo, and is the last Table appended once todo is empty. */
  ghost predicate RootEnds(root: TableId, todo: seq<TableId>, result: seq<TableId>)
  {
    (todo != [] ==> todo[0] == root) &&
    (todo == [] ==> |result| > 0 && result[|result| - 1] == root)
  }

  /** Done means appended; nothing in todo is Done; all of todo above the bottom is Pending. */
  ghost predicate MarksAgree(state: States, todo: seq<TableId>, result: seq<TableId>)
  {
    (forall t :: MarkOf(state, t) == Done <==> t in result) &&
    (forall i :: 0 <= i < |todo| ==> MarkOf(state, todo[i]) != Done) &&
    (forall i :: 0 < i < |todo| ==> MarkOf(state, todo[i]) == Pending)
  }

  /** Only the bottom entry of todo may occur twice, and every other entry
      was pushed as a source of an entry below it, at index parent[k]. */
  ghost predicate StackShape(g: Graph, todo: seq<TableId>, parent: seq<nat>)
  {
    (forall t :: t in todo ==> t in g) &&
    (forall i, j :: 0 <= i < j < |todo| && todo[i] == todo[j] ==> i == 0) &&
    |parent| == |todo| &&
    (forall k {:trigger parent[k]} :: 0 < k < |todo| ==> parent[k] < k && todo[k] in SourceIds(g[todo[parent[k]]]))
  }

  ghost predicate HasShape(g: Graph, todo: seq<TableId>)
  {
    exists parent :: StackShape(g, todo, parent)
  }

  /** The loop's invariant: what holds of the variables between iterations of
      every run that started from root. */
  ghost predicate SortInv(g: Graph, root: TableId, s: SortState)
  {
    root in g &&
    AllReachable(g, root, s.todo, s.result) &&
    RootEnds(root, s.todo, s.result) &&
    MarksAgree(s.state, s.todo, s.result) &&
    HasShape(g, s.todo) &&
    Distinct(s.result) &&
    DepsBefore(g, s.result)
  }

  /** Following the entries of todo down to the bottom, some entry above the
      bottom is a source of the bottom entry. */
  lemma {:induction false} ChainToBottom(g: Graph, todo: seq<TableId>, parent: seq<nat>, k: nat)
    requires StackShape(g, todo, parent)
    requires 0 < k < |todo|
    ensures exists m :: 0 < m <= k && todo[m] in SourceIds(g[todo[0]])
    decreases k
  {
    var j := parent[k];
    if j > 0 {
      ChainToBottom(g, todo, parent, j);
    }
  }

  lemma InitInv(g: Graph, root: TableId)
    requires ValidGraph(g) && root in g
    ensures SortInv(g, root, SortState(map[], [root], []))
  {
    ReachesSelf(g, root);
    assert StackShape(g, [root], [0]);
  }

  /** A Table whose sources are all Done does not occur below the top of todo:
      a second copy could only be the bottom one, and the bottom Table has a
      source pushed above it that is not Done yet. */
  lemma TopIsAlone(g: Graph, state: States, todo: seq<TableId>, parent: seq<nat>, result: seq<TableId>)
    requires StackShape(g, todo, parent) && MarksAgree(state, todo, result) && todo != []
    requires forall d :: d in SourceIds(g[todo[|todo| - 1]]) ==> MarkOf(state, d) == Done
    ensures todo[|todo| - 1] !in todo[..|todo| - 1]
  {
    var k := |todo| - 1;
    if todo[k] in todo[..k] {
      var i :| 0 <= i < k && todo[..k][i] == todo[k];
      assert todo[i] == todo[k];
      ChainToBottom(g, todo, parent, k);
    }
  }

  /** Appending a Table whose sources are all listed, and that is not listed yet,
      keeps the list ordered. */
  lemma AppendOrdered(g: Graph, result: seq<TableId>, t: TableId)
    requires Distinct(result) && DepsBefore(g, result)
    requires t in g && t !in result
    requires forall d :: d in SourceIds(g[t]) ==> d in result
    ensures Distinct(result + [t]) && DepsBefore(g, result + [t])
  {
    var r := result + [t];
    forall i, d | 0 <= i < |r| && d in SourceIds(g[r[i]])
      ensures d in r[..i]
    {
      if i < |result| {
        assert r[..i] == result[..i];
      } else {
        assert r[..i] == result;
      }
    }
  }

  lemma PopMarks(state: States, todo: seq<TableId>, result: seq<TableId>)
    requires MarksAgree(state, todo, result) && todo != []
    requires todo[|todo| - 1] !in todo[..|todo| - 1]
    ensures var k := |todo| - 1; var t := todo[k];
            MarksAgree(state[t := Done], todo[..k], result + [t])
  {
    var k := |todo| - 1;
    var t := todo[k];
    forall x ensures MarkOf(state[t := Done], x) == if x == t then Done else MarkOf(state, x) {
      MarkOfUpdate(state, t, Done, x);
    }
    forall i | 0 <= i < k ensures todo[..k][i] != t {
      assert todo[..k][i] in todo[..k];
    }
  }

  lemma PopShape(g: Graph, todo: seq<TableId>, parent: seq<nat>)
    requires StackShape(g, todo, parent) && todo != []
    ensures StackShape(g, todo[..|todo| - 1], parent[..|todo| - 1])
  {
    var rest, parent' := todo[..|todo| - 1], parent[..|todo| - 1];
    forall k | 0 < k < |rest|
      ensures parent'[k] < k && rest[k] in SourceIds(g[rest[parent'[k]]])
    {
      assert parent'[k] == parent[k];
      assert rest[parent[k]] == todo[parent[k]];
    }
  }

  /** An iteration that appends t keeps the invariant. */
  lemma AppendKeepsOrder(g: Graph, root: TableId, s: SortState)
    requires ValidGraph(g) && SortInv(g, root, s) && s.todo != []
    requires NotDone(s.state, SourceIds(g[s.todo[|s.todo| - 1]])) == []
    ensures var t := s.todo[|s.todo| - 1];
            Distinct(s.result + [t]) && DepsBefore(g, s.result + [t])
  {
    var t := s.todo[|s.todo| - 1];
    assert forall d :: d in SourceIds(g[t]) ==> MarkOf(s.state, d) == Done;
    assert MarkOf(s.state, t) != Done;
    AppendOrdered(g, s.result, t);
  }

  lemma AppendKeepsMarks(g: Graph, root: TableId, s: SortState)
    requires ValidGraph(g) && SortInv(g, root, s) && s.todo != []
    requires NotDone(s.state, SourceIds(g[s.todo[|s.todo| - 1]])) == []
    ensures var k := |s.todo| - 1; var t := s.todo[k];
            MarksAgree(s.state[t := Done], s.todo[..k], s.result + [t])
  {
    var k := |s.todo| - 1;
    var t := s.todo[k];
    var parent :| StackShape(g, s.todo, parent);
    assert forall d :: d in SourceIds(g[t]) ==> MarkOf(s.state, d) == Done;
    TopIsAlone(g, s.state, s.todo, parent, s.result);
    PopMarks(s.state, s.todo, s.result);
  }

  lemma AppendKeepsShape(g: Graph, root: TableId, s: SortState)
    requires ValidGraph(g) && SortInv(g, root, s) && s.todo != []
    ensures HasShape(g, s.todo[..|s.todo| - 1])
  {
    var parent :| StackShape(g, s.todo, parent);
    PopShape(g, s.todo, parent);
  }

  /** An iteration that appends t keeps the invariant. */
  lemma StepAppendInv(g: Graph, root: TableId, s: SortState)
    requires ValidGraph(g) && SortInv(g, root, s) && s.todo != []
    requires NotDone(s.state, SourceIds(g[s.todo[|s.todo| - 1]])) == []
    ensures var k := |s.todo| - 1; var t := s.todo[k];
            SortInv(g, root, SortState(s.state[t := Done], s.todo[..k], s.result + [t]))
  {
    AppendKeepsOrder(g, root, s);
    AppendKeepsMarks(g, root, s);
    AppendKeepsShape(g, root, s);
  }

  /** Reversed(deps) holds the same Tables as deps, each once if deps has them once. */
  lemma ReversedSame(ds: seq<TableId>)
    ensures forall d :: d in Reversed(ds) <==> d in ds
    ensures Distinct(ds) ==> Distinct(Reversed(ds))
  {
    var rev := Reversed(ds);
    forall d | d in ds ensures d in rev {
      var i :| 0 <= i < |ds| && ds[i] == d;
      assert rev[|ds| - 1 - i] == d;
    }
    if Distinct(ds) {
      forall i, j | 0 <= i < j < |rev| ensures rev[i] != rev[j] {
        assert rev[i] == ds[|ds| - 1 - i] && rev[j] == ds[|ds| - 1 - j];
      }
    }
  }

  lemma PushMarks(state: States, state': States, todo: seq<TableId>, result: seq<TableId>, ds: seq<TableId>)
    requires MarksAgree(state, todo, result) && todo != []
    requires forall d :: d in ds ==> MarkOf(state, d) == Unvisited
    requires forall x :: MarkOf(state', x) == if x in ds then Pending else MarkOf(state, x)
    ensures MarksAgree(state', todo + Reversed(ds), result)
  {
    ReversedSame(ds);
    var todo' := todo + Reversed(ds);
    forall i | 0 <= i < |todo'|
      ensures MarkOf(state', todo'[i]) != Done
      ensures i > 0 ==> MarkOf(state', todo'[i]) == Pending
    {
      if i >= |todo| {
        assert todo'[i] in Reversed(ds);
      } else {
        assert todo'[i] == todo[i];
      }
    }
  }

  lemma PushUnique(state: States, todo: seq<TableId>, ds: seq<TableId>)
    requires forall i :: 0 < i < |todo| ==> MarkOf(state, todo[i]) == Pending
    requires forall i, j :: 0 <= i < j < |todo| && todo[i] == todo[j] ==> i == 0
    requires Distinct(ds)
    requires forall d :: d in ds ==> MarkOf(state, d) == Unvisited
    ensures var todo' := todo + Reversed(ds);
            forall i, j :: 0 <= i < j < |todo'| && todo'[i] == todo'[j] ==> i == 0
  {
    ReversedSame(ds);
    var rev := Reversed(ds);
    var todo' := todo + rev;
    var n := |todo|;
    forall i, j | 0 <= i < j < |todo'| && todo'[i] == todo'[j]
      ensures i == 0
    {
      if j < n {
        assert todo'[i] == todo[i] && todo'[j] == todo[j];
      } else if i < n {
        assert todo'[j] == rev[j - n];
        assert todo'[i] == todo[i];
      }
    }
  }

  lemma PushParents(g: Graph, todo: seq<TableId>, parent: seq<nat>, ds: seq<TableId>)
    requires |parent| == |todo| && todo != []
    requires forall t :: t in todo ==> t in g
    requires forall d :: d in ds ==> d in g
    requires forall k {:trigger parent[k]} :: 0 < k < |todo| ==> parent[k] < k && todo[k] in SourceIds(g[todo[parent[k]]])
    requires forall d :: d in ds ==> d in SourceIds(g[todo[|todo| - 1]])
    ensures var todo', parent' := todo + Reversed(ds), parent + seq(|ds|, _ => |todo| - 1);
            forall k {:trigger parent'[k]} :: 0 < k < |todo'| ==> parent'[k] < k && todo'[k] in SourceIds(g[todo'[parent'[k]]])
  {
    ReversedSame(ds);
    var rev := Reversed(ds);
    var todo' := todo + rev;
    var parent' := parent + seq(|ds|, _ => |todo| - 1);
    var n := |todo|;
    forall k | 0 < k < |todo'|
      ensures parent'[k] < k && todo'[k] in SourceIds(g[todo'[parent'[k]]])
    {
      if k >= n {
        assert todo'[k] == rev[k - n];
        assert rev[k - n] in rev;
        assert parent'[k] == n - 1;
        assert todo'[n - 1] == todo[n - 1];
      } else {
        assert parent'[k] == parent[k];
        assert parent[k] < k && todo[k] in SourceIds(g[todo[parent[k]]]);
        assert todo'[parent[k]] == todo[parent[k]] && todo'[k] == todo[k];
      }
    }
  }

  /** An iteration that pushes t's pending sources keeps the invariant. */
  lemma ExpandKeepsReachable(g: Graph, root: TableId, s: SortState)
    requires ValidGraph(g) && SortInv(g, root, s) && s.todo != []
    ensures var t := s.todo[|s.todo| - 1];
            var deps := NotDone(s.state, SourceIds(g[t]));
            AllReachable(g, root, s.todo + Reversed(deps), s.result)
  {
    var t := s.todo[|s.todo| - 1];
    var deps := NotDone(s.state, SourceIds(g[t]));
    ReversedSame(deps);
    forall d | d in Reversed(deps) ensures Reaches(g, root, d) {
      ReachesStep(g, root, t, d);
    }
  }

  lemma ExpandKeepsMarks(g: Graph, root: TableId, s: SortState)
    requires ValidGraph(g) && SortInv(g, root, s) && s.todo != []
    requires var deps := NotDone(s.state, SourceIds(g[s.todo[|s.todo| - 1]]));
             MarkPending(s.state, deps).Ok?
    ensures var deps := NotDone(s.state, SourceIds(g[s.todo[|s.todo| - 1]]));
            MarksAgree(MarkPending(s.state, deps).value, s.todo + Reversed(deps), s.result)
  {
    var deps := NotDone(s.state, SourceIds(g[s.todo[|s.todo| - 1]]));
    PushMarks(s.state, MarkPending(s.state, deps).value, s.todo, s.result, deps);
  }

  lemma ExpandKeepsShape(g: Graph, root: TableId, s: SortState)
    requires ValidGraph(g) && SortInv(g, root, s) && s.todo != []
    requires var deps := NotDone(s.state, SourceIds(g[s.todo[|s.todo| - 1]]));
             MarkPending(s.state, deps).Ok?
    ensures var deps := NotDone(s.state, SourceIds(g[s.todo[|s.todo| - 1]]));
            HasShape(g, s.todo + Reversed(deps))
  {
    var k := |s.todo| - 1;
    var deps := NotDone(s.state, SourceIds(g[s.todo[k]]));
    var parent :| StackShape(g, s.todo, parent);
    PushUnique(s.state, s.todo, deps);
    PushParents(g, s.todo, parent, deps);
    ReversedSame(deps);
    assert StackShape(g, s.todo + Reversed(deps), parent + seq(|deps|, _ => k));
  }

  /** An iteration that pushes t's pending sources keeps the invariant. */
  lemma StepExpandInv(g: Graph, root: TableId, s: SortState)
    requires ValidGraph(g) && SortInv(g, root, s) && s.todo != []
    requires var deps := NotDone(s.state, SourceIds(g[s.todo[|s.todo| - 1]]));
             deps != [] && MarkPending(s.state, deps).Ok?
    ensures var k := |s.todo| - 1; var t := s.todo[k];
            var deps := NotDone(s.state, SourceIds(g[t]));
            SortInv(g, root, SortState(MarkPending(s.state, deps).value, s.todo[..k] + [t] + Reversed(deps), s.result))
  {
    var k := |s.todo| - 1;
    assert s.todo[..k] + [s.todo[k]] == s.todo;
    ExpandKeepsReachable(g, root, s);
    ExpandKeepsMarks(g, root, s);
    ExpandKeepsShape(g, root, s);
  }

  /** Every run that returns, from a state satisfying the invariant, returns a
      dependency order. */
  lemma {:induction false} SortFromCorrect(g: Graph, root: TableId, s: SortState)
    requires ValidGraph(g) && SortInv(g, root, s)
    ensures SortFrom(g, s).Ok? ==> IsDependencyOrder(g, root, SortFrom(g, s).value)
    decreases Weight(g, s.state), |s.todo|
  {
    if s.todo == [] {
      FinishedIsOrder(g, root, s);
    } else {
      var k := |s.todo| - 1;
      var t := s.todo[k];
      var deps := NotDone(s.state, SourceIds(g[t]));
      if deps == [] {
        var s' := SortState(s.state[t := Done], s.todo[..k], s.result + [t]);
        StepAppend(g, s);
        StepAppendInv(g, root, s);
        SortFromCorrect(g, root, s');
      } else if MarkPending(s.state, deps).Ok? {
        var s' := SortState(MarkPending(s.state, deps).value, s.todo[..k] + [t] + Reversed(deps), s.result);
        StepExpand(g, s);
        StepExpandInv(g, root, s);
        SortFromCorrect(g, root, s');
      } else {
        UnfoldExpand(g, s);
      }
    }
  }

  /** When todo is empty the result is a dependency order. */
  lemma FinishedIsOrder(g: Graph, root: TableId, s: SortState)
    requires ValidGraph(g) && SortInv(g, root, s) && s.todo == []
    ensures IsDependencyOrder(g, root, s.result)
  {
    var r := s.result;
    forall t | Reaches(g, root, t) ensures t in r {
      var set_r := set x | x in r;
      forall x, d | x in set_r && x in g && d in SourceIds(g[x]) ensures d in set_r {
        var i :| 0 <= i < |r| && r[i] == x;
        assert d in r[..i];
      }
      ClosedHoldsReachable(g, root, set_r, t);
    }
  }
}

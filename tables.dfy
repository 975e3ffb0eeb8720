/** Tables: relation-producing query templates that name other Tables.
    A Table is identified by the object it is, not by what it contains, so the
    model gives every Table an identity (a TableId, standing for id(self)) and
    keeps the contents in a Graph from identities to records. Two identities may
    map to equal records and still be two different Tables. */
module Tables {
  import opened Sql

  /** id(self): the only thing Table equality and hashing look at. */
  type TableId = nat

  /** One entry of source_tables: placeholder name -> Table. */
  datatype Source = Source(name: string, table: TableId)

  /** The record Table(sql, source_tables); source_tables keeps insertion order. */
  datatype Table = Table(sql: Template, sourceTables: seq<Source>)

  /** Every Table in existence, by identity. */
  type Graph = map<TableId, Table>

  /** Table.__eq__: the same object, whatever the contents. */
  predicate SameTable(a: TableId, b: TableId)
  {
    a == b
  }

  /** Table.__hash__: hash(id(self)). */
  function Hash(a: TableId): int
  {
    a
  }

  /** The contract Python asks of __eq__ and __hash__: equality is an
      equivalence, and equal Tables hash alike. */
  lemma EqualityAndHash(a: TableId, b: TableId, c: TableId)
    ensures SameTable(a, a)
    ensures SameTable(a, b) ==> SameTable(b, a)
    ensures SameTable(a, b) && SameTable(b, c) ==> SameTable(a, c)
    ensures SameTable(a, b) ==> Hash(a) == Hash(b)
  {
  }

  /** source_tables.values(), in order. */
  function SourceIds(tb: Table): (ids: seq<TableId>)
    ensures |ids| == |tb.sourceTables|
    ensures forall i :: 0 <= i < |ids| ==> ids[i] == tb.sourceTables[i].table
  {
    seq(|tb.sourceTables|, i requires 0 <= i < |tb.sourceTables| => tb.sourceTables[i].table)
  }

  /** source_tables.keys(). */
  function Names(srcs: seq<Source>): set<string>
  {
    set i | 0 <= i < |srcs| :: srcs[i].name
  }

  /** A dict has each key once. */
  predicate UniqueNames(srcs: seq<Source>)
  {
    forall i, j :: 0 <= i < j < |srcs| ==> srcs[i].name != srcs[j].name
  }

  /** No Table listed twice. */
  predicate Distinct(s: seq<TableId>)
  {
    forall i, j :: 0 <= i < j < |s| ==> s[i] != s[j]
  }

  /** The keyword arguments {name: values[i]} built from source_tables.items(),
      one value per source. */
  function Kwargs(srcs: seq<Source>, values: seq<Composed>): (m: map<string, Composed>)
    requires |srcs| == |values| && UniqueNames(srcs)
    ensures m.Keys == Names(srcs)
    ensures forall i :: 0 <= i < |srcs| ==> m[srcs[i].name] == values[i]
  {
    if srcs == [] then map[]
    else
      assert Names(srcs) == {srcs[0].name} + Names(srcs[1..]) by {
        assert forall i :: 1 <= i < |srcs| ==> srcs[1..][i - 1] == srcs[i];
      }
      assert forall i :: 1 <= i < |srcs| ==> srcs[i].name != srcs[0].name;
      Kwargs(srcs[1..], values[1..])[srcs[0].name := values[0]]
  }

  /** Every placeholder of the template is one of the source names. */
  predicate HolesBound(tb: Table)
  {
    Holes(tb.sql) <= Names(tb.sourceTables)
  }

  /** source_tables.values()[i], which exists when the graph is valid. */
  function SourceAt(g: Graph, t: TableId, i: nat): (d: TableId)
    requires ValidGraph(g) && t in g && i < |g[t].sourceTables|
    ensures d == g[t].sourceTables[i].table && d in SourceIds(g[t]) && d in g
  {
    assert SourceIds(g[t])[i] == g[t].sourceTables[i].table;
    g[t].sourceTables[i].table
  }

  /** Every Table refers only to Tables that exist, by unique names. */
  ghost predicate ValidGraph(g: Graph)
  {
    forall t :: t in g ==> UniqueNames(g[t].sourceTables) && forall d :: d in SourceIds(g[t]) ==> d in g
  }

  /** A rank that strictly decreases along every dependency: the graph is acyclic. */
  ghost predicate Ranked(g: Graph, rank: map<TableId, nat>)
  {
    g.Keys <= rank.Keys &&
    forall t, d :: t in g && d in SourceIds(g[t]) ==> d in rank && rank[d] < rank[t]
  }

  /** A chain of Tables, each a source of the one before it. */
  ghost predicate IsPath(g: Graph, p: seq<TableId>)
  {
    |p| >= 1 &&
    (forall i :: 0 <= i < |p| ==> p[i] in g) &&
    forall i :: 0 <= i < |p| - 1 ==> p[i + 1] in SourceIds(g[p[i]])
  }

  /** b is a, or a depends on b, directly or through other Tables. */
  ghost predicate Reaches(g: Graph, a: TableId, b: TableId)
  {
    exists p :: IsPath(g, p) && p[0] == a && p[|p| - 1] == b
  }

  /** a depends on b, directly or through other Tables: a path of at least
      one dependency leads from a to b. */
  ghost predicate DependsOn(g: Graph, a: TableId, b: TableId)
  {
    exists p :: IsPath(g, p) && |p| >= 2 && p[0] == a && p[|p| - 1] == b
  }

  /** a depends on itself, directly or through other Tables. */
  ghost predicate OnCycle(g: Graph, a: TableId)
  {
    DependsOn(g, a, a)
  }

  /** Reaching extends along one more dependency. */
  lemma ReachesStep(g: Graph, a: TableId, b: TableId, c: TableId)
    requires Reaches(g, a, b) && b in g && c in SourceIds(g[b]) && c in g
    ensures Reaches(g, a, c)
  {
    var p :| IsPath(g, p) && p[0] == a && p[|p| - 1] == b;
    var q := p + [c];
    assert IsPath(g, q);
  }

  /** Every Table reaches itself. */
  lemma ReachesSelf(g: Graph, a: TableId)
    requires a in g
    ensures Reaches(g, a, a)
  {
    assert IsPath(g, [a]);
  }

  /** A set that holds a and every source of its members holds everything a reaches. */
  lemma {:induction false} ClosedHoldsReachable(g: Graph, a: TableId, s: set<TableId>, b: TableId)
    requires a in s
    requires forall t, d :: t in s && t in g && d in SourceIds(g[t]) ==> d in s
    requires Reaches(g, a, b)
    ensures b in s
  {
    var p :| IsPath(g, p) && p[0] == a && p[|p| - 1] == b;
    var i := 0;
    while i < |p| - 1
      invariant 0 <= i < |p|
      invariant p[i] in s
    {
      i := i + 1;
    }
  }

  /** On a ranked graph nothing lies on a cycle. */
  lemma RankedAcyclic(g: Graph, rank: map<TableId, nat>, a: TableId)
    requires Ranked(g, rank)
    ensures !OnCycle(g, a)
  {
    if OnCycle(g, a) {
      var p :| IsPath(g, p) && |p| >= 2 && p[0] == a && p[|p| - 1] == a;
      var i := 1;
      while i < |p| - 1
        invariant 1 <= i <= |p| - 1
        invariant rank[p[i]] < rank[p[0]]
      {
        assert p[i + 1] in SourceIds(g[p[i]]);
        i := i + 1;
      }
    }
  }

  /** What a source reaches, the Table that names it reaches too. */
  lemma ReachesFromSource(g: Graph, t: TableId, s: TableId, u: TableId)
    requires t in g && s in SourceIds(g[t]) && Reaches(g, s, u)
    ensures Reaches(g, t, u)
  {
    var p :| IsPath(g, p) && p[0] == s && p[|p| - 1] == u;
    var q := [t] + p;
    assert forall i :: 1 <= i < |q| ==> q[i] == p[i - 1];
    assert IsPath(g, q);
  }

  /** Anything a Table reaches other than itself, one of its sources reaches. */
  lemma ReachesThroughSource(g: Graph, t: TableId, u: TableId) returns (s: TableId)
    requires Reaches(g, t, u) && u != t
    ensures t in g && s in SourceIds(g[t]) && Reaches(g, s, u)
  {
    var p :| IsPath(g, p) && p[0] == t && p[|p| - 1] == u;
    s := p[1];
    var q := p[1..];
    assert forall i :: 0 <= i < |q| ==> q[i] == p[i + 1];
    assert IsPath(g, q);
  }

  /** Every Table that t reaches, t included, has a value for each of its placeholders. */
  ghost predicate AllHolesBound(g: Graph, t: TableId)
  {
    forall u :: Reaches(g, t, u) ==> u in g && HolesBound(g[u])
  }

  /** AllHolesBound, one level at a time. */
  lemma AllHolesBoundStep(g: Graph, t: TableId)
    requires ValidGraph(g) && t in g
    ensures AllHolesBound(g, t) <==>
            HolesBound(g[t]) && forall s :: s in SourceIds(g[t]) ==> AllHolesBound(g, s)
  {
    if AllHolesBound(g, t) {
      ReachesSelf(g, t);
      forall s, u | s in SourceIds(g[t]) && Reaches(g, s, u) ensures u in g && HolesBound(g[u]) {
        ReachesFromSource(g, t, s, u);
      }
    }
    if HolesBound(g[t]) && forall s :: s in SourceIds(g[t]) ==> AllHolesBound(g, s) {
      forall u | Reaches(g, t, u) ensures u in g && HolesBound(g[u]) {
        if u != t {
          var s := ReachesThroughSource(g, t, u);
        }
      }
    }
  }
}

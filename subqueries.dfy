/** sql_with_subqueries: every source Table is rendered in full, recursively,
    and put in place of its placeholder as `(<query>) AS <name>`. A Table
    named by several placeholders, or reached along several paths, is
    rendered again for every one of them. */
module Subqueries {
  import opened Errors
  import opened Sql
  import opened Tables

  /** Composed([SQL("("), sub, SQL(") AS "), Identifier(name)]). */
  function Subquery(sub: Composed, name: string): Composed
  {
    [Text("(")] + sub + [Text(") AS "), Ident(name)]
  }

  /** The wrapping loses nothing: the nested query and the alias can be read
      back from the value a placeholder receives. */
  lemma SubqueryInjective(a: Composed, n: string, b: Composed, m: string)
    requires Subquery(a, n) == Subquery(b, m)
    ensures a == b && n == m
  {
    var x, y := Subquery(a, n), Subquery(b, m);
    assert |a| == |b|;
    assert x[1..|a| + 1] == a && y[1..|b| + 1] == b;
    assert x[|x| - 1] == Ident(n) && y[|y| - 1] == Ident(m);
  }

  /** The keyword arguments: each source name bound to its rendered subquery. */
  function SubqueryKwargs(srcs: seq<Source>, subs: seq<Composed>): map<string, Composed>
    requires |srcs| == |subs| && UniqueNames(srcs)
  {
    Kwargs(srcs, seq(|srcs|, j requires 0 <= j < |srcs| => Subquery(subs[j], srcs[j].name)))
  }

  /** The query of Table t with all its dependencies inlined. The sources are
      rendered in the order of source_tables, the first failure is raised,
      then the template is formatted. Recursion follows the dependencies; on a
      graph with a cycle the original recursion never ends, so the model asks
      for a rank that decreases along dependencies. */
  function SqlWithSubqueries(g: Graph, ghost rank: map<TableId, nat>, t: TableId): (r: Result<Composed>)
    requires ValidGraph(g) && Ranked(g, rank) && t in g
    ensures r.Err? ==> r.error.MissingPlaceholder?
    decreases rank[t], 1
  {
    match Collect(SourceRenders(g, rank, t))
    case Err(e) => Err(e)
    case Ok(subs) => Format(g[t].sql, SubqueryKwargs(g[t].sourceTables, subs))
  }

  /** The renderings of the sources of t, in the order of source_tables. */
  function SourceRenders(g: Graph, ghost rank: map<TableId, nat>, t: TableId): (rs: seq<Result<Composed>>)
    requires ValidGraph(g) && Ranked(g, rank) && t in g
    ensures |rs| == |g[t].sourceTables|
    decreases rank[t], 0
  {
    seq(|g[t].sourceTables|, j requires 0 <= j < |g[t].sourceTables| => SqlWithSubqueries(g, rank, SourceAt(g, t, j)))
  }

  /** One level: t renders exactly when all its sources render and each of
      its placeholders names a source. */
  lemma SubqueryStep(g: Graph, rank: map<TableId, nat>, t: TableId)
    requires ValidGraph(g) && Ranked(g, rank) && t in g
    ensures SqlWithSubqueries(g, rank, t).Ok? <==>
            (forall s :: s in SourceIds(g[t]) ==> s in g && SqlWithSubqueries(g, rank, s).Ok?) && HolesBound(g[t])
  {
    var rs := SourceRenders(g, rank, t);
    SourcesRender(g, rank, t);
    if Collect(rs).Ok? {
      assert SubqueryKwargs(g[t].sourceTables, Collect(rs).value).Keys == Names(g[t].sourceTables);
    }
  }

  /** Every source renders, position by position, exactly when every source
      Table renders. */
  lemma SourcesRender(g: Graph, rank: map<TableId, nat>, t: TableId)
    requires ValidGraph(g) && Ranked(g, rank) && t in g
    ensures var rs := SourceRenders(g, rank, t);
            (forall j :: 0 <= j < |rs| ==> rs[j].Ok?) <==>
            (forall s :: s in SourceIds(g[t]) ==> s in g && SqlWithSubqueries(g, rank, s).Ok?)
  {
    var rs := SourceRenders(g, rank, t);
    forall s | s in SourceIds(g[t]) ensures s in g && exists j :: 0 <= j < |rs| && rs[j] == SqlWithSubqueries(g, rank, s) {
      var j :| 0 <= j < |SourceIds(g[t])| && SourceIds(g[t])[j] == s;
      assert SourceAt(g, t, j) == s;
      assert rs[j] == SqlWithSubqueries(g, rank, s);
    }
  }

  /** A Table with no sources and no placeholders renders to its own text;
      with a placeholder it fails on the first one. */
  lemma SubqueryLeaf(g: Graph, rank: map<TableId, nat>, t: TableId)
    requires ValidGraph(g) && Ranked(g, rank) && t in g && g[t].sourceTables == []
    ensures Holes(g[t].sql) == {} ==> SqlWithSubqueries(g, rank, t) == Ok(Verbatim(g[t].sql))
    ensures Holes(g[t].sql) != {} ==> SqlWithSubqueries(g, rank, t).Err?
  {
    assert Collect(SourceRenders(g, rank, t)) == Ok([]);
    if Holes(g[t].sql) == {} {
      FormatVerbatim(g[t].sql, map[]);
    }
  }

  /** Rendering succeeds exactly when every Table reachable from t, t
      included, has a value for each of its placeholders. */
  lemma {:induction false} SubqueriesOkIff(g: Graph, rank: map<TableId, nat>, t: TableId)
    requires ValidGraph(g) && Ranked(g, rank) && t in g
    ensures SqlWithSubqueries(g, rank, t).Ok? <==> AllHolesBound(g, t)
    decreases rank[t]
  {
    SubqueryStep(g, rank, t);
    AllHolesBoundStep(g, t);
    forall s | s in SourceIds(g[t])
      ensures s in g && (SqlWithSubqueries(g, rank, s).Ok? <==> AllHolesBound(g, s))
    {
      SubqueriesOkIff(g, rank, s);
    }
  }

  /** Each placeholder of t is replaced by the full rendering of the Table it
      names, in parentheses and aliased by the placeholder's name. */
  lemma SubqueryAt(g: Graph, rank: map<TableId, nat>, t: TableId, pre: Template, j: nat, post: Template)
    requires ValidGraph(g) && Ranked(g, rank) && t in g && j < |g[t].sourceTables|
    requires g[t].sql == pre + [Hole(g[t].sourceTables[j].name)] + post
    requires SqlWithSubqueries(g, rank, t).Ok?
    ensures Collect(SourceRenders(g, rank, t)).Ok?
    ensures var sub := SqlWithSubqueries(g, rank, SourceAt(g, t, j));
            var args := SubqueryKwargs(g[t].sourceTables, Collect(SourceRenders(g, rank, t)).value);
            sub.Ok? && Format(pre, args).Ok? && Format(post, args).Ok? &&
            SqlWithSubqueries(g, rank, t).value ==
              Format(pre, args).value + Subquery(sub.value, g[t].sourceTables[j].name) + Format(post, args).value
  {
    var srcs := g[t].sourceTables;
    var rs := SourceRenders(g, rank, t);
    var subs := Collect(rs).value;
    var args := SubqueryKwargs(srcs, subs);
    FormatAt(pre, srcs[j].name, post, args);
    assert args[srcs[j].name] == Subquery(subs[j], srcs[j].name);
  }

  /** A Table named by two placeholders is rendered in full at both. */
  lemma SharedRenderedTwice(g: Graph, rank: map<TableId, nat>, t: TableId,
                            pre: Template, j: nat, mid: Template, k: nat, post: Template)
    requires ValidGraph(g) && Ranked(g, rank) && t in g
    requires j < |g[t].sourceTables| && k < |g[t].sourceTables|
    requires SourceAt(g, t, j) == SourceAt(g, t, k)
    requires g[t].sql == pre + [Hole(g[t].sourceTables[j].name)] + mid + [Hole(g[t].sourceTables[k].name)] + post
    requires SqlWithSubqueries(g, rank, t).Ok?
    ensures Collect(SourceRenders(g, rank, t)).Ok?
    ensures var sub := SqlWithSubqueries(g, rank, SourceAt(g, t, j));
            var args := SubqueryKwargs(g[t].sourceTables, Collect(SourceRenders(g, rank, t)).value);
            sub.Ok? && Format(pre, args).Ok? && Format(mid, args).Ok? && Format(post, args).Ok? &&
            SqlWithSubqueries(g, rank, t).value ==
              Format(pre, args).value + Subquery(sub.value, g[t].sourceTables[j].name) +
              Format(mid, args).value + Subquery(sub.value, g[t].sourceTables[k].name) +
              Format(post, args).value
  {
    var srcs := g[t].sourceTables;
    var rest := mid + [Hole(srcs[k].name)] + post;
    assert g[t].sql == pre + [Hole(srcs[j].name)] + rest by {
      Regroup(pre, [Hole(srcs[j].name)], mid, [Hole(srcs[k].name)], post);
    }
    SubqueryAt(g, rank, t, pre, j, rest);
    var subs := Collect(SourceRenders(g, rank, t)).value;
    var args := SubqueryKwargs(srcs, subs);
    var sub := SqlWithSubqueries(g, rank, SourceAt(g, t, j)).value;
    var s1, s2 := Subquery(sub, srcs[j].name), Subquery(sub, srcs[k].name);
    assert Format(rest, args).value == Format(mid, args).value + s2 + Format(post, args).value by {
      FormatAt(mid, srcs[k].name, post, args);
      assert args[srcs[k].name] == Subquery(subs[k], srcs[k].name);
    }
    Regroup(Format(pre, args).value, s1, Format(mid, args).value, s2, Format(post, args).value);
  }
}

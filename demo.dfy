/** The module's example: two literal Tables, hund and thou, and combine,
    which joins them; and a few small graphs that show how identity, shared
    sources and repeated entries behave. */
module Demo {
  import opened Errors
  import opened Sql
  import opened Tables
  import opened TopoSort
  import opened SortFacts
  import opened NamedDeps
  import opened Subqueries
  import opened Cte
  import opened DfsSort

  const Hund: TableId := 0
  const Thou: TableId := 1
  const Combine: TableId := 2

  const HundText := "SELECT a, b FROM (VALUES (1, 100), (2, 200)) t(a, b)"
  const ThouText := "SELECT a, b FROM (VALUES (1, 1000)) t(a, b)"

  /** SQL("SELECT h.a, h.b, t.b FROM {h} LEFT JOIN {t} USING (a)"). */
  const CombineSql: Template :=
    [Lit("SELECT h.a, h.b, t.b FROM "), Hole("h"), Lit(" LEFT JOIN "), Hole("t"), Lit(" USING (a)")]

  /** hund, thou and combine = Table(..., {"h": hund, "t": thou}). */
  const Example: Graph := map[
    Hund := Table([Lit(HundText)], []),
    Thou := Table([Lit(ThouText)], []),
    Combine := Table(CombineSql, [Source("h", Hund), Source("t", Thou)])]

  /** Leaves rank 0, combine rank 1. */
  const ExampleRank: map<TableId, nat> := map[Hund := 0, Thou := 0, Combine := 1]

  lemma ExampleValid()
    ensures ValidGraph(Example) && Ranked(Example, ExampleRank)
  {
    assert SourceIds(Example[Combine]) == [Hund, Thou];
  }

  /** sort_dependencies(combine) == [hund, thou, combine]. */
  lemma ExampleOrder()
    ensures ValidGraph(Example)
    ensures Sort(Example, Combine) == Ok([Hund, Thou, Combine])
  {
    ExampleValid();
    var ids := SourceIds(Example[Combine]);
    assert ids == [Hund, Thou];
    assert Distinct(ids) && Combine !in ids;
    assert forall d :: d in ids ==> Example[d].sourceTables == [];
    SortLeavesInSourceOrder(Example, Combine);
    assert ids + [Combine] == [Hund, Thou, Combine];
  }

  /** combine's template with values for h and t. */
  lemma CombineFormat(args: map<string, Composed>)
    requires "h" in args && "t" in args
    ensures Format(CombineSql, args) ==
            Ok([Text("SELECT h.a, h.b, t.b FROM ")] + args["h"] + [Text(" LEFT JOIN ")] + args["t"] + [Text(" USING (a)")])
  {
    var p0, p1, p2, p3, p4 := [CombineSql[0]], [CombineSql[1]], [CombineSql[2]], [CombineSql[3]], [CombineSql[4]];
    assert CombineSql == p0 + p1 + p2 + p3 + p4;
    FormatAppend(p0 + p1 + p2 + p3, p4, args);
    FormatAppend(p0 + p1 + p2, p3, args);
    FormatAppend(p0 + p1, p2, args);
    FormatAppend(p0, p1, args);
    FormatOne(CombineSql[0], args);
    FormatOne(CombineSql[1], args);
    FormatOne(CombineSql[2], args);
    FormatOne(CombineSql[3], args);
    FormatOne(CombineSql[4], args);
  }

  /** Two successes collect into the list of both values. */
  lemma CollectTwo<T>(rs: seq<Result<T>>, a: T, b: T)
    requires |rs| == 2 && rs[0] == Ok(a) && rs[1] == Ok(b)
    ensures Collect(rs) == Ok([a, b])
  {
    assert Collect(rs).value == [a, b];
  }

  /** SQL(text) without placeholders. */
  lemma LiteralText(text: string)
    ensures Holes([Lit(text)]) == {} && Verbatim([Lit(text)]) == [Text(text)]
  {
    assert [Lit(text)][1..] == [];
  }

  /** hund and thou render to their own text. */
  lemma ExampleLeaves()
    ensures ValidGraph(Example) && Ranked(Example, ExampleRank)
    ensures SqlWithSubqueries(Example, ExampleRank, Hund) == Ok([Text(HundText)])
    ensures SqlWithSubqueries(Example, ExampleRank, Thou) == Ok([Text(ThouText)])
  {
    ExampleValid();
    LiteralText(HundText);
    LiteralText(ThouText);
    SubqueryLeaf(Example, ExampleRank, Hund);
    SubqueryLeaf(Example, ExampleRank, Thou);
  }

  /** sql_with_subqueries(combine): each placeholder becomes the parenthesised
      query of its Table, aliased by the placeholder's name. */
  lemma ExampleSubqueries()
    ensures ValidGraph(Example) && Ranked(Example, ExampleRank)
    ensures SqlWithSubqueries(Example, ExampleRank, Combine) == Ok(
      [Text("SELECT h.a, h.b, t.b FROM "),
       Text("("), Text(HundText), Text(") AS "), Ident("h"),
       Text(" LEFT JOIN "),
       Text("("), Text(ThouText), Text(") AS "), Ident("t"),
       Text(" USING (a)")])
  {
    ExampleLeaves();
    var g, rank := Example, ExampleRank;
    var hund, thou := [Text(HundText)], [Text(ThouText)];
    var rs := SourceRenders(g, rank, Combine);
    assert Collect(rs) == Ok([hund, thou]) by {
      assert SourceAt(g, Combine, 0) == Hund && SourceAt(g, Combine, 1) == Thou;
      assert |rs| == 2 && rs[0] == Ok(hund) && rs[1] == Ok(thou);
      CollectTwo(rs, hund, thou);
    }
    var srcs := g[Combine].sourceTables;
    var args := SubqueryKwargs(srcs, [hund, thou]);
    assert SqlWithSubqueries(g, rank, Combine) == Format(CombineSql, args);
    assert "h" in args && "t" in args && args["h"] == Subquery(hund, "h") && args["t"] == Subquery(thou, "t") by {
      assert srcs[0].name == "h" && srcs[1].name == "t";
      assert srcs[0].name in Names(srcs) && srcs[1].name in Names(srcs);
    }
    CombineFormat(args);
    ExampleLayout();
  }

  lemma ExampleLayout()
    ensures [Text("SELECT h.a, h.b, t.b FROM ")] + Subquery([Text(HundText)], "h") + [Text(" LEFT JOIN ")] +
            Subquery([Text(ThouText)], "t") + [Text(" USING (a)")] ==
      [Text("SELECT h.a, h.b, t.b FROM "),
       Text("("), Text(HundText), Text(") AS "), Ident("h"),
       Text(" LEFT JOIN "),
       Text("("), Text(ThouText), Text(") AS "), Ident("t"),
       Text(" USING (a)")]
  {
    assert Subquery([Text(HundText)], "h") == [Text("("), Text(HundText), Text(") AS "), Ident("h")];
    assert Subquery([Text(ThouText)], "t") == [Text("("), Text(ThouText), Text(") AS "), Ident("t")];
  }

  /** The identifiers sql_with_cte(combine, [hund, thou]) gives. */
  const ExampleAlias: map<TableId, Token> := map[Hund := Ident("_cte0"), Thou := Ident("_cte1")]

  /** names = {hund: _cte0, thou: _cte1}, in that order. */
  lemma ExampleNames()
    ensures CteNames([Hund, Thou]) == NameTable([Hund, Thou], ExampleAlias)
    ensures CteAlias(0) == Ident("_cte0") && CteAlias(1) == Ident("_cte1")
  {
    Numerals();
    TwoNames(Hund, Thou);
    assert map[Hund := CteAlias(0), Thou := CteAlias(1)] == ExampleAlias;
  }

  /** The first three identifiers. */
  lemma Numerals()
    ensures CteAlias(0) == Ident("_cte0") && CteAlias(1) == Ident("_cte1") && CteAlias(2) == Ident("_cte2")
  {
    assert Decimal(0) == "0" && Decimal(1) == "1" && Decimal(2) == "2";
    assert "_cte" + "0" == "_cte0" && "_cte" + "1" == "_cte1" && "_cte" + "2" == "_cte2";
  }

  /** A Table without sources renders to its own text against any identifiers. */
  lemma ExampleNamedLeaf(t: TableId, text: string)
    requires t in Example && Example[t] == Table([Lit(text)], [])
    ensures SqlWithNamedDeps(Example, t, ExampleAlias) == Ok([Text(text)])
  {
    LiteralText(text);
    assert Collect(AliasList(ExampleAlias, [])) == Ok([]);
    FormatVerbatim([Lit(text)], Kwargs([], []));
  }

  /** sql_with_named_deps(combine, names). */
  lemma ExampleNamedCombine()
    ensures SqlWithNamedDeps(Example, Combine, ExampleAlias) == Ok(
      [Text("SELECT h.a, h.b, t.b FROM "), Ident("_cte0"), Text(" AS "), Ident("h"),
       Text(" LEFT JOIN "), Ident("_cte1"), Text(" AS "), Ident("t"), Text(" USING (a)")])
  {
    var srcs := Example[Combine].sourceTables;
    assert srcs == [Source("h", Hund), Source("t", Thou)];
    var vh := [Ident("_cte0"), Text(" AS "), Ident("h")];
    var vt := [Ident("_cte1"), Text(" AS "), Ident("t")];
    var rs := AliasList(ExampleAlias, srcs);
    assert Collect(rs) == Ok([vh, vt]) by {
      assert |rs| == 2 && rs[0] == Ok(vh) && rs[1] == Ok(vt);
      CollectTwo(rs, vh, vt);
    }
    var args := Kwargs(srcs, [vh, vt]);
    assert "h" in args && "t" in args && args["h"] == vh && args["t"] == vt by {
      assert srcs[0].name == "h" && srcs[1].name == "t";
      assert srcs[0].name in Names(srcs) && srcs[1].name in Names(srcs);
    }
    assert SqlWithNamedDeps(Example, Combine, ExampleAlias) == Format(CombineSql, args);
    CombineFormat(args);
    NamedLayout(vh, vt);
  }

  lemma NamedLayout(vh: Composed, vt: Composed)
    requires vh == [Ident("_cte0"), Text(" AS "), Ident("h")]
    requires vt == [Ident("_cte1"), Text(" AS "), Ident("t")]
    ensures [Text("SELECT h.a, h.b, t.b FROM ")] + vh + [Text(" LEFT JOIN ")] + vt + [Text(" USING (a)")] ==
      [Text("SELECT h.a, h.b, t.b FROM "), Ident("_cte0"), Text(" AS "), Ident("h"),
       Text(" LEFT JOIN "), Ident("_cte1"), Text(" AS "), Ident("t"), Text(" USING (a)")]
  {
  }

  /** The output of sql_with_cte(combine, [hund, thou]). */
  const ExampleCteOutput: Composed :=
    [Text("WITH "),
     Ident("_cte0"), Text(" AS ("), Text(HundText), Text(")"),
     Text("\n   , "),
     Ident("_cte1"), Text(" AS ("), Text(ThouText), Text(")"),
     Text("\n"),
     Text("SELECT h.a, h.b, t.b FROM "), Ident("_cte0"), Text(" AS "), Ident("h"),
     Text(" LEFT JOIN "), Ident("_cte1"), Text(" AS "), Ident("t"), Text(" USING (a)")]

  /** The query of combine against names. */
  const ExampleCteBody: Composed :=
    [Text("SELECT h.a, h.b, t.b FROM "), Ident("_cte0"), Text(" AS "), Ident("h"),
     Text(" LEFT JOIN "), Ident("_cte1"), Text(" AS "), Ident("t"), Text(" USING (a)")]

  /** sql_with_cte(combine, sort_dependencies(combine)[:-1]): hund and thou
      become `_cte0` and `_cte1`, and combine refers to them by those names. */
  lemma ExampleCte()
    ensures ValidGraph(Example)
    ensures SqlWithCte(Example, Combine, [Hund, Thou]) == Ok(ExampleCteOutput)
  {
    var e0 := CteEntry(Ident("_cte0"), [Text(HundText)]);
    var e1 := CteEntry(Ident("_cte1"), [Text(ThouText)]);
    ExampleCteParts([Hund, Thou]);
    CteLayout(e0, e1);
  }

  /** The entries and the tail of sql_with_cte(combine, [hund, thou]). */
  lemma ExampleCteParts(ds: seq<TableId>)
    requires ds == [Hund, Thou]
    ensures ValidGraph(Example)
    ensures SqlWithCte(Example, Combine, ds) ==
            Ok(WithClause([CteEntry(Ident("_cte0"), [Text(HundText)]), CteEntry(Ident("_cte1"), [Text(ThouText)])]) + ExampleCteBody)
  {
    ExampleValid();
    var names := CteNames(ds);
    var e0 := CteEntry(Ident("_cte0"), [Text(HundText)]);
    var e1 := CteEntry(Ident("_cte1"), [Text(ThouText)]);
    assert names == NameTable([Hund, Thou], ExampleAlias) by {
      ExampleNames();
    }
    var rs := EntryList(Example, names);
    assert Collect(rs) == Ok([e0, e1]) by {
      ExampleNamedLeaf(Hund, HundText);
      ExampleNamedLeaf(Thou, ThouText);
      assert |rs| == 2 && rs[0] == Ok(e0) && rs[1] == Ok(e1);
      CollectTwo(rs, e0, e1);
    }
    assert SqlWithNamedDeps(Example, Combine, names.alias) == Ok(ExampleCteBody) by {
      ExampleNamedCombine();
    }
  }

  lemma CteLayout(e0: Composed, e1: Composed)
    requires e0 == CteEntry(Ident("_cte0"), [Text(HundText)])
    requires e1 == CteEntry(Ident("_cte1"), [Text(ThouText)])
    ensures WithClause([e0, e1]) + ExampleCteBody == ExampleCteOutput
  {
    assert [e0, e1][1..] == [e1];
    assert Join(Separator, [e0, e1]) == e0 + Separator + e1;
  }

  /** Two Tables with the contents of hund, joined by a third. */
  const Twins: Graph := map[
    0 := Table([Lit(HundText)], []),
    1 := Table([Lit(HundText)], []),
    2 := Table(CombineSql, [Source("h", 0), Source("t", 1)])]

  /** Two Tables with equal contents are still two Tables: both are sorted,
      each at its own position. */
  lemma TwinsKept()
    ensures ValidGraph(Twins) && Twins[0] == Twins[1] && !SameTable(0, 1)
    ensures Sort(Twins, 2) == Ok([0, 1, 2])
  {
    var ids := SourceIds(Twins[2]);
    assert ids == [0, 1];
    assert ValidGraph(Twins);
    assert Distinct(ids) && 2 !in ids && forall d :: d in ids ==> Twins[d].sourceTables == [];
    SortLeavesInSourceOrder(Twins, 2);
    assert ids + [2] == [0, 1, 2];
  }

  /** One Table listed under two names, x and y. */
  const Twice: Graph := map[
    0 := Table([Hole("x"), Lit(" NATURAL JOIN "), Hole("y")], [Source("x", 1), Source("y", 1)]),
    1 := Table([Lit(HundText)], [])]

  /** The second listing finds the Table Pending: sort_dependencies fails on
      this acyclic graph. */
  lemma ListedTwiceExample()
    ensures ValidGraph(Twice) && Ranked(Twice, map[0 := 1, 1 := 0])
    ensures Sort(Twice, 0) == Err(CircularDependency)
  {
    var ids := SourceIds(Twice[0]);
    assert ids == [1, 1] && SourceIds(Twice[1]) == [];
    assert ValidGraph(Twice);
    assert ids[0] == ids[1];
    ListedTwiceFails(Twice, 0);
  }

  /** A = 0 -> [C = 2, B = 1] and C -> [B]: acyclic, B shared by A and its
      source C. */
  const Sibling: Graph := map[
    0 := Table([Hole("c"), Lit(" JOIN "), Hole("b")], [Source("c", 2), Source("b", 1)]),
    1 := Table([Lit(HundText)], []),
    2 := Table([Hole("b")], [Source("b", 1)])]

  lemma SiblingValid()
    ensures SourceIds(Sibling[0]) == [2, 1] && SourceIds(Sibling[2]) == [1] && SourceIds(Sibling[1]) == []
    ensures ValidGraph(Sibling) && Ranked(Sibling, map[0 := 2, 1 := 0, 2 := 1])
  {
    assert SourceIds(Sibling[0]) == [2, 1] && SourceIds(Sibling[2]) == [1] && SourceIds(Sibling[1]) == [];
  }

  /** The first iteration pops A and marks C and B Pending. */
  lemma SiblingFirstStep()
    ensures ValidGraph(Sibling)
    ensures var st := map[2 := Pending, 1 := Pending];
            Sort(Sibling, 0) == SortFrom(Sibling, SortState(st, [0, 1, 2], []))
  {
    SiblingValid();
    var s0 := SortState(map[], [0], []);
    assert NotDone(map[], [2, 1]) == [2, 1];
    UnfoldExpand(Sibling, s0);
    assert MarkPending(map[], [2, 1]) == Ok(map[2 := Pending, 1 := Pending]) by {
      assert [2, 1][1..] == [1] && [1][1..] == [];
      assert map[][2 := Pending][1 := Pending] == map[2 := Pending, 1 := Pending];
    }
    assert [0] + Reversed([2, 1]) == [0, 1, 2] by {
      assert Reversed([2, 1]) == [1, 2];
    }
  }

  /** The second iteration pops C, whose source B is Pending: the assertion fails. */
  lemma SiblingSecondStep()
    ensures ValidGraph(Sibling)
    ensures var st := map[2 := Pending, 1 := Pending];
            SortFrom(Sibling, SortState(st, [0, 1, 2], [])) == Err(CircularDependency)
  {
    SiblingValid();
    var st: States := map[2 := Pending, 1 := Pending];
    var s1 := SortState(st, [0, 1, 2], []);
    assert NotDone(st, [1]) == [1] by {
      assert [1][1..] == [];
    }
    UnfoldExpand(Sibling, s1);
  }

  /** sort_dependencies rejects this acyclic graph as circular. */
  lemma SharedWithSiblingExample()
    ensures ValidGraph(Sibling) && Ranked(Sibling, map[0 := 2, 1 := 0, 2 := 1])
    ensures Sort(Sibling, 0) == Err(CircularDependency)
  {
    SiblingValid();
    SiblingFirstStep();
    SiblingSecondStep();
  }

  /** The corrected sort on any graph shaped like Twice. */
  lemma TwiceOrder(g: Graph)
    requires ValidGraph(g) && 0 in g && 1 in g && g[1].sourceTables == []
    requires |g[0].sourceTables| == 2 && g[0].sourceTables[0].table == 1 && g[0].sourceTables[1].table == 1
    ensures DfsOrder(g, 0) == Ok([1, 0])
  {
    VisitSourcesEnd(g, {0, 1}, 1, 0, []);
    assert {0} + {1} == {0, 1};
    VisitNew(g, {0}, 1, [], []);
    assert [] + [1] == [1];
    VisitListed(g, {0}, 1, [1]);
    VisitSourcesEnd(g, {0}, 0, 2, [1]);
    VisitSourcesNext(g, {0}, 0, 1, [1], [1], [1]);
    VisitSourcesNext(g, {0}, 0, 0, [], [1], [1]);
    assert {} + {0} == {0};
    VisitNew(g, {}, 0, [], [1]);
    assert [1] + [0] == [1, 0];
  }

  /** The corrected sort lists the Table named twice once, before the Table
      naming it. */
  lemma ListedTwiceFixed()
    ensures ValidGraph(Twice)
    ensures DfsOrder(Twice, 0) == Ok([1, 0])
  {
    ListedTwiceExample();
    TwiceOrder(Twice);
  }

  /** The corrected sort on any graph shaped like Sibling. */
  lemma SiblingOrder(g: Graph)
    requires ValidGraph(g) && 0 in g && 1 in g && 2 in g && g[1].sourceTables == []
    requires |g[0].sourceTables| == 2 && g[0].sourceTables[0].table == 2 && g[0].sourceTables[1].table == 1
    requires |g[2].sourceTables| == 1 && g[2].sourceTables[0].table == 1
    ensures DfsOrder(g, 0) == Ok([1, 2, 0])
  {
    VisitSourcesEnd(g, {0, 2, 1}, 1, 0, []);
    assert {0, 2} + {1} == {0, 2, 1};
    VisitNew(g, {0, 2}, 1, [], []);
    assert [] + [1] == [1];
    VisitSourcesEnd(g, {0, 2}, 2, 1, [1]);
    VisitSourcesNext(g, {0, 2}, 2, 0, [], [1], [1]);
    assert {0} + {2} == {0, 2};
    VisitNew(g, {0}, 2, [], [1]);
    assert [1] + [2] == [1, 2];
    VisitListed(g, {0}, 1, [1, 2]);
    VisitSourcesEnd(g, {0}, 0, 2, [1, 2]);
    VisitSourcesNext(g, {0}, 0, 1, [1, 2], [1, 2], [1, 2]);
    VisitSourcesNext(g, {0}, 0, 0, [], [1, 2], [1, 2]);
    assert {} + {0} == {0};
    VisitNew(g, {}, 0, [], [1, 2]);
    assert [1, 2] + [0] == [1, 2, 0];
  }

  /** The corrected sort lists B once, before C, which needs it, and A last. */
  lemma SharedWithSiblingFixed()
    ensures ValidGraph(Sibling)
    ensures DfsOrder(Sibling, 0) == Ok([1, 2, 0])
  {
    SiblingValid();
    SiblingOrder(Sibling);
  }

  /** cte_deps = [a, b]: `_cte0` and `_cte1`, in that order. */
  lemma TwoNames(a: TableId, b: TableId)
    requires a != b
    ensures CteNames([a, b]) == NameTable([a, b], map[a := CteAlias(0), b := CteAlias(1)])
  {
    var empty: seq<TableId> := [];
    assert CteNames([a]) == NameTable([a], map[a := CteAlias(0)]) by {
      CteNamesSnoc(empty, a);
      assert empty + [a] == [a];
    }
    CteNamesSnoc([a], b);
    assert [a] + [b] == [a, b];
  }

  /** cte_deps listing a Table twice: the key keeps its first position and
      takes the identifier of its last one. For [a, b, a], a comes first and
      takes `_cte2`. */
  lemma RepeatedCteDep(a: TableId, b: TableId)
    requires a != b
    ensures var n := CteNames([a, b, a]);
            n.order == [a, b] && a in n.alias && b in n.alias &&
            n.alias[a] == CteAlias(2) && n.alias[b] == CteAlias(1)
  {
    var ab: seq<TableId> := [a, b];
    TwoNames(a, b);
    CteNamesSnoc(ab, a);
    assert ab + [a] == [a, b, a];
  }
}

/** sql_with_cte: the Tables listed in cte_deps become common table
    expressions named `_cte<i>`, and every query refers to its sources by
    those names. */
module Cte {
  import opened Errors
  import opened Sql
  import opened Tables
  import opened NamedDeps

  /** The decimal digit d. */
  function Digit(d: nat): char
    requires d < 10
  {
    (48 + d) as char
  }

  /** The number a string of decimal digits spells, most significant first. */
  function DigitsValue(s: string): nat
    requires forall k :: 0 <= k < |s| ==> '0' <= s[k] <= '9'
  {
    if s == [] then 0
    else DigitsValue(s[..|s| - 1]) * 10 + (s[|s| - 1] as int - 48)
  }

  /** "%d" % i: the decimal numeral of i, without leading zeros. */
  function Decimal(i: nat): (s: string)
    ensures |s| >= 1
    ensures |s| == 1 <==> i < 10
    ensures forall k :: 0 <= k < |s| ==> '0' <= s[k] <= '9'
    ensures DigitsValue(s) == i
    ensures |s| > 1 ==> s[0] != '0'
  {
    if i < 10 then [Digit(i)]
    else
      var head := Decimal(i / 10);
      assert (head + [Digit(i % 10)])[..|head|] == head;
      head + [Digit(i % 10)]
  }

  /** Distinct numbers have distinct numerals. */
  lemma DecimalInjective(a: nat, b: nat)
    requires Decimal(a) == Decimal(b)
    ensures a == b
  {
    assert DigitsValue(Decimal(a)) == a && DigitsValue(Decimal(b)) == b;
  }

  /** Identifier("_cte%d" % i). */
  function CteAlias(i: nat): Token
  {
    Ident("_cte" + Decimal(i))
  }

  /** The identifier of a position is `_cte` followed by decimal digits only. */
  lemma CteAliasForm(i: nat)
    ensures var n := CteAlias(i);
            n.Ident? && |n.name| >= 5 && n.name[..4] == "_cte" &&
            forall k :: 4 <= k < |n.name| ==> '0' <= n.name[k] <= '9'
  {
    var n := CteAlias(i);
    forall k | 4 <= k < |n.name| ensures '0' <= n.name[k] <= '9' {
      assert n.name[k] == Decimal(i)[k - 4];
    }
  }

  /** The positions of cte_deps give distinct identifiers. */
  lemma CteAliasInjective(i: nat, j: nat)
    requires CteAlias(i) == CteAlias(j)
    ensures i == j
  {
    assert ("_cte" + Decimal(i))[4..] == Decimal(i);
    assert ("_cte" + Decimal(j))[4..] == Decimal(j);
    DecimalInjective(i, j);
  }

  /** The dict `names`: its keys in insertion order, and the value of each key. */
  datatype NameTable = NameTable(order: seq<TableId>, alias: map<TableId, Token>)

  /** {t: Identifier("_cte%d" % i) for i, t in enumerate(cte_deps)}: a key
      keeps the position where it was first inserted and the value it was
      given last. */
  function CteNames(ds: seq<TableId>): (n: NameTable)
    ensures Distinct(n.order)
    ensures forall t :: t in n.order <==> t in ds
    ensures forall t :: t in n.alias <==> t in ds
  {
    if ds == [] then NameTable([], map[])
    else
      var k := |ds| - 1;
      var p := CteNames(ds[..k]);
      var t := ds[k];
      assert forall x :: x in ds <==> x in ds[..k] || x == t by {
        assert ds == ds[..k] + [t];
      }
      NameTable(if t in p.alias then p.order else p.order + [t], p.alias[t := CteAlias(k)])
  }

  /** One more key: a new Table is appended to the order, a known one keeps
      its place; either way it takes the identifier of its new position. */
  lemma CteNamesSnoc(ds: seq<TableId>, t: TableId)
    ensures var p := CteNames(ds);
            CteNames(ds + [t]) ==
            NameTable(if t in ds then p.order else p.order + [t], p.alias[t := CteAlias(|ds|)])
  {
    assert (ds + [t])[..|ds|] == ds;
  }

  /** The identifier of a Table is `_cte<i>` for the last position i where
      cte_deps lists it. */
  lemma {:induction false} CteNamesLast(ds: seq<TableId>, i: nat)
    requires i < |ds| && ds[i] !in ds[i + 1..]
    ensures ds[i] in CteNames(ds).alias && CteNames(ds).alias[ds[i]] == CteAlias(i)
    decreases |ds|
  {
    var k := |ds| - 1;
    var p := CteNames(ds[..k]);
    assert CteNames(ds).alias == p.alias[ds[k] := CteAlias(k)];
    if i < k {
      assert ds[i] != ds[k] && ds[..k][i] == ds[i] && ds[i] !in ds[..k][i + 1..] by {
        assert ds[i + 1..] == ds[..k][i + 1..] + [ds[k]];
      }
      CteNamesLast(ds[..k], i);
      assert CteNames(ds).alias[ds[i]] == p.alias[ds[i]];
    } else {
      assert ds[i] == ds[k];
    }
  }

  /** The keys come in the order of their first appearance in the list:
      wherever a later key appears, every earlier key has appeared before. */
  lemma {:induction false} CteNamesFirstSeen(ds: seq<TableId>)
    ensures var order := CteNames(ds).order;
            forall i, j, k :: 0 <= i < j < |order| && 0 <= k < |ds| && ds[k] == order[j] ==> order[i] in ds[..k]
    decreases |ds|
  {
    if ds != [] {
      var m := |ds| - 1;
      var pre, t := ds[..m], ds[m];
      assert ds == pre + [t];
      CteNamesFirstSeen(pre);
      CteNamesSnoc(pre, t);
      var po := CteNames(pre).order;
      var order := CteNames(ds).order;
      forall i, j, k | 0 <= i < j < |order| && 0 <= k < |ds| && ds[k] == order[j]
        ensures order[i] in ds[..k]
      {
        if k < m {
          assert pre[k] == ds[k] && ds[..k] == pre[..k];
          assert j < |po| && order[i] == po[i] && order[j] == po[j] by {
            if t !in pre {
              assert order == po + [t];
              assert ds[k] in pre;
            }
          }
        } else {
          assert order[i] != order[j];
          assert order[i] in ds;
          assert ds[..k] == pre;
        }
      }
    }
  }

  /** For a list without repetitions the i-th Table is named `_cte<i>`. */
  lemma CteNamesAt(ds: seq<TableId>, i: nat)
    requires Distinct(ds) && i < |ds|
    ensures ds[i] in CteNames(ds).alias && CteNames(ds).alias[ds[i]] == CteAlias(i)
  {
    assert ds[i] !in ds[i + 1..] by {
      forall m | i + 1 <= m < |ds| ensures ds[m] != ds[i] {
      }
    }
    CteNamesLast(ds, i);
  }

  /** For a list without repetitions the keys keep the list's order. */
  lemma {:induction false} CteNamesOrder(ds: seq<TableId>)
    requires Distinct(ds)
    ensures CteNames(ds).order == ds
    decreases |ds|
  {
    if ds != [] {
      var k := |ds| - 1;
      assert Distinct(ds[..k]) && ds[k] !in ds[..k] by {
        forall i, j | 0 <= i < j < k ensures ds[..k][i] != ds[..k][j] {
          assert ds[..k][i] == ds[i] && ds[..k][j] == ds[j];
        }
      }
      CteNamesOrder(ds[..k]);
      assert ds[k] !in CteNames(ds[..k]).alias;
      assert ds == ds[..k] + [ds[k]];
    }
  }

  /** Composed([n, SQL(" AS ("), sql_with_named_deps(t, names), SQL(")")]). */
  function CteEntry(alias: Token, body: Composed): Composed
  {
    [alias, Text(" AS (")] + body + [Text(")")]
  }

  /** The identifier and the query can be read back from an entry. */
  lemma CteEntryInjective(a: Token, x: Composed, b: Token, y: Composed)
    requires CteEntry(a, x) == CteEntry(b, y)
    ensures a == b && x == y
  {
    var ex, ey := CteEntry(a, x), CteEntry(b, y);
    assert |x| == |y|;
    assert ex[0] == a && ey[0] == b;
    assert ex[2..|x| + 2] == x && ey[2..|y| + 2] == y;
  }

  /** The entry for Table t. */
  function EntryFor(g: Graph, t: TableId, alias: map<TableId, Token>): (r: Result<Composed>)
    requires ValidGraph(g) && t in g && t in alias
    ensures r.Ok? <==> SqlWithNamedDeps(g, t, alias).Ok?
    ensures r.Err? ==> r.error == SqlWithNamedDeps(g, t, alias).error
    ensures r.Ok? ==> r.value == CteEntry(alias[t], SqlWithNamedDeps(g, t, alias).value)
  {
    match SqlWithNamedDeps(g, t, alias)
    case Err(e) => Err(e)
    case Ok(body) => Ok(CteEntry(alias[t], body))
  }

  /** One entry per item of names.items(), in order. */
  function EntryList(g: Graph, names: NameTable): (rs: seq<Result<Composed>>)
    requires ValidGraph(g) && forall t :: t in names.order ==> t in g && t in names.alias
    ensures |rs| == |names.order|
    ensures forall k :: 0 <= k < |rs| ==> rs[k] == EntryFor(g, names.order[k], names.alias)
  {
    seq(|names.order|, k requires 0 <= k < |names.order| => EntryFor(g, names.order[k], names.alias))
  }

  /** The separator of the list of common table expressions. */
  const Separator: Composed := [Text("\n   , ")]

  /** `WITH `, the entries joined by the separator, and a newline. */
  function WithClause(entries: seq<Composed>): Composed
  {
    [Text("WITH ")] + Join(Separator, entries) + [Text("\n")]
  }

  /** One more entry goes after the separator, just before the final newline. */
  lemma WithClauseSnoc(entries: seq<Composed>, e: Composed)
    ensures var w := WithClause(entries);
            WithClause(entries + [e]) ==
              if entries == [] then [Text("WITH ")] + e + [Text("\n")]
              else w[..|w| - 1] + Separator + e + [Text("\n")]
  {
    JoinSnoc(Separator, entries, e);
    var w := WithClause(entries);
    assert w[..|w| - 1] == [Text("WITH ")] + Join(Separator, entries);
  }

  /** sql_with_cte(table, cte_deps): `WITH ` and the entries joined by the
      separator, a newline, then the query of the Table itself; every query
      names its sources by their identifiers in `names`. It renders exactly
      when every listed Table and the Table itself render against `names`; the
      entries are built first, in order, so the Table's own failure shows only
      when every entry renders. */
  function SqlWithCte(g: Graph, root: TableId, ds: seq<TableId>): (r: Result<Composed>)
    requires ValidGraph(g) && root in g && forall t :: t in ds ==> t in g
    ensures var alias := CteNames(ds).alias;
            r.Ok? <==> (forall t :: t in ds ==> SqlWithNamedDeps(g, t, alias).Ok?) && SqlWithNamedDeps(g, root, alias).Ok?
    ensures var alias := CteNames(ds).alias;
            r.Err? && (forall t :: t in ds ==> SqlWithNamedDeps(g, t, alias).Ok?) ==>
              r.error == SqlWithNamedDeps(g, root, alias).error
    ensures r.Ok? ==>
              var body := SqlWithNamedDeps(g, root, CteNames(ds).alias).value;
              |r.value| >= |body| + 2 && r.value[0] == Text("WITH ") && r.value[|r.value| - |body|..] == body
  {
    var names := CteNames(ds);
    EntriesOk(g, ds);
    match Collect(EntryList(g, names))
    case Err(e) => Err(e)
    case Ok(entries) =>
      match SqlWithNamedDeps(g, root, names.alias)
      case Err(e) => Err(e)
      case Ok(body) =>
        assert (WithClause(entries) + body)[|WithClause(entries)|..] == body;
        Ok(WithClause(entries) + body)
  }

  /** All entries render exactly when every listed Table renders. */
  lemma EntriesOk(g: Graph, ds: seq<TableId>)
    requires ValidGraph(g) && forall t :: t in ds ==> t in g
    ensures var names := CteNames(ds);
            Collect(EntryList(g, names)).Ok? <==> forall t :: t in ds ==> SqlWithNamedDeps(g, t, names.alias).Ok?
  {
    var names := CteNames(ds);
    var rs := EntryList(g, names);
    forall t | t in ds && Collect(rs).Ok? ensures SqlWithNamedDeps(g, t, names.alias).Ok? {
      var k :| 0 <= k < |names.order| && names.order[k] == t;
      assert rs[k].Ok?;
    }
  }

  /** In the order of `names`, the j-th Table is the first whose query fails. */
  predicate FirstFailingEntry(g: Graph, names: NameTable, j: int)
    requires ValidGraph(g) && forall t :: t in names.order ==> t in g
  {
    0 <= j < |names.order| &&
    SqlWithNamedDeps(g, names.order[j], names.alias).Err? &&
    forall k :: 0 <= k < j ==> SqlWithNamedDeps(g, names.order[k], names.alias).Ok?
  }

  /** The failure is that of the first listed Table, in order, whose query
      fails, or, when every listed Table renders, that of the Table's own. */
  lemma CteFailure(g: Graph, root: TableId, ds: seq<TableId>)
    requires ValidGraph(g) && root in g && forall t :: t in ds ==> t in g
    requires SqlWithCte(g, root, ds).Err?
    ensures var names := CteNames(ds);
            var e := SqlWithCte(g, root, ds).error;
            (exists j :: FirstFailingEntry(g, names, j) && e == SqlWithNamedDeps(g, names.order[j], names.alias).error) ||
            ((forall t :: t in ds ==> SqlWithNamedDeps(g, t, names.alias).Ok?) && e == SqlWithNamedDeps(g, root, names.alias).error)
  {
    var names := CteNames(ds);
    var rs := EntryList(g, names);
    EntriesOk(g, ds);
    if Collect(rs).Err? {
      assert SqlWithCte(g, root, ds).error == Collect(rs).error;
      FirstEntryFails(g, names);
    }
  }

  /** When the entries fail, the error is that of the first failing entry. */
  lemma FirstEntryFails(g: Graph, names: NameTable)
    requires ValidGraph(g) && forall t :: t in names.order ==> t in g && t in names.alias
    requires Collect(EntryList(g, names)).Err?
    ensures exists j :: FirstFailingEntry(g, names, j) &&
                        Collect(EntryList(g, names)).error == SqlWithNamedDeps(g, names.order[j], names.alias).error
  {
    var rs := EntryList(g, names);
    var j :| 0 <= j < |rs| && rs[j] == Err(Collect(rs).error) && forall k :: 0 <= k < j ==> rs[k].Ok?;
    EntriesBeforeOk(g, names, j);
    assert rs[j] == EntryFor(g, names.order[j], names.alias);
    assert FirstFailingEntry(g, names, j);
  }

  /** The entries before position j render exactly when their Tables do. */
  lemma EntriesBeforeOk(g: Graph, names: NameTable, j: nat)
    requires ValidGraph(g) && forall t :: t in names.order ==> t in g && t in names.alias
    requires j <= |names.order| && forall k :: 0 <= k < j ==> EntryList(g, names)[k].Ok?
    ensures forall k :: 0 <= k < j ==> SqlWithNamedDeps(g, names.order[k], names.alias).Ok?
  {
    forall k | 0 <= k < j ensures SqlWithNamedDeps(g, names.order[k], names.alias).Ok? {
      assert EntryList(g, names)[k].Ok?;
    }
  }

  /** For a list without repetitions: the output is the WITH clause of one
      entry per listed Table, in the list's order, entry k being
      `_cte<k> AS (<query of the k-th Table>)`, followed by the Table's own query. */
  lemma CteEntriesAt(g: Graph, root: TableId, ds: seq<TableId>)
    requires ValidGraph(g) && root in g && forall t :: t in ds ==> t in g
    requires Distinct(ds)
    requires SqlWithCte(g, root, ds).Ok?
    ensures var alias := CteNames(ds).alias;
            var es := Collect(EntryList(g, CteNames(ds)));
            es.Ok? && |es.value| == |ds| &&
            SqlWithNamedDeps(g, root, alias).Ok? &&
            SqlWithCte(g, root, ds).value == WithClause(es.value) + SqlWithNamedDeps(g, root, alias).value &&
            forall k :: 0 <= k < |ds| ==>
              SqlWithNamedDeps(g, ds[k], alias).Ok? &&
              es.value[k] == CteEntry(CteAlias(k), SqlWithNamedDeps(g, ds[k], alias).value)
  {
    var names := CteNames(ds);
    CteNamesOrder(ds);
    var rs := EntryList(g, names);
    forall k | 0 <= k < |ds| ensures names.alias[ds[k]] == CteAlias(k) {
      assert ds[k] !in ds[k + 1..];
      CteNamesLast(ds, k);
    }
  }
}

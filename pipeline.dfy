/** The demo's pipeline: a dependency order of the Tables, and every Table of
    that order but the last hoisted into a common table expression. The
    lemmas hold for any dependency order; the last two apply them to the
    order sort_dependencies returns and to the corrected sort. */
module Pipeline {
  import opened Errors
  import opened Tables
  import opened TopoSort
  import opened NamedDeps
  import opened Subqueries
  import opened Cte
  import opened DfsSort

  /** cte_deps = order[:-1] of a dependency order: every Table the query
      renders, the root and each hoisted Table, finds an identifier for each
      of its sources. */
  lemma OrderAliases(g: Graph, root: TableId, order: seq<TableId>)
    requires ValidGraph(g) && IsDependencyOrder(g, root, order)
    ensures var ds := order[..|order| - 1];
            (forall t :: t in ds ==> t in g) &&
            (forall t :: Reaches(g, root, t) <==> t in ds || t == root) &&
            forall t, s :: (t in ds || t == root) && t in g && s in SourceIds(g[t]) ==> s in CteNames(ds).alias
  {
    var ds := order[..|order| - 1];
    assert order == ds + [root];
    forall t, s | (t in ds || t == root) && t in g && s in SourceIds(g[t]) ensures s in CteNames(ds).alias {
      var i :| 0 <= i < |order| && order[i] == t;
      assert s in order[..i];
      assert s in ds;
    }
  }

  /** On a dependency order, the query renders exactly when every Table reachable
      from the root binds all of its placeholders. */
  lemma CteOkIff(g: Graph, root: TableId, order: seq<TableId>)
    requires ValidGraph(g) && IsDependencyOrder(g, root, order)
    ensures var ds := order[..|order| - 1];
            (forall t :: t in ds ==> t in g) &&
            (SqlWithCte(g, root, ds).Ok? <==> AllHolesBound(g, root))
  {
    OrderAliases(g, root, order);
    var ds := order[..|order| - 1];
    var alias := CteNames(ds).alias;
    var r := SqlWithCte(g, root, ds);
    var named := forall t :: t in ds ==> SqlWithNamedDeps(g, t, alias).Ok?;
    assert r.Ok? <==> named && SqlWithNamedDeps(g, root, alias).Ok?;
    assert r.Ok? ==> AllHolesBound(g, root) by {
      if r.Ok? {
        forall u | Reaches(g, root, u) ensures u in g && HolesBound(g[u]) {
          assert SqlWithNamedDeps(g, u, alias).Ok?;
        }
      }
    }
    assert AllHolesBound(g, root) ==> r.Ok? by {
      if AllHolesBound(g, root) {
        forall t | t in ds || t == root ensures SqlWithNamedDeps(g, t, alias).Ok? {
          assert Reaches(g, root, t);
        }
      }
    }
  }

  /** On a dependency order, a failure is never a missing identifier: it is a
      placeholder that names no source. */
  lemma CteFailsOnPlaceholder(g: Graph, root: TableId, order: seq<TableId>)
    requires ValidGraph(g) && IsDependencyOrder(g, root, order)
    ensures var ds := order[..|order| - 1];
            (forall t :: t in ds ==> t in g) &&
            (SqlWithCte(g, root, ds).Err? ==> SqlWithCte(g, root, ds).error.MissingPlaceholder?)
  {
    OrderAliases(g, root, order);
    var ds := order[..|order| - 1];
    var alias := CteNames(ds).alias;
    var names := CteNames(ds);
    if SqlWithCte(g, root, ds).Err? {
      var e := SqlWithCte(g, root, ds).error;
      CteFailure(g, root, ds);
      var t := root;
      if exists j :: FirstFailingEntry(g, names, j) && e == SqlWithNamedDeps(g, names.order[j], alias).error {
        var j :| FirstFailingEntry(g, names, j) && e == SqlWithNamedDeps(g, names.order[j], alias).error;
        t := names.order[j];
      }
      assert (t in ds || t == root) && SqlWithNamedDeps(g, t, alias) == Err(e);
      NamedDepsAliased(g, t, alias);
    }
  }

  /** On a dependency order, the k-th common table expression refers only to
      the ones before it, and the j-th is named `_cte<j>`. */
  lemma CteRefersBack(g: Graph, root: TableId, order: seq<TableId>)
    requires ValidGraph(g) && IsDependencyOrder(g, root, order)
    ensures var ds := order[..|order| - 1];
            (forall t :: t in ds ==> t in g) &&
            (forall k, s :: 0 <= k < |ds| && s in SourceIds(g[ds[k]]) ==> s in ds[..k]) &&
            forall j :: 0 <= j < |ds| ==> ds[j] in CteNames(ds).alias && CteNames(ds).alias[ds[j]] == CteAlias(j)
  {
    var ds := order[..|order| - 1];
    assert Distinct(ds) by {
      forall i, j | 0 <= i < j < |ds| ensures ds[i] != ds[j] {
        assert ds[i] == order[i] && ds[j] == order[j];
      }
    }
    forall k, s | 0 <= k < |ds| && s in SourceIds(g[ds[k]]) ensures s in ds[..k] {
      assert s in order[..k] && order[..k] == ds[..k];
    }
    forall j | 0 <= j < |ds| ensures ds[j] in CteNames(ds).alias && CteNames(ds).alias[ds[j]] == CteAlias(j) {
      CteNamesAt(ds, j);
    }
  }

  /** On a dependency order of an acyclic graph, the two renderings agree on
      success: nesting subqueries succeeds exactly when hoisting common table
      expressions does. */
  lemma StrategiesAgree(g: Graph, rank: map<TableId, nat>, root: TableId, order: seq<TableId>)
    requires ValidGraph(g) && Ranked(g, rank) && IsDependencyOrder(g, root, order)
    ensures var ds := order[..|order| - 1];
            (forall t :: t in ds ==> t in g) &&
            (SqlWithSubqueries(g, rank, root).Ok? <==> SqlWithCte(g, root, ds).Ok?)
  {
    SubqueriesOkIff(g, rank, root);
    CteOkIff(g, root, order);
  }

  /** The demo's line as written: when sort_dependencies succeeds, its order
      is a dependency order, and sql_with_cte on it fails only on a
      placeholder that names no source. */
  lemma SortThenCte(g: Graph, root: TableId)
    requires ValidGraph(g) && root in g && Sort(g, root).Ok?
    ensures var order := Sort(g, root).value;
            IsDependencyOrder(g, root, order) &&
            var ds := order[..|order| - 1];
            (forall t :: t in ds ==> t in g) &&
            (SqlWithCte(g, root, ds).Ok? <==> AllHolesBound(g, root)) &&
            (SqlWithCte(g, root, ds).Err? ==> SqlWithCte(g, root, ds).error.MissingPlaceholder?)
  {
    CteOkIff(g, root, Sort(g, root).value);
    CteFailsOnPlaceholder(g, root, Sort(g, root).value);
  }

  /** The demo's line with the corrected sort: on every acyclic graph the
      order exists, and both renderings succeed or fail together, a failure
      being a placeholder that names no source. */
  lemma DfsThenCte(g: Graph, rank: map<TableId, nat>, root: TableId)
    requires ValidGraph(g) && Ranked(g, rank) && root in g
    ensures DfsOrder(g, root).Ok?
    ensures var order := DfsOrder(g, root).value;
            IsDependencyOrder(g, root, order) &&
            var ds := order[..|order| - 1];
            (forall t :: t in ds ==> t in g) &&
            (SqlWithCte(g, root, ds).Ok? <==> AllHolesBound(g, root)) &&
            (SqlWithCte(g, root, ds).Err? ==> SqlWithCte(g, root, ds).error.MissingPlaceholder?) &&
            (SqlWithSubqueries(g, rank, root).Ok? <==> SqlWithCte(g, root, ds).Ok?)
  {
    forall u | Reaches(g, root, u) ensures !OnCycle(g, u) {
      RankedAcyclic(g, rank, u);
    }
    DfsTotal(g, root);
    var order := DfsOrder(g, root).value;
    CteOkIff(g, root, order);
    CteFailsOnPlaceholder(g, root, order);
    StrategiesAgree(g, rank, root, order);
  }
}

/** sql_with_named_deps: every placeholder is replaced by the identifier the
    caller chose for the Table it names, as `<alias> AS <name>`. */
module NamedDeps {
  import opened Errors
  import opened Sql
  import opened Tables

  /** The value for source s: Composed([deps[t], SQL(" AS "), Identifier(s)]);
      deps[t] raises KeyError when t has no identifier. */
  function AliasFor(deps: map<TableId, Token>, s: Source): (r: Result<Composed>)
    ensures r.Ok? <==> s.table in deps
    ensures r.Err? ==> r.error == MissingAlias(s.table)
    ensures r.Ok? ==> r.value == [deps[s.table], Text(" AS "), Ident(s.name)]
  {
    if s.table in deps then Ok([deps[s.table], Text(" AS "), Ident(s.name)])
    else Err(MissingAlias(s.table))
  }

  /** The values of all sources of a Table, in the order of source_tables. */
  function AliasList(deps: map<TableId, Token>, srcs: seq<Source>): (rs: seq<Result<Composed>>)
    ensures |rs| == |srcs|
    ensures forall j :: 0 <= j < |srcs| ==> rs[j] == AliasFor(deps, srcs[j])
  {
    seq(|srcs|, j requires 0 <= j < |srcs| => AliasFor(deps, srcs[j]))
  }

  /** Source j is the first, in order, whose Table has no identifier. */
  predicate FirstUnaliased(srcs: seq<Source>, deps: map<TableId, Token>, j: int)
  {
    0 <= j < |srcs| && srcs[j].table !in deps && forall k :: 0 <= k < j ==> srcs[k].table in deps
  }

  /** The query of t with each source referred to by its identifier. The
      lookups happen first, in order, so a missing identifier wins over a
      missing placeholder value. */
  function SqlWithNamedDeps(g: Graph, t: TableId, deps: map<TableId, Token>): (r: Result<Composed>)
    requires t in g && UniqueNames(g[t].sourceTables)
    ensures r.Ok? <==> (forall s :: s in SourceIds(g[t]) ==> s in deps) && HolesBound(g[t])
  {
    var srcs := g[t].sourceTables;
    match Collect(AliasList(deps, srcs))
    case Err(e) => Err(e)
    case Ok(vs) =>
      assert forall s :: s in SourceIds(g[t]) ==> s in deps by {
        forall s | s in SourceIds(g[t]) ensures s in deps {
          var j :| 0 <= j < |srcs| && SourceIds(g[t])[j] == s;
          assert AliasFor(deps, srcs[j]).Ok?;
        }
      }
      Format(g[t].sql, Kwargs(srcs, vs))
  }

  /** The failures: the first source, in order, without an identifier, or,
      when every source has one, a placeholder that names no source. */
  lemma NamedDepsFailure(g: Graph, t: TableId, deps: map<TableId, Token>)
    requires t in g && UniqueNames(g[t].sourceTables)
    requires SqlWithNamedDeps(g, t, deps).Err?
    ensures var e := SqlWithNamedDeps(g, t, deps).error;
            (e.MissingAlias? &&
             exists j :: FirstUnaliased(g[t].sourceTables, deps, j) && e.table == g[t].sourceTables[j].table) ||
            (e.MissingPlaceholder? && (forall s :: s in SourceIds(g[t]) ==> s in deps) &&
             e.name in Holes(g[t].sql) && e.name !in Names(g[t].sourceTables))
  {
    var srcs := g[t].sourceTables;
    var rs := Collect(AliasList(deps, srcs));
    if rs.Err? {
      var j :| 0 <= j < |srcs| && AliasList(deps, srcs)[j] == Err(rs.error) &&
               forall k :: 0 <= k < j ==> AliasList(deps, srcs)[k].Ok?;
      assert FirstUnaliased(srcs, deps, j);
    }
  }

  /** When every source has an identifier, the only failure left is a
      placeholder that names no source. */
  lemma NamedDepsAliased(g: Graph, t: TableId, deps: map<TableId, Token>)
    requires t in g && UniqueNames(g[t].sourceTables)
    requires forall s :: s in SourceIds(g[t]) ==> s in deps
    requires SqlWithNamedDeps(g, t, deps).Err?
    ensures SqlWithNamedDeps(g, t, deps).error.MissingPlaceholder?
  {
    var srcs := g[t].sourceTables;
    forall j | 0 <= j < |srcs| ensures srcs[j].table in deps {
      assert SourceIds(g[t])[j] == srcs[j].table;
    }
    NamedDepsFailure(g, t, deps);
  }

  /** Each placeholder is replaced by the identifier of the Table it names,
      aliased by the placeholder's name; two placeholders naming one Table
      therefore get the same identifier. */
  lemma NamedAt(g: Graph, t: TableId, deps: map<TableId, Token>, pre: Template, j: nat, post: Template)
    requires t in g && UniqueNames(g[t].sourceTables) && j < |g[t].sourceTables|
    requires g[t].sql == pre + [Hole(g[t].sourceTables[j].name)] + post
    requires SqlWithNamedDeps(g, t, deps).Ok?
    ensures Collect(AliasList(deps, g[t].sourceTables)).Ok?
    ensures var s := g[t].sourceTables[j];
            var args := Kwargs(g[t].sourceTables, Collect(AliasList(deps, g[t].sourceTables)).value);
            s.table in deps && Format(pre, args).Ok? && Format(post, args).Ok? &&
            SqlWithNamedDeps(g, t, deps).value ==
              Format(pre, args).value + [deps[s.table], Text(" AS "), Ident(s.name)] + Format(post, args).value
  {
    var srcs := g[t].sourceTables;
    var vs := Collect(AliasList(deps, srcs)).value;
    var args := Kwargs(srcs, vs);
    FormatAt(pre, srcs[j].name, post, args);
    assert args[srcs[j].name] == vs[j];
  }
}

# pgsqm in Dafny

A model of `pgsqm.py`, a small composer of PostgreSQL queries. A *Table* is a
query template whose placeholders stand for other Tables. Such a graph of
Tables renders to one query in either of two ways:

- nesting each source as a parenthesised subquery (`sql_with_subqueries`);
- hoisting the sources into common table expressions (`sql_with_cte`).

`sql_with_cte` is fed by `sort_dependencies`, an iterative depth-first
topological sort.

How the source is represented:

- **Tables** (`tables.dfy`). `==` and hashing use object identity (`__eq__`
  and `__hash__`, pgsqm.py:16-20), so every Table is a `TableId` (standing for `id(self)`) in a `Graph` that maps
  identities to records `Table(sql, sourceTables)`. `source_tables` is a list of
  `Source(name, table)` pairs in dict order. Two identities may hold equal
  records and still be two Tables.
- **SQL values** (`sql.dfy`). A `SQL(...)` template is a sequence of pieces:
  literal text or a `{name}` placeholder. A `Composed` is a sequence of tokens:
  SQL text or an `Identifier`. `SQL.format(**kwargs)` is `Format`: it fills each
  placeholder from left to right, and the first placeholder that has no value
  raises `KeyError`.
- **Exceptions** (`errors.dfy`). Each exception is a value of `Error`:
  - `KeyError` from `format` is `MissingPlaceholder`;
  - `KeyError` from `deps[t]` is `MissingAlias`;
  - the assertion `"Circular Table dependency"` is `CircularDependency`.

  Python evaluates a comprehension in order, so the first exception wins; this
  is `Collect`.
- **The three renderers**:
  - `subqueries.dfy`: a recursive function. It is measured by a rank that
    falls along every dependency.
  - `named_deps.dfy`: sources are referred to through a given identifier map.
  - `cte.dfy`: `_cte<i>` names, in the insertion and overwrite order of a Python
    dict, and the `WITH` clause.
- **`sort_dependencies`** (`toposort.dfy`). The loop is the method
  `SortDependencies`; `MarkEach` is the inner `for` loop. It is proved equal to
  `Sort`, a step-by-step functional reading of the same loop. `Sort` is proved
  to return a dependency order:
  - every Table reachable from the root, once each;
  - each Table after its sources;
  - the root last.

  It always terminates, with the measure 2·#unvisited + #Pending followed by
  the stack height.
- **Failures of the sort** (`sort_facts.dfy`). When the sort must fail, and the
  order it gives when all sources are leaves.
- **The corrected sort** (`dfs.dfy`). `sort_dependencies` is refused on some
  acyclic graphs (see Findings). `DfsOrder` is the corrected sort, a recursive
  depth-first visit that skips Tables already listed and fails only on a
  dependency back onto the visits in progress.
- **The pipeline** (`pipeline.dfy`). The demo's pipeline: a dependency order,
  minus its last entry, fed to `sql_with_cte`.
- **The demo** (`demo.dfy`). The demo tables `hund`, `thou` and `combine`, and
  small graphs that show identity, repeated sources and shared sources.

The docstring of `sort_dependencies` (pgsqm.py:50) calls it a topological sort
"via DFS". The assertion message "Circular Table dependency" (pgsqm.py:66)
says that the assertion is meant to reject only cycles. Together they make the
intent evident: a Table listed twice in one `source_tables`, or a Table shared
between siblings, should be sorted once. The code (pgsqm.py:58-67) instead
fails its assertion whenever such a Table is still Pending when it is met
again, although there is no cycle. That always happens for a Table the root
lists twice, since nothing is Done at the root's first expansion. It happens
for a shared Table when the sibling that needs it is expanded before the
shared Table is finished: A → [C, B] with C → [B] fails. When the Table is
already Done by then, the code succeeds. For example, A → [B, C] with C → [B]
gives [B, C, A], and `NotDone` drops both copies of a Done Table. The model of
`sort_dependencies` follows the code. The corrected behaviour is modelled
beside it and is recorded under Findings.

## Model

| member | source | states |
|---|---|---|
| Tables.EqualityAndHash | pgsqm.py:16-20 | Table equality is reflexive, symmetric and transitive, and equal Tables have equal hashes, as Python requires of `__eq__` and `__hash__` |
| Tables.Kwargs | pgsqm.py:36-38 | the keyword arguments built from `source_tables.items()` have exactly the placeholder names as keys, and each name maps to the value computed for its own source |
| Tables.SourceAt | pgsqm.py:58 | the i-th value of `source_tables` is a Table of the graph and one of the listed sources |
| Tables.RankedAcyclic | pgsqm.py:23-31 | a graph with a rank that falls along every dependency has no Table that depends on itself |
| Tables.ReachesThroughSource | pgsqm.py:58 | a Table reached from t, other than t, is reached from one of t's own sources |
| Tables.AllHolesBoundStep | pgsqm.py:25-30 | every reachable Table binds all its placeholders exactly when t binds its own and every source of t has the same property |
| Sql.Format | pgsqm.py:25 | `SQL.format` succeeds exactly when every placeholder of the template has a value; otherwise it raises `KeyError` for a placeholder that is used but has no value |
| Sql.FormatAt | pgsqm.py:25 | each placeholder is replaced, in place, by its value, and the text around it is formatted the same way |
| Sql.FormatAppend | pgsqm.py:25 | formatting a concatenation of templates formats each part in turn, and the first error wins |
| Sql.FormatVerbatim | pgsqm.py:25 | a template without placeholders renders to its own text, whatever the arguments |
| Sql.FormatUsesOnlyHoles | pgsqm.py:25 | the result depends only on the values of the placeholders the template uses |
| Sql.JoinSnoc | pgsqm.py:44 | `SQL(sep).join` puts the separator between consecutive parts: joining one more part appends the separator and that part, and a single part is left alone |
| Errors.Collect | pgsqm.py:26-30 | evaluating the values in order succeeds exactly when each one does, keeping each value at its position; on failure the error is that of the first failing value |
| Subqueries.SqlWithSubqueries | pgsqm.py:23-31 | rendering with nested subqueries can fail only with `KeyError` for a placeholder (no source is named `self`; see Left out) |
| Subqueries.SubqueryStep | pgsqm.py:25-30 | a Table renders exactly when all of its sources render and its template binds every placeholder |
| Subqueries.SubqueriesOkIff | pgsqm.py:23-31 | a Table renders exactly when every Table reachable from it binds all of its placeholders |
| Subqueries.SubqueryLeaf | pgsqm.py:25 | a Table without sources renders to its template's own text when the template has no placeholders, and fails otherwise |
| Subqueries.SubqueryAt | pgsqm.py:26-29 | the placeholder of source j is replaced by `(` + the source's rendering + `) AS ` + the placeholder's name as an identifier |
| Subqueries.SubqueryInjective | pgsqm.py:26-29 | the value given to a placeholder, `(` + the rendered source + `) AS ` + its name, determines both the rendered source and the name |
| Subqueries.SharedRenderedTwice | pgsqm.py:26-30 | one Table bound to two placeholders is rendered in full at both places |
| NamedDeps.SqlWithNamedDeps | pgsqm.py:33-39 | rendering succeeds exactly when every source has an identifier and every placeholder names a source (no source is named `self`; see Left out) |
| NamedDeps.NamedDepsFailure | pgsqm.py:36-38 | a failure is either the missing identifier of the first source without one, or, when every source has one, a placeholder that names no source |
| NamedDeps.NamedDepsAliased | pgsqm.py:36-38 | when every source has an identifier, a failure is always a placeholder that names no source |
| NamedDeps.NamedAt | pgsqm.py:37 | the placeholder of source j is replaced by `deps[t] AS name`, in place |
| Cte.Decimal | pgsqm.py:43 | `%d` of a natural number is a non-empty string of decimal digits without a leading zero, whose digits spell the number, most significant first |
| Cte.CteAliasForm | pgsqm.py:43 | the identifier for a position is `_cte` followed by decimal digits only |
| Cte.CteAliasInjective | pgsqm.py:43 | two positions get the same `_cte<i>` identifier only if they are the same position |
| Cte.CteNames | pgsqm.py:43 | the dict built from `enumerate(cte_deps)` has exactly the listed Tables as keys, each key once |
| Cte.CteNamesFirstSeen | pgsqm.py:43 | the dict's keys come in the order of their first appearance in `cte_deps`: wherever a later key appears, every earlier key has appeared before it |
| Cte.CteNamesLast | pgsqm.py:43 | a Table's identifier is `_cte<i>` for its last position i in the list |
| Cte.CteNamesOrder | pgsqm.py:43 | for a list with no repeated Table, the dict keeps the list's order |
| Cte.CteEntryInjective | pgsqm.py:45 | an entry `n AS (...)` determines both the identifier and the query inside the parentheses |
| Cte.WithClauseSnoc | pgsqm.py:44-47 | after `WITH `, each further entry follows the separator `\n   , `, and the clause ends with a newline |
| Cte.SqlWithCte | pgsqm.py:41-47 | `sql_with_cte` succeeds exactly when every listed Table and the root render with the `_cte` identifiers; when every listed Table renders, a failure is the root's own; on success the output starts with `WITH ` and ends with the root's rendering |
| Cte.CteFailure | pgsqm.py:43-47 | a failure of `sql_with_cte` is the error of the first listed Table, in the key order of `names`, whose rendering fails; only when every listed Table renders is it the root's own error |
| Cte.CteEntriesAt | pgsqm.py:43-47 | with no repeated Table, entry k is `_cte<k> AS (...)` around the rendering of the k-th Table, and the root's rendering follows the `WITH` clause |
| TopoSort.NotDone | pgsqm.py:58-59 | the filter keeps exactly the sources that are not Done |
| TopoSort.NotDoneCounts | pgsqm.py:58-59 | the filter keeps a source that is not Done as often as `source_tables` lists it, and drops every copy of a Done one |
| TopoSort.NotDoneOrder | pgsqm.py:58-59 | the filter keeps the sources in their listed order |
| SortFacts.NotDoneKeeps | pgsqm.py:58-59 | when no source is Done, the filter returns the sources unchanged, repetitions included |
| SortFacts.NotDoneAllDone | pgsqm.py:58-60 | when every source is Done, the filter returns nothing, so the Table is appended |
| TopoSort.MarkPending | pgsqm.py:65-67 | the inner loop succeeds exactly when the deps have no repetition and none is Pending; it then marks exactly them Pending, and a failure is the circular-dependency assertion |
| TopoSort.MarkEach | pgsqm.py:65-67 | the `for d in deps` loop computes exactly `MarkPending` |
| TopoSort.Reversed | pgsqm.py:68 | `reversed(deps)` holds the same Tables in the opposite order |
| TopoSort.WeightMark | pgsqm.py:62 | changing the mark of one Table changes the termination measure by the difference of the marks' ranks |
| TopoSort.StepAppend | pgsqm.py:57-63 | popping a Table with no unfinished source appends it, marks it Done, and lowers the measure |
| TopoSort.StepExpand | pgsqm.py:64-68 | popping a Table with unfinished sources pushes it back with its sources on top, and lowers the measure |
| TopoSort.SortFrom | pgsqm.py:56-69 | from any state the loop can fail only through the circular-dependency assertion |
| TopoSort.Sort | pgsqm.py:49-69 | a run fails only through the assertion, and a run that returns gives a dependency order: each Table reachable from the root once, sources first, root last |
| TopoSort.SortDependencies | pgsqm.py:49-69 | the loop returns exactly the run `Sort`; a failure is the circular-dependency assertion; a success is a dependency order: each reachable Table once, sources first, root last |
| SortFacts.OrderHasNoCycle | pgsqm.py:50 | no dependency order holds a Table that depends on itself |
| SortFacts.CycleFails | pgsqm.py:66 | a reachable Table that depends on itself makes `sort_dependencies` fail |
| SortFacts.ListedTwiceFails | pgsqm.py:58-67 | a root that lists one Table under two placeholders makes `sort_dependencies` fail, with no cycle needed |
| SortFacts.SortLeavesInSourceOrder | pgsqm.py:56-69 | a root whose distinct sources have no sources of their own is sorted as its sources in listed order, then itself |
| DfsSort.Visit | pgsqm.py:56-68 | the corrected visit of t keeps what was listed before, lists t, lists only Tables that t reaches and that are not in progress, and keeps the list free of repeats and each Table after its sources |
| DfsSort.VisitSources | pgsqm.py:58-68 | visiting the sources of t in turn lists every one of them and keeps the same invariants |
| DfsSort.DfsOrder | pgsqm.py:49-69 | the corrected sort fails only with the circular-dependency error, and on success returns a dependency order: each reachable Table once, sources first, root last |
| DfsSort.DfsTotal | pgsqm.py:65-67 | the corrected sort succeeds whenever no Table reachable from the root depends on itself, including graphs with repeated and shared sources |
| DfsSort.DfsCycleFails | pgsqm.py:66 | the corrected sort still fails when a reachable Table depends on itself |
| DfsSort.DfsFailsIffCycle | pgsqm.py:49-69 | the corrected sort fails exactly when a Table reachable from the root depends on itself |
| Pipeline.OrderAliases | pgsqm.py:43 | with `cte_deps` a dependency order without its last entry, every source of every rendered Table has a `_cte` identifier, and the rendered Tables are exactly those reachable from the root |
| Pipeline.CteOkIff | pgsqm.py:80 | on a dependency order, `sql_with_cte` succeeds exactly when every reachable Table binds all of its placeholders |
| Pipeline.CteFailsOnPlaceholder | pgsqm.py:80 | on a dependency order, `sql_with_cte` never fails on a missing identifier, only on a placeholder that names no source |
| Pipeline.CteRefersBack | pgsqm.py:42-43 | on a dependency order, each common table expression refers only to earlier ones, and the j-th is named `_cte<j>` |
| Pipeline.StrategiesAgree | pgsqm.py:79-80 | on a dependency order of a graph with a rank that falls along every dependency, the nested and the hoisted renderings succeed or fail together |
| Pipeline.SortThenCte | pgsqm.py:80 | when `sort_dependencies` succeeds, its order is a dependency order, and `sql_with_cte` on it succeeds exactly when all placeholders are bound; otherwise it fails only on a placeholder |
| Pipeline.DfsThenCte | pgsqm.py:80 | with the corrected sort, every graph with a rank that falls along every dependency has an order; `sql_with_cte` on it fails only on a placeholder, and agrees with the nested rendering |
| Demo.ExampleOrder | pgsqm.py:71-75 | `sort_dependencies(combine)` is `[hund, thou, combine]` |
| Demo.ExampleSubqueries | pgsqm.py:79 | `sql_with_subqueries(combine)` is the token list `SELECT h.a, h.b, t.b FROM `, `(`, hund's text, `) AS `, Identifier(h), ` LEFT JOIN `, `(`, thou's text, `) AS `, Identifier(t), ` USING (a)` |
| Demo.ExampleNames | pgsqm.py:43 | `[hund, thou]` gets the identifiers `_cte0` and `_cte1`, in that order |
| Demo.ExampleCte | pgsqm.py:80 | `sql_with_cte(combine, [hund, thou])`, on the order `ExampleOrder` gives without its last entry, is `WITH `, Identifier(_cte0), ` AS (`, hund's text, `)`, the separator, Identifier(_cte1), ` AS (`, thou's text, `)`, a newline, then combine's text with Identifier(_cte0) ` AS ` Identifier(h) and Identifier(_cte1) ` AS ` Identifier(t) in place of its placeholders |
| Demo.TwinsKept | pgsqm.py:16-20 | two Tables with equal contents are different Tables and are both sorted, in listed order |
| Demo.ListedTwiceExample | pgsqm.py:58-67 | a Table naming one acyclic source under two placeholders makes `sort_dependencies` fail |
| Demo.SharedWithSiblingExample | pgsqm.py:65-67 | for A → [C, B] with C → [B], which is acyclic, `sort_dependencies` fails: C finds B Pending |
| Demo.ListedTwiceFixed | pgsqm.py:58-67 | the corrected sort lists the twice-named source once: `[source, root]` |
| Demo.SharedWithSiblingFixed | pgsqm.py:65-67 | the corrected sort orders A → [C, B], C → [B] as `[B, C, A]` |
| Demo.TwoNames | pgsqm.py:43 | two different Tables get `_cte0` and `_cte1`, in order |
| Demo.RepeatedCteDep | pgsqm.py:43 | for `cte_deps = [a, b, a]` the dict keeps the key order `[a, b]`, but a's identifier is `_cte2`, from its last position |

## Left out

- psycopg2 itself is not part of this model. It supplies template parsing, identifier quoting, `as_string` and the connection. Templates are given already split into literal pieces and named placeholders. Positional `{}` and numbered `{0}` placeholders, `{{` escapes, and the quoting of identifiers are not modelled.
- `psycopg2.connect` and the two `print` calls (pgsqm.py:77-80) are I/O and are left out. The demo lemmas state the composed values that would be printed.
- SqlWithSubqueries: requires a rank that falls along every dependency of the whole graph, while Python needs only the Tables reachable from the rendered one to be free of cycles. Off that part the rank is not needed, but the model asks for it. On a cyclic graph Python recurses until `RecursionError`, and that non-termination is not modelled. Python's recursion limit also stops an acyclic chain of Tables deeper than about a thousand levels; the model renders such a chain.
- SqlWithCte: the docstring's precondition that `cte_deps` is topologically sorted is not checked by the code, and the model does not require it either. Its output on dependency orders is stated by the Pipeline lemmas.
- SqlWithSubqueries, SqlWithNamedDeps, SqlWithCte: the source names are passed to psycopg2's `SQL.format(self, *args, **kwargs)` as keyword arguments (pgsqm.py:25 and 36). A source named `self` therefore makes Python raise `TypeError` (multiple values for argument `self`), after the sources' values are computed and before any placeholder is filled. The model treats `self` like any other name and has no error for it. The contracts of these three members hold for Tables without a source named `self`.
- SameTable: models `__eq__` only. `Table` is a `NamedTuple` that defines only `__eq__` and `__hash__`, so `!=`, `<`, `<=`, `>` and `>=` keep tuple comparison of the contents. Two Tables with equal contents are then neither `==` nor `!=`. No code in pgsqm.py uses those operators, and they are not modelled.
- Hash: `hash(id(self))` is modelled as the identity itself. Python's concrete hash values are not modelled; only equality by identity matters to the dicts.
- Running Python with `-O` removes the assertion on pgsqm.py:66, and the loop then behaves differently. The model always checks the assertion.
- Every source is assumed to belong to the graph, and a Table's placeholder names to be distinct. A Python dict gives the latter by construction.

## Findings

| source | as written | input that shows it | evidently intended | confidence | as-written member | corrected member |
|---|---|---|---|---|---|---|
| pgsqm.py:65-67 | the assertion refuses any dependency already marked Pending, including one that a sibling only scheduled and whose visit is not in progress | A → [C, B] and C → [B], which is acyclic: C is expanded while B is still Pending | fail only on a real cycle, and list B once, before C | high, not executed | Demo.SharedWithSiblingExample | DfsSort.DfsFailsIffCycle |
| pgsqm.py:58-67 | deps keeps a source listed under two placeholders twice while it is not Done, and marking its second copy finds it Pending | T → {x: H, y: H}, with H a leaf | list H once, before T | high, not executed | SortFacts.ListedTwiceFails | Demo.ListedTwiceFixed |

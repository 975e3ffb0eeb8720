/** The part of psycopg2.sql the composer relies on, as token substitution:
    a template is literal text with named placeholders, a composed query is a
    sequence of raw text and identifiers (quoted only when rendered). */
module Sql {
  import opened Errors

  /** A parsed piece of the text given to SQL(...): literal text or `{name}`. */
  datatype Piece = Lit(text: string) | Hole(name: string)
  type Template = seq<Piece>

  /** One part of a Composed: SQL(text) or Identifier(name). */
  datatype Token = Text(text: string) | Ident(name: string)
  type Composed = seq<Token>

  /** The placeholder names a template uses. */
  function Holes(tpl: Template): set<string>
  {
    if tpl == [] then {}
    else (if tpl[0].Hole? then {tpl[0].name} else {}) + Holes(tpl[1..])
  }

  /** The template's own text, `{name}` standing for each placeholder. */
  function Verbatim(tpl: Template): (c: Composed)
    ensures |c| == |tpl|
    ensures forall i :: 0 <= i < |tpl| && tpl[i].Lit? ==> c[i] == Text(tpl[i].text)
  {
    if tpl == [] then []
    else
      var head := match tpl[0]
        case Lit(s) => Text(s)
        case Hole(n) => Text("{" + n + "}");
      [head] + Verbatim(tpl[1..])
  }

  /** Two renderings evaluated one after the other: the first error wins,
      otherwise the outputs are concatenated. */
  function Then(a: Result<Composed>, b: Result<Composed>): (r: Result<Composed>)
    ensures r.Ok? <==> a.Ok? && b.Ok?
    ensures r.Ok? ==> r.value == a.value + b.value
    ensures r.Err? ==> r.error == (if a.Err? then a.error else b.error)
  {
    match a
    case Err(e) => Err(e)
    case Ok(x) =>
      match b
      case Err(e) => Err(e)
      case Ok(y) => Ok(x + y)
  }

  /** One piece of SQL.format: a literal stays, a placeholder is replaced by its value. */
  function FormatPiece(p: Piece, args: map<string, Composed>): Result<Composed>
  {
    match p
    case Lit(s) => Ok([Text(s)])
    case Hole(n) => if n in args then Ok(args[n]) else Err(MissingPlaceholder(n))
  }

  /** SQL.format(**args): substitute every placeholder, scanning left to right;
      the first placeholder without a value raises KeyError. Values that no
      placeholder uses are ignored. */
  function Format(tpl: Template, args: map<string, Composed>): (r: Result<Composed>)
    ensures r.Ok? <==> Holes(tpl) <= args.Keys
    ensures r.Err? ==> r.error.MissingPlaceholder? && r.error.name in Holes(tpl) && r.error.name !in args
  {
    if tpl == [] then Ok([])
    else Then(FormatPiece(tpl[0], args), Format(tpl[1..], args))
  }

  /** SQL(sep).join(parts): the parts with `sep` between consecutive ones. */
  function Join(sep: Composed, parts: seq<Composed>): Composed
  {
    if |parts| == 0 then []
    else if |parts| == 1 then parts[0]
    else parts[0] + sep + Join(sep, parts[1..])
  }

  /** Joining one more part puts the separator and that part at the end. */
  lemma {:induction false} JoinSnoc(sep: Composed, parts: seq<Composed>, p: Composed)
    ensures Join(sep, parts + [p]) == if parts == [] then p else Join(sep, parts) + sep + p
    decreases |parts|
  {
    if |parts| >= 2 {
      assert (parts + [p])[1..] == parts[1..] + [p];
      JoinSnoc(sep, parts[1..], p);
    } else if |parts| == 1 {
      assert (parts + [p])[1..] == [p];
    }
  }

  lemma {:induction false} ThenAssociative(a: Result<Composed>, b: Result<Composed>, c: Result<Composed>)
    ensures Then(Then(a, b), c) == Then(a, Then(b, c))
  {
    if a.Ok? && b.Ok? && c.Ok? {
      assert (a.value + b.value) + c.value == a.value + (b.value + c.value);
    }
  }

  /** Formatting a concatenation is formatting each part in turn. */
  lemma {:induction false} FormatAppend(t1: Template, t2: Template, args: map<string, Composed>)
    ensures Format(t1 + t2, args) == Then(Format(t1, args), Format(t2, args))
  {
    if t1 == [] {
      assert t1 + t2 == t2;
      if Format(t2, args).Ok? {
        assert [] + Format(t2, args).value == Format(t2, args).value;
      }
    } else {
      assert (t1 + t2)[0] == t1[0];
      assert (t1 + t2)[1..] == t1[1..] + t2;
      FormatAppend(t1[1..], t2, args);
      ThenAssociative(FormatPiece(t1[0], args), Format(t1[1..], args), Format(t2, args));
    }
  }

  /** A template without placeholders renders to its own text, whatever the values. */
  lemma {:induction false} FormatVerbatim(tpl: Template, args: map<string, Composed>)
    requires Holes(tpl) == {}
    ensures Format(tpl, args) == Ok(Verbatim(tpl))
  {
    if tpl != [] {
      FormatVerbatim(tpl[1..], args);
    }
  }

  /** Formatting looks only at the values of the placeholders the template uses. */
  lemma {:induction false} FormatUsesOnlyHoles(tpl: Template, a: map<string, Composed>, b: map<string, Composed>)
    requires forall n :: n in Holes(tpl) ==> (n in a <==> n in b) && (n in a ==> a[n] == b[n])
    ensures Format(tpl, a) == Format(tpl, b)
  {
    if tpl != [] {
      FormatUsesOnlyHoles(tpl[1..], a, b);
    }
  }

  /** A one-piece template renders as that piece. */
  lemma FormatOne(p: Piece, args: map<string, Composed>)
    ensures Format([p], args) == FormatPiece(p, args)
  {
    assert [p][1..] == [];
    if FormatPiece(p, args).Ok? {
      assert FormatPiece(p, args).value + [] == FormatPiece(p, args).value;
    }
  }

  /** Each placeholder is replaced by its value, in place. */
  lemma FormatAt(pre: Template, n: string, post: Template, args: map<string, Composed>)
    requires Format(pre + [Hole(n)] + post, args).Ok?
    ensures n in args && Format(pre, args).Ok? && Format(post, args).Ok?
    ensures Format(pre + [Hole(n)] + post, args).value ==
            Format(pre, args).value + args[n] + Format(post, args).value
  {
    var a, h, b := Format(pre, args), Format([Hole(n)], args), Format(post, args);
    assert h == Then(FormatPiece(Hole(n), args), Format([], args));
    FormatAppend(pre + [Hole(n)], post, args);
    FormatAppend(pre, [Hole(n)], args);
    assert Format(pre + [Hole(n)] + post, args) == Then(Then(a, h), b);
    assert n in args;
    assert args[n] + [] == args[n];
  }

  lemma Regroup<T>(a: seq<T>, b: seq<T>, c: seq<T>, d: seq<T>, e: seq<T>)
    ensures a + b + (c + d + e) == a + b + c + d + e
  {
  }
}

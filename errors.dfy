/** The ways composing a query can fail. Each is an exception in the
    original program; here it is a value. */
module Errors {

  datatype Error =
    | MissingPlaceholder(name: string)  // KeyError raised by SQL.format: a placeholder has no value
    | MissingAlias(table: nat)          // KeyError raised by deps[t]: a source table has no alias
    | CircularDependency                // AssertionError "Circular Table dependency"

  datatype Result<T> = Ok(value: T) | Err(error: Error)

  /** Values computed one after another, in order: the first error is raised,
      otherwise all values are kept. */
  function Collect<T>(rs: seq<Result<T>>): (r: Result<seq<T>>)
    ensures r.Ok? <==> forall j :: 0 <= j < |rs| ==> rs[j].Ok?
    ensures r.Ok? ==> |r.value| == |rs| && forall j :: 0 <= j < |rs| ==> r.value[j] == rs[j].value
    ensures r.Err? ==> exists j :: 0 <= j < |rs| && rs[j] == Err(r.error) && forall k :: 0 <= k < j ==> rs[k].Ok?
  {
    if rs == [] then Ok([])
    else
      match rs[0]
      case Err(e) => Err(e)
      case Ok(v) =>
        match Collect(rs[1..])
        case Err(e) =>
          assert forall k :: 1 <= k < |rs| ==> rs[k] == rs[1..][k - 1];
          Err(e)
        case Ok(vs) => Ok([v] + vs)
  }
}

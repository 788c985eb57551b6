/** JavaScript values as the two request handlers see them: the fields of a
    request body, JSON values produced by the parser, and JavaScript's notion
    of a "truthy" value, which every `if (x)` and `x || y` in the handlers uses. */
module JsValues {

  /** `None` stands for `undefined`: a field missing from the request body,
      or an optional-chained property that was not there. */
  datatype Option<+T> = None | Some(value: T)

  /** A JSON value. Numbers are reals; NaN and the infinities cannot come out of
      a JSON parser, so they are not represented. */
  datatype Json =
    | JNull
    | JBool(b: bool)
    | JNumber(n: real)
    | JString(s: string)
    | JArray(items: seq<Json>)
    | JObject(fields: seq<(string, Json)>)

  /** JavaScript truthiness of a body field: `undefined`, `null`, `false`, `0`
      and `""` are falsy; every other value, arrays and objects included, is truthy. */
  predicate IsTruthy(v: Option<Json>)
  {
    match v
    case None => false
    case Some(JNull) => false
    case Some(JBool(b)) => b
    case Some(JNumber(n)) => n != 0.0
    case Some(JString(s)) => s != ""
    case Some(JArray(_)) => true
    case Some(JObject(_)) => true
  }

  /** JavaScript truthiness of a value that is a string when present. */
  predicate HasText(t: Option<string>)
  {
    t.Some? && t.value != ""
  }

  /** `a || b` where `a` is an optional string and `b` a string. */
  function OrElse(a: Option<string>, b: string): string
  {
    if HasText(a) then a.value else b
  }
}

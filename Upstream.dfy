/** The generateContent endpoint as both handlers use it: the generation
    options they send, one attempt and what comes back, and the JSON bodies
    the handlers answer with. The network call and `JSON.parse` are oracles:
    functions the handlers are parameterised by. */
module Upstream {
  import opened JsValues
  import opened Fences

  const DEFAULT_TEMPERATURE: Json := JNumber(0.3)
  const JSON_MIME_TYPE: string := "application/json"

  /** The `generationConfig` object of a request. */
  datatype GenerationConfig = GenerationConfig(temperature: Json, responseMimeType: string, responseSchema: Option<Json>)

  /** `temperature = 0.3` in a destructuring: the default replaces `undefined` only. */
  function Temperature(t: Option<Json>): Json
  {
    if t.Some? then t.value else DEFAULT_TEMPERATURE
  }

  /** The options `callGoogle(model, useSchema)` sends. */
  function BuildConfig(temperature: Option<Json>, schema: Option<Json>, useSchema: bool): (c: GenerationConfig)
    ensures c.temperature == Temperature(temperature)
    ensures temperature.None? ==> c.temperature == JNumber(0.3)
    ensures c.responseMimeType == JSON_MIME_TYPE
    ensures c.responseSchema.Some? <==> useSchema && IsTruthy(schema)
    ensures c.responseSchema.Some? ==> c.responseSchema == schema
  {
    var config := GenerationConfig(Temperature(temperature), JSON_MIME_TYPE, None);
    if useSchema && IsTruthy(schema) then config.(responseSchema := schema) else config
  }

  /** One upstream request: the model named in the URL, whether it is the
      strict (schema-carrying) or the relaxed try, and the payload. */
  datatype Attempt = Attempt(model: string, strict: bool, prompt: Json, config: GenerationConfig)

  /** What a request yields to the handler code. `Threw` is any exception on
      the way: `fetch` rejecting, a body that is not JSON, or reading the
      reply's text out of a body that has no such path. */
  datatype Reply =
    | Threw(message: string)
    | Answered(ok: bool, statusText: string, errorMessage: Option<string>, text: Option<string>)

  /** What `JSON.parse` does with a text. */
  datatype ParseResult = Parsed(value: Json) | SyntaxError(message: string)

  /** An attempt read to its end. */
  datatype AttemptResult = Succeeded(value: Json) | NoText | Failed(message: string)

  /** The text `JSON.parse` is given: the raw text on a strict attempt, the
      cleaned text on a relaxed one. */
  function ParsedText(strict: bool, text: string): string
  {
    if strict then text else Clean(text)
  }

  /** One attempt: the call, the error a non-ok reply raises
      (`data.error?.message || statusText`), the text lookup, and `JSON.parse`,
      of the raw text on a strict attempt and of the cleaned text otherwise.
      Any exception becomes `Failed` with its message. */
  function Perform(a: Attempt, upstream: Attempt -> Reply, parse: string -> ParseResult): (r: AttemptResult)
    ensures upstream(a).Threw? ==> r == Failed(upstream(a).message)
    ensures upstream(a).Answered? && !upstream(a).ok ==>
              r == Failed(OrElse(upstream(a).errorMessage, upstream(a).statusText))
    ensures r == NoText <==> upstream(a).Answered? && upstream(a).ok && !HasText(upstream(a).text)
    ensures r.Succeeded? <==>
              (upstream(a).Answered? && upstream(a).ok && HasText(upstream(a).text) &&
               parse(ParsedText(a.strict, upstream(a).text.value)).Parsed?)
    ensures r.Succeeded? ==> r.value == parse(ParsedText(a.strict, upstream(a).text.value)).value
    ensures (upstream(a).Answered? && upstream(a).ok && HasText(upstream(a).text) &&
             parse(ParsedText(a.strict, upstream(a).text.value)).SyntaxError?) ==>
              r == Failed(parse(ParsedText(a.strict, upstream(a).text.value)).message)
  {
    match upstream(a)
    case Threw(m) => Failed(m)
    case Answered(ok, statusText, errorMessage, text) =>
      if !ok then Failed(OrElse(errorMessage, statusText))
      else if !HasText(text) then NoText
      else
        match parse(ParsedText(a.strict, text.value))
        case Parsed(v) => Succeeded(v)
        case SyntaxError(m) => Failed(m)
  }

  /** The `detail` member of an error body: missing, `null`, or a message. */
  datatype Detail = Absent | Null | Message(text: string)

  /** A response body: `{ ok: true, data, model?, method: 'fallback'? }` or
      `{ error, detail? }`. */
  datatype Body =
    | Success(data: Json, model: Option<string>, fallback: bool)
    | Failure(error: string, detail: Detail)

  datatype Response = Response(status: int, body: Body)

  /** What a handler invocation does: its answer and every upstream request
      it made, in order. */
  datatype Outcome = Outcome(response: Response, calls: seq<Attempt>)
}

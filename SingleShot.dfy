/** The handler of api/generate.mjs: after the key and prompt checks it makes
    one request to a fixed model without a schema, cleans the returned text
    and parses it; every failure after the checks becomes one 500 body. */
module SingleShot {
  import opened JsValues
  import opened Fences
  import opened Upstream

  const MODEL: string := "gemini-pro"
  const MISSING_KEY: string := "Server Error: Falta GEMINI_API_KEY"
  const MISSING_PROMPT: string := "Falta el prompt"
  const GENERATION_FAILED: string := "Error al generar contenido"
  const NO_TEXT: string := "La IA respondi\U{F3} pero no gener\U{F3} texto."

  /** The inline `generationConfig`: the temperature and the JSON MIME type,
      never a schema; it is the relaxed options of the fallback handler. */
  function Config(temperature: Option<Json>): (c: GenerationConfig)
    ensures c.temperature == Temperature(temperature)
    ensures temperature.None? ==> c.temperature == JNumber(0.3)
    ensures c.responseMimeType == JSON_MIME_TYPE && c.responseSchema.None?
    ensures forall schema :: c == BuildConfig(temperature, schema, false)
  {
    GenerationConfig(Temperature(temperature), JSON_MIME_TYPE, None)
  }

  /** The request the handler makes. */
  function Request(prompt: Json, temperature: Option<Json>): Attempt
  {
    Attempt(MODEL, false, prompt, Config(temperature))
  }

  /** The 500 every failure after the checks maps to. */
  function Failed500(message: string): Response
  {
    Response(500, Failure(GENERATION_FAILED, Message(message)))
  }

  /** The whole handler. */
  function Handle(keyPresent: bool, prompt: Option<Json>, temperature: Option<Json>,
                  upstream: Attempt -> Reply, parse: string -> ParseResult): (o: Outcome)
    ensures !keyPresent ==> o == Outcome(Response(500, Failure(MISSING_KEY, Absent)), [])
    ensures keyPresent && !IsTruthy(prompt) ==> o == Outcome(Response(400, Failure(MISSING_PROMPT, Absent)), [])
    ensures keyPresent && IsTruthy(prompt) ==> o.calls == [Request(prompt.value, temperature)]
    ensures o.response.status == 200 <==> o.response.body.Success?
    ensures o.response.body.Success? ==> o.response.body.model.None? && !o.response.body.fallback
    ensures o.calls != [] && o.response.status != 200 ==>
              o.response.status == 500 && o.response.body.error == GENERATION_FAILED && o.response.body.detail.Message?
  {
    if !keyPresent then Outcome(Response(500, Failure(MISSING_KEY, Absent)), [])
    else if !IsTruthy(prompt) then Outcome(Response(400, Failure(MISSING_PROMPT, Absent)), [])
    else
      var request := Request(prompt.value, temperature);
      var response :=
        match upstream(request)
        case Threw(m) => Failed500(m)
        case Answered(ok, statusText, errorMessage, text) =>
          if !ok then Failed500(OrElse(errorMessage, statusText))
          else if HasText(text) then
            match parse(Clean(text.value))
            case Parsed(v) => Response(200, Success(v, None, false))
            case SyntaxError(m) => Failed500(m)
          else Failed500(NO_TEXT);
      Outcome(response, [request])
  }

  /** How each kind of reply maps to an answer: a non-ok reply carries the
      endpoint's error message, or the status text when that is empty or
      missing; an ok reply without text carries the fixed no-text message;
      text is cleaned before parsing, and a parse error carries its message. */
  lemma ReplyClassification(prompt: Json, temperature: Option<Json>,
                            upstream: Attempt -> Reply, parse: string -> ParseResult)
    ensures var reply := upstream(Request(prompt, temperature));
            var r := Handle(true, Some(prompt), temperature, upstream, parse).response;
            IsTruthy(Some(prompt)) ==>
              (reply.Threw? ==> r == Failed500(reply.message)) &&
              (reply.Answered? && !reply.ok ==>
                 r == Failed500(if HasText(reply.errorMessage) then reply.errorMessage.value else reply.statusText)) &&
              (reply.Answered? && reply.ok && !HasText(reply.text) ==> r == Failed500(NO_TEXT)) &&
              (reply.Answered? && reply.ok && HasText(reply.text) ==>
                 var parsed := parse(Clean(reply.text.value));
                 (r.status == 200 <==> parsed.Parsed?) &&
                 (parsed.Parsed? ==> r.body == Success(parsed.value, None, false)) &&
                 (parsed.SyntaxError? ==> r == Failed500(parsed.message)))
  {
  }

  /** The single request behaves as a relaxed try of the fallback handler:
      the answer is 200 exactly when that try succeeds, with its value, and
      otherwise carries the try's failure message, or the no-text message. */
  lemma AgreesWithRelaxedTry(prompt: Json, temperature: Option<Json>,
                             upstream: Attempt -> Reply, parse: string -> ParseResult)
    requires IsTruthy(Some(prompt))
    ensures var a := Request(prompt, temperature);
            var r := Handle(true, Some(prompt), temperature, upstream, parse).response;
            match Perform(a, upstream, parse)
            case Succeeded(v) => r == Response(200, Success(v, None, false))
            case NoText => r == Failed500(NO_TEXT)
            case Failed(m) => r == Failed500(m)
  {
  }
}

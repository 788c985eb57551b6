# Gemini request handlers: a verified model

This project models the request-outcome logic of two serverless handlers.
Each one forwards a prompt to Google's Gemini `generateContent` endpoint and
answers with JSON:

- `api/generate.js` is the fallback handler. It checks for the API key and the
  prompt. It then walks the fixed candidates `gemini-2.0-flash` and
  `gemini-1.5-flash`. Each model gets a *strict* request that carries the
  caller's `responseSchema`.
  - If that request throws and the message contains `INVALID_ARGUMENT`, `Json`
    or `400`, the same model gets a *relaxed* request with no schema. Its text
    is cleaned of Markdown code fences before it is parsed.
  - Otherwise the message becomes `lastError` and the loop moves on to the
    next model.
  - The first reply that parses is returned as a 200. When the loop runs out,
    the answer is a 500 whose `detail` is `lastError`.
- `api/generate.mjs` is the single-shot handler. It does the same checks, then
  makes one request to `gemini-pro` with no schema. It cleans and parses the
  text. Every later failure becomes one 500 body.

The network call and `JSON.parse` are oracles: functions the handlers take as
parameters.
- `upstream: Attempt -> Reply` gives what a request yields. Either the code
  threw with some message, or a reply came back with its `ok`, `statusText`,
  `error.message` and `candidates[0].content.parts[0].text`.
- `parse: string -> ParseResult` gives `JSON.parse`'s value or its error
  message.

Every (model, strict/relaxed) request happens at most once per invocation.
So describing the endpoint as a function of the request loses no behaviour.
Each handler also returns the exact sequence of requests it made.

Modules, one per file:

- `JsValues`: `Option` (with `None` standing for `undefined`), JSON values,
  and JavaScript truthiness of body fields and texts.
- `TextOps`: `String.prototype.includes`, `replace(/p/g, '')` with a literal
  pattern (a left-to-right scan that deletes non-overlapping occurrences), and
  `trim` with ECMAScript's white-space set.
- `Fences`: the clean-up `replace(/```json/g, '').replace(/```/g, '').trim()`.
- `Upstream`: the generation options, one request, the classification of
  what comes back (`Perform`) and the response bodies.
- `Fallback`: the generate.js handler.
  - Specification functions: `TryModel` is one pass of the loop, `Run` the
    loop, `Expected` the handler.
  - The imperative handler: `Handle`, its loop body `TryCandidate` and the
    `try` block `Try`. Each is proved equal to its specification function.
  - Lemmas about the loop.
- `SingleShot`: the generate.mjs handler, a pure function, and lemmas about it.

Where the model reads a source behaviour in a particular way:

- **Truthiness.** `!prompt` and `useSchema && responseSchema` use JavaScript
  truthiness, so `null`, `false`, `0` and `""` count as missing. `if (text)`
  treats an empty text like no text.
- **Defaults.** The `temperature = 0.3` default replaces only `undefined`. An
  explicit `null` is sent as it is.
- **Where exceptions land.** On the strict path, a `JSON.parse` error raised
  at api/generate.js:79 is caught by the same `catch` as a failed call
  (line 83). So its message goes through the same test at line 88. The
  `Reply.Threw` case also covers an exception raised while reading the text
  (line 77), because that lands in the same `catch`.
- **`lastError` is not always updated.** When a relaxed request returns no
  text, `lastError` stays as it was. The strict failure that caused the retry
  is never recorded. `Fallback.Recorded` and `Fallback.LastRecorded` state
  which requests leave a message behind.

## Model

| member | source | states |
|---|---|---|
| TextOps.IncludesIff | api/generate.js:88 | `includes` finds a pattern exactly when it occurs at some index of the string |
| TextOps.RemoveAll | api/generate.js:98 | the global replace by the empty string never lengthens the text, and shortens it whenever the pattern occurs in it (with `RemoveAllAbsent`: it changes the text exactly when the pattern occurs) |
| TextOps.RemoveAllAbsent | api/generate.js:98 | a text without the pattern comes back unchanged |
| TextOps.RemoveAllAfterPlainPrefix | api/generate.js:98 | a prefix without the pattern's first character passes through unchanged, and the scan resumes after it |
| TextOps.RemoveAllTripleLeavesNone | api/generate.js:98 | after deleting every "```", no "```" is left: a deletion never joins backticks into a new fence |
| TextOps.TrimStart | api/generate.js:98 | removes exactly the leading white space: the result is a suffix, does not start with white space, and everything dropped is white space |
| TextOps.TrimEnd | api/generate.js:98 | removes exactly the trailing white space, in the same three senses |
| TextOps.Trim | api/generate.js:98 | the trimmed text is one contiguous piece `s[i..j]` of the input, everything before `i` and from `j` on is white space, and the piece neither starts nor ends with white space |
| TextOps.TrimIdempotent | api/generate.js:98 | trimming twice equals trimming once |
| Fences.Clean | api/generate.mjs:54 | the cleaned text contains no "```" and neither starts nor ends with white space |
| Fences.CleanIdempotent | api/generate.mjs:54 | cleaning a cleaned text changes nothing |
| Fences.CleanPlain | api/generate.mjs:54 | a text without backticks is only trimmed |
| Fences.CleanUnwrapsBlock | api/generate.js:97-98 | a backtick-free, trimmed JSON text wrapped as a "```json" block comes out exactly as that text |
| Upstream.BuildConfig | api/generate.js:37-44 | the options always carry the temperature (0.3 when the body has none) and the JSON MIME type; a schema is attached iff `useSchema` holds and the body's schema is truthy, and then it is the body's schema |
| Upstream.Perform | api/generate.js:60-99 | a request that throws fails with its message; a non-ok reply fails with `error.message`, or `statusText` when that is empty or missing; an ok reply without text is the only no-text case; an ok reply with text succeeds exactly when its raw text (strict) or cleaned text (relaxed) parses, with the parsed value, and otherwise fails with the parser's message |
| Fallback.IsRetryableIff | api/generate.js:88 | the relaxed retry qualifies exactly when `INVALID_ARGUMENT`, `Json` or `400` occurs in the message, case-sensitively |
| Fallback.TryModel | api/generate.js:71-109 | one pass of the loop makes one or two requests: first the strict request for the model, then the relaxed one iff the strict try failed with a qualifying message; a strict reply without text moves on with `lastError` unchanged; it returns iff its last request succeeded, with a 200 naming the model and the fallback mark on the relaxed try; otherwise it moves on with the last recorded message |
| Fallback.StrictParseErrorIsCaught | api/generate.js:79-88 | a parse error of the strict text is classified like a call failure: a qualifying message leads to the relaxed request, any other becomes `lastError` |
| Fallback.Try | api/generate.js:75-99 | the imperative `try` block computes exactly what `Perform` specifies |
| Fallback.TryCandidate | api/generate.js:71-109 | the imperative loop body makes exactly the requests, returns exactly the answer and leaves exactly the `lastError` that `TryModel` specifies |
| Fallback.Expected | api/generate.js:20-27 | a missing key gives the 500 before the prompt is looked at; a missing prompt gives the 400; both make no request; at most four requests in all |
| Fallback.Handle | api/generate.js:18-116 | the imperative handler, with its candidate loop and `lastError` variable, returns the answer `Expected` specifies and the exact list of requests it made |
| Fallback.RunCallBound | api/generate.js:70-110 | at most two requests per candidate model |
| Fallback.RunStrictOrder | api/generate.js:70-75 | the strict requests name an initial part of the candidate list, in order, each model once, and at least the first; when no request succeeds they name the whole list |
| Fallback.FailedModelMovesOn | api/generate.js:29-30 | when every try of a model fails and another model follows in the list, the requests of that model are followed at once by the strict request for the next one |
| Fallback.RunTrace | api/generate.js:70-109 | every request is the strict or relaxed request of its model; the first is the strict request for the first model; a relaxed request comes only right after a strict failure of the same model that qualifies; such a failure is always followed by that relaxed request, and is never the last request |
| Fallback.RunStopsAtSuccess | api/generate.js:78-100 | no request before the last one succeeded: the loop returns on the first success |
| Fallback.RunFirstSuccess | api/generate.js:78-116 | (through `AnswersWithLast`) the answer is 200 iff the last request succeeded, with its parsed value, its model and the fallback mark exactly for a relaxed try; otherwise it is a 500 |
| Fallback.RunExhaustedDetail | api/generate.js:102-116 | when no request succeeds, the 500 carries the message of the last request that recorded one (a failed relaxed try, or a failed strict try that does not qualify), or `null` when none did |
| Fallback.HandlerTrace | api/generate.js:30-110 | with key and prompt present: one to four requests, first the strict request for gemini-2.0-flash, with gemini-1.5-flash tried only after it; when no request succeeds both models were tried; and the retry shape of `RunTrace`, with no qualifying strict failure as the last request |
| Fallback.HandlerAnswer | api/generate.js:70-116 | with key and prompt present: 200 with the first success's value and model, or 500 with the last recorded message |
| SingleShot.Config | api/generate.mjs:36-40 | the options carry the temperature (0.3 by default) and the JSON MIME type and never a schema; they equal the fallback handler's relaxed options for any schema |
| SingleShot.Handle | api/generate.mjs:16-65 | a missing key gives the 500 before the prompt check, and a missing prompt the 400, with no request; otherwise exactly one request to gemini-pro; a 200 body has no model and no fallback mark; every later failure is a 500 with error `Error al generar contenido` and a message detail |
| SingleShot.ReplyClassification | api/generate.mjs:45-58 | a throw yields its message; a non-ok reply yields `error.message`, or `statusText` when that is empty or missing; an ok reply without text yields the fixed no-text message; an ok reply with text answers 200 exactly when its cleaned text parses, with the parsed value, and otherwise yields the parser's message |
| SingleShot.AgreesWithRelaxedTry | api/generate.mjs:29-58 | the single request behaves as a relaxed try of the fallback handler: 200 exactly when that try succeeds, with its value, and otherwise its failure message or the no-text message |

## Left out

- CORS headers, the OPTIONS pre-flight and the 405 for other methods
  (api/generate.js:3-16, api/generate.mjs:5-12). They are HTTP plumbing. The
  model starts at the key check.
- Reading `process.env.GEMINI_API_KEY`. The key's presence is a boolean
  input. The key never reaches the model, because the URL is not modelled.
- `fetch`, the URL, the request headers and the decoding of the reply
  envelope. The `upstream` oracle stands for all of them.
- `JSON.parse` itself. It is the `parse` oracle, and its error messages are
  whatever the oracle says.
- Logging (`console.log`, `warn`, `error`).
- The outer catch of api/generate.js:118-120. Inside the model, every
  exception is caught by the inner `catch` blocks. The case where a thrown
  value has no `message` is not represented.
- Concurrency. The model runs the requests one after another; that they never
  overlap holds by construction, not by proof.
- JavaScript strings are UTF-16 code units. The model's strings are sequences
  of Unicode scalar values. The two agree for the ASCII patterns and the
  white-space characters involved, except for unpaired surrogates.
- Numbers are exact reals. The binary rounding of `0.3`, NaN and the
  infinities are not modelled.
- `prompt`, `temperature` and `responseSchema` are JSON values. The reply's
  text and `error.message` are strings. Non-string texts are not modelled.

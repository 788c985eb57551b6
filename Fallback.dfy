/** The handler of api/generate.js: after the key and prompt checks it walks a
    fixed list of models; each model gets a strict try that carries the
    caller's schema and, when that try fails with a message that looks like a
    validation error, a relaxed try without it. The first reply that parses is
    the answer; when every try fails, the last recorded failure message is. */
module Fallback {
  import opened JsValues
  import opened TextOps
  import opened Fences
  import opened Upstream

  const CANDIDATES: seq<string> := ["gemini-2.0-flash", "gemini-1.5-flash"]
  const MISSING_KEY: string := "Server Error: Missing GEMINI_API_KEY environment variable."
  const MISSING_PROMPT: string := "Missing prompt"
  const EXHAUSTED: string := "No se pudo generar el contenido tras varios intentos."

  /** The members of the request body the handler reads. */
  datatype RequestBody = RequestBody(prompt: Option<Json>, responseSchema: Option<Json>, temperature: Option<Json>)

  /** What every try of one invocation shares: the (truthy) prompt, the body's
      schema and temperature, the endpoint and the JSON parser. */
  datatype Env = Env(
    prompt: Json,
    schema: Option<Json>,
    temperature: Option<Json>,
    upstream: Attempt -> Reply,
    parse: string -> ParseResult)

  /** `callGoogle(model, true)` */
  function StrictAttempt(model: string, env: Env): Attempt
  {
    Attempt(model, true, env.prompt, BuildConfig(env.temperature, env.schema, true))
  }

  /** `callGoogle(model, false)` */
  function LooseAttempt(model: string, env: Env): Attempt
  {
    Attempt(model, false, env.prompt, BuildConfig(env.temperature, env.schema, false))
  }

  /** The case-sensitive test that sends a failed strict try to the relaxed one. */
  predicate IsRetryable(message: string)
  {
    Includes(message, "INVALID_ARGUMENT") || Includes(message, "Json") || Includes(message, "400")
  }

  /** The test holds exactly when one of the three markers occurs somewhere
      in the message, with the case as written. */
  lemma IsRetryableIff(message: string)
    ensures IsRetryable(message) <==>
              (exists i :: OccursAt(message, "INVALID_ARGUMENT", i)) ||
              (exists i :: OccursAt(message, "Json", i)) ||
              (exists i :: OccursAt(message, "400", i))
  {
    IncludesIff(message, "INVALID_ARGUMENT");
    IncludesIff(message, "Json");
    IncludesIff(message, "400");
  }

  /** A strict try whose failure qualifies for the relaxed retry. */
  predicate QualifiesForRetry(a: Attempt, env: Env)
  {
    a.strict && Perform(a, env.upstream, env.parse).Failed? &&
    IsRetryable(Perform(a, env.upstream, env.parse).message)
  }

  function DetailOf(lastError: Option<string>): Detail
  {
    if lastError.Some? then Message(lastError.value) else Null
  }

  /** What one try writes into `lastError`: the message of a failed relaxed
      try, or of a failed strict try that does not qualify for the retry. */
  function Recorded(a: Attempt, env: Env): Option<string>
  {
    match Perform(a, env.upstream, env.parse)
    case Failed(m) => if a.strict && IsRetryable(m) then None else Some(m)
    case _ => None
  }

  /** `lastError` after the tries `calls`, starting from `acc`. */
  function LastRecorded(calls: seq<Attempt>, acc: Option<string>, env: Env): Option<string>
    decreases |calls|
  {
    if calls == [] then acc
    else
      var r := Recorded(calls[0], env);
      LastRecorded(calls[1..], if r.Some? then r else acc, env)
  }

  lemma {:induction false} LastRecordedAppend(a: seq<Attempt>, b: seq<Attempt>, acc: Option<string>, env: Env)
    ensures LastRecorded(a + b, acc, env) == LastRecorded(b, LastRecorded(a, acc, env), env)
    decreases |a|
  {
    if a == [] {
      assert a + b == b;
    } else {
      assert (a + b)[1..] == a[1..] + b;
      var r := Recorded(a[0], env);
      LastRecordedAppend(a[1..], b, if r.Some? then r else acc, env);
    }
  }

  datatype Step = Returned(response: Response) | Continued(lastError: Option<string>)
  datatype Trial = Trial(step: Step, calls: seq<Attempt>)

  /** One pass of the candidate loop (generate.js:71-109). */
  function TryModel(model: string, lastError: Option<string>, env: Env): (t: Trial)
    ensures 1 <= |t.calls| <= 2 && t.calls[0] == StrictAttempt(model, env)
    ensures |t.calls| == 2 <==> QualifiesForRetry(StrictAttempt(model, env), env)
    ensures |t.calls| == 2 ==> t.calls[1] == LooseAttempt(model, env)
    ensures Perform(StrictAttempt(model, env), env.upstream, env.parse) == NoText ==>
              t == Trial(Continued(lastError), [StrictAttempt(model, env)])
    ensures t.step.Continued? ==> t.step.lastError == LastRecorded(t.calls, lastError, env)
    ensures t.step.Returned? <==> Perform(t.calls[|t.calls| - 1], env.upstream, env.parse).Succeeded?
    ensures t.step.Returned? ==>
              var last := t.calls[|t.calls| - 1];
              t.step.response == Response(200, Success(Perform(last, env.upstream, env.parse).value, Some(model), !last.strict))
  {
    var strict := StrictAttempt(model, env);
    match Perform(strict, env.upstream, env.parse)
    case Succeeded(v) => Trial(Returned(Response(200, Success(v, Some(model), false))), [strict])
    case NoText => Trial(Continued(lastError), [strict])
    case Failed(m) =>
      if !IsRetryable(m) then Trial(Continued(Some(m)), [strict])
      else
        var loose := LooseAttempt(model, env);
        assert [strict, loose][1..] == [loose] && [loose][1..] == [];
        match Perform(loose, env.upstream, env.parse)
        case Succeeded(v) => Trial(Returned(Response(200, Success(v, Some(model), true))), [strict, loose])
        case NoText =>
          assert Recorded(strict, env) == None && Recorded(loose, env) == None;
          assert LastRecorded([strict, loose], lastError, env) == LastRecorded([loose], lastError, env);
          assert LastRecorded([loose], lastError, env) == LastRecorded([], lastError, env);
          Trial(Continued(lastError), [strict, loose])
        case Failed(m') =>
          assert Recorded(strict, env) == None && Recorded(loose, env) == Some(m');
          assert LastRecorded([strict, loose], lastError, env) == LastRecorded([loose], lastError, env);
          assert LastRecorded([loose], lastError, env) == LastRecorded([], Some(m'), env);
          Trial(Continued(Some(m')), [strict, loose])
  }

  /** A strict reply whose text `JSON.parse` rejects lands in the same catch
      as a failed call: its parser message decides whether the relaxed try
      follows, and otherwise becomes `lastError`. */
  lemma StrictParseErrorIsCaught(model: string, lastError: Option<string>, env: Env, message: string)
    requires var reply := env.upstream(StrictAttempt(model, env));
             reply.Answered? && reply.ok && HasText(reply.text) &&
             env.parse(reply.text.value) == SyntaxError(message)
    ensures var t := TryModel(model, lastError, env);
            (IsRetryable(message) ==> t.calls == [StrictAttempt(model, env), LooseAttempt(model, env)]) &&
            (!IsRetryable(message) ==> t == Trial(Continued(Some(message)), [StrictAttempt(model, env)]))
  {
  }

  /** The candidate loop over `models`, from `lastError` on, and the 500 that
      follows it when no try succeeded. */
  function Run(models: seq<string>, lastError: Option<string>, env: Env): Outcome
    decreases |models|
  {
    if models == [] then Outcome(Response(500, Failure(EXHAUSTED, DetailOf(lastError))), [])
    else
      var t := TryModel(models[0], lastError, env);
      match t.step
      case Returned(response) => Outcome(response, t.calls)
      case Continued(next) =>
        var rest := Run(models[1..], next, env);
        Outcome(rest.response, t.calls + rest.calls)
  }

  lemma RunUnfold(models: seq<string>, lastError: Option<string>, env: Env)
    requires models != []
    ensures var t := TryModel(models[0], lastError, env);
            Run(models, lastError, env) ==
              if t.step.Returned? then Outcome(t.step.response, t.calls)
              else
                var rest := Run(models[1..], t.step.lastError, env);
                Outcome(rest.response, t.calls + rest.calls)
  {
  }

  lemma AppendAssociative(a: seq<Attempt>, b: seq<Attempt>, c: seq<Attempt>)
    ensures a + (b + c) == (a + b) + c
  {
  }

  /** The whole handler, from the key and prompt checks on. */
  function Expected(keyPresent: bool, body: RequestBody, upstream: Attempt -> Reply, parse: string -> ParseResult): (o: Outcome)
    ensures !keyPresent ==> o == Outcome(Response(500, Failure(MISSING_KEY, Absent)), [])
    ensures keyPresent && !IsTruthy(body.prompt) ==> o == Outcome(Response(400, Failure(MISSING_PROMPT, Absent)), [])
    ensures |o.calls| <= 2 * |CANDIDATES|
  {
    if !keyPresent then Outcome(Response(500, Failure(MISSING_KEY, Absent)), [])
    else if !IsTruthy(body.prompt) then Outcome(Response(400, Failure(MISSING_PROMPT, Absent)), [])
    else
      var env := Env(body.prompt.value, body.responseSchema, body.temperature, upstream, parse);
      RunCallBound(CANDIDATES, None, env);
      Run(CANDIDATES, None, env)
  }

  /** One `try` block of the loop: `callGoogle`, the text lookup and
      `JSON.parse` (of the cleaned text on the relaxed try), with whatever
      they throw caught as a message. */
  method Try(a: Attempt, upstream: Attempt -> Reply, parse: string -> ParseResult) returns (r: AttemptResult)
    ensures r == Perform(a, upstream, parse)
  {
    match upstream(a) {
      case Threw(m) =>
        r := Failed(m);
      case Answered(ok, statusText, errorMessage, text) =>
        if !ok {
          r := Failed(OrElse(errorMessage, statusText));
        } else if !HasText(text) {
          r := NoText;
        } else {
          var source := text.value;
          if !a.strict {
            source := Clean(source);
          }
          match parse(source) {
            case Parsed(v) => r := Succeeded(v);
            case SyntaxError(m) => r := Failed(m);
          }
        }
    }
  }

  /** One pass of the candidate loop as the handler runs it: the strict try,
      and in its catch the relaxed try when the message qualifies, or else
      the message recorded in `lastError`. `answer` is the response the
      handler returns, if any; `made` the requests made. */
  method TryCandidate(model: string, lastError: Option<string>, env: Env)
    returns (answer: Option<Response>, newLastError: Option<string>, made: seq<Attempt>)
    ensures Trial(if answer.Some? then Returned(answer.value) else Continued(newLastError), made)
            == TryModel(model, lastError, env)
  {
    answer, newLastError := None, lastError;
    var strict := StrictAttempt(model, env);
    made := [strict];
    var first := Try(strict, env.upstream, env.parse);
    match first {
      case Succeeded(v) =>
        answer := Some(Response(200, Success(v, Some(model), false)));
      case NoText =>
      case Failed(message) =>
        if IsRetryable(message) {
          var loose := LooseAttempt(model, env);
          made := made + [loose];
          var second := Try(loose, env.upstream, env.parse);
          match second {
            case Succeeded(v) =>
              answer := Some(Response(200, Success(v, Some(model), true)));
            case NoText =>
            case Failed(m) =>
              newLastError := Some(m);
          }
        } else {
          newLastError := Some(message);
        }
    }
  }

  /** The handler itself. `calls` lists every upstream request, in the order made. */
  method Handle(keyPresent: bool, body: RequestBody, upstream: Attempt -> Reply, parse: string -> ParseResult)
    returns (response: Response, calls: seq<Attempt>)
    ensures Outcome(response, calls) == Expected(keyPresent, body, upstream, parse)
  {
    calls := [];
    if !keyPresent {
      response := Response(500, Failure(MISSING_KEY, Absent));
      return;
    }
    if !IsTruthy(body.prompt) {
      response := Response(400, Failure(MISSING_PROMPT, Absent));
      return;
    }
    var env := Env(body.prompt.value, body.responseSchema, body.temperature, upstream, parse);
    var lastError: Option<string> := None;
    var i := 0;
    assert CANDIDATES[0..] == CANDIDATES;
    while i < |CANDIDATES|
      invariant 0 <= i <= |CANDIDATES|
      invariant Run(CANDIDATES, None, env) ==
                  var rest := Run(CANDIDATES[i..], lastError, env);
                  Outcome(rest.response, calls + rest.calls)
    {
      var model := CANDIDATES[i];
      assert CANDIDATES[i..][0] == model && CANDIDATES[i..][1..] == CANDIDATES[i + 1..];
      RunUnfold(CANDIDATES[i..], lastError, env);
      var answer, made;
      answer, lastError, made := TryCandidate(model, lastError, env);
      ghost var before := calls;
      calls := calls + made;
      if answer.Some? {
        response := answer.value;
        return;
      }
      ghost var rest := Run(CANDIDATES[i + 1..], lastError, env);
      AppendAssociative(before, made, rest.calls);
      i := i + 1;
    }
    response := Response(500, Failure(EXHAUSTED, DetailOf(lastError)));
    assert calls + [] == calls;
  }

  // ---------------------------------------------------------------------
  // Properties of the candidate loop, for any list of models

  /** At most two requests per model. */
  lemma {:induction false} RunCallBound(models: seq<string>, lastError: Option<string>, env: Env)
    ensures |Run(models, lastError, env).calls| <= 2 * |models|
    decreases |models|
  {
    if models != [] {
      var t := TryModel(models[0], lastError, env);
      if t.step.Continued? {
        RunCallBound(models[1..], t.step.lastError, env);
      }
    }
  }

  /** The models of the strict tries, in order. */
  function StrictModels(calls: seq<Attempt>): seq<string>
    decreases |calls|
  {
    if calls == [] then []
    else (if calls[0].strict then [calls[0].model] else []) + StrictModels(calls[1..])
  }

  lemma {:induction false} StrictModelsAppend(a: seq<Attempt>, b: seq<Attempt>)
    ensures StrictModels(a + b) == StrictModels(a) + StrictModels(b)
    decreases |a|
  {
    if a == [] {
      assert a + b == b;
    } else {
      assert (a + b)[1..] == a[1..] + b;
      StrictModelsAppend(a[1..], b);
    }
  }

  /** `s` is an initial piece of `models`. */
  predicate IsPrefix(s: seq<string>, models: seq<string>)
  {
    |s| <= |models| && s == models[..|s|]
  }

  lemma PrefixCons(s: seq<string>, models: seq<string>)
    requires models != [] && IsPrefix(s, models[1..])
    ensures IsPrefix([models[0]] + s, models)
  {
    assert models[1..][..|s|] == models[1..|s| + 1];
    assert models[..|s| + 1] == [models[0]] + models[1..|s| + 1];
  }

  lemma TrialStrictModels(model: string, lastError: Option<string>, env: Env)
    ensures StrictModels(TryModel(model, lastError, env).calls) == [model]
  {
    var calls := TryModel(model, lastError, env).calls;
    if |calls| == 2 {
      assert calls[1..][1..] == [];
      assert !calls[1..][0].strict;
      assert StrictModels(calls[1..]) == [];
    } else {
      assert calls[1..] == [];
    }
  }

  /** Models are tried in list order, each once, from the first on; and when
      no try succeeds, every model of the list was tried. */
  lemma {:induction false} RunStrictOrder(models: seq<string>, lastError: Option<string>, env: Env)
    ensures var o := Run(models, lastError, env);
            var s := StrictModels(o.calls);
            IsPrefix(s, models) && (models != [] ==> |s| >= 1) &&
            (o.response.status != 200 ==> s == models)
    decreases |models|
  {
    if models != [] {
      var t := TryModel(models[0], lastError, env);
      TrialStrictModels(models[0], lastError, env);
      if t.step.Continued? {
        var rest := Run(models[1..], t.step.lastError, env);
        RunStrictOrder(models[1..], t.step.lastError, env);
        StrictModelsAppend(t.calls, rest.calls);
        PrefixCons(StrictModels(rest.calls), models);
        assert models == [models[0]] + models[1..];
      } else {
        PrefixCons([], models);
      }
    }
  }

  /** Every request is either the strict or the relaxed request for its model. */
  predicate WellBuilt(calls: seq<Attempt>, env: Env)
  {
    forall k :: 0 <= k < |calls| ==>
      calls[k] == if calls[k].strict then StrictAttempt(calls[k].model, env) else LooseAttempt(calls[k].model, env)
  }

  /** A relaxed request comes right after the strict request for the same
      model, and only when that strict try qualified for the retry. */
  predicate LooseOnlyAfterQualifying(calls: seq<Attempt>, env: Env)
  {
    forall k :: 0 <= k < |calls| && !calls[k].strict ==>
      0 < k && calls[k - 1] == StrictAttempt(calls[k].model, env) && QualifiesForRetry(calls[k - 1], env)
  }

  /** A strict try that qualifies for the retry, and that is not the last
      request, is followed by the relaxed request for its model. */
  predicate QualifyingIsRetried(calls: seq<Attempt>, env: Env)
  {
    forall k :: 0 <= k < |calls| - 1 && QualifiesForRetry(calls[k], env) ==>
      calls[k + 1] == LooseAttempt(calls[k].model, env)
  }

  lemma SingleShape(model: string, env: Env)
    ensures var calls := [StrictAttempt(model, env)];
            WellBuilt(calls, env) && LooseOnlyAfterQualifying(calls, env) && QualifyingIsRetried(calls, env)
  {
  }

  lemma PairShape(model: string, env: Env)
    requires QualifiesForRetry(StrictAttempt(model, env), env)
    ensures var calls := [StrictAttempt(model, env), LooseAttempt(model, env)];
            WellBuilt(calls, env) && LooseOnlyAfterQualifying(calls, env) && QualifyingIsRetried(calls, env)
  {
    var calls := [StrictAttempt(model, env), LooseAttempt(model, env)];
    assert forall k :: 0 <= k < |calls| && !calls[k].strict ==> k == 1;
    assert calls[1] == LooseAttempt(calls[0].model, env);
  }

  lemma TrialShape(t: Trial, model: string, lastError: Option<string>, env: Env)
    requires t == TryModel(model, lastError, env)
    ensures WellBuilt(t.calls, env) && LooseOnlyAfterQualifying(t.calls, env) && QualifyingIsRetried(t.calls, env)
    ensures !QualifiesForRetry(t.calls[|t.calls| - 1], env)
  {
    if |t.calls| == 1 {
      assert t.calls == [StrictAttempt(model, env)];
      SingleShape(model, env);
    } else {
      assert t.calls == [StrictAttempt(model, env), LooseAttempt(model, env)];
      PairShape(model, env);
    }
  }

  lemma ShapeAppend(a: seq<Attempt>, b: seq<Attempt>, env: Env)
    requires WellBuilt(a, env) && LooseOnlyAfterQualifying(a, env) && QualifyingIsRetried(a, env)
    requires WellBuilt(b, env) && LooseOnlyAfterQualifying(b, env) && QualifyingIsRetried(b, env)
    requires a != [] && !QualifiesForRetry(a[|a| - 1], env)
    requires b != [] ==> b[0].strict
    ensures WellBuilt(a + b, env) && LooseOnlyAfterQualifying(a + b, env) && QualifyingIsRetried(a + b, env)
  {
    var c := a + b;
    forall k | 0 <= k < |c| && !c[k].strict
      ensures 0 < k && c[k - 1] == StrictAttempt(c[k].model, env) && QualifiesForRetry(c[k - 1], env)
    {
      if k >= |a| {
        assert b[k - |a|] == c[k];
        assert c[k - 1] == b[k - |a| - 1];
      }
    }
    forall k | 0 <= k < |c| - 1 && QualifiesForRetry(c[k], env)
      ensures c[k + 1] == LooseAttempt(c[k].model, env)
    {
      if k >= |a| {
        assert b[k - |a|] == c[k];
        assert c[k + 1] == b[k - |a| + 1];
      }
    }
    assert WellBuilt(c, env) by {
      forall k | 0 <= k < |c|
        ensures c[k] == if c[k].strict then StrictAttempt(c[k].model, env) else LooseAttempt(c[k].model, env)
      {
        if k >= |a| {
          assert c[k] == b[k - |a|];
        }
      }
    }
  }

  /** The request trace of the loop: each request is the strict or relaxed
      request of its model, the first one is the strict request for the first
      model, the relaxed retry happens only after a strict try that qualifies
      for it, and every strict try that qualifies is followed by its relaxed
      retry (so none is the last request). */
  lemma {:induction false} RunTrace(models: seq<string>, lastError: Option<string>, env: Env)
    ensures var calls := Run(models, lastError, env).calls;
            WellBuilt(calls, env) && LooseOnlyAfterQualifying(calls, env) && QualifyingIsRetried(calls, env) &&
            (calls != [] ==> !QualifiesForRetry(calls[|calls| - 1], env)) &&
            (models != [] ==> calls != [] && calls[0] == StrictAttempt(models[0], env))
    decreases |models|
  {
    if models != [] {
      var t := TryModel(models[0], lastError, env);
      TrialShape(t, models[0], lastError, env);
      if t.step.Continued? {
        var rest := Run(models[1..], t.step.lastError, env);
        RunTrace(models[1..], t.step.lastError, env);
        ShapeAppend(t.calls, rest.calls, env);
        var c := t.calls + rest.calls;
        if rest.calls != [] {
          assert c[|c| - 1] == rest.calls[|rest.calls| - 1];
        } else {
          assert c == t.calls;
        }
      }
    }
  }

  /** A model whose tries all failed is followed by the strict request for
      the next model, right after its own requests. */
  lemma FailedModelMovesOn(models: seq<string>, lastError: Option<string>, env: Env)
    requires |models| >= 2 && TryModel(models[0], lastError, env).step.Continued?
    ensures var t := TryModel(models[0], lastError, env);
            var calls := Run(models, lastError, env).calls;
            |t.calls| < |calls| && calls[..|t.calls|] == t.calls &&
            calls[|t.calls|] == StrictAttempt(models[1], env)
  {
    var t := TryModel(models[0], lastError, env);
    var rest := Run(models[1..], t.step.lastError, env);
    assert models[1..][0] == models[1];
    RunUnfold(models[1..], t.step.lastError, env);
    var calls := t.calls + rest.calls;
    assert calls[..|t.calls|] == t.calls;
    assert calls[|t.calls|] == rest.calls[0];
  }

  /** No request but the last one succeeded. */
  predicate OnlyLastMaySucceed(calls: seq<Attempt>, env: Env)
  {
    forall k :: 0 <= k < |calls| - 1 ==> !Perform(calls[k], env.upstream, env.parse).Succeeded?
  }

  lemma OnlyLastMaySucceedAppend(a: seq<Attempt>, b: seq<Attempt>, env: Env)
    requires OnlyLastMaySucceed(a, env) && OnlyLastMaySucceed(b, env)
    requires a != [] && !Perform(a[|a| - 1], env.upstream, env.parse).Succeeded?
    ensures OnlyLastMaySucceed(a + b, env)
  {
    var c := a + b;
    forall k | 0 <= k < |c| - 1
      ensures !Perform(c[k], env.upstream, env.parse).Succeeded?
    {
      if k >= |a| {
        assert c[k] == b[k - |a|];
      }
    }
  }

  /** The loop stops at the first try that parses: no request but the last
      one succeeded. */
  lemma {:induction false} RunStopsAtSuccess(models: seq<string>, lastError: Option<string>, env: Env)
    ensures OnlyLastMaySucceed(Run(models, lastError, env).calls, env)
    decreases |models|
  {
    if models != [] {
      var t := TryModel(models[0], lastError, env);
      assert OnlyLastMaySucceed(t.calls, env);
      if t.step.Continued? {
        var rest := Run(models[1..], t.step.lastError, env);
        RunStopsAtSuccess(models[1..], t.step.lastError, env);
        OnlyLastMaySucceedAppend(t.calls, rest.calls, env);
      }
    }
  }

  /** The answer is 200 exactly when the last request succeeded, and then its
      body carries the parsed value and that request's model, with the
      fallback mark on a relaxed try; otherwise it is a 500. */
  predicate AnswersWithLast(o: Outcome, env: Env)
  {
    var n := |o.calls|;
    (o.response.status == 200 || o.response.status == 500) &&
    (o.response.status == 200 <==> n > 0 && Perform(o.calls[n - 1], env.upstream, env.parse).Succeeded?) &&
    (o.response.status == 200 ==>
       o.response.body == Success(Perform(o.calls[n - 1], env.upstream, env.parse).value,
                                  Some(o.calls[n - 1].model), !o.calls[n - 1].strict))
  }

  lemma AnswersWithLastAppend(a: seq<Attempt>, rest: Outcome, env: Env)
    requires a != [] && !Perform(a[|a| - 1], env.upstream, env.parse).Succeeded?
    requires AnswersWithLast(rest, env)
    ensures AnswersWithLast(Outcome(rest.response, a + rest.calls), env)
  {
    var c := a + rest.calls;
    if rest.calls != [] {
      assert c[|c| - 1] == rest.calls[|rest.calls| - 1];
    } else {
      assert c == a;
    }
  }

  /** A pass that returns answers with its last request. */
  lemma TrialAnswersWithLast(model: string, lastError: Option<string>, env: Env)
    requires TryModel(model, lastError, env).step.Returned?
    ensures var t := TryModel(model, lastError, env);
            AnswersWithLast(Outcome(t.step.response, t.calls), env)
  {
  }

  /** The loop answers with its last request: 200 exactly when that request
      succeeded, with its value, model and fallback mark, and 500 otherwise. */
  lemma {:induction false} RunFirstSuccess(models: seq<string>, lastError: Option<string>, env: Env)
    ensures AnswersWithLast(Run(models, lastError, env), env)
    decreases |models|
  {
    if models != [] {
      var t := TryModel(models[0], lastError, env);
      if t.step.Continued? {
        var rest := Run(models[1..], t.step.lastError, env);
        RunFirstSuccess(models[1..], t.step.lastError, env);
        AnswersWithLastAppend(t.calls, rest, env);
      } else {
        TrialAnswersWithLast(models[0], lastError, env);
      }
    }
  }

  /** When no try succeeds, the 500 carries the last recorded failure message,
      or `null` when no try recorded one. */
  lemma {:induction false} RunExhaustedDetail(models: seq<string>, lastError: Option<string>, env: Env)
    ensures var o := Run(models, lastError, env);
            o.response.status != 200 ==>
              o.response == Response(500, Failure(EXHAUSTED, DetailOf(LastRecorded(o.calls, lastError, env))))
    decreases |models|
  {
    if models != [] {
      var t := TryModel(models[0], lastError, env);
      if t.step.Continued? {
        var rest := Run(models[1..], t.step.lastError, env);
        RunExhaustedDetail(models[1..], t.step.lastError, env);
        LastRecordedAppend(t.calls, rest.calls, lastError, env);
      }
    }
  }

  // ---------------------------------------------------------------------
  // The handler with its two candidates

  /** With key and prompt present the handler makes between one and four
      requests: first the strict request for gemini-2.0-flash, then, unless
      that model answered, gemini-1.5-flash; when no try succeeds, both
      models were tried, each with its relaxed retry where it qualified. */
  lemma HandlerTrace(body: RequestBody, upstream: Attempt -> Reply, parse: string -> ParseResult)
    requires IsTruthy(body.prompt)
    ensures var o := Expected(true, body, upstream, parse);
            var env := Env(body.prompt.value, body.responseSchema, body.temperature, upstream, parse);
            1 <= |o.calls| <= 4 &&
            o.calls[0] == StrictAttempt("gemini-2.0-flash", env) &&
            (StrictModels(o.calls) == ["gemini-2.0-flash"] ||
             StrictModels(o.calls) == ["gemini-2.0-flash", "gemini-1.5-flash"]) &&
            (o.response.status != 200 ==> StrictModels(o.calls) == CANDIDATES) &&
            WellBuilt(o.calls, env) && LooseOnlyAfterQualifying(o.calls, env) && QualifyingIsRetried(o.calls, env) &&
            !QualifiesForRetry(o.calls[|o.calls| - 1], env)
  {
    var env := Env(body.prompt.value, body.responseSchema, body.temperature, upstream, parse);
    RunTrace(CANDIDATES, None, env);
    RunStrictOrder(CANDIDATES, None, env);
    var s := StrictModels(Run(CANDIDATES, None, env).calls);
    assert |s| == 1 || |s| == 2;
    assert CANDIDATES[..1] == ["gemini-2.0-flash"];
    assert CANDIDATES[..2] == CANDIDATES;
  }

  /** With key and prompt present the answer is 200 with the first parsed
      reply, or 500 with the last recorded failure message. */
  lemma HandlerAnswer(body: RequestBody, upstream: Attempt -> Reply, parse: string -> ParseResult)
    requires IsTruthy(body.prompt)
    ensures var o := Expected(true, body, upstream, parse);
            var env := Env(body.prompt.value, body.responseSchema, body.temperature, upstream, parse);
            var n := |o.calls|;
            n > 0 && OnlyLastMaySucceed(o.calls, env) &&
            (o.response.status == 200 <==> Perform(o.calls[n - 1], upstream, parse).Succeeded?) &&
            (o.response.status == 200 ==>
               o.response.body == Success(Perform(o.calls[n - 1], upstream, parse).value,
                                          Some(o.calls[n - 1].model), !o.calls[n - 1].strict)) &&
            (o.response.status != 200 ==>
               o.response == Response(500, Failure(EXHAUSTED, DetailOf(LastRecorded(o.calls, None, env)))))
  {
    var env := Env(body.prompt.value, body.responseSchema, body.temperature, upstream, parse);
    RunTrace(CANDIDATES, None, env);
    RunFirstSuccess(CANDIDATES, None, env);
    RunStopsAtSuccess(CANDIDATES, None, env);
    RunExhaustedDetail(CANDIDATES, None, env);
  }
}

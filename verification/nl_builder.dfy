/**
  The natural-language form filler (`parseIntent` in
  packages/frontend/src/hooks/useNLBuilder.ts): it checks the prompt, asks the
  back end to parse it, and copies the parsed fields into the form only when
  the model was confident enough. The request is an oracle (`Reply`);
  serialising the headers back to JSON text is a parameter.
 */
module NLBuilder {
  import opened Types
  import opened Text
  import opened TestStore
  import opened ConfigForm
  import IntentParser

  /** What the request to the parse endpoint gave. */
  datatype Reply =
    | Parsed(parsed: ParsedTestConfig)
    | HttpFailure(error: Option<string>)   // a non-2xx answer and the `error` field of its body
    | NetworkFailure(message: string)      // `fetch` itself threw

  /** The store writes the hook performs, in order. */
  datatype StoreWrite = SetParsing(parsing: bool) | SetError(error: Option<string>)

  datatype Outcome = Outcome(store: Store, form: FormValues, writes: seq<StoreWrite>, returned: Option<ParsedTestConfig>)

  const ShortPromptError := "Please describe your test in at least 5 characters"

  /** The shortest trimmed prompt worth sending. */
  const MinPromptLength: nat := 5

  /** The confidence at or above which parsed fields are applied. */
  const ConfidenceThreshold: real := 0.5

  function Apply(s: Store, w: StoreWrite): Store {
    match w
    case SetParsing(b) => s.(nlParsing := b)
    case SetError(e) => s.(nlError := e)
  }

  function ApplyAll(s: Store, ws: seq<StoreWrite>): Store {
    if |ws| == 0 then s else Apply(ApplyAll(s, ws[..|ws| - 1]), ws[|ws| - 1])
  }

  /** The message for a low-confidence parse, with the confidence as a rounded percentage. */
  function LowConfidenceError(confidence: real): string {
    "Low confidence (" + IntToString(JsRound(confidence * 100.0)) + "%) — please be more specific about the URL and parameters"
  }

  /** The error body's message when it has a non-empty one, "Parsing failed" otherwise; a thrown error's own message. */
  function FailureMessage(reply: Reply): (m: string)
    requires !reply.Parsed?
    ensures reply.HttpFailure? && (reply.error.None? || reply.error == Some("")) ==> m == "Parsing failed"
    ensures reply.HttpFailure? && reply.error.Some? && reply.error.value != "" ==> m == reply.error.value
    ensures reply.NetworkFailure? ==> m == reply.message
  {
    match reply
    case HttpFailure(e) => if e.Some? && e.value != "" then e.value else "Parsing failed"
    case NetworkFailure(msg) => msg
  }

  /** A number field is truthy when present and not zero. */
  predicate Truthy(x: Option<real>) {
    x.Some? && x.value != 0.0
  }

  predicate NonEmpty(x: Option<string>) {
    x.Some? && x.value != ""
  }

  /**
    The confident branch: url, name and body when non-empty; the method and
    the headers when present; concurrency, total requests and timeout when
    truthy, so a 0 is ignored; ramp-up and think time whenever defined, 0
    included.
   */
  function ApplyFields(f: FormValues, p: ParsedTestConfig, stringify: map<string, string> -> string): (g: FormValues)
    ensures g.url == (if NonEmpty(p.url) then p.url.value else f.url)
    ensures g.httpMethod == (if p.httpMethod.Some? then MethodName(p.httpMethod.value) else f.httpMethod)
    ensures g.name == (if NonEmpty(p.name) then p.name.value else f.name)
    ensures g.concurrency == (if Truthy(p.concurrency) then p.concurrency.value else f.concurrency)
    ensures g.totalRequests == (if Truthy(p.totalRequests) then p.totalRequests.value else f.totalRequests)
    ensures g.rampUpSeconds == (if p.rampUpSeconds.Some? then p.rampUpSeconds.value else f.rampUpSeconds)
    ensures g.timeoutMs == (if Truthy(p.timeoutMs) then p.timeoutMs.value else f.timeoutMs)
    ensures g.thinkTimeMs == (if p.thinkTimeMs.Some? then p.thinkTimeMs.value else f.thinkTimeMs)
    ensures g.body == (if NonEmpty(p.body) then p.body else f.body)
    ensures g.headers == (if p.headers.Some? then Some(stringify(p.headers.value)) else f.headers)
  {
    FormValues(
      if NonEmpty(p.name) then p.name.value else f.name,
      if NonEmpty(p.url) then p.url.value else f.url,
      if p.httpMethod.Some? then MethodName(p.httpMethod.value) else f.httpMethod,
      if p.headers.Some? then Some(stringify(p.headers.value)) else f.headers,
      if NonEmpty(p.body) then p.body else f.body,
      if Truthy(p.concurrency) then p.concurrency.value else f.concurrency,
      if Truthy(p.totalRequests) then p.totalRequests.value else f.totalRequests,
      if p.rampUpSeconds.Some? then p.rampUpSeconds.value else f.rampUpSeconds,
      if Truthy(p.timeoutMs) then p.timeoutMs.value else f.timeoutMs,
      if p.thinkTimeMs.Some? then p.thinkTimeMs.value else f.thinkTimeMs)
  }

  /** The error left after a prompt long enough to send: none after a confident parse. */
  function FinalError(reply: Reply): (e: Option<string>)
    ensures e.None? <==> reply.Parsed? && reply.parsed.confidence >= ConfidenceThreshold
  {
    match reply
    case Parsed(p) => if p.confidence >= ConfidenceThreshold then None else Some(LowConfidenceError(p.confidence))
    case _ => Some(FailureMessage(reply))
  }

  /**
    `parseIntent(prompt)` given what the request replies. A prompt under five
    characters once trimmed only sets the error. Otherwise the parsing flag is
    raised and the error cleared before the request, the flag is lowered on
    every way out, and the error is left cleared exactly after a confident
    parse. Only a confident parse changes the form.
   */
  function ParseIntent(s: Store, f: FormValues, prompt: string, reply: Reply, stringify: map<string, string> -> string): (o: Outcome)
    ensures |Trim(prompt)| < MinPromptLength ==>
      && o.writes == [SetError(Some(ShortPromptError))] && o.form == f && o.returned.None?
      && o.store == s.(nlError := Some(ShortPromptError))
    ensures |Trim(prompt)| >= MinPromptLength ==>
      && 3 <= |o.writes| <= 4
      && o.writes[0] == SetParsing(true) && o.writes[1] == SetError(None)
      && o.writes[|o.writes| - 1] == SetParsing(false)
      && (|o.writes| == 4 <==> FinalError(reply).Some?)
      && (|o.writes| == 4 ==> o.writes[2] == SetError(FinalError(reply)))
      && o.store == s.(nlParsing := false, nlError := FinalError(reply))
    ensures reply.Parsed? && reply.parsed.confidence < ConfidenceThreshold ==> o.form == f
    ensures o.form != f ==> reply.Parsed? && reply.parsed.confidence >= ConfidenceThreshold
    ensures o.returned.Some? <==> |Trim(prompt)| >= MinPromptLength && reply.Parsed?
    ensures o.returned.Some? ==> o.returned == Some(reply.parsed)
    ensures |Trim(prompt)| >= MinPromptLength && reply.Parsed? && reply.parsed.confidence >= ConfidenceThreshold ==>
      o.form == ApplyFields(f, reply.parsed, stringify)
  {
    if |Trim(prompt)| < MinPromptLength then
      Outcome(s.(nlError := Some(ShortPromptError)), f, [SetError(Some(ShortPromptError))], None)
    else
      var start := [SetParsing(true), SetError(None)];
      var store := s.(nlParsing := false, nlError := FinalError(reply));
      match reply
      case Parsed(p) =>
        if p.confidence >= ConfidenceThreshold then
          Outcome(store, ApplyFields(f, p, stringify), start + [SetParsing(false)], Some(p))
        else
          Outcome(store, f, start + [SetError(FinalError(reply)), SetParsing(false)], Some(p))
      case _ =>
        Outcome(store, f, start + [SetError(FinalError(reply)), SetParsing(false)], None)
  }

  /** The recorded writes, replayed in order on the store, give the final store. */
  lemma WritesReplay(s: Store, f: FormValues, prompt: string, reply: Reply, stringify: map<string, string> -> string)
    ensures var o := ParseIntent(s, f, prompt, reply, stringify); o.store == ApplyAll(s, o.writes)
  {
    var o := ParseIntent(s, f, prompt, reply, stringify);
    if |Trim(prompt)| < MinPromptLength {
      assert o.writes[..0] == [];
    } else {
      ReplaySettled(s, o.writes, FinalError(reply));
    }
  }

  /** Raising the flag, clearing the error, possibly setting it, and lowering the flag leaves only the last error. */
  lemma ReplaySettled(s: Store, ws: seq<StoreWrite>, e: Option<string>)
    requires 3 <= |ws| <= 4 && ws[0] == SetParsing(true) && ws[1] == SetError(None)
    requires ws[|ws| - 1] == SetParsing(false)
    requires |ws| == 4 <==> e.Some?
    requires |ws| == 4 ==> ws[2] == SetError(e)
    ensures ApplyAll(s, ws) == s.(nlParsing := false, nlError := e)
  {
    Replay3(s, ws[0], ws[1], ws[2]);
    if |ws| == 3 {
      assert ws == [ws[0], ws[1], ws[2]];
    } else {
      assert ws[..3] == [ws[0], ws[1], ws[2]];
    }
  }

  lemma Replay3(s: Store, a: StoreWrite, b: StoreWrite, c: StoreWrite)
    ensures ApplyAll(s, [a, b, c]) == Apply(Apply(Apply(s, a), b), c)
  {
    assert [a][..0] == [];
    assert ApplyAll(s, [a]) == Apply(s, a);
    assert [a, b][..1] == [a];
    assert ApplyAll(s, [a, b]) == Apply(ApplyAll(s, [a]), b);
    assert [a, b, c][..2] == [a, b];
  }

  /**
    The two treatments of zero: a 0 for concurrency, total requests or
    timeout leaves the form's value, while a 0 for ramp-up or think time is
    written into the form.
   */
  lemma ZeroFields(f: FormValues, p: ParsedTestConfig, stringify: map<string, string> -> string)
    ensures p.concurrency == Some(0.0) ==> ApplyFields(f, p, stringify).concurrency == f.concurrency
    ensures p.totalRequests == Some(0.0) ==> ApplyFields(f, p, stringify).totalRequests == f.totalRequests
    ensures p.timeoutMs == Some(0.0) ==> ApplyFields(f, p, stringify).timeoutMs == f.timeoutMs
    ensures p.rampUpSeconds == Some(0.0) ==> ApplyFields(f, p, stringify).rampUpSeconds == 0.0
    ensures p.thinkTimeMs == Some(0.0) ==> ApplyFields(f, p, stringify).thinkTimeMs == 0.0
  {
  }

  /**
    Applying a reply the intent parser produced to a form within the schema's
    bounds keeps every number within the parser's bounds, and within the
    schema's bounds except for a ramp-up above 300 s, which the parser allows
    up to 600 s and the form then rejects.
   */
  lemma AppliedReplyRanges(f: FormValues, prompt: string, reply: Option<ParsedTestConfig>, stringify: map<string, string> -> string)
    requires InFormRanges(f.concurrency, f.totalRequests, f.rampUpSeconds, f.timeoutMs, f.thinkTimeMs)
    ensures var g := ApplyFields(f, IntentParser.ParseIntent(prompt, reply), stringify);
      && 0.0 <= g.rampUpSeconds <= 600.0
      && (g.rampUpSeconds <= 300.0 ==> InFormRanges(g.concurrency, g.totalRequests, g.rampUpSeconds, g.timeoutMs, g.thinkTimeMs))
  {
  }

  /** The parser's bounds and the form's disagree: a ramp-up of 450 s survives clamping and fails the schema. */
  lemma RampBoundsDisagree(f: FormValues, urlIsValid: bool)
    requires f.rampUpSeconds == 450.0
    ensures IntentParser.Clamp(450.0, 0.0, 600.0) == 450.0
    ensures !Valid(f, urlIsValid)
  {
  }
}

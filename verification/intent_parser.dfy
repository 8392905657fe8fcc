/**
  The post-processing of `parseTestIntent` (packages/backend/src/ai/intent-parser.ts):
  the prompt is trimmed and capped before it is sent, and whatever object the
  language model answers with has its numeric fields forced into safe ranges.
  The model call and `JSON.parse` are not modelled: the parsed reply is a
  parameter, `None` when parsing threw.
 */
module IntentParser {
  import opened Types
  import Text

  /** The longest prompt sent to the model. */
  const MaxPromptLength: nat := 500

  /** The prompt as sent: trimmed, then cut to its first 500 characters. */
  function Sanitize(prompt: string): (s: string)
    ensures |s| == if |Text.Trim(prompt)| < MaxPromptLength then |Text.Trim(prompt)| else MaxPromptLength
    ensures s == Text.Trim(prompt)[..|s|]
  {
    var t := Text.Trim(prompt);
    if |t| < MaxPromptLength then t else t[..MaxPromptLength]
  }

  /** A short prompt is sent exactly as trimmed; a long one is cut, never padded or altered. */
  lemma SanitizeKeepsShortPrompts(prompt: string)
    requires |Text.Trim(prompt)| <= MaxPromptLength
    ensures Sanitize(prompt) == Text.Trim(prompt)
  {
  }

  /** What is sent starts with the first non-blank character of the prompt. */
  lemma SanitizedStartsAtText(prompt: string)
    ensures Sanitize(prompt) != [] ==> !Text.IsSpace(Sanitize(prompt)[0])
    ensures Sanitize(prompt) == [] <==> Text.Trim(prompt) == []
  {
    Text.TrimCharacterization(prompt);
  }

  /** `x` raised to `lo` when below it and lowered to `hi` when above it. */
  function Clamp(x: real, lo: real, hi: real): (r: real)
    requires lo <= hi
    ensures lo <= r <= hi
    ensures lo <= x <= hi ==> r == x
    ensures x < lo ==> r == lo
    ensures x > hi ==> r == hi
  {
    MinReal(MaxReal(lo, x), hi)
  }

  /**
    Clamping one optional field: only a present, non-zero value is clamped; an absent field or a zero stays as it was.
   */
  function ClampField(f: Option<real>, lo: real, hi: real): (r: Option<real>)
    requires lo <= hi
    ensures f.None? ==> r.None?
    ensures f == Some(0.0) ==> r == f
    ensures f.Some? && f.value != 0.0 ==> r.Some? && lo <= r.value <= hi
    ensures f.Some? && lo <= f.value <= hi ==> r == f
  {
    if f.Some? && f.value != 0.0 then Some(Clamp(f.value, lo, hi)) else f
  }

  /** Clamping a clamped field changes nothing. */
  lemma ClampFieldIdempotent(f: Option<real>, lo: real, hi: real)
    requires lo <= hi
    ensures ClampField(ClampField(f, lo, hi), lo, hi) == ClampField(f, lo, hi)
  {
  }

  /** The five clamps, each on its own field. */
  function ClampParsed(p: ParsedTestConfig): (r: ParsedTestConfig)
    ensures r.concurrency == ClampField(p.concurrency, 1.0, 1000.0)
    ensures r.totalRequests == ClampField(p.totalRequests, 1.0, 100000.0)
    ensures r.rampUpSeconds == ClampField(p.rampUpSeconds, 0.0, 600.0)
    ensures r.timeoutMs == ClampField(p.timeoutMs, 100.0, 60000.0)
    ensures r.thinkTimeMs == ClampField(p.thinkTimeMs, 0.0, 10000.0)
    ensures r.url == p.url && r.httpMethod == p.httpMethod && r.headers == p.headers && r.body == p.body
    ensures r.name == p.name && r.confidence == p.confidence && r.rawIntent == p.rawIntent
  {
    p.(concurrency := ClampField(p.concurrency, 1.0, 1000.0),
       totalRequests := ClampField(p.totalRequests, 1.0, 100000.0),
       rampUpSeconds := ClampField(p.rampUpSeconds, 0.0, 600.0),
       timeoutMs := ClampField(p.timeoutMs, 100.0, 60000.0),
       thinkTimeMs := ClampField(p.thinkTimeMs, 0.0, 10000.0))
  }

  /**
    The ranges a clamped reply keeps: a non-zero field lies in its range, and
    since 0 is inside the ranges of ramp-up and think time, those two always do.
   */
  predicate InSafeRanges(p: ParsedTestConfig) {
    && (p.concurrency.Some? && p.concurrency.value != 0.0 ==> 1.0 <= p.concurrency.value <= 1000.0)
    && (p.totalRequests.Some? && p.totalRequests.value != 0.0 ==> 1.0 <= p.totalRequests.value <= 100000.0)
    && (p.rampUpSeconds.Some? ==> 0.0 <= p.rampUpSeconds.value <= 600.0)
    && (p.timeoutMs.Some? && p.timeoutMs.value != 0.0 ==> 100.0 <= p.timeoutMs.value <= 60000.0)
    && (p.thinkTimeMs.Some? ==> 0.0 <= p.thinkTimeMs.value <= 10000.0)
  }

  /** After clamping, every present non-zero field is in its range; a zero may remain (for example `timeoutMs: 0`). */
  lemma ClampedIsSafe(p: ParsedTestConfig)
    ensures InSafeRanges(ClampParsed(p))
  {
  }

  /** A reply already in range passes through unchanged, and clamping twice is clamping once. */
  lemma ClampParsedFixedPoints(p: ParsedTestConfig)
    ensures InSafeRanges(p) ==> ClampParsed(p) == p
    ensures ClampParsed(ClampParsed(p)) == ClampParsed(p)
  {
    ClampFieldIdempotent(p.concurrency, 1.0, 1000.0);
    ClampFieldIdempotent(p.totalRequests, 1.0, 100000.0);
    ClampFieldIdempotent(p.rampUpSeconds, 0.0, 600.0);
    ClampFieldIdempotent(p.timeoutMs, 100.0, 60000.0);
    ClampFieldIdempotent(p.thinkTimeMs, 0.0, 10000.0);
  }

  /** The answer for an unparseable reply: no fields, zero confidence, the prompt as sent. */
  function Fallback(sanitized: string): (r: ParsedTestConfig)
    ensures r.confidence == 0.0 && r.rawIntent == sanitized
    ensures r.url.None? && r.httpMethod.None? && r.headers.None? && r.body.None? && r.name.None?
    ensures r.concurrency.None? && r.totalRequests.None? && r.rampUpSeconds.None?
    ensures r.timeoutMs.None? && r.thinkTimeMs.None?
  {
    ParsedTestConfig(None, None, None, None, None, None, None, None, None, None, 0.0, sanitized)
  }

  /**
    `parseTestIntent` given the parsed reply: the fallback when the reply was
    not valid JSON, otherwise the reply with its numeric fields clamped.
   */
  function ParseIntent(prompt: string, reply: Option<ParsedTestConfig>): (r: ParsedTestConfig)
    ensures reply.None? ==> r == Fallback(Sanitize(prompt))
    ensures reply.Some? ==> r == ClampParsed(reply.value)
    ensures InSafeRanges(r)
  {
    match reply
    case None => Fallback(Sanitize(prompt))
    case Some(p) =>
      ClampedIsSafe(p);
      ClampParsed(p)
  }
}

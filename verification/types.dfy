/**
  Shared data model of the load tester: the records exchanged between the
  engine, the statistics collector and the client (packages/frontend/src/types/index.ts).

  JavaScript numbers are modelled as `real` where the program may see
  fractional values (configuration fields, rates, wall-clock readings of
  `performance.now`) and as `int`/`nat` where they are integer by
  construction (counts, byte totals, `Date.now` milliseconds, histogram values).
 */
module Types {

  datatype Option<+T> = None | Some(value: T)

  /** An operation that either produces a value or throws with a message. */
  datatype Result<+T> = Success(value: T) | Failure(error: string)

  datatype HttpMethod = GET | POST | PUT | DELETE | PATCH

  /** 'paused' is declared by the program but never produced by the engine. */
  datatype TestStatus = Idle | Running | Paused | Completed | Error

  datatype LoadTestConfig = LoadTestConfig(
    id: string,
    name: string,
    url: string,
    httpMethod: HttpMethod,
    headers: map<string, string>,
    body: Option<string>,
    concurrency: real,     // parallel workers
    totalRequests: real,   // total requests to fire
    rampUpSeconds: real,   // gradual ramp-up period
    timeoutMs: real,       // per-request timeout
    thinkTimeMs: real      // delay between one worker's requests
  )

  /** The outcome of one request attempt, as the worker reports it. */
  datatype RequestResult = RequestResult(
    requestId: nat,
    startTime: real,
    endTime: real,
    latencyMs: real,
    statusCode: int,
    success: bool,
    error: Option<string>,
    bytes: nat
  )

  datatype LatencySummary = LatencySummary(
    min: int, max: int, mean: real,
    p50: int, p75: int, p90: int, p95: int, p99: int, p999: int
  )

  /** A JavaScript quotient `count / seconds`: finite, or what a zero divisor gives. */
  datatype Rate = Finite(value: real) | Infinite | NotANumber

  datatype TimelinePoint = TimelinePoint(
    timestamp: int,
    throughput: real,
    latencyP50: int,
    latencyP95: int,
    activeWorkers: nat,
    errorRate: real
  )

  datatype AggregatedStats = AggregatedStats(
    totalRequests: nat,
    successCount: nat,
    errorCount: nat,
    errorRate: real,
    throughput: Rate,
    bytesTransferred: nat,
    latency: LatencySummary,
    timeline: seq<TimelinePoint>
  )

  datatype Severity = Healthy | Warning | Critical

  datatype AIAnalysisResult = AIAnalysisResult(
    sessionId: string,
    analysis: string,
    severity: Severity,
    detectedIssues: seq<string>,
    suggestions: seq<string>,
    generatedAt: int
  )

  /** The configuration a language model extracted from a prompt; every field but two is optional. */
  datatype ParsedTestConfig = ParsedTestConfig(
    url: Option<string>,
    httpMethod: Option<HttpMethod>,
    headers: Option<map<string, string>>,
    body: Option<string>,
    concurrency: Option<real>,
    totalRequests: Option<real>,
    rampUpSeconds: Option<real>,
    timeoutMs: Option<real>,
    thinkTimeMs: Option<real>,
    name: Option<string>,
    confidence: real,
    rawIntent: string
  )

  /** `Math.round`: halves round towards positive infinity. */
  function JsRound(x: real): (r: int)
    ensures r as real - 0.5 <= x < r as real + 0.5
  {
    (x + 0.5).Floor
  }

  lemma JsRoundMonotonic(x: real, y: real)
    requires x <= y
    ensures JsRound(x) <= JsRound(y)
  {
  }

  /** Smallest integer not below `x`. */
  function Ceil(x: real): (r: int)
    ensures x <= r as real < x + 1.0
  {
    var f := x.Floor;
    if f as real == x then f else f + 1
  }

  /** A span in milliseconds, in seconds. */
  function Seconds(ms: int): (s: real)
    ensures s * 1000.0 == ms as real
  {
    ms as real / 1000.0
  }

  /** JavaScript `count / seconds`: a zero divisor gives Infinity, or NaN for 0 / 0. */
  function Quotient(count: nat, seconds: real): (q: Rate)
    ensures seconds != 0.0 ==> q.Finite? && q.value * seconds == count as real
    ensures seconds == 0.0 ==> (q == if count == 0 then NotANumber else Infinite)
  {
    if seconds == 0.0 then (if count == 0 then NotANumber else Infinite)
    else Finite(count as real / seconds)
  }

  /** `part / Math.max(1, whole)` for a part of a whole: a fraction in [0, 1]. */
  function Fraction(part: nat, whole: nat): (r: real)
    requires part <= whole
    ensures 0.0 <= r <= 1.0
    ensures r * Max(1, whole) as real == part as real
    ensures part == whole && whole > 0 ==> r == 1.0
  {
    part as real / Max(1, whole) as real
  }

  /** `count / seconds` for a positive duration. */
  function PerSecond(count: nat, seconds: real): (r: real)
    requires seconds > 0.0
    ensures r >= 0.0
    ensures r * seconds == count as real
  {
    count as real / seconds
  }

  function Max(a: int, b: int): int { if a < b then b else a }

  function MaxReal(a: real, b: real): real { if a < b then b else a }

  function MinReal(a: real, b: real): real { if a < b then a else b }
}

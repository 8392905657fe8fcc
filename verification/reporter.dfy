/**
  The values `generateReport` (packages/backend/src/reporter/index.ts) derives
  from a run's aggregated statistics before handing them to its HTML
  template: the latency scale, the chart series, the percentile bars, the
  bottleneck verdict and its message, and the numbers formatted with
  `toFixed`. Template rendering, the date string and file output are not
  modelled.
 */
module Reporter {
  import opened Types
  import opened Text
  import Histogram

  // ---------------------------------------------------------------------
  // Number.prototype.toFixed

  function Pow10(d: nat): (p: nat)
    ensures p >= 1
  {
    if d == 0 then 1 else 10 * Pow10(d - 1)
  }

  function Abs(x: real): real { if x < 0.0 then -x else x }

  function Zeros(k: nat): (z: string)
    ensures |z| == k && forall i :: 0 <= i < k ==> z[i] == '0'
  {
    seq(k, _ => '0')
  }

  /** The magnitude of `x` times 10^d, rounded to an integer with halves upward. */
  function Rounded(x: real, d: nat): (n: nat)
    ensures n as real - 0.5 <= Abs(x) * Pow10(d) as real < n as real + 0.5
  {
    var y := Abs(x) * Pow10(d) as real;
    NonNegativeProduct(Abs(x), Pow10(d) as real);
    JsRound(y)
  }

  lemma NonNegativeProduct(a: real, b: real)
    requires a >= 0.0 && b >= 0.0
    ensures a * b >= 0.0
  {
  }

  /** The digits of `n`, padded with zeros to at least `d + 1` digits. */
  function FixedDigits(n: nat, d: nat): (p: string)
    ensures |p| >= d + 1
    ensures forall k :: 0 <= k < |p| ==> '0' <= p[k] <= '9'
  {
    var digits := NatToString(n);
    if |digits| <= d then Zeros(d + 1 - |digits|) + digits else digits
  }

  /** A point before the last `d` digits, none when `d` is 0. */
  function Point(p: string, d: nat): string
    requires |p| >= d + 1
  {
    if d == 0 then p else p[..|p| - d] + "." + p[|p| - d..]
  }

  /**
    `x.toFixed(d)` for a magnitude below 10^21: the magnitude times 10^d
    rounded to an integer, halves upward, printed with a point before the
    last `d` digits, and a '-' in front of a negative `x`.
   */
  function ToFixed(x: real, d: nat): (s: string) {
    Format(x < 0.0, Rounded(x, d), d)
  }

  /** The printed form of the rounded magnitude `n`, with its sign. */
  function Format(negative: bool, n: nat, d: nat): string {
    (if negative then "-" else "") + Point(FixedDigits(n, d), d)
  }

  lemma {:induction false} LeadingZero(s: string)
    requires forall k :: 0 <= k < |s| ==> '0' <= s[k] <= '9'
    ensures DigitsValue(['0'] + s) == DigitsValue(s)
  {
    if |s| > 0 {
      var t := ['0'] + s;
      assert t[..|t| - 1] == ['0'] + s[..|s| - 1];
      LeadingZero(s[..|s| - 1]);
    }
  }

  lemma {:induction false} LeadingZeros(k: nat, s: string)
    requires forall i :: 0 <= i < |s| ==> '0' <= s[i] <= '9'
    ensures DigitsValue(Zeros(k) + s) == DigitsValue(s)
  {
    if k > 0 {
      LeadingZeros(k - 1, s);
      assert Zeros(k) + s == ['0'] + (Zeros(k - 1) + s);
      LeadingZero(Zeros(k - 1) + s);
    } else {
      assert Zeros(k) + s == s;
    }
  }

  /** The padded digits read back as the number. */
  lemma FixedDigitsValue(n: nat, d: nat)
    ensures DigitsValue(FixedDigits(n, d)) == n
  {
    NatToStringRoundTrip(n);
    var digits := NatToString(n);
    if |digits| <= d {
      LeadingZeros(d + 1 - |digits|, digits);
    }
  }

  /** Removing the point gives the digits back; the point sits before the last `d` of them. */
  lemma PointShape(p: string, d: nat)
    requires |p| >= d + 1 && d > 0
    requires forall k :: 0 <= k < |p| ==> '0' <= p[k] <= '9'
    ensures var q := Point(p, d);
      && |q| == |p| + 1
      && q[|q| - d - 1] == '.'
      && (forall k :: 0 <= k < |q| && k != |q| - d - 1 ==> '0' <= q[k] <= '9')
      && q[..|q| - d - 1] + q[|q| - d..] == p
  {
    var q := Point(p, d);
    assert q[..|q| - d - 1] == p[..|p| - d];
    assert q[|q| - d..] == p[|p| - d..];
    forall k | 0 <= k < |q| && k != |q| - d - 1
      ensures '0' <= q[k] <= '9'
    {
      if k < |q| - d - 1 {
        assert q[k] == p[k];
      } else {
        assert q[k] == p[k - 1];
      }
    }
  }

  /**
    What reading a printed number back gives: a '-' exactly when `sign` is 1,
    a point with `d` digits after it and at least one before it, digits
    everywhere else, and the digits without the point making `n`.
   */
  predicate ReadsBack(s: string, sign: nat, d: nat, n: nat) {
    && sign <= 1
    && |s| >= sign + d + 2
    && (sign == 1 <==> s[0] == '-')
    && s[|s| - d - 1] == '.'
    && (forall k :: sign <= k < |s| && k != |s| - d - 1 ==> '0' <= s[k] <= '9')
    && DigitsValue(s[sign..|s| - d - 1] + s[|s| - d..]) == n
  }

  /** A printed number reads back as its sign, a point with `d` digits after it, and the digits of `n`. */
  lemma FormatReadsBack(negative: bool, n: nat, d: nat)
    requires d > 0
    ensures ReadsBack(Format(negative, n, d), if negative then 1 else 0, d, n)
  {
    var p := FixedDigits(n, d);
    var q := Point(p, d);
    PointShape(p, d);
    FixedDigitsValue(n, d);
    var pre := if negative then "-" else "";
    assert Format(negative, n, d) == pre + q;
    SignedReadsBack(pre, q, d, n);
  }

  lemma SignedReadsBack(pre: string, q: string, d: nat, n: nat)
    requires pre == "" || pre == "-"
    requires |q| >= d + 2 && q[|q| - d - 1] == '.'
    requires forall k :: 0 <= k < |q| && k != |q| - d - 1 ==> '0' <= q[k] <= '9'
    requires DigitsValue(q[..|q| - d - 1] + q[|q| - d..]) == n
    ensures ReadsBack(pre + q, |pre|, d, n)
  {
    var s := pre + q;
    var sign := |pre|;
    assert s[sign..] == q;
    assert s[|s| - d - 1] == q[|q| - d - 1];
    assert '0' <= q[0] <= '9';
    assert s[0] == if pre == "" then q[0] else '-';
    assert s[sign..|s| - d - 1] == q[..|q| - d - 1];
    assert s[|s| - d..] == q[|q| - d..];
    forall k | sign <= k < |s| && k != |s| - d - 1
      ensures '0' <= s[k] <= '9'
    {
      assert s[k] == q[k - sign];
    }
  }

  /**
    Reading `x.toFixed(d)` back: a '-' exactly for a negative value, a point
    with `d` digits after it and at least one before it, and the digits
    without the point make the magnitude times 10^d, rounded to the nearest
    integer as `Rounded` states.
   */
  lemma ToFixedReadsBack(x: real, d: nat)
    requires d > 0
    ensures ReadsBack(ToFixed(x, d), if x < 0.0 then 1 else 0, d, Rounded(x, d))
  {
    FormatReadsBack(x < 0.0, Rounded(x, d), d);
  }

  /** `toFixed` on a JavaScript quotient, which prints the non-finite cases by name. */
  function RateToFixed(r: Rate, d: nat): (s: string)
    ensures r.Infinite? ==> s == "Infinity"
    ensures r.NotANumber? ==> s == "NaN"
    ensures r.Finite? ==> s == ToFixed(r.value, d)
  {
    match r
    case Finite(v) => ToFixed(v, d)
    case Infinite => "Infinity"
    case NotANumber => "NaN"
  }

  // ---------------------------------------------------------------------
  // Derived values

  /** The scale of the percentile bars: p99.9, or 1 when that is 0, so never a zero divisor. */
  function MaxLatency(l: LatencySummary): (m: int)
    ensures m != 0
    ensures l.p999 != 0 ==> m == l.p999
    ensures l.p999 == 0 ==> m == 1
  {
    if l.p999 != 0 then l.p999 else 1
  }

  /** The width of a percentile bar, as a rounded percentage of the scale. */
  function Percent(v: int, scale: int): int
    requires scale != 0
  {
    JsRound(v as real / scale as real * 100.0)
  }

  /**
    With ordered, non-negative percentiles every bar lies in [0, 100] and a
    higher percentile never draws a shorter bar.
   */
  lemma BarsInRange(l: LatencySummary)
    requires 0 <= l.min <= l.p50 <= l.p75 <= l.p90 <= l.p95 <= l.p99 <= l.p999
    ensures var m := MaxLatency(l);
      && 0 <= Percent(l.p50, m) <= Percent(l.p75, m) <= Percent(l.p90, m)
      && Percent(l.p90, m) <= Percent(l.p95, m) <= Percent(l.p99, m) <= 100
  {
    var m := MaxLatency(l);
    if l.p999 == 0 {
      assert l.p50 == l.p75 == l.p90 == l.p95 == l.p99 == 0;
    } else {
      BarMonotonic(0, l.p50, m);
      BarMonotonic(l.p50, l.p75, m);
      BarMonotonic(l.p75, l.p90, m);
      BarMonotonic(l.p90, l.p95, m);
      BarMonotonic(l.p95, l.p99, m);
      BarMonotonic(l.p99, m, m);
      BarMonotonic(m, m, m);
    }
  }

  lemma BarMonotonic(a: int, b: int, m: int)
    requires a <= b && m > 0
    ensures Percent(a, m) <= Percent(b, m)
    ensures a == m ==> Percent(a, m) == 100
    ensures a == 0 ==> Percent(a, m) == 0
  {
    var x := a as real / m as real;
    var y := b as real / m as real;
    DivMonotone(a as real, b as real, m as real);
    JsRoundMonotonic(x * 100.0, y * 100.0);
    if a == m {
      DivSelf(m as real);
    }
  }

  lemma DivMonotone(a: real, b: real, m: real)
    requires a <= b && m > 0.0
    ensures a / m <= b / m
  {
    ScaleStrict(a / m, b / m, m);
  }

  lemma DivSelf(m: real)
    requires m > 0.0
    ensures m / m == 1.0
  {
  }

  /** The summary of any histogram of non-negative latencies draws its bars within [0, 100]. */
  lemma SummaryBarsInRange(s: seq<int>)
    requires Histogram.Sorted(s)
    requires forall k :: 0 <= k < |s| ==> s[k] >= 0
    ensures var l := Histogram.Summarize(s); var m := MaxLatency(l);
      0 <= Percent(l.p50, m) && Percent(l.p99, m) <= 100
  {
    var l := Histogram.Summarize(s);
    if |s| > 0 {
      assert l.min in s;
      var k :| 0 <= k < |s| && s[k] == l.min;
    }
    BarsInRange(l);
  }

  /** The chart label of the i-th timeline point, counted from 1: "1s", "2s", ... */
  function Label(i: nat): string {
    NatToString(i + 1) + "s"
  }

  function Labels(n: nat): (r: seq<string>)
    ensures |r| == n
    ensures forall i :: 0 <= i < n ==> r[i] == Label(i)
  {
    seq(n, i requires 0 <= i < n => Label(i))
  }

  /** Labels read back as their position plus one, so no two points share a label. */
  lemma LabelsReadBack(i: nat, j: nat)
    ensures var l := Label(i); |l| >= 2 && l[|l| - 1] == 's' && DigitsValue(l[..|l| - 1]) == i + 1
    ensures i != j ==> Label(i) != Label(j)
  {
    LabelReadsBack(i);
    LabelReadsBack(j);
  }

  lemma LabelReadsBack(i: nat)
    ensures var l := Label(i); |l| >= 2 && l[|l| - 1] == 's' && DigitsValue(l[..|l| - 1]) == i + 1
  {
    var t := NatToString(i + 1);
    UnitSuffix(t);
    NatToStringRoundTrip(i + 1);
  }

  lemma UnitSuffix(t: string)
    ensures (t + "s")[|t|] == 's' && (t + "s")[..|t|] == t
  {
  }

  /** The three data series of the charts, one entry per timeline point. */
  datatype Series = Series(labels: seq<string>, p50Data: seq<int>, p95Data: seq<int>, throughputData: seq<string>)

  function ChartSeries(timeline: seq<TimelinePoint>): (c: Series)
    ensures |c.labels| == |c.p50Data| == |c.p95Data| == |c.throughputData| == |timeline|
    ensures forall i :: 0 <= i < |timeline| ==>
      && c.labels[i] == Label(i)
      && c.p50Data[i] == timeline[i].latencyP50
      && c.p95Data[i] == timeline[i].latencyP95
      && c.throughputData[i] == ToFixed(timeline[i].throughput, 2)
  {
    Series(Labels(|timeline|),
      seq(|timeline|, i requires 0 <= i < |timeline| => timeline[i].latencyP50),
      seq(|timeline|, i requires 0 <= i < |timeline| => timeline[i].latencyP95),
      seq(|timeline|, i requires 0 <= i < |timeline| => ToFixed(timeline[i].throughput, 2)))
  }

  /** p99 over p50, with p50 taken as at least 1: defined even when p50 is 0, and above 5 exactly when p99 exceeds five times that. */
  function TailRatio(l: LatencySummary): (r: real)
    ensures r * Max(1, l.p50) as real == l.p99 as real
    ensures r > 5.0 <==> l.p99 > 5 * Max(1, l.p50)
  {
    var d := Max(1, l.p50) as real;
    QuotientAbove(l.p99 as real, d, 5.0);
    l.p99 as real / d
  }

  lemma QuotientAbove(a: real, d: real, c: real)
    requires d > 0.0
    ensures (a / d) * d == a
    ensures a / d > c <==> a > c * d
  {
    ScaleStrict(a / d, c, d);
  }

  lemma ScaleStrict(a: real, b: real, c: real)
    requires c > 0.0
    ensures a > b <==> a * c > b * c
  {
    if a > b {
      assert (a - b) * c > 0.0;
    } else {
      assert (b - a) * c >= 0.0;
    }
  }

  predicate HighErrorRate(stats: AggregatedStats) {
    stats.errorRate > 0.05
  }

  predicate LongTail(stats: AggregatedStats) {
    TailRatio(stats.latency) > 5.0
  }

  /** The report flags a bottleneck exactly on a high error rate or a long latency tail. */
  function HasBottleneck(stats: AggregatedStats): (b: bool)
    ensures b <==> stats.errorRate > 0.05 || stats.latency.p99 > 5 * Max(1, stats.latency.p50)
  {
    HighErrorRate(stats) || LongTail(stats)
  }

  function ErrorClause(errorRate: real): (s: string)
    ensures |s| > 0
  {
    "High error rate (" + ToFixed(errorRate * 100.0, 1) + "%) — server may be overloaded. "
  }

  function TailClause(ratio: real): (s: string)
    ensures |s| > 0
  {
    "P99 is " + ToFixed(ratio, 1) + "x higher than P50 — significant latency tail, check slow queries or GC pauses."
  }

  /**
    The bottleneck message: the error-rate clause, then the tail clause, each
    present exactly when its condition holds; so empty exactly when there is
    no bottleneck.
   */
  function BottleneckMessage(stats: AggregatedStats): (m: string)
    ensures m == [] <==> !HasBottleneck(stats)
    ensures HighErrorRate(stats) && LongTail(stats) ==>
      m == ErrorClause(stats.errorRate) + TailClause(TailRatio(stats.latency))
    ensures HighErrorRate(stats) && !LongTail(stats) ==> m == ErrorClause(stats.errorRate)
    ensures !HighErrorRate(stats) && LongTail(stats) ==> m == TailClause(TailRatio(stats.latency))
  {
    Clauses(HighErrorRate(stats), ErrorClause(stats.errorRate), LongTail(stats), TailClause(TailRatio(stats.latency)))
  }

  /** Two optional, non-empty clauses one after the other. */
  function Clauses(p: bool, a: string, q: bool, b: string): (m: string)
    requires |a| > 0 && |b| > 0
    ensures m == [] <==> !p && !q
    ensures p && q ==> m == a + b
    ensures p && !q ==> m == a
    ensures !p && q ==> m == b
  {
    (if p then a else []) + (if q then b else [])
  }

  /** Everything the template is given apart from the configuration, the raw statistics and the date. */
  datatype ReportValues = ReportValues(
    errorRatePct: string,
    throughput: string,
    p50Pct: int, p75Pct: int, p90Pct: int, p95Pct: int, p99Pct: int,
    series: Series,
    hasBottleneck: bool,
    bottleneckMessage: string
  )

  function GenerateReport(stats: AggregatedStats): (v: ReportValues)
    ensures v.hasBottleneck <==> v.bottleneckMessage != []
    ensures v.hasBottleneck <==> stats.errorRate > 0.05 || stats.latency.p99 > 5 * Max(1, stats.latency.p50)
    ensures |v.series.labels| == |stats.timeline|
    ensures v.p50Pct == Percent(stats.latency.p50, MaxLatency(stats.latency))
    ensures v.p75Pct == Percent(stats.latency.p75, MaxLatency(stats.latency))
    ensures v.p90Pct == Percent(stats.latency.p90, MaxLatency(stats.latency))
    ensures v.p95Pct == Percent(stats.latency.p95, MaxLatency(stats.latency))
    ensures v.p99Pct == Percent(stats.latency.p99, MaxLatency(stats.latency))
    ensures v.series == ChartSeries(stats.timeline)
    ensures v.errorRatePct == ToFixed(stats.errorRate * 100.0, 2)
    ensures v.throughput == RateToFixed(stats.throughput, 2)
  {
    var l := stats.latency;
    var m := MaxLatency(l);
    ReportValues(
      ToFixed(stats.errorRate * 100.0, 2),
      RateToFixed(stats.throughput, 2),
      Percent(l.p50, m), Percent(l.p75, m), Percent(l.p90, m), Percent(l.p95, m), Percent(l.p99, m),
      ChartSeries(stats.timeline),
      HasBottleneck(stats),
      BottleneckMessage(stats))
  }
}

/**
  The statistics collector (packages/backend/src/stats/histogram.ts): the
  log of every request result, the latency histogram of the successful ones,
  and the one-second timeline windows. The clock (`Date.now`) is a parameter
  of every operation that reads it.
 */
module Collector {
  import opened Types
  import opened Histogram

  datatype StatsCollector = StatsCollector(
    histogram: seq<int>,                 // recorded latencies, ascending
    results: seq<RequestResult>,         // every result since the last reset
    startTime: int,
    timeline: seq<TimelinePoint>,
    windowResults: seq<RequestResult>,   // results since the last timeline point
    windowStart: int,
    activeWorkers: nat
  )

  /** Samples at least one second apart, in order. */
  predicate TimelineSpaced(t: seq<TimelinePoint>) {
    forall i :: 0 <= i < |t| - 1 ==> t[i].timestamp + 1000 <= t[i + 1].timestamp
  }

  /**
    What every reachable collector satisfies: the histogram holds exactly the
    recorded latencies of the successful results, the window is the tail of
    the log, and timeline points are at least a second apart, the last one
    stamped at the current window start.
   */
  predicate Valid(c: StatsCollector) {
    && Sorted(c.histogram)
    && multiset(c.histogram) == multiset(SuccessValues(c.results))
    && |c.windowResults| <= |c.results|
    && c.windowResults == c.results[|c.results| - |c.windowResults|..]
    && c.startTime <= c.windowStart
    && TimelineSpaced(c.timeline)
    && (|c.timeline| > 0 ==> c.timeline[|c.timeline| - 1].timestamp == c.windowStart)
    && (|c.timeline| > 0 ==> c.startTime + 1000 <= c.timeline[0].timestamp)
  }

  /** The value a successful result contributes to a histogram. */
  function RecordedValue(r: RequestResult): (v: int)
    ensures v >= 1
    ensures JsRound(r.latencyMs) >= 1 ==> v == JsRound(r.latencyMs)
  {
    Max(1, JsRound(r.latencyMs))
  }

  /** Recorded values of the successful results, in log order. */
  function SuccessValues(rs: seq<RequestResult>): seq<int> {
    if |rs| == 0 then []
    else SuccessValues(rs[..|rs| - 1]) + (if rs[|rs| - 1].success then [RecordedValue(rs[|rs| - 1])] else [])
  }

  function CountFailures(rs: seq<RequestResult>): nat {
    if |rs| == 0 then 0
    else CountFailures(rs[..|rs| - 1]) + (if rs[|rs| - 1].success then 0 else 1)
  }

  function SumBytes(rs: seq<RequestResult>): nat {
    if |rs| == 0 then 0 else SumBytes(rs[..|rs| - 1]) + rs[|rs| - 1].bytes
  }

  /** Every result is either a success, contributing one histogram sample, or a failure. */
  lemma {:induction false} SuccessesAndFailures(rs: seq<RequestResult>)
    ensures |SuccessValues(rs)| + CountFailures(rs) == |rs|
    ensures forall k :: 0 <= k < |SuccessValues(rs)| ==> SuccessValues(rs)[k] >= 1
  {
    if |rs| > 0 {
      SuccessesAndFailures(rs[..|rs| - 1]);
    }
  }

  lemma AppendOne(rs: seq<RequestResult>, r: RequestResult)
    ensures SuccessValues(rs + [r]) == SuccessValues(rs) + (if r.success then [RecordedValue(r)] else [])
    ensures CountFailures(rs + [r]) == CountFailures(rs) + (if r.success then 0 else 1)
    ensures SumBytes(rs + [r]) == SumBytes(rs) + r.bytes
  {
    assert (rs + [r])[..|rs|] == rs;
  }

  /** `new StatsCollector()`: empty, both clocks at `now`, no active workers. */
  function New(now: int): (c: StatsCollector)
    ensures Valid(c)
    ensures c.results == [] && c.windowResults == [] && c.timeline == [] && c.histogram == []
    ensures c.startTime == now && c.windowStart == now && c.activeWorkers == 0
  {
    StatsCollector([], [], now, [], [], now, 0)
  }

  /** `setActiveWorkers`: only the gauge changes. */
  function SetActiveWorkers(c: StatsCollector, count: nat): (c': StatsCollector)
    ensures c'.activeWorkers == count
    ensures c' == c.(activeWorkers := count)
    ensures Valid(c) ==> Valid(c')
  {
    c.(activeWorkers := count)
  }

  /** The gauge is no part of the collector invariant. */
  lemma SetActiveWorkersKeepsValid(c: StatsCollector, count: nat)
    requires Valid(c)
    ensures Valid(c.(activeWorkers := count))
  {
  }

  /**
    The timeline point summarising one window: its own histogram of the
    window's successful latencies, requests per elapsed second and the
    window's error ratio.
   */
  function WindowPoint(window: seq<RequestResult>, windowStart: int, now: int, activeWorkers: nat): (p: TimelinePoint)
    requires now - windowStart >= 1000
    ensures p.timestamp == now && p.activeWorkers == activeWorkers
    ensures p.throughput == PerSecond(|window|, Seconds(now - windowStart))
    ensures CountFailures(window) <= |window| && p.errorRate == Fraction(CountFailures(window), |window|)
    ensures p.latencyP50 <= p.latencyP95
    ensures |SuccessValues(window)| == 0 ==> p.latencyP50 == 0 && p.latencyP95 == 0
    ensures |SuccessValues(window)| > 0 ==>
      p.latencyP50 in multiset(SuccessValues(window)) && p.latencyP95 in multiset(SuccessValues(window))
    ensures p.latencyP50 == ValueAtPercentile(FromValues(SuccessValues(window)), 50.0)
    ensures p.latencyP95 == ValueAtPercentile(FromValues(SuccessValues(window)), 95.0)
    ensures |SuccessValues(window)| > 0 ==>
      NearestRank(SuccessValues(window), 50.0, p.latencyP50) && NearestRank(SuccessValues(window), 95.0, p.latencyP95)
  {
    var elapsed := Seconds(now - windowStart);
    var latencies := WindowLatencies(window);
    SuccessesAndFailures(window);
    TimelinePoint(
      now,
      PerSecond(|window|, elapsed),
      latencies.0,
      latencies.1,
      activeWorkers,
      Fraction(CountFailures(window), |window|))
  }

  /**
    The window's p50 and p95, from a histogram of its successful latencies:
    the nearest-rank 50th and 95th percentiles of those latencies.
   */
  function WindowLatencies(window: seq<RequestResult>): (l: (int, int))
    ensures l.0 <= l.1
    ensures |SuccessValues(window)| == 0 ==> l.0 == 0 && l.1 == 0
    ensures |SuccessValues(window)| > 0 ==> l.0 in multiset(SuccessValues(window)) && l.1 in multiset(SuccessValues(window))
    ensures l.0 == ValueAtPercentile(FromValues(SuccessValues(window)), 50.0)
    ensures l.1 == ValueAtPercentile(FromValues(SuccessValues(window)), 95.0)
    ensures |SuccessValues(window)| > 0 ==>
      NearestRank(SuccessValues(window), 50.0, l.0) && NearestRank(SuccessValues(window), 95.0, l.1)
  {
    var windowHisto := FromValues(SuccessValues(window));
    PercentileMonotonic(windowHisto, 50.0, 95.0);
    HistogramRank(SuccessValues(window), 50.0);
    HistogramRank(SuccessValues(window), 95.0);
    (ValueAtPercentile(windowHisto, 50.0), ValueAtPercentile(windowHisto, 95.0))
  }

  /** A histogram built from samples reports their nearest-rank percentiles. */
  lemma HistogramRank(vs: seq<int>, p: real)
    requires 0.0 < p <= 100.0
    ensures |vs| > 0 ==> NearestRank(vs, p, ValueAtPercentile(FromValues(vs), p))
  {
    var h := FromValues(vs);
    if |vs| > 0 {
      assert |h| == |multiset(h)| == |multiset(vs)| == |vs|;
      PercentileIsNearestRank(h, p);
      PercentileTransfer(h, vs, p, ValueAtPercentile(h, p));
    }
  }

  /** `snapshotTimeline`: closes the current window into a timeline point. */
  function SnapshotTimeline(c: StatsCollector, now: int): (c': StatsCollector)
    requires now - c.windowStart >= 1000
    ensures c'.timeline == c.timeline + [WindowPoint(c.windowResults, c.windowStart, now, c.activeWorkers)]
    ensures c'.windowResults == [] && c'.windowStart == now
    ensures c'.histogram == c.histogram && c'.results == c.results
    ensures c'.startTime == c.startTime && c'.activeWorkers == c.activeWorkers
  {
    c.(timeline := c.timeline + [WindowPoint(c.windowResults, c.windowStart, now, c.activeWorkers)],
       windowResults := [],
       windowStart := now)
  }

  /**
    `record`: logs the result, adds it to the window, adds a successful one's
    latency to the histogram, and closes the window once a second has passed
    since it opened.
   */
  function Record(c: StatsCollector, r: RequestResult, now: int): (c': StatsCollector)
    requires Sorted(c.histogram)
    ensures Sorted(c'.histogram)
    ensures c'.results == c.results + [r]
    ensures multiset(c'.histogram) == multiset(c.histogram) + (if r.success then multiset{RecordedValue(r)} else multiset{})
    ensures |c'.timeline| == |c.timeline| + 1 <==> now - c.windowStart >= 1000
    ensures now - c.windowStart >= 1000 ==>
      && c'.timeline == c.timeline + [WindowPoint(c.windowResults + [r], c.windowStart, now, c.activeWorkers)]
      && c'.windowResults == [] && c'.windowStart == now
    ensures now - c.windowStart < 1000 ==>
      c'.timeline == c.timeline && c'.windowResults == c.windowResults + [r] && c'.windowStart == c.windowStart
    ensures c'.startTime == c.startTime && c'.activeWorkers == c.activeWorkers
  {
    var logged := c.(results := c.results + [r], windowResults := c.windowResults + [r]);
    var recorded := if r.success then logged.(histogram := Insert(c.histogram, RecordedValue(r))) else logged;
    if now - recorded.windowStart >= 1000 then SnapshotTimeline(recorded, now) else recorded
  }

  /** Recording keeps the collector invariant. */
  lemma RecordPreservesValid(c: StatsCollector, r: RequestResult, now: int)
    requires Valid(c)
    ensures Valid(Record(c, r, now))
  {
    RecordKeepsHistogram(c, r, now);
    RecordKeepsWindow(c, r, now);
    RecordKeepsTimeline(c, r, now);
  }

  lemma RecordKeepsHistogram(c: StatsCollector, r: RequestResult, now: int)
    requires Valid(c)
    ensures multiset(Record(c, r, now).histogram) == multiset(SuccessValues(Record(c, r, now).results))
  {
    var c' := Record(c, r, now);
    AppendOne(c.results, r);
    var added: seq<int> := if r.success then [RecordedValue(r)] else [];
    assert SuccessValues(c'.results) == SuccessValues(c.results) + added;
    assert multiset(SuccessValues(c'.results)) == multiset(SuccessValues(c.results)) + multiset(added);
  }

  lemma RecordKeepsWindow(c: StatsCollector, r: RequestResult, now: int)
    requires Valid(c)
    ensures |Record(c, r, now).windowResults| <= |Record(c, r, now).results|
    ensures Record(c, r, now).windowResults ==
      Record(c, r, now).results[|Record(c, r, now).results| - |Record(c, r, now).windowResults|..]
  {
    if now - c.windowStart >= 1000 {
      WindowSuffixAfter(c.results, c.windowResults, r, c.results + [r], []);
    } else {
      WindowSuffixAfter(c.results, c.windowResults, r, c.results + [r], c.windowResults + [r]);
    }
  }

  /** After a record the window is either emptied or extended by the result the log was. */
  lemma WindowSuffixAfter(rs: seq<RequestResult>, w: seq<RequestResult>, r: RequestResult,
                          rs': seq<RequestResult>, w': seq<RequestResult>)
    requires |w| <= |rs| && w == rs[|rs| - |w|..]
    requires rs' == rs + [r] && (w' == [] || w' == w + [r])
    ensures |w'| <= |rs'| && w' == rs'[|rs'| - |w'|..]
  {
    if w' == [] {
      assert rs'[|rs'|..] == [];
    } else {
      WindowStaysSuffix(rs, w, r);
    }
  }

  lemma RecordKeepsTimeline(c: StatsCollector, r: RequestResult, now: int)
    requires Valid(c)
    ensures Record(c, r, now).startTime <= Record(c, r, now).windowStart
    ensures TimelineSpaced(Record(c, r, now).timeline)
    ensures |Record(c, r, now).timeline| > 0 ==>
      Record(c, r, now).timeline[|Record(c, r, now).timeline| - 1].timestamp == Record(c, r, now).windowStart
    ensures |Record(c, r, now).timeline| > 0 ==>
      Record(c, r, now).startTime + 1000 <= Record(c, r, now).timeline[0].timestamp
  {
    var c' := Record(c, r, now);
    if now - c.windowStart >= 1000 {
      var p := WindowPoint(c.windowResults + [r], c.windowStart, now, c.activeWorkers);
      assert c'.timeline == c.timeline + [p];
      TimelineExtends(c.timeline, c.windowStart, p);
      if |c.timeline| > 0 {
        assert c'.timeline[0] == c.timeline[0];
      }
    }
  }

  lemma WindowStaysSuffix(rs: seq<RequestResult>, w: seq<RequestResult>, r: RequestResult)
    requires |w| <= |rs| && w == rs[|rs| - |w|..]
    ensures w + [r] == (rs + [r])[|rs + [r]| - |w + [r]|..]
  {
  }

  lemma TimelineExtends(t: seq<TimelinePoint>, windowStart: int, p: TimelinePoint)
    requires TimelineSpaced(t)
    requires |t| > 0 ==> t[|t| - 1].timestamp == windowStart
    requires p.timestamp >= windowStart + 1000
    ensures TimelineSpaced(t + [p])
  {
  }

  /**
    `aggregate`: counts, error rate, throughput since the collector's start,
    bytes, the histogram's percentiles and the timeline so far.
   */
  function Aggregate(c: StatsCollector, now: int): (a: AggregatedStats)
    requires Sorted(c.histogram)
    ensures a.totalRequests == |c.results|
    ensures a.errorCount == CountFailures(c.results)
    ensures a.successCount + a.errorCount == a.totalRequests
    ensures a.errorRate == Fraction(a.errorCount, a.totalRequests)
    ensures a.bytesTransferred == SumBytes(c.results)
    ensures a.throughput == Quotient(a.totalRequests, Seconds(now - c.startTime))
    ensures a.latency.min <= a.latency.p50 <= a.latency.p75 <= a.latency.p90
      <= a.latency.p95 <= a.latency.p99 <= a.latency.p999 <= a.latency.max
    ensures |c.histogram| == 0 ==> a.latency == LatencySummary(0, 0, 0.0, 0, 0, 0, 0, 0, 0)
    ensures forall k :: 0 <= k < |c.histogram| ==> a.latency.min <= c.histogram[k] <= a.latency.max
    ensures a.latency == Summarize(c.histogram)
    ensures Describes(c.histogram, a.latency)
    ensures a.timeline == c.timeline
  {
    var errors := CountFailures(c.results);
    SuccessesAndFailures(c.results);
    var elapsed := Seconds(now - c.startTime);
    AggregatedStats(
      |c.results|,
      |c.results| - errors,
      errors,
      Fraction(errors, |c.results|),
      Quotient(|c.results|, elapsed),
      SumBytes(c.results),
      Summarize(c.histogram),
      c.timeline)
  }

  /** The histogram holds one sample per success, so its percentiles describe exactly the successful requests. */
  lemma AggregateCountsHistogram(c: StatsCollector, now: int)
    requires Valid(c)
    ensures Aggregate(c, now).successCount == |c.histogram|
    ensures |c.histogram| > 0 ==> Aggregate(c, now).latency.max in multiset(SuccessValues(c.results))
    ensures |c.histogram| > 0 ==> Aggregate(c, now).latency.min >= 1
  {
    SuccessesAndFailures(c.results);
    assert |multiset(c.histogram)| == |multiset(SuccessValues(c.results))|;
    if |c.histogram| > 0 {
      var sv := SuccessValues(c.results);
      var m := Aggregate(c, now).latency.min;
      assert m in multiset(sv);
      var k :| 0 <= k < |sv| && sv[k] == m;
    }
  }

  /**
    The reported latencies describe exactly the successful requests: the
    smallest and largest recorded latency, their mean, and their nearest-rank
    percentiles, whatever order they arrived in.
   */
  lemma AggregateDescribesSuccesses(c: StatsCollector, now: int)
    requires Valid(c)
    ensures Describes(SuccessValues(c.results), Aggregate(c, now).latency)
  {
    DescribesPermutation(c.histogram, SuccessValues(c.results), Aggregate(c, now).latency);
  }

  /** A run in which every request failed reports error rate 1 and an all-zero latency summary. */
  lemma AllFailedRun(c: StatsCollector, now: int)
    requires Valid(c) && |c.results| > 0 && CountFailures(c.results) == |c.results|
    ensures Aggregate(c, now).successCount == 0
    ensures Aggregate(c, now).errorRate == 1.0
    ensures Aggregate(c, now).latency == LatencySummary(0, 0, 0.0, 0, 0, 0, 0, 0, 0)
  {
    SuccessesAndFailures(c.results);
    assert |multiset(c.histogram)| == 0;
  }

  /** `reset`: forgets every result and restarts both clocks; the worker gauge is left as it was. */
  function Reset(c: StatsCollector, now: int): (c': StatsCollector)
    ensures Valid(c')
    ensures c'.histogram == [] && c'.results == [] && c'.timeline == [] && c'.windowResults == []
    ensures c'.startTime == now && c'.windowStart == now
    ensures c'.activeWorkers == c.activeWorkers
  {
    StatsCollector([], [], now, [], [], now, c.activeWorkers)
  }
}

/**
  The front end's state store (packages/frontend/src/store/testStore.ts): one
  immutable record per state, with the store's non-trivial actions as
  functions on it. The plain one-field setters are record updates
  (`s.(status := Running)`) where they are used.
 */
module TestStore {
  import opened Types

  datatype Store = Store(
    connected: bool,
    status: TestStatus,
    sessionId: Option<string>,
    currentConfig: Option<LoadTestConfig>,
    stats: Option<AggregatedStats>,
    liveTimeline: seq<TimelinePoint>,
    nlPrompt: string,
    nlParsing: bool,
    nlError: Option<string>,
    aiAnalysis: Option<AIAnalysisResult>,
    aiStreaming: bool,
    aiStreamText: string
  )

  /** The most points the live timeline keeps. */
  const TimelineCapacity: nat := 120

  /** The store as the application starts: disconnected, idle, everything empty. */
  const Initial := Store(false, Idle, None, None, None, [], [], false, None, None, false, [])

  /** The last `n` elements of `xs`, all of them when there are no more than `n`. */
  function Suffix<T>(xs: seq<T>, n: nat): (r: seq<T>)
    ensures |r| == if |xs| <= n then |xs| else n
    ensures r == xs[|xs| - |r|..]
  {
    if |xs| <= n then xs else xs[|xs| - n..]
  }

  /**
    `addTimelinePoint`: the newest point goes at the end, after at most 119
    of the previous points, so the oldest are dropped first.
   */
  function AddTimelinePoint(s: Store, p: TimelinePoint): (r: Store)
    ensures 0 < |r.liveTimeline| <= TimelineCapacity
    ensures r.liveTimeline[|r.liveTimeline| - 1] == p
    ensures r.liveTimeline[..|r.liveTimeline| - 1] == Suffix(s.liveTimeline, TimelineCapacity - 1)
    ensures r == s.(liveTimeline := r.liveTimeline)
  {
    s.(liveTimeline := Suffix(s.liveTimeline, TimelineCapacity - 1) + [p])
  }

  function AddTimelinePoints(s: Store, ps: seq<TimelinePoint>): Store
  {
    if |ps| == 0 then s else AddTimelinePoint(AddTimelinePoints(s, ps[..|ps| - 1]), ps[|ps| - 1])
  }

  /**
    The buffer is a sliding window: from a buffer of at most 120 points, any
    run of additions leaves exactly the last 120 of all the points seen.
   */
  lemma {:induction false} TimelineWindow(s: Store, ps: seq<TimelinePoint>)
    requires |s.liveTimeline| <= TimelineCapacity
    ensures AddTimelinePoints(s, ps).liveTimeline == Suffix(s.liveTimeline + ps, TimelineCapacity)
  {
    if |ps| > 0 {
      var init := ps[..|ps| - 1];
      var p := ps[|ps| - 1];
      TimelineWindow(s, init);
      var before := s.liveTimeline + init;
      assert s.liveTimeline + ps == before + [p];
      SuffixStep(before, p, TimelineCapacity);
    }
  }

  /** Keeping n - 1 of a window of n and adding one is the window of n over one more. */
  lemma SuffixStep<T>(xs: seq<T>, x: T, n: nat)
    requires n > 0
    ensures Suffix(Suffix(xs, n), n - 1) + [x] == Suffix(xs + [x], n)
  {
    var w := Suffix(xs, n);
    var l := Suffix(w, n - 1);
    var r := Suffix(xs + [x], n);
    assert |l| + 1 == |r|;
    assert l == xs[|xs| - |l|..];
    forall k | 0 <= k < |r|
      ensures (l + [x])[k] == r[k]
    {
      if k < |l| {
        assert r[k] == (xs + [x])[|xs| + 1 - |r| + k];
      }
    }
  }

  /** `appendAiStreamText`. */
  function AppendAiStreamText(s: Store, t: string): (r: Store)
    ensures |r.aiStreamText| == |s.aiStreamText| + |t|
    ensures r.aiStreamText[..|s.aiStreamText|] == s.aiStreamText
    ensures r.aiStreamText[|s.aiStreamText|..] == t
    ensures r == s.(aiStreamText := r.aiStreamText)
  {
    s.(aiStreamText := s.aiStreamText + t)
  }

  /** `clearAiStreamText`. */
  function ClearAiStreamText(s: Store): (r: Store)
    ensures r.aiStreamText == [] && r == s.(aiStreamText := [])
  {
    s.(aiStreamText := [])
  }

  /** Appending two pieces in turn appends their concatenation; after a clear only what was appended since remains. */
  lemma StreamTextAccumulates(s: Store, a: string, b: string)
    ensures AppendAiStreamText(AppendAiStreamText(s, a), b) == AppendAiStreamText(s, a + b)
    ensures AppendAiStreamText(ClearAiStreamText(s), a).aiStreamText == a
  {
    assert s.aiStreamText + a + b == s.aiStreamText + (a + b);
    assert [] + a == a;
  }

  /**
    `reset`: back to idle with no session, statistics, timeline or analysis;
    the connection flag, the current configuration and the natural-language
    builder's fields are left as they were.
   */
  function Reset(s: Store): (r: Store)
    ensures r.status == Idle && r.stats.None? && r.sessionId.None? && r.aiAnalysis.None?
    ensures r.liveTimeline == [] && r.aiStreamText == [] && !r.aiStreaming
    ensures r.connected == s.connected && r.currentConfig == s.currentConfig
    ensures r.nlPrompt == s.nlPrompt && r.nlParsing == s.nlParsing && r.nlError == s.nlError
  {
    s.(status := Idle, stats := None, liveTimeline := [], sessionId := None,
       aiAnalysis := None, aiStreamText := [], aiStreaming := false)
  }

  /** Resetting twice is resetting once, and resetting the initial store changes nothing. */
  lemma ResetIdempotent(s: Store)
    ensures Reset(Reset(s)) == Reset(s)
    ensures Reset(Initial) == Initial
  {
  }

  /** Two stores that agree on the fields `reset` keeps are equal once reset. */
  lemma ResetForgets(s: Store, t: Store)
    requires s.connected == t.connected && s.currentConfig == t.currentConfig
    requires s.nlPrompt == t.nlPrompt && s.nlParsing == t.nlParsing && s.nlError == t.nlError
    ensures Reset(s) == Reset(t)
  {
  }
}

/**
  How the front end's socket hook folds server messages into the store
  (`handleMessage` in packages/frontend/src/hooks/useWebSocket.ts). The socket
  itself, reconnection and JSON parsing are not modelled: a message arrives
  already decoded, and one that failed to parse is `Unrecognised`, which the
  hook ignores like any unknown type.
 */
module WebSocketClient {
  import opened Types
  import opened TestStore

  datatype Message =
    | TestStarted(sessionId: string)
    | StatsUpdate(stats: AggregatedStats)
    | StatusChange(status: TestStatus)
    | TestComplete(stats: AggregatedStats)
    | TestError
    | StatusReport(running: Option<bool>)   // the reply to GET_STATUS; `running` may be absent
    | Unrecognised

  /** The fields no server message touches. */
  predicate SameClientFields(s: Store, r: Store) {
    && r.connected == s.connected && r.currentConfig == s.currentConfig
    && r.nlPrompt == s.nlPrompt && r.nlParsing == s.nlParsing && r.nlError == s.nlError
    && r.aiAnalysis == s.aiAnalysis && r.aiStreaming == s.aiStreaming && r.aiStreamText == s.aiStreamText
  }

  function HandleMessage(s: Store, msg: Message): (r: Store)
    ensures SameClientFields(s, r)
    ensures msg.TestStarted? ==> r == s.(status := Running, sessionId := Some(msg.sessionId))
    ensures msg.StatsUpdate? && msg.stats.timeline == [] ==> r == s.(stats := Some(msg.stats))
    ensures msg.StatsUpdate? && msg.stats.timeline != [] ==>
      r == AddTimelinePoint(s.(stats := Some(msg.stats)), msg.stats.timeline[|msg.stats.timeline| - 1])
    ensures msg.StatusChange? ==> r == s.(status := msg.status)
    ensures msg.TestComplete? ==> r == s.(stats := Some(msg.stats), status := Completed)
    ensures msg.TestError? ==> r == s.(status := Error)
    ensures msg.StatusReport? ==>
      r == if msg.running == Some(false) && s.status == Running then s.(status := Completed) else s
    ensures msg.Unrecognised? ==> r == s
  {
    match msg
    case TestStarted(id) => s.(status := Running).(sessionId := Some(id))
    case StatsUpdate(stats) =>
      var s1 := s.(stats := Some(stats));
      if |stats.timeline| > 0 then AddTimelinePoint(s1, stats.timeline[|stats.timeline| - 1]) else s1
    case StatusChange(status) => s.(status := status)
    case TestComplete(stats) => s.(stats := Some(stats)).(status := Completed)
    case TestError => s.(status := Error)
    case StatusReport(running) =>
      if running == Some(false) && s.status == Running then s.(status := Completed) else s
    case Unrecognised => s
  }

  function HandleMessages(s: Store, msgs: seq<Message>): Store {
    if |msgs| == 0 then s else HandleMessage(HandleMessages(s, msgs[..|msgs| - 1]), msgs[|msgs| - 1])
  }

  /**
    Whatever the server sends, the live timeline stays within its capacity
    and the client-side fields stay as they were.
   */
  lemma {:induction false} MessagesKeepTimelineBounded(s: Store, msgs: seq<Message>)
    requires |s.liveTimeline| <= TimelineCapacity
    ensures |HandleMessages(s, msgs).liveTimeline| <= TimelineCapacity
    ensures SameClientFields(s, HandleMessages(s, msgs))
  {
    if |msgs| > 0 {
      MessagesKeepTimelineBounded(s, msgs[..|msgs| - 1]);
    }
  }

  /**
    A status report with `running: false` only ever ends a run the client
    still shows as running: it never revives a finished one and never turns
    an idle or failed client into a completed one.
   */
  lemma StatusReportOnlyCompletesRunning(s: Store, running: Option<bool>)
    ensures HandleMessage(s, StatusReport(running)).status == Completed ==> s.status in {Running, Completed}
    ensures s.status != Running ==> HandleMessage(s, StatusReport(running)) == s
    ensures HandleMessage(HandleMessage(s, StatusReport(running)), StatusReport(running)) == HandleMessage(s, StatusReport(running))
  {
  }

  /** Each statistics update contributes exactly its timeline's last point, in message order. */
  lemma {:induction false} UpdatesFeedTimeline(s: Store, updates: seq<AggregatedStats>)
    requires |s.liveTimeline| <= TimelineCapacity
    requires forall k :: 0 <= k < |updates| ==> updates[k].timeline != []
    ensures HandleMessages(s, seq(|updates|, k requires 0 <= k < |updates| => StatsUpdate(updates[k]))).liveTimeline
      == Suffix(s.liveTimeline + seq(|updates|, k requires 0 <= k < |updates| => LastPoint(updates[k])), TimelineCapacity)
  {
    var msgs := seq(|updates|, k requires 0 <= k < |updates| => StatsUpdate(updates[k]));
    var points := seq(|updates|, k requires 0 <= k < |updates| => LastPoint(updates[k]));
    SameTimeline(s, msgs, points);
    TimelineWindow(s, points);
  }

  function LastPoint(stats: AggregatedStats): TimelinePoint
    requires stats.timeline != []
  {
    stats.timeline[|stats.timeline| - 1]
  }

  lemma {:induction false} SameTimeline(s: Store, msgs: seq<Message>, points: seq<TimelinePoint>)
    requires |msgs| == |points|
    requires forall k :: 0 <= k < |msgs| ==> msgs[k].StatsUpdate? && msgs[k].stats.timeline != [] && points[k] == LastPoint(msgs[k].stats)
    ensures HandleMessages(s, msgs).liveTimeline == AddTimelinePoints(s, points).liveTimeline
  {
    if |msgs| > 0 {
      SameTimeline(s, msgs[..|msgs| - 1], points[..|points| - 1]);
    }
  }
}

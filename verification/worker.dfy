/**
  One virtual user (`LoadWorker` in packages/backend/src/engine/worker.ts):
  it claims a slot, issues one request, reports exactly one result for it and
  optionally pauses before the next claim. The HTTP client is an oracle that
  either answers with a status code and a body size or throws; clock readings
  (`performance.now`) are parameters.
 */
module Worker {
  import opened Types
  import opened Slots

  /** What the request did: a response whose body was read, or a thrown error. */
  datatype Outcome = Responded(statusCode: int, bytes: nat) | Threw(message: string)

  /** Where the worker's loop is suspended between atomic steps. */
  datatype Phase =
    | Ready                                 // constructed; `run` has not reached its first claim
    | InFlight(slot: nat, startTime: real)  // awaiting the response for `slot`
    | Thinking                              // awaiting the think-time timer
    | Exited                                // left the loop; its promise has resolved

  datatype LoadWorker = LoadWorker(stopped: bool, phase: Phase)

  /** A worker that has just been constructed and not yet run. */
  const Fresh := LoadWorker(false, Ready)

  /** The result reported for one request: success exactly for a status in [200, 400). */
  function Classify(slot: nat, startTime: real, endTime: real, o: Outcome): (r: RequestResult)
    ensures r.requestId == slot && r.startTime == startTime && r.endTime == endTime
    ensures r.latencyMs == endTime - startTime
    ensures r.success <==> o.Responded? && 200 <= o.statusCode < 400
    ensures o.Responded? ==> r.statusCode == o.statusCode && r.bytes == o.bytes && r.error == None
    ensures o.Threw? ==> r.statusCode == 0 && r.bytes == 0 && r.error == Some(o.message)
  {
    match o
    case Responded(status, bytes) =>
      RequestResult(slot, startTime, endTime, endTime - startTime, status, 200 <= status < 400, None, bytes)
    case Threw(message) =>
      RequestResult(slot, startTime, endTime, endTime - startTime, 0, false, Some(message), 0)
  }

  /** Whatever happened, a reported result is a success exactly when its own status code is in [200, 400). */
  lemma SuccessMatchesStatus(slot: nat, startTime: real, endTime: real, o: Outcome)
    ensures Classify(slot, startTime, endTime, o).success <==>
      200 <= Classify(slot, startTime, endTime, o).statusCode < 400
  {
  }

  /**
    The top of the loop: a stopped worker exits without claiming; otherwise it
    claims a slot and exits on none, or starts that request at `now`.
    Answers the worker and the shared issued count.
   */
  function LoopTop(w: LoadWorker, issued: nat, total: real, now: real): (r: (LoadWorker, nat))
    ensures r.0.stopped == w.stopped
    ensures w.stopped ==> r == (w.(phase := Exited), issued)
    ensures !w.stopped && issued >= SlotCount(total) ==> r == (w.(phase := Exited), issued)
    ensures !w.stopped && issued < SlotCount(total) ==> r == (w.(phase := InFlight(issued + 1, now)), issued + 1)
  {
    if w.stopped then (w.(phase := Exited), issued)
    else
      var (next, slot) := NextSlot(issued, total);
      match slot
      case None => (w.(phase := Exited), next)
      case Some(id) => (w.(phase := InFlight(id, now)), next)
  }

  /** After reporting a result the worker sleeps only if think time is positive and it was not stopped. */
  predicate PausesAfterResult(w: LoadWorker, config: LoadTestConfig) {
    config.thinkTimeMs > 0.0 && !w.stopped
  }

  /** `stop`: raises the flag the loop checks; the request in flight, if any, still completes. */
  function Stop(w: LoadWorker): (w': LoadWorker)
    ensures w'.stopped && w'.phase == w.phase
  {
    w.(stopped := true)
  }

  /**
    A single worker that nobody stops, alone on a fresh counter: the whole
    `run` loop. `respond` answers the request for each slot, `startAt` and
    `endAt` read the clock around it. It reports exactly one result per slot,
    for slots 1, 2, ... in order, and pauses after every result, the last one
    included, whenever think time is positive.
   */
  method Run(config: LoadTestConfig, respond: nat -> Outcome, startAt: nat -> real, endAt: nat -> real)
    returns (results: seq<RequestResult>, pauses: nat)
    ensures |results| == SlotCount(config.totalRequests)
    ensures forall k :: 0 <= k < |results| ==>
      results[k] == Classify(k + 1, startAt(k + 1), endAt(k + 1), respond(k + 1))
    ensures pauses == (if config.thinkTimeMs > 0.0 then |results| else 0)
  {
    var total := config.totalRequests;
    var top := LoopTop(Fresh, 0, total, startAt(1));
    var w, issued := top.0, top.1;
    results := [];
    pauses := 0;
    while w.phase.InFlight?
      invariant !w.stopped
      invariant issued <= SlotCount(total)
      invariant w.phase.InFlight? ==> w.phase.slot == issued && issued == |results| + 1
      invariant w.phase.InFlight? ==> w.phase.startTime == startAt(issued)
      invariant w.phase.Exited? ==> issued == |results| == SlotCount(total)
      invariant w.phase.InFlight? || w.phase.Exited?
      invariant forall k :: 0 <= k < |results| ==>
        results[k] == Classify(k + 1, startAt(k + 1), endAt(k + 1), respond(k + 1))
      invariant pauses == (if config.thinkTimeMs > 0.0 then |results| else 0)
      decreases SlotCount(total) - |results|
    {
      var slot := w.phase.slot;
      results := results + [Classify(slot, w.phase.startTime, endAt(slot), respond(slot))];
      if PausesAfterResult(w, config) {
        pauses := pauses + 1;
      }
      top := LoopTop(w, issued, total, startAt(issued + 1));
      w, issued := top.0, top.1;
    }
  }
}

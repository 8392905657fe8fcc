/**
  The load engine (`LoadEngine` in packages/backend/src/engine/orchestrator.ts)
  as an immutable state and one transition per synchronous block of its
  asynchronous code: JavaScript runs every such block to completion, so a run
  is any sequence of these steps. Emitted events are appended to a trace.

  Workers live in `pool`, which only grows; `workers` is the engine's own
  list of handles into it, and each `start` call remembers the workers whose
  promises it awaits. Clock readings (`Date.now` as `wallNow`,
  `performance.now` as `now`) and request outcomes are parameters.
 */
module Orchestrator {
  import opened Types
  import opened Slots
  import Histogram
  import Collector
  import Worker

  /**
    The statistics an event carries. `aggregate` depends only on the
    collector and the clock, so an event records both and `Payload` is what
    a listener receives.
   */
  datatype Snapshot = Snapshot(collector: Collector.StatsCollector, at: int)

  function Payload(s: Snapshot): (a: AggregatedStats)
    requires Histogram.Sorted(s.collector.histogram)
    ensures a.totalRequests == |s.collector.results|
    ensures a.timeline == s.collector.timeline
    ensures Histogram.Describes(s.collector.histogram, a.latency)
  {
    Collector.Aggregate(s.collector, s.at)
  }

  datatype Event =
    | StatusEvent(status: TestStatus)
    | ResultEvent(result: RequestResult, stats: Snapshot)
    | ProgressEvent(completed: nat, total: real)
    | CompleteEvent(stats: Snapshot)

  /** Where a `start` call is suspended. */
  datatype CallPhase =
    | Pausing(next: nat)  // in the ramp-up delay, about to spawn worker `next`
    | Joining             // awaiting all of its workers
    | Finished            // returned

  /** One `start` call and the workers it awaits (indices into the pool). */
  datatype StartCall = StartCall(phase: CallPhase, members: seq<nat>)

  datatype Engine = Engine(
    config: LoadTestConfig,
    stats: Collector.StatsCollector,
    pool: seq<Worker.LoadWorker>,
    workers: seq<nat>,
    status: TestStatus,
    issued: nat,
    completed: nat,
    calls: seq<StartCall>,
    events: seq<Event>
  )

  /** `new LoadEngine(config)`. */
  function Init(config: LoadTestConfig, wallNow: int): (e: Engine)
    ensures Consistent(e)
    ensures e.status == Idle && e.issued == 0 && e.completed == 0
    ensures e.pool == [] && e.workers == [] && e.calls == [] && e.events == []
  {
    Engine(config, Collector.New(wallNow), [], [], Idle, 0, 0, [], [])
  }

  // ---------------------------------------------------------------------
  // Accounting of slots

  /** The slot a worker is waiting on, if any. */
  function SlotsOf(w: Worker.LoadWorker): multiset<nat> {
    if w.phase.InFlight? then multiset{w.phase.slot} else multiset{}
  }

  /** Slots claimed by some worker and not yet reported. */
  function Outstanding(pool: seq<Worker.LoadWorker>): multiset<nat> {
    if |pool| == 0 then multiset{}
    else Outstanding(pool[..|pool| - 1]) + SlotsOf(pool[|pool| - 1])
  }

  /** Request ids of the recorded results. */
  function Reported(rs: seq<RequestResult>): multiset<nat> {
    if |rs| == 0 then multiset{}
    else Reported(rs[..|rs| - 1]) + multiset{rs[|rs| - 1].requestId}
  }

  /** The slots 1..n, each once. */
  function Range(n: nat): multiset<nat> {
    if n == 0 then multiset{} else Range(n - 1) + multiset{n}
  }

  lemma {:induction false} RangeCount(n: nat, k: nat)
    ensures Range(n)[k] == (if 1 <= k <= n then 1 else 0)
  {
    if n > 0 {
      RangeCount(n - 1, k);
    }
  }

  lemma OutstandingAppend(pool: seq<Worker.LoadWorker>, w: Worker.LoadWorker)
    ensures Outstanding(pool + [w]) == Outstanding(pool) + SlotsOf(w)
  {
    assert (pool + [w])[..|pool|] == pool;
  }

  lemma ReportedAppend(rs: seq<RequestResult>, r: RequestResult)
    ensures Reported(rs + [r]) == Reported(rs) + multiset{r.requestId}
  {
    assert (rs + [r])[..|rs|] == rs;
  }

  /** Replacing worker `i` changes how often slot `x` is outstanding only through the two workers' own slots. */
  lemma {:induction false} OutstandingUpdate(pool: seq<Worker.LoadWorker>, i: nat, w: Worker.LoadWorker, x: nat)
    requires i < |pool|
    ensures Outstanding(pool[i := w])[x] + SlotsOf(pool[i])[x] == Outstanding(pool)[x] + SlotsOf(w)[x]
  {
    var n := |pool| - 1;
    var p := pool[i := w];
    if i == n {
      assert p[..n] == pool[..n];
    } else {
      OutstandingUpdate(pool[..n], i, w, x);
      assert p[..n] == pool[..n][i := w];
    }
  }

  lemma {:induction false} OutstandingSamePhases(p: seq<Worker.LoadWorker>, q: seq<Worker.LoadWorker>)
    requires |p| == |q|
    requires forall k :: 0 <= k < |p| ==> p[k].phase == q[k].phase
    ensures Outstanding(p) == Outstanding(q)
  {
    if |p| > 0 {
      OutstandingSamePhases(p[..|p| - 1], q[..|q| - 1]);
    }
  }

  // ---------------------------------------------------------------------
  // The invariant

  predicate CallValid(call: StartCall, poolSize: nat, concurrency: real) {
    && (forall k :: 0 <= k < |call.members| ==> call.members[k] < poolSize)
    && |call.members| <= SlotCount(concurrency)
    && (call.phase.Pausing? ==> |call.members| == call.phase.next < SlotCount(concurrency))
  }

  predicate HandlesValid(e: Engine) {
    && (forall k :: 0 <= k < |e.workers| ==> e.workers[k] < |e.pool|)
    && (forall c :: 0 <= c < |e.calls| ==> CallValid(e.calls[c], |e.pool|, e.config.concurrency))
  }

  /**
    What holds of every engine reached from `Init` when `start` is never
    called while a request is in flight: the collector is consistent and has
    logged one result per completion, the counter never passes the total, no
    `start` call awaits more workers than the concurrency, and every issued
    slot is either reported or awaited by a worker, exactly once.
   */
  predicate Consistent(e: Engine) {
    && Collector.Valid(e.stats)
    && |e.stats.results| == e.completed
    && e.issued <= SlotCount(e.config.totalRequests)
    && HandlesValid(e)
    && Reported(e.stats.results) + Outstanding(e.pool) == Range(e.issued)
  }

  /** Every issued slot is accounted for once; nothing beyond the counter is. */
  lemma SlotsAccountedOnce(e: Engine, k: nat)
    requires Consistent(e)
    ensures (Reported(e.stats.results) + Outstanding(e.pool))[k] == (if 1 <= k <= e.issued then 1 else 0)
  {
    RangeCount(e.issued, k);
  }

  /** Completions plus requests in flight are exactly the requests issued. */
  lemma CompletedPlusInFlight(e: Engine)
    requires Consistent(e)
    ensures e.completed + |Outstanding(e.pool)| == e.issued
  {
    ReportedSize(e.stats.results);
    RangeSize(e.issued);
  }

  lemma {:induction false} ReportedSize(rs: seq<RequestResult>)
    ensures |Reported(rs)| == |rs|
  {
    if |rs| > 0 {
      ReportedSize(rs[..|rs| - 1]);
    }
  }

  lemma {:induction false} RangeSize(n: nat)
    ensures |Range(n)| == n
  {
    if n > 0 {
      RangeSize(n - 1);
    }
  }

  predicate NoneInFlight(pool: seq<Worker.LoadWorker>) {
    forall k :: 0 <= k < |pool| ==> !pool[k].phase.InFlight?
  }

  lemma {:induction false} NoneInFlightOutstanding(pool: seq<Worker.LoadWorker>)
    requires NoneInFlight(pool)
    ensures Outstanding(pool) == multiset{}
  {
    if |pool| > 0 {
      NoneInFlightOutstanding(pool[..|pool| - 1]);
    }
  }

  /** Once nothing is in flight, the log holds one result for each slot 1..issued and nothing else. */
  lemma QuiescentRunReportedAll(e: Engine)
    requires Consistent(e) && NoneInFlight(e.pool)
    ensures Reported(e.stats.results) == Range(e.issued)
    ensures forall k: nat :: Reported(e.stats.results)[k] == (if 1 <= k <= e.issued then 1 else 0)
  {
    NoneInFlightOutstanding(e.pool);
    forall k: nat
      ensures Reported(e.stats.results)[k] == (if 1 <= k <= e.issued then 1 else 0)
    {
      RangeCount(e.issued, k);
    }
  }

  // ---------------------------------------------------------------------
  // Ramp-up

  /** The pause between two spawns: the ramp-up period spread over the workers. */
  function RampDelay(config: LoadTestConfig): (d: real)
    requires config.concurrency > 0.0
    ensures d >= 0.0
    ensures d > 0.0 <==> config.rampUpSeconds > 0.0
    ensures d > 0.0 ==> d * config.concurrency == config.rampUpSeconds * 1000.0
  {
    if config.rampUpSeconds > 0.0 then config.rampUpSeconds * 1000.0 / config.concurrency else 0.0
  }

  /**
    After spawning worker `i` the loop pauses when there is a ramp delay and
    `i` is not the last index. A delay is positive exactly when the ramp-up
    period is (see `RampDelay`), which is how the step tests it.
   */
  predicate PausesAfterSpawn(config: LoadTestConfig, i: nat) {
    config.rampUpSeconds > 0.0 && (i as real) < config.concurrency - 1.0
  }

  /**
    The loop's tests on the JavaScript number `concurrency`, read on whole
    indices: `i < concurrency` holds for exactly the first
    SlotCount(concurrency) indices, and `i < concurrency - 1` for all of
    them but the last.
   */
  lemma SpawnGuards(concurrency: real, i: nat)
    ensures (i as real) < concurrency <==> i < SlotCount(concurrency)
    ensures (i as real) < concurrency - 1.0 <==> i + 1 < SlotCount(concurrency)
  {
  }

  /**
    Of the SlotCount(concurrency) spawn indices, every one but the last is
    followed by a pause of `RampDelay` when ramp-up is positive, and none is
    otherwise; the pauses together last less than the ramp-up period.
   */
  lemma RampPauses(config: LoadTestConfig, i: nat)
    requires config.concurrency > 0.0 && i < SlotCount(config.concurrency)
    ensures PausesAfterSpawn(config, i) <==> RampDelay(config) > 0.0 && (i as real) < config.concurrency - 1.0
    ensures PausesAfterSpawn(config, i) <==> config.rampUpSeconds > 0.0 && i + 1 < SlotCount(config.concurrency)
    ensures config.rampUpSeconds > 0.0 ==>
      (SlotCount(config.concurrency) - 1) as real * RampDelay(config) < config.rampUpSeconds * 1000.0
  {
    var n := SlotCount(config.concurrency);
    SpawnGuards(config.concurrency, i);
    assert (n - 1) as real < config.concurrency;
    if config.rampUpSeconds > 0.0 {
      StaggerBound((n - 1) as real, RampDelay(config), config.concurrency, config.rampUpSeconds * 1000.0);
    }
  }

  lemma StaggerBound(k: real, d: real, c: real, total: real)
    requires 0.0 <= k < c && d > 0.0 && d * c == total
    ensures k * d < total
  {
    assert k * d < c * d;
  }

  // ---------------------------------------------------------------------
  // Steps

  /** `getStats`. */
  function GetStats(e: Engine, wallNow: int): (a: AggregatedStats)
    requires Consistent(e)
    ensures a.totalRequests == e.completed
    ensures a.successCount + a.errorCount == e.completed
    ensures a.timeline == e.stats.timeline
  {
    Collector.Aggregate(e.stats, wallNow)
  }

  /** The `n` pool indices from `from` on. */
  function Ids(from: nat, n: nat): (r: seq<nat>)
    decreases n
    ensures |r| == n
    ensures forall k :: 0 <= k < n ==> r[k] == from + k
  {
    if n == 0 then [] else [from] + Ids(from + 1, n - 1)
  }

  /** What one synchronous stretch of the spawn loop leaves behind. */
  datatype Spawned = Spawned(pool: seq<Worker.LoadWorker>, issued: nat, pausedAt: Option<nat>)

  /**
    The spawn loop of `start` from index `i` on, while the status is running:
    for each of the `n` spawn indices it adds a fresh worker and runs it up
    to its first `await` (its first claim), then either stops to await the
    ramp delay, answering the index to resume at, or goes on with the next
    index. `n` is SlotCount(concurrency) and `ramp` says whether the ramp-up
    period is positive; `SpawnFrom` passes these and, through `SpawnGuards`,
    pauses exactly where `PausesAfterSpawn` holds. The status cannot change
    inside one synchronous stretch, so the loop's status test only matters
    when it resumes.
   */
  function SpawnLoop(n: nat, ramp: bool, total: real, pool: seq<Worker.LoadWorker>, issued: nat, i: nat, now: real): (r: Spawned)
    requires i <= n
    decreases n - i
    ensures |pool| <= |r.pool| && i + (|r.pool| - |pool|) <= n
    ensures r.pausedAt.Some? ==> ramp && r.pausedAt.value == i + (|r.pool| - |pool|) < n
    ensures r.pausedAt.None? ==> i + (|r.pool| - |pool|) == n
    ensures i < n ==> |pool| < |r.pool|
    ensures i < n ==> (r.pausedAt.Some? <==> ramp && i + 1 < n)
    ensures r.pausedAt.Some? ==> |r.pool| == |pool| + 1
  {
    if i >= n then Spawned(pool, issued, None)
    else
      var top := Worker.LoopTop(Worker.Fresh, issued, total, now);
      if ramp && i + 1 < n then Spawned(pool + [top.0], top.1, Some(i + 1))
      else SpawnLoop(n, ramp, total, pool + [top.0], top.1, i + 1, now)
  }

  /** The loop only appends fresh workers, each of which claims at most one slot. */
  lemma {:induction false} SpawnLoopExtends(n: nat, ramp: bool, total: real, pool: seq<Worker.LoadWorker>, issued: nat, i: nat, now: real)
    requires i <= n
    decreases n - i
    ensures var r := SpawnLoop(n, ramp, total, pool, issued, i, now);
      && r.pool[..|pool|] == pool
      && (forall k :: |pool| <= k < |r.pool| ==> !r.pool[k].stopped)
      && issued <= r.issued <= issued + (|r.pool| - |pool|)
      && (issued <= SlotCount(total) ==> r.issued <= SlotCount(total))
  {
    if i < n {
      var top := Worker.LoopTop(Worker.Fresh, issued, total, now);
      if !(ramp && i + 1 < n) {
        SpawnLoopExtends(n, ramp, total, pool + [top.0], top.1, i + 1, now);
        var r := SpawnLoop(n, ramp, total, pool + [top.0], top.1, i + 1, now);
        assert r.pool[..|pool|] == r.pool[..|pool| + 1][..|pool|];
      }
    }
  }

  /** Every slot the new workers claim is one more issued slot, and is outstanding. */
  lemma {:induction false} SpawnLoopAccounting(n: nat, ramp: bool, total: real, pool: seq<Worker.LoadWorker>, issued: nat, i: nat, now: real, x: nat)
    requires i <= n
    decreases n - i
    ensures var r := SpawnLoop(n, ramp, total, pool, issued, i, now);
      Outstanding(r.pool)[x] + Range(issued)[x] == Outstanding(pool)[x] + Range(r.issued)[x]
  {
    if i < n {
      var top := Worker.LoopTop(Worker.Fresh, issued, total, now);
      FreshClaim(issued, total, now, x);
      OutstandingAppend(pool, top.0);
      if !(ramp && i + 1 < n) {
        SpawnLoopAccounting(n, ramp, total, pool + [top.0], top.1, i + 1, now, x);
      }
    }
  }

  /** A fresh worker's first claim adds its slot, if any, to the range of issued slots. */
  lemma FreshClaim(issued: nat, total: real, now: real, x: nat)
    ensures var top := Worker.LoopTop(Worker.Fresh, issued, total, now);
      Range(top.1)[x] == Range(issued)[x] + SlotsOf(top.0)[x]
  {
  }

  /**
    Runs the spawn loop of call `ci` from index `i`: nothing is spawned once
    the status is no longer running. The new workers join the engine's list
    and the call's members, and the active-worker gauge follows the list.
   */
  function SpawnFrom(e: Engine, ci: nat, i: nat, now: real): (e': Engine)
    requires ci < |e.calls| && |e.calls[ci].members| == i && i <= SlotCount(e.config.concurrency)
    ensures |e'.calls| == |e.calls| && |e.pool| <= |e'.pool|
    ensures e'.config == e.config && e'.status == e.status && e'.completed == e.completed && e'.events == e.events
    ensures e'.stats == e.stats.(activeWorkers := e'.stats.activeWorkers)
    ensures e'.calls == e.calls[ci := e'.calls[ci]]
    ensures e'.calls[ci].phase.Joining? || e'.calls[ci].phase.Pausing?
    ensures e'.calls[ci].members == e.calls[ci].members + Ids(|e.pool|, |e'.pool| - |e.pool|)
    ensures e'.workers == e.workers + Ids(|e.pool|, |e'.pool| - |e.pool|)
    ensures |e'.calls[ci].members| <= SlotCount(e.config.concurrency)
    ensures e.status != Running ==> e'.pool == e.pool && e'.issued == e.issued && e'.calls[ci].phase.Joining?
    ensures e.status == Running && i < SlotCount(e.config.concurrency) ==> |e.pool| < |e'.pool|
    ensures |e.pool| < |e'.pool| ==> e'.stats.activeWorkers == |e'.workers|
    ensures |e.pool| == |e'.pool| ==> e'.stats == e.stats
    ensures e.status == Running && i < SlotCount(e.config.concurrency) ==>
      && (e'.calls[ci].phase.Pausing? <==> PausesAfterSpawn(e.config, i))
      && (e'.calls[ci].phase.Pausing? ==> |e'.pool| == |e.pool| + 1)
  {
    SpawnGuards(e.config.concurrency, i);
    if e.status != Running then e.(calls := e.calls[ci := e.calls[ci].(phase := Joining)])
    else
      var r := SpawnLoop(SlotCount(e.config.concurrency), e.config.rampUpSeconds > 0.0, e.config.totalRequests, e.pool, e.issued, i, now);
      var added := Ids(|e.pool|, |r.pool| - |e.pool|);
      var call := e.calls[ci];
      var phase := if r.pausedAt.Some? then Pausing(r.pausedAt.value) else Joining;
      e.(pool := r.pool, issued := r.issued, workers := e.workers + added,
         stats := if |added| > 0 then Collector.SetActiveWorkers(e.stats, |e.workers| + |added|) else e.stats,
         calls := e.calls[ci := StartCall(phase, call.members + added)])
  }

  /**
    `start`: refused while running; otherwise it clears the statistics and
    both counters, announces `running` and runs the spawn loop from index 0.
   */
  function Start(e: Engine, wallNow: int, now: real): (r: Result<Engine>)
    ensures e.status == Running <==> r.Failure?
    ensures r.Failure? ==> r.error == "Test already running"
    ensures r.Success? ==> r.value.status == Running
    ensures r.Success? ==> r.value.events == e.events + [StatusEvent(Running)]
    ensures r.Success? ==> r.value.completed == 0 && r.value.stats.results == [] && r.value.stats.timeline == []
    ensures r.Success? ==> |r.value.calls| == |e.calls| + 1 && r.value.calls[..|e.calls|] == e.calls
    ensures r.Success? ==> |e.pool| <= |r.value.pool|
    ensures r.Success? ==> r.value.calls[|e.calls|].members == Ids(|e.pool|, |r.value.pool| - |e.pool|)
    ensures r.Success? ==> |r.value.calls[|e.calls|].members| <= SlotCount(e.config.concurrency)
  {
    if e.status == Running then Failure("Test already running")
    else
      var e1 := StartReset(e, wallNow);
      var e2 := SpawnFrom(e1, |e.calls|, 0, now);
      assert e2.calls[..|e.calls|] == e.calls;
      Success(e2)
  }

  /**
    `start` keeps the workers of earlier runs in its list, so once it spawns
    a worker the gauge counts those earlier workers as well as the new ones.
   */
  lemma StartCountsEarlierWorkers(e: Engine, wallNow: int, now: real)
    requires e.status != Running
    requires |Start(e, wallNow, now).value.pool| > |e.pool|
    ensures Start(e, wallNow, now).value.stats.activeWorkers == |e.workers| + |Start(e, wallNow, now).value.pool| - |e.pool|
  {
    var e1 := StartReset(e, wallNow);
    var e2 := SpawnFrom(e1, |e.calls|, 0, now);
    assert Start(e, wallNow, now).value == e2;
  }

  /** The synchronous prologue of `start`, before its spawn loop. */
  function StartReset(e: Engine, wallNow: int): (e': Engine)
    ensures e'.status == Running && e'.issued == 0 && e'.completed == 0
    ensures e'.stats == Collector.Reset(e.stats, wallNow)
    ensures e'.events == e.events + [StatusEvent(Running)]
    ensures e'.calls == e.calls + [StartCall(Joining, [])]
    ensures e'.pool == e.pool && e'.workers == e.workers && e'.config == e.config
  {
    e.(stats := Collector.Reset(e.stats, wallNow), issued := 0, completed := 0, status := Running,
       events := e.events + [StatusEvent(Running)], calls := e.calls + [StartCall(Joining, [])])
  }

  /** The ramp delay of call `ci` has elapsed: its spawn loop goes on, and stops at once unless still running. */
  function ResumeSpawning(e: Engine, ci: nat, now: real): (e': Engine)
    requires ci < |e.calls| && e.calls[ci].phase.Pausing?
    requires |e.calls[ci].members| == e.calls[ci].phase.next < SlotCount(e.config.concurrency)
    ensures |e'.calls| == |e.calls|
    ensures e.status != Running ==>
      e' == e.(calls := e.calls[ci := e.calls[ci].(phase := Joining)])
    ensures e.status == Running ==> |e'.pool| > |e.pool| && |e'.calls[ci].members| > |e.calls[ci].members|
  {
    SpawnFrom(e, ci, e.calls[ci].phase.next, now)
  }

  /**
    `onResult` for the response of worker `w`, then the rest of that worker's
    loop iteration: the result is recorded and counted, `result` and then
    `progress` are emitted, and the worker either sleeps for the think time
    or goes back to the top of its loop.
   */
  function Respond(e: Engine, w: nat, outcome: Worker.Outcome, endTime: real, wallNow: int, now: real): (e': Engine)
    requires w < |e.pool| && e.pool[w].phase.InFlight?
    requires Histogram.Sorted(e.stats.histogram)
    ensures |e'.pool| == |e.pool| && e'.pool == e.pool[w := e'.pool[w]]
    ensures e'.completed == e.completed + 1
    ensures e'.stats == Collector.Record(e.stats, Worker.Classify(e.pool[w].phase.slot, e.pool[w].phase.startTime, endTime, outcome), wallNow)
    ensures |e'.events| == |e.events| + 2 && e'.events[..|e.events|] == e.events
    ensures e'.events[|e.events|] == ResultEvent(e'.stats.results[|e'.stats.results| - 1], Snapshot(e'.stats, wallNow))
    ensures e'.events[|e.events|].result.requestId == e.pool[w].phase.slot
    ensures e'.events[|e.events| + 1] == ProgressEvent(e.completed + 1, e.config.totalRequests)
    ensures e'.pool[w].phase.Thinking? <==> Worker.PausesAfterResult(e.pool[w], e.config)
    ensures !Worker.PausesAfterResult(e.pool[w], e.config) ==>
      (e'.pool[w], e'.issued) == Worker.LoopTop(e.pool[w], e.issued, e.config.totalRequests, now)
    ensures Worker.PausesAfterResult(e.pool[w], e.config) ==> e'.issued == e.issued
    ensures e.pool[w].stopped ==> e'.pool[w].phase.Exited? && e'.issued == e.issued
    ensures e'.config == e.config && e'.status == e.status && e'.workers == e.workers && e'.calls == e.calls
  {
    var worker := e.pool[w];
    var result := Worker.Classify(worker.phase.slot, worker.phase.startTime, endTime, outcome);
    var stats := Collector.Record(e.stats, result, wallNow);
    var completed := e.completed + 1;
    var events := e.events + [ResultEvent(result, Snapshot(stats, wallNow)),
                              ProgressEvent(completed, e.config.totalRequests)];
    if Worker.PausesAfterResult(worker, e.config) then
      e.(stats := stats, completed := completed, events := events,
         pool := e.pool[w := worker.(phase := Worker.Thinking)])
    else
      var (next, issued) := Worker.LoopTop(worker, e.issued, e.config.totalRequests, now);
      e.(stats := stats, completed := completed, events := events, pool := e.pool[w := next], issued := issued)
  }

  /** The think-time timer of worker `w` fired: back to the top of its loop. */
  function WakeUp(e: Engine, w: nat, now: real): (e': Engine)
    requires w < |e.pool| && e.pool[w].phase.Thinking?
    ensures |e'.pool| == |e.pool| && e'.pool == e.pool[w := e'.pool[w]]
    ensures (e'.pool[w], e'.issued) == Worker.LoopTop(e.pool[w], e.issued, e.config.totalRequests, now)
    ensures e'.stats == e.stats && e'.events == e.events && e'.completed == e.completed
    ensures e'.config == e.config && e'.status == e.status && e'.workers == e.workers && e'.calls == e.calls
  {
    var (next, issued) := Worker.LoopTop(e.pool[w], e.issued, e.config.totalRequests, now);
    e.(pool := e.pool[w := next], issued := issued)
  }

  /** Every worker call `ci` awaits has left its loop. */
  predicate AllExited(e: Engine, ci: nat)
    requires ci < |e.calls|
  {
    forall k :: 0 <= k < |e.calls[ci].members| ==>
      e.calls[ci].members[k] < |e.pool| && e.pool[e.calls[ci].members[k]].phase.Exited?
  }

  /**
    The tail of `start`: once all its workers are done the call marks the
    test completed and emits `status` and then `complete`, whatever happened
    in between.
   */
  function Join(e: Engine, ci: nat, wallNow: int): (e': Engine)
    requires ci < |e.calls| && e.calls[ci].phase.Joining? && AllExited(e, ci)
    requires Histogram.Sorted(e.stats.histogram)
    ensures e'.status == Completed
    ensures e'.events == e.events + [StatusEvent(Completed), CompleteEvent(Snapshot(e.stats, wallNow))]
    ensures e'.calls == e.calls[ci := StartCall(Finished, e.calls[ci].members)]
    ensures e'.pool == e.pool && e'.workers == e.workers && e'.stats == e.stats
    ensures e'.issued == e.issued && e'.completed == e.completed && e'.config == e.config
  {
    e.(status := Completed,
       events := e.events + [StatusEvent(Completed), CompleteEvent(Snapshot(e.stats, wallNow))],
       calls := e.calls[ci := e.calls[ci].(phase := Finished)])
  }

  /** The pool after `stop` flags the listed workers. */
  function StopListed(pool: seq<Worker.LoadWorker>, listed: seq<nat>): (p: seq<Worker.LoadWorker>)
    ensures |p| == |pool|
    ensures forall k :: 0 <= k < |pool| ==> p[k].phase == pool[k].phase
    ensures forall k :: 0 <= k < |pool| ==> p[k].stopped == (pool[k].stopped || k in listed)
  {
    seq(|pool|, k requires 0 <= k < |pool| => if k in listed then Worker.Stop(pool[k]) else pool[k])
  }

  /**
    `stop`: from any status, marks the test completed, stops every listed
    worker (their requests in flight still complete), forgets the list and
    emits `status` then `complete`.
   */
  function Stop(e: Engine, wallNow: int): (e': Engine)
    requires Histogram.Sorted(e.stats.histogram)
    ensures e'.status == Completed && e'.workers == []
    ensures e'.events == e.events + [StatusEvent(Completed), CompleteEvent(Snapshot(e.stats, wallNow))]
    ensures e'.pool == StopListed(e.pool, e.workers)
    ensures e'.stats == e.stats && e'.calls == e.calls && e'.issued == e.issued && e'.completed == e.completed
    ensures e'.config == e.config
  {
    e.(status := Completed, pool := StopListed(e.pool, e.workers), workers := [],
       events := e.events + [StatusEvent(Completed), CompleteEvent(Snapshot(e.stats, wallNow))])
  }

  // ---------------------------------------------------------------------
  // Every step keeps the invariant

  /** A top-of-loop step claims nothing, or exactly the next slot, which its worker then awaits. */
  lemma LoopTopClaims(w: Worker.LoadWorker, issued: nat, total: real, now: real)
    ensures var (w', issued') := Worker.LoopTop(w, issued, total, now);
      || (issued' == issued && SlotsOf(w') == multiset{})
      || (issued' == issued + 1 && SlotsOf(w') == multiset{issued + 1})
    ensures issued <= SlotCount(total) ==> Worker.LoopTop(w, issued, total, now).1 <= SlotCount(total)
  {
  }

  /** A step that either claims nothing or claims the next slot keeps the accounting balanced. */
  lemma ClaimAccounting(issued: nat, issued': nat, added: multiset<nat>)
    requires (issued' == issued && added == multiset{}) || (issued' == issued + 1 && added == multiset{issued + 1})
    ensures Range(issued') == Range(issued) + added
  {
  }

  /** Worker `w` reports the slot it awaited and becomes `w'`: every slot stays accounted once. */
  lemma AccountingAfterReport(rs: seq<RequestResult>, r: RequestResult, pool: seq<Worker.LoadWorker>,
                              w: nat, w': Worker.LoadWorker, issued: nat, issued': nat)
    requires Reported(rs) + Outstanding(pool) == Range(issued)
    requires w < |pool| && SlotsOf(pool[w]) == multiset{r.requestId}
    requires (issued' == issued && SlotsOf(w') == multiset{}) || (issued' == issued + 1 && SlotsOf(w') == multiset{issued + 1})
    ensures Reported(rs + [r]) + Outstanding(pool[w := w']) == Range(issued')
  {
    forall x: nat ensures (Reported(rs + [r]) + Outstanding(pool[w := w']))[x] == Range(issued')[x] {
      ReportBalanceAt(rs, r, pool, w, w', issued, issued', x);
    }
  }

  lemma ReportBalanceAt(rs: seq<RequestResult>, r: RequestResult, pool: seq<Worker.LoadWorker>,
                        w: nat, w': Worker.LoadWorker, issued: nat, issued': nat, x: nat)
    requires (Reported(rs) + Outstanding(pool))[x] == Range(issued)[x]
    requires w < |pool| && SlotsOf(pool[w]) == multiset{r.requestId}
    requires (issued' == issued && SlotsOf(w') == multiset{}) || (issued' == issued + 1 && SlotsOf(w') == multiset{issued + 1})
    ensures (Reported(rs + [r]) + Outstanding(pool[w := w']))[x] == Range(issued')[x]
  {
    ClaimAccounting(issued, issued', SlotsOf(w'));
    ReportedAppend(rs, r);
    OutstandingUpdate(pool, w, w', x);
  }

  /** Worker `w`, awaiting no slot, becomes `w'`: every slot stays accounted once. */
  lemma AccountingAfterWake(rs: seq<RequestResult>, pool: seq<Worker.LoadWorker>,
                            w: nat, w': Worker.LoadWorker, issued: nat, issued': nat)
    requires Reported(rs) + Outstanding(pool) == Range(issued)
    requires w < |pool| && SlotsOf(pool[w]) == multiset{}
    requires (issued' == issued && SlotsOf(w') == multiset{}) || (issued' == issued + 1 && SlotsOf(w') == multiset{issued + 1})
    ensures Reported(rs) + Outstanding(pool[w := w']) == Range(issued')
  {
    forall x: nat ensures (Reported(rs) + Outstanding(pool[w := w']))[x] == Range(issued')[x] {
      WakeBalanceAt(rs, pool, w, w', issued, issued', x);
    }
  }

  lemma WakeBalanceAt(rs: seq<RequestResult>, pool: seq<Worker.LoadWorker>,
                      w: nat, w': Worker.LoadWorker, issued: nat, issued': nat, x: nat)
    requires (Reported(rs) + Outstanding(pool))[x] == Range(issued)[x]
    requires w < |pool| && SlotsOf(pool[w]) == multiset{}
    requires (issued' == issued && SlotsOf(w') == multiset{}) || (issued' == issued + 1 && SlotsOf(w') == multiset{issued + 1})
    ensures (Reported(rs) + Outstanding(pool[w := w']))[x] == Range(issued')[x]
  {
    ClaimAccounting(issued, issued', SlotsOf(w'));
    OutstandingUpdate(pool, w, w', x);
  }

  /** Steps that keep the handle lists and the pool size keep the handles valid. */
  lemma HandlesFrame(e: Engine, e': Engine)
    requires HandlesValid(e)
    requires e'.workers == e.workers && e'.calls == e.calls && |e'.pool| == |e.pool| && e'.config == e.config
    ensures HandlesValid(e')
  {
  }

  lemma SpawnKeepsConsistent(e: Engine, ci: nat, i: nat, now: real)
    requires Consistent(e)
    requires ci < |e.calls| && |e.calls[ci].members| == i && i <= SlotCount(e.config.concurrency)
    ensures Consistent(SpawnFrom(e, ci, i, now))
  {
    if e.status == Running {
      SpawnKeepsStats(e, ci, i, now);
      SpawnKeepsAccounting(e, ci, i, now);
      SpawnKeepsHandles(e, ci, i, now);
    } else {
      var e' := SpawnFrom(e, ci, i, now);
      forall c | 0 <= c < |e'.calls|
        ensures CallValid(e'.calls[c], |e'.pool|, e'.config.concurrency)
      {
        assert CallValid(e.calls[c], |e.pool|, e.config.concurrency);
      }
    }
  }

  lemma SpawnKeepsStats(e: Engine, ci: nat, i: nat, now: real)
    requires Consistent(e) && e.status == Running
    requires ci < |e.calls| && |e.calls[ci].members| == i && i <= SlotCount(e.config.concurrency)
    ensures Collector.Valid(SpawnFrom(e, ci, i, now).stats)
  {
    var r := SpawnLoop(SlotCount(e.config.concurrency), e.config.rampUpSeconds > 0.0, e.config.totalRequests, e.pool, e.issued, i, now);
    Collector.SetActiveWorkersKeepsValid(e.stats, |e.workers| + (|r.pool| - |e.pool|));
  }

  lemma SpawnKeepsAccounting(e: Engine, ci: nat, i: nat, now: real)
    requires Consistent(e) && e.status == Running
    requires ci < |e.calls| && |e.calls[ci].members| == i && i <= SlotCount(e.config.concurrency)
    ensures SpawnFrom(e, ci, i, now).issued <= SlotCount(e.config.totalRequests)
    ensures Reported(e.stats.results) + Outstanding(SpawnFrom(e, ci, i, now).pool) == Range(SpawnFrom(e, ci, i, now).issued)
  {
    var r := SpawnLoop(SlotCount(e.config.concurrency), e.config.rampUpSeconds > 0.0, e.config.totalRequests, e.pool, e.issued, i, now);
    SpawnLoopExtends(SlotCount(e.config.concurrency), e.config.rampUpSeconds > 0.0, e.config.totalRequests, e.pool, e.issued, i, now);
    var reported, before, after := Reported(e.stats.results), Outstanding(e.pool), Outstanding(r.pool);
    var range, range' := Range(e.issued), Range(r.issued);
    forall x: nat ensures (reported + after)[x] == range'[x] {
      SpawnLoopAccounting(SlotCount(e.config.concurrency), e.config.rampUpSeconds > 0.0, e.config.totalRequests, e.pool, e.issued, i, now, x);
      assert (reported + before)[x] == range[x];
    }
    assert reported + after == range';
  }

  lemma SpawnKeepsHandles(e: Engine, ci: nat, i: nat, now: real)
    requires HandlesValid(e) && e.status == Running
    requires ci < |e.calls| && |e.calls[ci].members| == i && i <= SlotCount(e.config.concurrency)
    ensures HandlesValid(SpawnFrom(e, ci, i, now))
  {
    var e' := SpawnFrom(e, ci, i, now);
    var r := SpawnLoop(SlotCount(e.config.concurrency), e.config.rampUpSeconds > 0.0, e.config.totalRequests, e.pool, e.issued, i, now);
    var ids := Ids(|e.pool|, |e'.pool| - |e.pool|);
    forall k | 0 <= k < |e'.workers|
      ensures e'.workers[k] < |e'.pool|
    {
      if k >= |e.workers| {
        assert e'.workers[k] == ids[k - |e.workers|];
      }
    }
    forall c | 0 <= c < |e'.calls|
      ensures CallValid(e'.calls[c], |e'.pool|, e'.config.concurrency)
    {
      if c == ci {
        forall k | 0 <= k < |e'.calls[ci].members|
          ensures e'.calls[ci].members[k] < |e'.pool|
        {
          if k >= i {
            assert e'.calls[ci].members[k] == ids[k - i];
          }
        }
        assert e'.calls[ci].phase.Pausing? ==> r.pausedAt.Some?;
      } else {
        assert CallValid(e.calls[c], |e.pool|, e.config.concurrency);
      }
    }
  }

  lemma StartKeepsConsistent(e: Engine, wallNow: int, now: real)
    requires Consistent(e) && NoneInFlight(e.pool) && e.status != Running
    ensures Start(e, wallNow, now).Success? && Consistent(Start(e, wallNow, now).value)
  {
    NoneInFlightOutstanding(e.pool);
    var e1 := StartReset(e, wallNow);
    assert HandlesValid(e1) by {
      forall c | 0 <= c < |e1.calls|
        ensures CallValid(e1.calls[c], |e1.pool|, e1.config.concurrency)
      {
        if c < |e.calls| {
          assert e1.calls[c] == e.calls[c];
        }
      }
    }
    assert Consistent(e1);
    SpawnKeepsConsistent(e1, |e.calls|, 0, now);
  }

  lemma ResumeKeepsConsistent(e: Engine, ci: nat, now: real)
    requires Consistent(e) && ci < |e.calls| && e.calls[ci].phase.Pausing?
    ensures Consistent(ResumeSpawning(e, ci, now))
  {
    assert CallValid(e.calls[ci], |e.pool|, e.config.concurrency);
    SpawnKeepsConsistent(e, ci, e.calls[ci].phase.next, now);
  }

  lemma RespondKeepsConsistent(e: Engine, w: nat, outcome: Worker.Outcome, endTime: real, wallNow: int, now: real)
    requires Consistent(e) && w < |e.pool| && e.pool[w].phase.InFlight?
    ensures Consistent(Respond(e, w, outcome, endTime, wallNow, now))
  {
    RespondKeepsStats(e, w, outcome, endTime, wallNow, now);
    RespondKeepsAccounting(e, w, outcome, endTime, wallNow, now);
    HandlesFrame(e, Respond(e, w, outcome, endTime, wallNow, now));
  }

  lemma RespondKeepsStats(e: Engine, w: nat, outcome: Worker.Outcome, endTime: real, wallNow: int, now: real)
    requires Consistent(e) && w < |e.pool| && e.pool[w].phase.InFlight?
    ensures Collector.Valid(Respond(e, w, outcome, endTime, wallNow, now).stats)
    ensures |Respond(e, w, outcome, endTime, wallNow, now).stats.results| == Respond(e, w, outcome, endTime, wallNow, now).completed
  {
    var worker := e.pool[w];
    Collector.RecordPreservesValid(e.stats, Worker.Classify(worker.phase.slot, worker.phase.startTime, endTime, outcome), wallNow);
  }

  lemma RespondKeepsAccounting(e: Engine, w: nat, outcome: Worker.Outcome, endTime: real, wallNow: int, now: real)
    requires Consistent(e) && w < |e.pool| && e.pool[w].phase.InFlight?
    ensures Respond(e, w, outcome, endTime, wallNow, now).issued <= SlotCount(e.config.totalRequests)
    ensures Reported(Respond(e, w, outcome, endTime, wallNow, now).stats.results)
      + Outstanding(Respond(e, w, outcome, endTime, wallNow, now).pool) == Range(Respond(e, w, outcome, endTime, wallNow, now).issued)
  {
    var e' := Respond(e, w, outcome, endTime, wallNow, now);
    var worker := e.pool[w];
    var result := Worker.Classify(worker.phase.slot, worker.phase.startTime, endTime, outcome);
    assert e'.stats.results == e.stats.results + [result];
    assert SlotsOf(worker) == multiset{result.requestId};
    if Worker.PausesAfterResult(worker, e.config) {
      assert e'.issued == e.issued && SlotsOf(e'.pool[w]) == multiset{};
    } else {
      LoopTopClaims(worker, e.issued, e.config.totalRequests, now);
    }
    AccountingAfterReport(e.stats.results, result, e.pool, w, e'.pool[w], e.issued, e'.issued);
  }

  lemma WakeUpKeepsConsistent(e: Engine, w: nat, now: real)
    requires Consistent(e) && w < |e.pool| && e.pool[w].phase.Thinking?
    ensures Consistent(WakeUp(e, w, now))
  {
    var e' := WakeUp(e, w, now);
    HandlesFrame(e, e');
    LoopTopClaims(e.pool[w], e.issued, e.config.totalRequests, now);
    AccountingAfterWake(e.stats.results, e.pool, w, e'.pool[w], e.issued, e'.issued);
  }

  lemma JoinKeepsConsistent(e: Engine, ci: nat, wallNow: int)
    requires Consistent(e) && ci < |e.calls| && e.calls[ci].phase.Joining? && AllExited(e, ci)
    ensures Consistent(Join(e, ci, wallNow))
  {
    var e' := Join(e, ci, wallNow);
    forall c | 0 <= c < |e'.calls|
      ensures CallValid(e'.calls[c], |e'.pool|, e'.config.concurrency)
    {
      assert CallValid(e.calls[c], |e.pool|, e.config.concurrency);
    }
  }

  lemma StopKeepsConsistent(e: Engine, wallNow: int)
    requires Consistent(e)
    ensures Consistent(Stop(e, wallNow))
  {
    var e' := Stop(e, wallNow);
    OutstandingSamePhases(e.pool, e'.pool);
  }

  // ---------------------------------------------------------------------
  // A stopped run

  /** With one worker and one request, `start` spawns the worker, which claims slot 1 at once; no pause follows. */
  lemma SingleWorkerStart(config: LoadTestConfig)
    requires config.concurrency == 1.0 && config.totalRequests == 1.0
    ensures var s := Start(Init(config, 0), 0, 0.0);
      && s.Success?
      && s.value.pool == [Worker.LoadWorker(false, Worker.InFlight(1, 0.0))]
      && s.value.workers == [0]
      && s.value.calls == [StartCall(Joining, [0])]
      && s.value.events == [StatusEvent(Running)]
      && s.value.stats.histogram == [] && s.value.completed == 0
  {
    var first := Worker.LoadWorker(false, Worker.InFlight(1, 0.0));
    assert SlotCount(1.0) == 1;
    assert Worker.LoopTop(Worker.Fresh, 0, 1.0, 0.0) == (first, 1);
    var ramp := config.rampUpSeconds > 0.0;
    assert SpawnLoop(1, ramp, 1.0, [first], 1, 1, 0.0) == Spawned([first], 1, None);
    assert SpawnLoop(1, ramp, 1.0, [], 0, 0, 0.0) == Spawned([first], 1, None);
    assert Ids(0, 1) == [0];
  }

  /**
    `stop` while a single worker's request is in flight (the state
    `SingleWorkerStart` reaches): `stop` emits
    `status` and `complete`, the request still reports its result and
    progress, and once the worker has left its loop `start` reaches its tail
    and emits `status` and `complete` a second time.
   */
  lemma StopWhileInFlight(e: Engine, outcome: Worker.Outcome, stopAt: int, endTime: real, endAt: int, joinAt: int, now: real)
    requires e.status == Running && |e.pool| == 1 && e.pool[0].phase.InFlight? && !e.pool[0].stopped
    requires e.workers == [0] && e.calls == [StartCall(Joining, [0])]
    requires Histogram.Sorted(e.stats.histogram)
    ensures var e2 := Stop(e, stopAt);
      var e3 := Respond(e2, 0, outcome, endTime, endAt, now);
      && AllExited(e3, 0)
      && Join(e3, 0, joinAt).events == e.events + [
           StatusEvent(Completed), CompleteEvent(Snapshot(e.stats, stopAt)),
           ResultEvent(e3.stats.results[|e3.stats.results| - 1], Snapshot(e3.stats, endAt)),
           ProgressEvent(e.completed + 1, e.config.totalRequests),
           StatusEvent(Completed), CompleteEvent(Snapshot(e3.stats, joinAt))]
      && e3.stats.results == e.stats.results + [e3.stats.results[|e3.stats.results| - 1]]
      && e3.stats.results[|e3.stats.results| - 1].requestId == e.pool[0].phase.slot
  {
    var e2 := Stop(e, stopAt);
    assert e2.pool == [e.pool[0].(stopped := true)];
    assert e2.events == e.events + [StatusEvent(Completed), CompleteEvent(Snapshot(e.stats, stopAt))];
    assert e2.stats == e.stats && e2.completed == e.completed && e2.calls == e.calls;
    var e3 := Respond(e2, 0, outcome, endTime, endAt, now);
    var last := e3.stats.results[|e3.stats.results| - 1];
    assert e3.events == e2.events + [ResultEvent(last, Snapshot(e3.stats, endAt)), ProgressEvent(e.completed + 1, e.config.totalRequests)];
    assert e3.pool[0].phase.Exited?;
  }
}

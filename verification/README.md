# ApexLoad core, modelled in Dafny

ApexLoad is an HTTP load tester with a TypeScript back end and a React front end. This project models its core as immutable Dafny datatypes and pure transition functions, and proves properties about them.

The back end:

- The load engine (`LoadEngine`) hands out request slots and spawns workers, with an optional ramp-up stagger. It records every result and emits `status`, `result`, `progress` and `complete` events.
- Each worker (`LoadWorker`) loops: claim a slot, send the request, classify the response, then optionally pause for the think time.
- The statistics collector (`StatsCollector`) keeps a latency histogram of the successful requests and the log of all results. It closes a one-second window into a timeline point, and aggregates counts, rates and percentiles.
- The natural-language intent parser trims and truncates the prompt, falls back on unparseable model output, and clamps the numeric fields.
- The bottleneck analyst assembles the streamed text and extracts the severity, the issues and the recommended actions.
- The HTML report generator computes the values the report template is given.

The front end:

- The state store, with its bounded live timeline and its AI stream text.
- The socket hook's message reducer.
- The natural-language form filler.
- The configuration form's schema and its submit handler.
- The analyst panel's handling of the server-sent event stream.

Modelling conventions:

- JavaScript numbers are `real`.
  - `Math.round` is `Types.JsRound`: floor of x + 0.5.
  - A division that may have a zero divisor yields a `Rate`: finite, `Infinite` or `NotANumber`.
- The HDR histogram is an exact, ascending `seq<int>`. A percentile is the nearest-rank sample: the smallest recorded value with at least p% of the samples at or below it.
- Time, HTTP outcomes, parsed JSON and the model's replies are parameters.
- Each synchronous stretch of the asynchronous engine is one atomic step on an `Engine` value. These steps are:
  - `Start`, with its spawn loop up to the first ramp pause;
  - `ResumeSpawning`;
  - `Respond`, which is `onResult` plus the rest of the worker's iteration;
  - `WakeUp`;
  - `Join`;
  - `Stop`.

  Events are a trace (`seq<Event>`). An event carries a `Snapshot` of the collector and the clock, whose `Payload` is the aggregate a listener receives.
- Modules follow the source files:

  | module | source file |
  |---|---|
  | `Collector` | `stats/histogram.ts` |
  | `Worker` | `engine/worker.ts` |
  | `Slots`, `Orchestrator` | `engine/orchestrator.ts` |
  | `IntentParser` | `ai/intent-parser.ts` |
  | `Analyst` | `ai/analyst.ts` |
  | `Reporter` | `reporter/index.ts` |
  | `TestStore` | `store/testStore.ts` |
  | `WebSocketClient` | `hooks/useWebSocket.ts` |
  | `NLBuilder` | `hooks/useNLBuilder.ts` |
  | `ConfigForm` | `components/ConfigForm.tsx` |
  | `AnalystPanel` | `components/AIAnalystPanel.tsx` |

  `Types`, `Text` and `Histogram` hold the shared records, the JavaScript string operations and the sorted-sample histogram.

## Model

| member | source | states |
|---|---|---|
| Types.JsRound | packages/backend/src/stats/histogram.ts:27 | `Math.round` gives the integer within half of x, with halves rounded up. |
| Types.Quotient | packages/backend/src/stats/histogram.ts:71 | A count divided by elapsed seconds is finite exactly when the seconds are non-zero. In that case it times the seconds gives the count. Otherwise it is NaN for 0/0 and Infinity for a positive count. |
| Types.Fraction | packages/backend/src/stats/histogram.ts:70 | `part / max(1, whole)` lies in [0, 1]. Times `max(1, whole)` it gives `part`. It is 1 when every result is counted. |
| Types.PerSecond | packages/backend/src/stats/histogram.ts:49 | A window's throughput is non-negative and, times the elapsed seconds, gives the window's request count. |
| Text.TrimCharacterization | packages/backend/src/ai/intent-parser.ts:50 | `trim()` returns a contiguous slice of the input that has no whitespace at either end. Everything it drops is whitespace. |
| Text.TrimIdempotent | packages/backend/src/ai/analyst.ts:124 | Trimming a trimmed string changes nothing. |
| Text.SplitJoin | packages/backend/src/ai/analyst.ts:122 | Joining the pieces of `split('\n')` with line breaks gives back the text. |
| Text.JoinSplit | packages/backend/src/ai/analyst.ts:122 | Splitting the join of pieces that contain no separator gives back the pieces. |
| Text.NatToStringRoundTrip | packages/backend/src/reporter/index.ts:113 | The decimal digits printed for a number read back as that number. |
| Histogram.Insert | packages/backend/src/stats/histogram.ts:27 | Recording a value adds exactly that value to the samples, which stay ascending. |
| Histogram.FromValues | packages/backend/src/stats/histogram.ts:42-45 | The histogram built from values holds exactly those values, in ascending order. |
| Histogram.ValueAtPercentile | packages/backend/src/stats/histogram.ts:77-82 | An empty histogram reports 0. Otherwise the reported value is a recorded sample between the smallest and the largest. |
| Histogram.PercentileIsNearestRank | packages/backend/src/stats/histogram.ts:77-82 | At least p% of the samples are at or below the reported value, and fewer than p% are below it. |
| Histogram.NearestRankUnique | packages/backend/src/stats/histogram.ts:77-82 | At most one value meets the nearest-rank condition for a given p, so that condition fully determines a reported percentile. |
| Histogram.PermutationInvariant | packages/backend/src/stats/histogram.ts:42-45 | Two collections with the same samples in any order have the same size, the same total, and the same counts at or below and below any value. |
| Histogram.PercentileMonotonic | packages/backend/src/stats/histogram.ts:77-82 | A higher percentile never reports a lower latency. |
| Histogram.Summarize | packages/backend/src/stats/histogram.ts:73-83 | Each of p50, p75, p90, p95, p99 and p99.9 is the nearest-rank percentile of the samples at 50, 75, 90, 95, 99 and 99.9. The mean is the total of the samples over their count. Min and max are recorded samples that bound every sample, and min ≤ p50 ≤ … ≤ p99.9 ≤ max. An empty histogram gives all zeros. |
| Histogram.DescribesUnique | packages/backend/src/stats/histogram.ts:73-83 | Two summaries that both describe the same samples (extremes, mean and nearest-rank percentiles) are equal. |
| Histogram.DescribesPermutation | packages/backend/src/stats/histogram.ts:73-83 | Whether a summary describes the samples does not depend on the order in which they were recorded. |
| Collector.New | packages/backend/src/stats/histogram.ts:4-17 | A new collector is empty, has both clocks at the current time and zero active workers, and satisfies the collector invariant. |
| Collector.SetActiveWorkers | packages/backend/src/stats/histogram.ts:19-21 | The result is the same collector with the gauge set to the given count: results, window, timeline, histogram and start time are all unchanged, and the invariant is kept. |
| Collector.RecordedValue | packages/backend/src/stats/histogram.ts:27 | A recorded latency is at least 1. It equals the rounded latency whenever that is at least 1. |
| Collector.Record | packages/backend/src/stats/histogram.ts:23-35 | The log grows by exactly the result. The histogram gains the result's recorded value exactly when the result succeeded, and stays ascending. A timeline point is appended exactly when at least 1000 ms have passed since the window opened; that point summarises the window including this result, after which the window is empty and reopens at `now`. Otherwise the window grows by the result. |
| Collector.RecordPreservesValid | packages/backend/src/stats/histogram.ts:23-58 | Recording keeps the collector invariant. The histogram holds exactly the recorded values of the logged successes. The window is the tail of the log. Timeline points are at least a second apart, and the last one is stamped at the window's start. |
| Collector.RecordKeepsTimeline | packages/backend/src/stats/histogram.ts:31-34 | Consecutive timeline timestamps differ by at least 1000 ms. The first comes at least a second after the start. |
| Collector.WindowPoint | packages/backend/src/stats/histogram.ts:37-54 | A point is stamped `now` with the current gauge. Its throughput times the elapsed seconds is the window's size. Its error rate is failures / max(1, size), within [0, 1]. Its p50 and p95 are the nearest-rank 50th and 95th percentiles of the window's successful latencies, read from a histogram of them, or 0 when there are none. |
| Collector.SnapshotTimeline | packages/backend/src/stats/histogram.ts:37-58 | Exactly one point is appended for the closed window. The window is emptied and restarted at `now`. The histogram, log, start time and gauge are untouched. |
| Collector.Aggregate | packages/backend/src/stats/histogram.ts:60-86 | The aggregate: total = log length; errors = failures; successes + errors = total; error rate = errors / max(1, total); bytes = sum over the log; throughput = total / elapsed seconds since the start. Percentiles are ordered and bound every sample. An empty histogram gives an all-zero summary. The latency summary is that of the histogram, so it describes the histogram's samples. The timeline is passed through. |
| Collector.AggregateDescribesSuccesses | packages/backend/src/stats/histogram.ts:60-83 | On a consistent collector the reported min, max, mean and six percentiles describe the recorded latencies of the successful results, whatever order they arrived in. |
| Collector.AggregateCountsHistogram | packages/backend/src/stats/histogram.ts:61-82 | On a consistent collector the success count is the number of histogram samples. The reported max is a recorded success latency, and the min is at least 1. |
| Collector.AllFailedRun | packages/backend/src/stats/histogram.ts:62-82 | When every logged request failed, the success count is 0, the error rate is exactly 1 and the latency summary is all zeros. |
| Collector.Reset | packages/backend/src/stats/histogram.ts:88-95 | Log, window, histogram and timeline are emptied, and both clocks restart at `now`. The active-worker gauge is kept. |
| Worker.Classify | packages/backend/src/engine/worker.ts:45-86 | The result carries the slot and both times, with latency = end − start. It is a success exactly for a response with status in [200, 400). A thrown request gives status 0, 0 bytes and its error message. |
| Worker.SuccessMatchesStatus | packages/backend/src/engine/worker.ts:70-82 | Whatever happened, a result is a success exactly when its own status code is in [200, 400). |
| Worker.LoopTop | packages/backend/src/engine/worker.ts:41-45 | A stopped worker exits without claiming a slot. Otherwise it exits on no slot, or takes exactly the next slot and starts that request. |
| Worker.Stop | packages/backend/src/engine/worker.ts:32-35 | `stop` sets the flag and leaves the request in flight alone. |
| Worker.Run | packages/backend/src/engine/worker.ts:37-96 | A lone, unstopped worker on a fresh counter reports one result per slot, for slots 1, 2, … in order. Each result is its slot's classified outcome. It pauses once per result when the think time is positive, and never otherwise. |
| Slots.SlotCount | packages/backend/src/engine/orchestrator.ts:30 | The number of slots handed out is the least whole number at or above the total, and 0 when the total is not positive. |
| Slots.SlotCountOfWhole | packages/backend/src/engine/orchestrator.ts:30 | A whole total gives exactly that many slots. |
| Slots.NextSlot | packages/backend/src/engine/orchestrator.ts:29-32 | While slots remain, a claim increments the counter and answers the new value. Otherwise it answers none and leaves the counter. |
| Slots.ClaimsEnumerate | packages/backend/src/engine/orchestrator.ts:29-32 | The k-th of n claims from `issued` answers slot issued + k + 1 while slots remain, and none after. The counter stops at the slot count. |
| Slots.FreshClaims | packages/backend/src/engine/orchestrator.ts:29-32 | From a fresh counter, claims answer 1, 2, …, total in order, then none forever. No slot repeats, and the counter never passes the total. |
| Orchestrator.Init | packages/backend/src/engine/orchestrator.ts:14-27 | A new engine is idle with both counters at 0, no workers and no events, and satisfies the engine invariant. |
| Orchestrator.Payload | packages/backend/src/engine/orchestrator.ts:37 | The statistics an event delivers count every result recorded so far, carry the collector's timeline, and summarise its histogram: zero when empty, otherwise its true extremes, mean and nearest-rank percentiles. |
| Orchestrator.SlotsAccountedOnce | packages/backend/src/engine/orchestrator.ts:29-39 | In every consistent engine, each slot 1..issued is either reported in the log or awaited by a worker, exactly once. No other slot is either. |
| Orchestrator.CompletedPlusInFlight | packages/backend/src/engine/orchestrator.ts:31-36 | Completions plus requests in flight equal the requests issued. |
| Orchestrator.QuiescentRunReportedAll | packages/backend/src/engine/orchestrator.ts:29-39 | Once nothing is in flight, the log holds one result for each slot 1..issued and no other. |
| Orchestrator.RampDelay | packages/backend/src/engine/orchestrator.ts:51 | The delay is 0 exactly when ramp-up is 0. Otherwise, times the concurrency, it gives the ramp-up period in milliseconds. |
| Orchestrator.SpawnGuards | packages/backend/src/engine/orchestrator.ts:55-64 | `i < concurrency` holds for exactly the first ⌈concurrency⌉ indices, and `i < concurrency − 1` for all of them but the last. |
| Orchestrator.RampPauses | packages/backend/src/engine/orchestrator.ts:64-66 | The pause condition the engine's spawn step follows (`PausesAfterSpawn`, see SpawnFrom) holds for every spawn index but the last exactly when ramp-up is positive, and the delay is then positive. The pauses together stay below the ramp-up period. |
| Orchestrator.GetStats | packages/backend/src/engine/orchestrator.ts:84-86 | The aggregate counts every completed request, split into successes and errors. It carries the collector's timeline. |
| Orchestrator.SpawnLoop | packages/backend/src/engine/orchestrator.ts:55-67 | The loop spawns one worker per index up to the concurrency. From a spawnable index it pauses right after that one spawn exactly when ramp-up is positive and the index is not the last; otherwise it runs on to the end. |
| Orchestrator.SpawnFrom | packages/backend/src/engine/orchestrator.ts:55-67 | New workers join both the engine's list and the call's members, never beyond the concurrency. Nothing is spawned once the status is no longer running. Once a worker is spawned the gauge equals the length of the engine's list; otherwise the statistics are untouched. Apart from the gauge the statistics are unchanged, and events and counters are untouched. From a spawnable index while running, the call pauses exactly when `PausesAfterSpawn` holds for that index, having spawned just that one worker. |
| Orchestrator.StartCountsEarlierWorkers | packages/backend/src/engine/orchestrator.ts:41-62 | Once `start` spawns a worker, the gauge is the number of workers kept from earlier runs plus the number just spawned. |
| Orchestrator.Start | packages/backend/src/engine/orchestrator.ts:41-67 | `start` fails with "Test already running" exactly when the engine is running. Otherwise it empties the statistics and the completion count, sets `running`, emits one `status` event, and registers a call that awaits at most `concurrency` new workers. |
| Orchestrator.StartReset | packages/backend/src/engine/orchestrator.ts:42-48 | The prologue resets the collector, zeroes both counters, sets `running` and emits `status` before anything is spawned. |
| Orchestrator.ResumeSpawning | packages/backend/src/engine/orchestrator.ts:55-66 | After a ramp pause the loop spawns at least one more worker while running. Once the status has changed it spawns none and goes to await its workers. |
| Orchestrator.Respond | packages/backend/src/engine/orchestrator.ts:34-39 | A response records the classified result and raises the completion count by one. It emits `result`, carrying that result for the awaited slot, then `progress` with the new count. Afterwards the worker sleeps exactly when think time is positive and it was not stopped; a stopped worker exits and claims nothing. |
| Orchestrator.WakeUp | packages/backend/src/engine/worker.ts:90-93 | After the think-time pause the worker returns to the top of its loop. Statistics and events are untouched. |
| Orchestrator.Join | packages/backend/src/engine/orchestrator.ts:69-73 | Once all its workers have exited, the call marks the test completed and emits `status` then `complete`. |
| Orchestrator.StopListed | packages/backend/src/engine/orchestrator.ts:78 | Exactly the listed workers gain the stop flag. Every worker keeps its place in its loop. |
| Orchestrator.Stop | packages/backend/src/engine/orchestrator.ts:76-82 | From any status, `stop` marks the test completed, flags every listed worker and empties the list. It emits `status` then `complete`, and leaves statistics and counters alone. |
| Orchestrator.LoopTopClaims | packages/backend/src/engine/orchestrator.ts:29-32 | A claim either takes nothing or takes exactly the next slot, which the worker then awaits. The counter never passes the slot count. |
| Orchestrator.StartKeepsConsistent | packages/backend/src/engine/orchestrator.ts:41-67 | `start` on a consistent, non-running engine with nothing in flight succeeds and yields a consistent engine. |
| Orchestrator.ResumeKeepsConsistent | packages/backend/src/engine/orchestrator.ts:55-66 | Resuming the spawn loop keeps the engine consistent. |
| Orchestrator.RespondKeepsConsistent | packages/backend/src/engine/orchestrator.ts:34-39 | Handling a response keeps the engine consistent. This covers the slot accounting, the collector invariant, and one logged result per completion. |
| Orchestrator.WakeUpKeepsConsistent | packages/backend/src/engine/worker.ts:41-43 | A worker's return to the top of its loop keeps the engine consistent. |
| Orchestrator.JoinKeepsConsistent | packages/backend/src/engine/orchestrator.ts:69-73 | The tail of `start` keeps the engine consistent. |
| Orchestrator.StopKeepsConsistent | packages/backend/src/engine/orchestrator.ts:76-82 | `stop` keeps the engine consistent. A stopped worker's request in flight is still accounted for. |
| Orchestrator.SingleWorkerStart | packages/backend/src/engine/orchestrator.ts:41-67 | With one worker and one request, `start` spawns one worker, which claims slot 1 at once. No pause follows, and only the `running` status has been emitted. |
| Orchestrator.StopWhileInFlight | packages/backend/src/engine/orchestrator.ts:76-82 | `stop` while a request is in flight emits `status` and `complete`. The request still reports its result and progress. Then `start`'s tail emits `status` and `complete` a second time. |
| IntentParser.Sanitize | packages/backend/src/ai/intent-parser.ts:50 | The prompt sent is a prefix of the trimmed prompt, of length min(trimmed length, 500). |
| IntentParser.SanitizeKeepsShortPrompts | packages/backend/src/ai/intent-parser.ts:50 | A trimmed prompt of at most 500 characters is sent whole. |
| IntentParser.SanitizedStartsAtText | packages/backend/src/ai/intent-parser.ts:50 | What is sent never starts with whitespace. It is empty exactly when the prompt is blank. |
| IntentParser.Clamp | packages/backend/src/ai/intent-parser.ts:78-82 | `min(max(lo, x), hi)` lies in [lo, hi]. It is x when x is in range, and the nearer bound otherwise. |
| IntentParser.ClampField | packages/backend/src/ai/intent-parser.ts:78-82 | A present, non-zero field is brought into its range. An absent field or a 0 is left as it was. |
| IntentParser.ClampFieldIdempotent | packages/backend/src/ai/intent-parser.ts:78-82 | Clamping a clamped field changes nothing. |
| IntentParser.ClampParsed | packages/backend/src/ai/intent-parser.ts:77-84 | Each numeric field is clamped to its own range: concurrency [1, 1000], totalRequests [1, 100000], ramp-up [0, 600], timeout [100, 60000], think time [0, 10000]. Url, method, headers, body, name, confidence and raw intent are untouched. |
| IntentParser.ClampedIsSafe | packages/backend/src/ai/intent-parser.ts:78-82 | After clamping, every present non-zero field is in its range. |
| IntentParser.ClampParsedFixedPoints | packages/backend/src/ai/intent-parser.ts:78-82 | A reply already in range passes unchanged, and clamping twice is clamping once. |
| IntentParser.Fallback | packages/backend/src/ai/intent-parser.ts:69-75 | Unparseable output yields no fields, confidence 0 and the prompt as sent. |
| IntentParser.ParseIntent | packages/backend/src/ai/intent-parser.ts:48-85 | Without a parseable reply the answer is exactly the fallback for the sanitized prompt: no fields, confidence 0, the prompt as sent. Otherwise it is exactly the reply with its five numeric fields clamped and every other field kept. Either way every numeric field is within the safe ranges. |
| Analyst.Forwarded | packages/backend/src/ai/analyst.ts:107-112 | One token per non-empty delta, in stream order: the k-th token is the k-th non-empty delta, and every non-empty delta is forwarded. Empty or missing deltas forward nothing. |
| Analyst.FullTextIsForwarded | packages/backend/src/ai/analyst.ts:107-113 | The analysed text is exactly the concatenation of the tokens forwarded, in stream order. |
| Analyst.ForwardedSnoc | packages/backend/src/ai/analyst.ts:107-113 | One more delta adds its text to the forwarded tokens when it is truthy and adds nothing otherwise. |
| Analyst.FullTextAppend | packages/backend/src/ai/analyst.ts:107-113 | A stream in two parts gives the two parts' texts one after the other. |
| Analyst.SeverityIsFirstMatch | packages/backend/src/ai/analyst.ts:116-117 | Where "## Severity:", whitespace and HEALTHY/WARNING/CRITICAL (any case) first occur, that word is the severity, whatever follows. |
| Analyst.SeverityWithoutMatch | packages/backend/src/ai/analyst.ts:116-117 | Without such a match anywhere the severity is `warning`. |
| Analyst.Section | packages/backend/src/ai/analyst.ts:120 | The section is the text from just after the first occurrence of the header up to the first "##" that follows, or to the end of the text when none follows. It contains no "##". It is empty when its header does not occur. |
| Analyst.CaptureFrom | packages/backend/src/ai/analyst.ts:120 | The lazy group followed by the lookahead for "##" or the end, started at a given position, captures the text up to the first "##" at or after it, or the rest of the text. |
| Analyst.CapturedUnique | packages/backend/src/ai/analyst.ts:120 | The lazy group can capture only one text from a given start: the one ending at the first "##" or at the end. |
| Analyst.SectionBetween | packages/backend/src/ai/analyst.ts:120 | When the header first occurs before a body that is followed by the next "##" heading or by the end of the text, the section is exactly that body. |
| Analyst.FilterMapCharacterization | packages/backend/src/ai/analyst.ts:121-125 | The output holds, one for one and in line order, the values of exactly the lines the per-line step keeps. |
| Analyst.FilterMapAppend | packages/backend/src/ai/analyst.ts:121-125 | Two runs of lines give their outputs one after the other. |
| Analyst.CleanIsTrimmed | packages/backend/src/ai/analyst.ts:124 | A cleaned bullet has no whitespace at either end. |
| Analyst.Bullets | packages/backend/src/ai/analyst.ts:121-125 | Every extracted bullet is non-empty and trimmed. |
| Analyst.BulletsOfJoinedSections | packages/backend/src/ai/analyst.ts:121-125 | A line followed by more lines gives its bullets before theirs, so source order is kept. |
| Analyst.DashedLine | packages/backend/src/ai/analyst.ts:123-124 | "- text" is a bullet line and yields exactly "text". |
| Analyst.IndentedDashKept | packages/backend/src/ai/analyst.ts:123-124 | " - text" is a bullet line but yields "- text": the dash is removed only at the very start of the line. |
| Analyst.Analyze | packages/backend/src/ai/analyst.ts:107-142 | The result carries the config's id and the time. Its text is exactly the forwarded tokens in order. Severity, issues and suggestions are read from that text: issues from the "## Issues Detected" section, suggestions from "## Recommended Actions". Every issue and suggestion is non-empty and trimmed. |
| Analyst.NoIssuesWithoutHeader | packages/backend/src/ai/analyst.ts:120-125 | Without an "## Issues Detected" header there are no issues. |
| Reporter.Rounded | packages/backend/src/reporter/index.ts:129-130 | The digits `toFixed(d)` prints are the magnitude times 10^d, within half a unit. |
| Reporter.FormatReadsBack | packages/backend/src/reporter/index.ts:129-130 | A printed number reads back as its sign, a point followed by d digits with at least one digit before it, and its digits. |
| Reporter.ToFixedReadsBack | packages/backend/src/reporter/index.ts:129-130 | `x.toFixed(d)` has a '-' exactly for negative x, and exactly d digits after the point. Without the point, its digits read back as the rounded magnitude. |
| Reporter.RateToFixed | packages/backend/src/reporter/index.ts:130 | A throughput prints as "Infinity", as "NaN", or as its `toFixed` text. |
| Reporter.MaxLatency | packages/backend/src/reporter/index.ts:110 | The bar scale is p99.9, or 1 when that is 0. It is never 0. |
| Reporter.BarsInRange | packages/backend/src/reporter/index.ts:131-135 | With ordered non-negative percentiles every bar is within [0, 100], and a higher percentile never has a shorter bar. |
| Reporter.BarMonotonic | packages/backend/src/reporter/index.ts:131-135 | A larger latency never gets a shorter bar. The scale itself is 100 and 0 is 0. |
| Reporter.SummaryBarsInRange | packages/backend/src/reporter/index.ts:131-135 | For any histogram of non-negative latencies, the report's bars stay within [0, 100]. |
| Reporter.Labels | packages/backend/src/reporter/index.ts:113 | One label per timeline point. The i-th label is "(i+1)s". |
| Reporter.LabelsReadBack | packages/backend/src/reporter/index.ts:113 | A label reads back as its position plus one, so no two points share a label. |
| Reporter.ChartSeries | packages/backend/src/reporter/index.ts:113-116 | The four series have one entry per timeline point: the label, p50, p95 and the throughput printed with two decimals. |
| Reporter.TailRatio | packages/backend/src/reporter/index.ts:119 | p99 / max(1, p50) is defined even when p50 is 0. It exceeds 5 exactly when p99 > 5·max(1, p50). |
| Reporter.HasBottleneck | packages/backend/src/reporter/index.ts:120 | A bottleneck is flagged exactly on an error rate above 0.05 or a p99 above five times max(1, p50). |
| Reporter.BottleneckMessage | packages/backend/src/reporter/index.ts:121-123 | The message is empty exactly without a bottleneck. Each clause is present exactly when its condition holds, and the error clause comes before the tail clause. |
| Reporter.GenerateReport | packages/backend/src/reporter/index.ts:108-140 | The flag holds exactly when the message is non-empty and exactly on the bottleneck conditions. There is one label per timeline point, and the chart series is the timeline's labels, p50s, p95s and throughputs. Each of the five bars (p50, p75, p90, p95, p99) is the rounded percentage of its percentile over the scale. The rates are printed with two decimals. |
| TestStore.AddTimelinePoint | packages/frontend/src/store/testStore.ts:66-67 | The buffer holds at most 120 points and ends with the new one. It is preceded by the last min(length, 119) old points, in order. Nothing else changes. |
| TestStore.TimelineWindow | packages/frontend/src/store/testStore.ts:66-67 | From a buffer of at most 120 points, any run of additions leaves exactly the last 120 of all points seen. |
| TestStore.AppendAiStreamText | packages/frontend/src/store/testStore.ts:82 | The stream text becomes the old text followed by the appended text. Nothing else changes. |
| TestStore.ClearAiStreamText | packages/frontend/src/store/testStore.ts:83 | The stream text becomes empty. Nothing else changes. |
| TestStore.StreamTextAccumulates | packages/frontend/src/store/testStore.ts:82-83 | Appending a then b is appending a + b. After a clear, only what was appended since remains. |
| TestStore.Reset | packages/frontend/src/store/testStore.ts:85-88 | `reset` sets: status idle; no stats, session or analysis; an empty timeline and stream text; and streaming off. Connection, configuration and the natural-language fields are kept. |
| TestStore.ResetIdempotent | packages/frontend/src/store/testStore.ts:50-88 | Resetting twice is resetting once. The initial store is already reset. |
| TestStore.ResetForgets | packages/frontend/src/store/testStore.ts:85-88 | Two stores that agree on the fields `reset` keeps are equal once reset. |
| WebSocketClient.HandleMessage | packages/frontend/src/hooks/useWebSocket.ts:42-73 | Each message type's effect: <br>• `TEST_STARTED` sets running and the session. <br>• `STATS_UPDATE` replaces the stats and appends the last timeline point exactly when there is one. <br>• `STATUS_CHANGE` sets the status. <br>• `TEST_COMPLETE` replaces the stats and sets completed. <br>• `TEST_ERROR` sets error. <br>• `STATUS` with `running: false` completes only a running client. <br>• Anything else changes nothing. <br>No message touches the client-side fields. |
| WebSocketClient.MessagesKeepTimelineBounded | packages/frontend/src/hooks/useWebSocket.ts:42-73 | Whatever the server sends, the live timeline stays within 120 points and the client-side fields stay as they were. |
| WebSocketClient.StatusReportOnlyCompletesRunning | packages/frontend/src/hooks/useWebSocket.ts:66-71 | A status report never revives a finished run or completes an idle or failed one. Repeating it changes nothing more. |
| WebSocketClient.UpdatesFeedTimeline | packages/frontend/src/hooks/useWebSocket.ts:49-55 | A run of statistics updates leaves the last 120 of the old points followed by each update's last point, in message order. |
| NLBuilder.FailureMessage | packages/frontend/src/hooks/useNLBuilder.ts:26-29 | A failed request reports the body's `error` when non-empty, and "Parsing failed" otherwise. A thrown fetch reports its own message. |
| NLBuilder.ApplyFields | packages/frontend/src/hooks/useNLBuilder.ts:35-44 | Url, name and body are applied when non-empty, and method and headers when present. Concurrency, total requests and timeout are applied only when non-zero. Ramp-up and think time are applied whenever present. Every other field keeps the form's value. |
| NLBuilder.ZeroFields | packages/frontend/src/hooks/useNLBuilder.ts:38-42 | A 0 for concurrency, total requests or timeout is ignored. A 0 for ramp-up or think time is written into the form. |
| NLBuilder.FinalError | packages/frontend/src/hooks/useNLBuilder.ts:34-51 | After a prompt long enough to send, the error is left clear exactly after a parse with confidence ≥ 0.5. |
| NLBuilder.ParseIntent | packages/frontend/src/hooks/useNLBuilder.ts:10-55 | A prompt under 5 characters once trimmed only sets the error. Otherwise the hook raises the parsing flag, then clears the error, and possibly sets it, and the flag ends lowered on every path. After a confident parse the form is the old form with the parsed fields applied, zero ramp-up and think time included. Otherwise the form is unchanged. The parse is returned exactly when one arrived, and it is the parse that arrived. |
| NLBuilder.WritesReplay | packages/frontend/src/hooks/useNLBuilder.ts:10-55 | Replaying the recorded store writes in order gives the final store. |
| NLBuilder.AppliedReplyRanges | packages/frontend/src/hooks/useNLBuilder.ts:35-44 | Applying a clamped reply to a valid form keeps every number within the schema's bounds, except a ramp-up between 300 and 600 s. |
| NLBuilder.RampBoundsDisagree | packages/frontend/src/components/ConfigForm.tsx:18 | A ramp-up of 450 s passes the parser's clamp unchanged, and the form's schema rejects it. |
| ConfigForm.ParseMethod | packages/frontend/src/components/ConfigForm.tsx:13 | Only the five method names are accepted, each as its own method. |
| ConfigForm.MethodRoundTrip | packages/frontend/src/components/ConfigForm.tsx:13 | Every method's name parses back to it. |
| ConfigForm.DefaultsValid | packages/frontend/src/components/ConfigForm.tsx:34-38 | The form's default values satisfy the schema whenever the default URL does. |
| ConfigForm.HeadersOf | packages/frontend/src/components/ConfigForm.tsx:45-46 | The headers are `{}` when the field is empty or not valid JSON, and what it parsed to otherwise. |
| ConfigForm.BodyOf | packages/frontend/src/components/ConfigForm.tsx:51 | An empty body is sent as no body, and any other body is sent unchanged. |
| ConfigForm.BuildConfig | packages/frontend/src/components/ConfigForm.tsx:48-54 | The configuration carries the new id, the form's name, url and method. It carries the normalised headers and body, and the numbers unchanged. |
| ConfigForm.Submit | packages/frontend/src/components/ConfigForm.tsx:44-58 | An invalid form does nothing. A valid one stores the configuration, resets the store, keeping that configuration, and sends `START_TEST` with the same configuration. |
| ConfigForm.SentConfigInRanges | packages/frontend/src/components/ConfigForm.tsx:10-21 | Every configuration sent has a name and all its numbers within the schema's ranges, and is the one stored. |
| ConfigForm.ResetButton | packages/frontend/src/components/ConfigForm.tsx:185 | The reset button returns to idle and keeps the stored configuration. |
| ConfigForm.StopButton | packages/frontend/src/components/ConfigForm.tsx:175-184 | `STOP_TEST` is sent exactly while a run is in progress. |
| AnalystPanel.Payloads | packages/frontend/src/components/AIAnalystPanel.tsx:52-56 | A chunk yields at most one payload per line, and never the "[DONE]" marker. |
| AnalystPanel.PayloadsStep | packages/frontend/src/components/AIAnalystPanel.tsx:53-55 | A line that is not a data line is skipped. Any other payload except "[DONE]" is kept, in line order. |
| AnalystPanel.DoneLine | packages/frontend/src/components/AIAnalystPanel.tsx:53-55 | "data: [DONE]", with or without trailing blanks, carries the end marker. |
| AnalystPanel.DoneEndsChunk | packages/frontend/src/components/AIAnalystPanel.tsx:55 | A "[DONE]" payload discards the rest of its chunk, whatever follows. |
| AnalystPanel.DoneLineEndsChunk | packages/frontend/src/components/AIAnalystPanel.tsx:51-55 | In a chunk's lines, the end-of-stream line hides every line after it. |
| AnalystPanel.ApplyPayload | packages/frontend/src/components/AIAnalystPanel.tsx:57-68 | A token event appends its text, and a complete event sets the analysis. Error events, unknown events and malformed payloads change nothing. |
| AnalystPanel.ApplyPayloadsText | packages/frontend/src/components/AIAnalystPanel.tsx:59-60 | Folding payloads appends exactly the token texts, in payload order. |
| AnalystPanel.ApplyPayloadsAnalysis | packages/frontend/src/components/AIAnalystPanel.tsx:61-62 | Folding payloads leaves the result of the last complete event, or the earlier analysis when there was none. |
| AnalystPanel.ApplyPayloadsFrame | packages/frontend/src/components/AIAnalystPanel.tsx:57-68 | Folding payloads touches only the stream text and the analysis. |
| AnalystPanel.ReadChunksFlattens | packages/frontend/src/components/AIAnalystPanel.tsx:47-70 | Reading chunk by chunk is folding all the stream's payloads at once: a "[DONE]" stops only its own chunk. |
| AnalystPanel.Receive | packages/frontend/src/components/AIAnalystPanel.tsx:34-72 | Receiving the response touches only the stream text and the analysis. |
| AnalystPanel.RunAnalysis | packages/frontend/src/components/AIAnalystPanel.tsx:28-76 | Streaming ends off on every path. A failed request leaves only the failure notice and no analysis. A stream whose read throws part-way leaves the token texts received so far, then the failure notice, and the last complete event received so far. Nothing outside the stream fields changes. |
| AnalystPanel.StreamFromStart | packages/frontend/src/components/AIAnalystPanel.tsx:45-70 | Reading from a cleared text and analysis leaves the stream's token texts in order and its last complete event. |
| AnalystPanel.BrokenStreamKeepsReceived | packages/frontend/src/components/AIAnalystPanel.tsx:45-73 | A stream that breaks off after some chunks ends with what those chunks would have given, followed by the failure notice. The analysis from an earlier complete event stays. |
| AnalystPanel.StreamOutcome | packages/frontend/src/components/AIAnalystPanel.tsx:47-70 | After a stream, the text is exactly the stream's token texts in order. The analysis is that of the last complete event, or none. |

## Left out

- Network I/O becomes an outcome oracle or a parameter. This covers:
  - the undici client, connection setup and close;
  - the URL's origin and path;
  - `fetch` and the stream readers in the front end;
  - the WebSocket connection and its reconnect timer.
- Clocks and timers (`Date.now`, `performance.now`, `setTimeout`) are parameters. Think-time and ramp pauses are phases a step leaves a worker or a call in.
- The HDR histogram's bucketing and its significant-digit precision are not modelled. Percentiles are exact nearest-rank values over the recorded samples, and the window histogram uses the same exact rule. What the library reports as `minNonZeroValue` and `maxValue` of an empty histogram is not modelled: the model reports 0 for both.
- Collector.Aggregate: the throughput uses exact rational arithmetic rather than IEEE doubles.
- Reporter.ToFixedReadsBack: `toFixed` is modelled on exact reals with halves rounded up. Double-precision representation error and exponent notation for magnitudes ≥ 1e21 are not modelled.
- `JSON.parse`, `JSON.stringify`, zod's URL check and markdown-fence stripping are not modelled. Their results are inputs: a decoded reply or message, a URL-validity flag, a `stringify` function.
- The LLM calls and the prompt texts are not modelled. Analyst input is the sequence of stream deltas, and parser input is the decoded reply.
- String lengths are counted in characters of `seq<char>`, not UTF-16 code units.
- JavaScript truthiness is modelled only where the code tests it: non-empty strings and non-zero numbers. NaN, `null` and non-number values in parsed JSON are not modelled.
- A token event without a `text` field would append the text "undefined" in JavaScript. The model's token event always carries a text.
- `toLocaleString`, the report's date, Handlebars rendering and the report file write are not modelled.
- Orchestrator.Respond: one clock reading `wallNow` stands for the two separate `Date.now()` reads made by `record` and by `aggregate` for the same result.
- `Orchestrator.Consistent` is an invariant only for runs where `start` is not called while a request from an earlier run is still in flight. Such a late result would be recorded against the new run.
- The engine never produces the `paused` status, and no event carries it.
- An SSE line split across two chunks is handled as two separate lines, as the code does: each chunk is decoded and split on its own.
- React rendering, Electron, persistence, the HTTP and WebSocket servers, and the process entry point are not part of this model.

## Behaviour that follows the code

- A worker pauses for the think time after every result, including the last one. A single worker with three requests and a positive think time pauses three times (`Worker.Run`), not twice.
- The intent parser clamps ramp-up to [0, 600] s, but the form's schema accepts only [0, 300] s. An auto-filled ramp-up above 300 s is rejected on submit (`NLBuilder.RampBoundsDisagree`).
- The bullet cleanup removes a dash only at the very start of a line. An indented bullet keeps its dash (`Analyst.IndentedDashKept`).
- A run that is stopped emits `status` and `complete` twice: once from `stop`, and once from `start`'s tail when its workers have exited (`Orchestrator.StopWhileInFlight`).
- Resetting the statistics keeps the active-worker gauge (`Collector.Reset`).
- `start` never empties the worker list; only `stop` does. After a run that ends by itself, the next run's active-worker gauge also counts the previous run's workers (`Orchestrator.StartCountsEarlierWorkers`).

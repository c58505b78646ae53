# flow.gocools telemetry pipeline: verified model

The program polls two cloud back ends (log events and metric points), turns what is new into
incident-timeline events, keeps the newest signals in a bounded buffer, archives them as files, and
joins metrics with logs into a correlation graph on request. This project models that pipeline in
Dafny and proves what it promises over whole runs. To verify: `dafny verify dfyconfig.toml`.

The modules, in the order the data flows:

- **LogsCollector**, **MetricsCollector**, **Retry**, **CollectFacts** — paginated collection with a
  shared retry budget, saturating backoff and conserved counters; attribution of metric series to
  targets. **MetricTargets** parses the setting that names those targets, **RuntimeConfig** validates
  the settings.
- **SeenTable**, **LogsIngestion**, **MetricsIngestion**, **ExactlyOnce** — the two ingestors with
  their poll windows and pruned duplicate tables, and the delivery theorem over whole runs of the
  log ingestor. **MetricsDelivery** is its counterpart for the metric ingestor; **PagedDelivery**
  joins the collector's page loop to the log ingestor's theorem.
- **Pipeline** — both ingestors, their sinks and queries as interleaved atomic steps.
- **Timeline**, **SignalStore** — the incident timeline with its pages, and the bounded buffer that
  owns its field maps.
- **Graph**, **Correlation**, **CorrelationFacts**, **GraphQuery** — the graph, the bucketed join
  that builds it, and the query that filters, truncates and sorts it. **GraphTies** and **LogTies** say
  which ties in the store's order a query can show.
- **FileTree**, **ObjectKeys**, **StorePaths**, **ObjectStore**, **StoreRefinement**,
  **StoreRetention**, **StoreInterference**, **StrayKeys** — the local object store over a tree of
  files, its refinement of a map from keys to objects, and what happens outside the keys it is good
  for. **ArchiveKeys**, **Archive**, **ArchiveReads** — the archive on top of it, and what can be
  read back from it.
- **PathLabel** — metric labels for request paths.
- **GoTime**, **Ordering**, **Text**, **Telemetry** — instants and int64 arithmetic, sorting, string
  functions, and the records themselves.

Conventions. Instants are integers, nanoseconds since the zero instant. Every int64 product,
difference and negation that can overflow is wrapped or saturated where the source wraps or
saturates. Ranging over a map, and the order of equal elements after an unstable sort, are
nondeterministic choices; where an answer depends on what an unstable sort does with equal elements,
the sort is some function of the keys it compares, of which only its contract is used. Clocks,
random numbers and back-end responses are parameters. Hashes and formatting are function parameters;
a theorem that needs a fact about one of them (such as distinct event ids, or hexadecimal digits)
says so in its hypotheses.

Places where the code does less than one might expect are stated as equivalences: exactly-once
delivery of logs and of alerting points (a poll must not reach back to an instant whose ids are
already pruned), page offsets (an overflowing page number panics), the skew test (wrong for instants
2^63 ns apart), the resource filter (logs that share a node id but not a resource lose an edge), key
sanitizing and path labels (not idempotent on every input), keys that stand in each other's way in
the object store, listed keys that delete another file than their own, and archived records (a log
key that the store mistakes for a metadata file is not listed, and can take the metadata of another
record).

## Model
| member | source | states |
|---|---|---|
| ExactlyOnce.ExactlyOnceDelivery | internal/ingestion/logs_timeline.go:88-165 | For every run with a clock that never steps back, failed polls anywhere, a back end that answers with exactly the records of the requested window and distinct ids, in which no poll is stale: each record between one window before the first success and the last success has exactly one delivery, any other none; and each is delivered by the first successful poll whose window reaches it |
| ExactlyOnce.ExactlyOnceIffNoStalePoll | internal/ingestion/logs_timeline.go:88-165 | For any list of successful poll instants, delivery is exactly once for every back end and every run with those instants if and only if no poll reaches back to the millisecond of an earlier poll whose ids are pruned |
| ExactlyOnce.StalePollDuplicates | internal/ingestion/logs_timeline.go:88-165 | Whenever some poll is stale there is a record that a faithful back end makes the ingestor deliver at least twice |
| ExactlyOnce.LongOutageDuplicates | internal/ingestion/logs_timeline.go:88-165 | Two successful polls one nanosecond more than six windows, or half an hour if that is longer, apart are such a schedule: from any instant on, one long outage makes delivery fail to be exactly once |
| ExactlyOnce.RegularPollingIsSafe | internal/ingestion/logs_timeline.go:91-96 | Successful polls at most six windows, or half an hour if that is longer, apart, measured from the start of the earlier poll's millisecond, are never stale; the re-read of a whole window when the clock stands still is covered too |
| ExactlyOnce.PollDelivers | internal/ingestion/logs_timeline.go:88-151 | One successful poll keeps: ids unique in the history, every emission prompt, and a record emitted exactly when covered |
| ExactlyOnce.RunDelivers | internal/ingestion/logs_timeline.go:88-151 | The delivery invariant holds after every run |
| LogsIngestion.LogsTimelineIngestor.constructor | internal/ingestion/logs_timeline.go:43-61 | A new ingestor is in the initial state |
| LogsIngestion.LogsTimelineIngestor.IngestOnce | internal/ingestion/logs_timeline.go:88-151 | The window asked for runs from the last success, or when there is none or the clock has not moved from the configured window (by default five minutes) back, to now. An error leaves window end, table, history, timeline and sink alone; a success moves all of them by the same emitted batch |
| LogsIngestion.LogsTimelineIngestor.Advance | internal/ingestion/logs_timeline.go:109-136 | The window end, the pruned and stamped table and the new emissions are those of the specified step |
| LogsIngestion.LogsTimelineIngestor.Absorb | internal/ingestion/logs_timeline.go:118-136 | The loop keeps, in order, the records whose id is neither in the table nor earlier in the batch, and stamps their ids with the poll's instant |
| LogsIngestion.LogsTimelineIngestor.PruneSeen | internal/ingestion/logs_timeline.go:153-165 | In any map order, exactly the ids stamped more than six windows, and more than half an hour, ago go |
| LogsIngestion.TickKeepsTableExact | internal/ingestion/logs_timeline.go:107-165 | One poll keeps the table equal to the last emission instants of the full history that are not before the cutoff |
| LogsIngestion.RunKeepsTableExact | internal/ingestion/logs_timeline.go:107-165 | After every run with a clock that never steps back the table is the full emission history cut off at window end minus retention |
| LogsIngestion.PrunedTableDecides | internal/ingestion/logs_timeline.go:119-122 | A fetched record is emitted if and only if the unpruned history has no emission of its id since the cutoff and it comes first in its batch |
| LogsIngestion.TableHoldsIff | internal/ingestion/logs_timeline.go:153-165 | After every run an id is in the table if and only if some emission of it is not older than six windows, or half an hour if that is longer, at the last success |
| LogsIngestion.TrimmedIDsDecide | internal/ingestion/logs_timeline.go:167-181 | Records with event ids get one id if and only if the trimmed event ids agree |
| LogsIngestion.DigestedFieldsDecide | internal/ingestion/logs_timeline.go:167-181 | Records without get one id if and only if they agree on group, stream, both instants and message, for a digest without collisions and names without bars |
| LogsIngestion.EventInstant | internal/ingestion/logs_timeline.go:207-215 | An event carries the instant of its record, else that of its ingestion, else that of the poll |
| SeenTable.Retention | internal/ingestion/logs_timeline.go:154-157 | An id is kept for six windows, but for half an hour at least, whenever six windows fit an int64 |
| SeenTable.RetentionExactIff | internal/ingestion/logs_timeline.go:154-157 | For a positive window it is that if and only if they fit; beyond that the product wraps |
| SeenTable.FreshIds | internal/ingestion/logs_timeline.go:118-123 | The ids a batch emits are exactly its ids that are not in the table, and every emitted item is one of the batch |
| SeenTable.FreshDistinct | internal/ingestion/logs_timeline.go:118-123 | A batch never emits an id twice |
| SeenTable.RecentDecides | internal/ingestion/logs_timeline.go:119-123 | For a chronological history, an id is in the cut-off table if and only if some emission of it is not before the cutoff |
| SeenTable.TableTracksHistory | internal/ingestion/logs_timeline.go:107-165 | Pruning to a later cutoff and stamping a batch lead from the table of a history to the table of the extended history |
| MetricsIngestion.MetricsTimelineIngestor.constructor | internal/ingestion/metrics_timeline.go:39-67 | A new ingestor is in the initial state |
| MetricsIngestion.MetricsTimelineIngestor.IngestOnce | internal/ingestion/metrics_timeline.go:94-154 | An error changes nothing; a success moves table, history, timeline and sink by the same emitted batch, and the end instant only when that batch is not empty |
| MetricsIngestion.MetricsTimelineIngestor.Advance | internal/ingestion/metrics_timeline.go:100-138 | Pruned table and emissions of one successful poll are those of the specified step |
| MetricsIngestion.MetricsTimelineIngestor.Absorb | internal/ingestion/metrics_timeline.go:109-138 | The loop keeps the alerting points whose id is new, in order |
| MetricsIngestion.MetricsTimelineIngestor.PruneSeen | internal/ingestion/metrics_timeline.go:156-168 | Exactly the ids stamped more than six windows, and more than half an hour, ago go |
| MetricsIngestion.TickKeepsTableExact | internal/ingestion/metrics_timeline.go:100-168 | One poll keeps the table equal to the cut-off history of the alerting points |
| MetricsIngestion.RunKeepsTableExact | internal/ingestion/metrics_timeline.go:100-168 | After every run the table is the history of alerting emissions cut off at the last prune |
| MetricsIngestion.PrunedTableDecides | internal/ingestion/metrics_timeline.go:109-119 | An alerting point is emitted if and only if the unpruned history has no emission of its id since the cutoff and it comes first in its batch |
| MetricsIngestion.TableHoldsIff | internal/ingestion/metrics_timeline.go:156-168 | After every run an id is in the table if and only if some emission of it is not older than six windows, or half an hour if that is longer, at the last prune |
| MetricsIngestion.AlertsIff | internal/ingestion/metrics_timeline.go:170-184 | A point alerts if and only if its trimmed name is cpuutilization or memoryutilization in any letter case and its value reaches one of the thresholds |
| MetricsIngestion.EventsSaySeverity | internal/ingestion/metrics_timeline.go:109-184 | Every event of a run is of such a point, says error if its value reaches the error threshold and warning if only the other, and carries the point's instant or else that of its emission |
| MetricsDelivery.AlertingPointsOnce | internal/ingestion/metrics_timeline.go:94-168 | Over every run with a clock that never steps back, failed polls anywhere, ids that cover the instant and no poll whose window meets that of a success already pruned: every alerting point ever fetched is emitted exactly once, however many windows returned it, and nothing else is |
| MetricsDelivery.OnceIffNoLatePoll | internal/ingestion/metrics_timeline.go:94-168 | On a schedule of clocks, collection starts and failures, every run emits each alerting point exactly once if and only if no poll is late in that sense |
| MetricsDelivery.LatePollRepeats | internal/ingestion/metrics_timeline.go:94-168 | On a schedule with a late poll there is a run that emits one alerting point twice |
| MetricsDelivery.SlowCollectionIsLate | internal/ingestion/metrics_timeline.go:100-168 | A collection that begins at a success and takes a nanosecond longer than six windows, or than half an hour if that is longer, is late |
| MetricsDelivery.TimelyIsSafe | internal/ingestion/metrics_timeline.go:156-168 | No poll is late when every window together with its collection takes at most six windows, or half an hour if that is longer |
| MetricsDelivery.PollDelivers | internal/ingestion/metrics_timeline.go:100-138 | One successful poll keeps: ids unique, every emission a fetched alerting point, every fetched alerting point emitted |
| MetricsDelivery.EarlierEmissionIsRecent | internal/ingestion/metrics_timeline.go:156-168 | A point that a poll which is not late returns again was emitted too recently for its id to be pruned |
| Pipeline.EveryInterleavingIsSafe | cmd/flow/main.go:168-244 | In every reachable state of every schedule of both ingestors and of queries, timeline, store and archive are in lockstep with each ingestor's history, each behind by at most the batch in flight |
| Pipeline.StepKeepsSafe | cmd/flow/main.go:193-244 | Every atomic step of either ingestor or of a query keeps the lockstep |
| Pipeline.DeliveredIsPrefix | cmd/flow/main.go:212-244 | In every reachable state the signals of the archive are a prefix of those handed to the store, those a prefix of the ingestor's timeline entries and at most one batch behind, and the store holds the newest of what it was handed: all of it, or as many as fit |
| Pipeline.LogIngestorRunsAlone | cmd/flow/main.go:193-204 | The log ingestor's state, deliveries and timeline entries after any schedule are those after its own steps alone |
| Pipeline.InterleavedExactlyOnce | cmd/flow/main.go:193-244 | Exactly-once delivery to the shared timeline and to the store survives every interleaving |
| Retry.Clamp | internal/telemetry/cloudwatchlogs/collector.go:89-159 | Whatever the configuration, the settings are usable by the retry loop; usable settings are kept; unset ones become three attempts, 250 milliseconds, five seconds, a fifth, and a budget of attempts minus one; the maximum is raised to the initial delay and the jitter cut to one |
| Retry.SignTestCatchesOverflow | internal/telemetry/cloudwatchlogs/collector.go:321-330 | The doubled int64 is not positive exactly when the true double overflows |
| Retry.NextBackoffExact | internal/telemetry/cloudwatchlogs/collector.go:321-330 | The next backoff is the true double capped by the maximum |
| Retry.BackoffClosedForm | internal/telemetry/cloudwatchlogs/collector.go:321-330 | The base delay before retry k is min(initial * 2^(k-1), maximum) for every k, despite overflow |
| Retry.JitterBound | internal/telemetry/cloudwatchlogs/collector.go:305-319 | A jittered delay is between zero and (1 + jitter) times its base |
| Retry.JitterExactIff | internal/telemetry/cloudwatchlogs/collector.go:305-319 | A jittered delay is base * (1 + (2r - 1) * jitter) rounded down, r being the random draw, if and only if that product fits a duration |
| Retry.CallAccounting | internal/telemetry/cloudwatchlogs/collector.go:258-294 | Of one retried call, for every trace: throttled = retried + dropped, retries within the budget, at most one drop, and calls = retries + 1 unless it was cancelled in a backoff |
| Retry.CallsOfRun | internal/telemetry/cloudwatchlogs/collector.go:258-294 | Every client call of a retried call but the last was throttled; a success is the answer to the last, a failure is not an answer |
| Retry.CallSucceedsIff | internal/telemetry/cloudwatchlogs/collector.go:258-294 | A call succeeds with a value if and only if the client gives it after throttling fewer times than there are attempts and at most as often as the budget allows, with no cancellation in between |
| Retry.BudgetMattersIff | internal/telemetry/cloudwatch/collector.go:183-219 | Some back end makes a single call report an exhausted budget if and only if the budget is below attempts minus one |
| Retry.SleepsFollowBackoff | internal/telemetry/cloudwatchlogs/collector.go:275-290 | The sleeps of a call jitter the base delays of retries 1, 2, 3 and so on, in order |
| Retry.CallSleepsAre | internal/telemetry/cloudwatchlogs/collector.go:275-330 | Each sleep is its draw's jitter of min(initial * 2^i, maximum), rounded down, so that none is skipped or shortened |
| Retry.CallSleepBound | internal/telemetry/cloudwatchlogs/collector.go:258-330 | A call with n retries sleeps at most (1 + jitter) * initial * (2^n - 1) |
| Retry.CallSleepWithinMaxima | internal/telemetry/cloudwatchlogs/collector.go:258-330 | A call sleeps at most (1 + jitter) * maximum per retry |
| LogsCollector.Collector.constructor | internal/telemetry/cloudwatchlogs/collector.go:89-159 | A new collector has clamped settings and zero counters |
| LogsCollector.Collector.Attempt | internal/telemetry/cloudwatchlogs/collector.go:262-290 | One turn of the retry loop sends one request and either ends the specified call or leaves exactly its rest to do |
| LogsCollector.Collector.FilterWithRetry | internal/telemetry/cloudwatchlogs/collector.go:258-294 | The loop never falls through to its unreachable return: result, requests sent, budget used, counters and sleeps are those of the specified retried call |
| LogsCollector.Collector.FetchPage | internal/telemetry/cloudwatchlogs/collector.go:192-221 | One page fetch leaves to the loop exactly what remains of the whole trace, in answer, counters and requests |
| LogsCollector.Collector.CollectPages | internal/telemetry/cloudwatchlogs/collector.go:180-222 | The page loop computes the specified trace, sends exactly its requests and counts exactly its events |
| LogsCollector.Collector.Collect | internal/telemetry/cloudwatchlogs/collector.go:161-222 | Without a group or with a reversed window nothing is sent. Otherwise every request carries the group, filter pattern and limit asked for and the milliseconds of the window (by default five minutes to now), the first an empty token, and each later one the token of the page before or, after throttling, the token again |
| LogsCollector.PagesAsk | internal/telemetry/cloudwatchlogs/collector.go:180-294 | The requests of the page loop are such a chain, for every trace of retries and pages |
| CollectFacts.CollectAccounting | internal/telemetry/cloudwatchlogs/collector.go:161-294 | Over a whole collection, for every trace: throttled = retried + dropped, retries never exceed the shared budget, one drop exactly when throttling ended it, budget-exceeded only with a drop, and the number of client calls follows |
| CollectFacts.CallsBounded | internal/telemetry/cloudwatchlogs/collector.go:180-294 | Client calls are at most the successful pages plus the retry budget plus one |
| CollectFacts.PaginationTerminates | internal/telemetry/cloudwatchlogs/collector.go:180-221 | With tokens from a finite set there is at most one page per token and one more, and no token is requested again after a success, even when tokens cycle |
| CollectFacts.AllOrNothing | internal/telemetry/cloudwatchlogs/collector.go:180-222 | The answer is the in-order concatenation of every fetched page, or an error that carries no records |
| CollectFacts.CollectSleepBound | internal/telemetry/cloudwatchlogs/collector.go:161-347 | A whole collection sleeps at most (1 + jitter) * budget * maximum |
| PagedDelivery.ServedPages | internal/telemetry/cloudwatchlogs/collector.go:180-221 | A successful collection answers with the first pages of the back end's listing, in order: with all of them if and only if no page token appears twice |
| PagedDelivery.WholeWindow | internal/telemetry/cloudwatchlogs/collector.go:161-222 | When no token repeats, the answer to a poll holds exactly the back end's records of the poll's window |
| PagedDelivery.RepeatedTokenLosesPages | internal/telemetry/cloudwatchlogs/collector.go:214-221 | When a token repeats, a successful answer is the pages before; of the others, whatever no poll has returned by then and lies before the poll's millisecond is never delivered in the rest of the run |
| PagedDelivery.LostForGood | internal/ingestion/logs_timeline.go:91-107 | A record that no poll up to a success has returned and that lies before that success's millisecond is never delivered, since every later window starts after it |
| PagedDelivery.RepeatedTokenExample | internal/telemetry/cloudwatchlogs/collector.go:180-222 | A back end with three pages whose second repeats the first one's token: the first poll returns one of two records of its window, and the other is never delivered however the run goes on |
| PagedDelivery.CollectedRunIsFaithful | internal/ingestion/logs_timeline.go:98-107 | A run whose polls were answered by the collector without repeated tokens meets the hypothesis of the delivery theorem |
| PagedDelivery.CollectedExactlyOnce | internal/ingestion/logs_timeline.go:88-165 | End to end: polls answered by the paginating, retrying collector from a back end that throttles and fails at will but repeats no token deliver every covered record exactly once |
| MetricsCollector.BuildMetricQueries | internal/telemetry/cloudwatch/collector.go:280-316 | Queries and descriptors are in one-to-one correspondence with the (target, metric) pairs, in order |
| MetricsCollector.TargetsAreAskedFor | internal/telemetry/cloudwatch/collector.go:280-365 | An instance is asked for its processor and its network traffic both ways, a service of a cluster for its processor and memory, under their dimensions, anything else for nothing |
| MetricsCollector.QueryIDInjective | internal/telemetry/cloudwatch/collector.go:280-316 | Query ids of different queries differ |
| MetricsCollector.MetricPointsFromOutput | internal/telemetry/cloudwatch/collector.go:367-399 | The points are, series by series, the common prefix of values and instants of every series with a known id |
| MetricsCollector.ResultAttribution | internal/telemetry/cloudwatch/collector.go:280-399 | A series is labelled with the one target and metric whose query id it carries, or dropped |
| MetricsCollector.OutputAttribution | internal/telemetry/cloudwatch/collector.go:280-399 | For any back-end output the points are in order the labelled series of the known queries |
| MetricsCollector.PointsComeFromSeries | internal/telemetry/cloudwatch/collector.go:367-399 | Every point carries an instant and the value at the same position of one series, and the target's name, namespace and metric of the query with the series' number |
| MetricsCollector.PointCount | internal/telemetry/cloudwatch/collector.go:367-399 | The number of points is the sum of the common prefixes of the known series |
| MetricsCollector.Collector.constructor | internal/telemetry/cloudwatch/collector.go:87-148 | A new collector has clamped settings and zero counters |
| MetricsCollector.Collector.Attempt | internal/telemetry/cloudwatch/collector.go:186-215 | One turn of the retry loop sends one request and either ends the specified call or leaves exactly its rest to do |
| MetricsCollector.Collector.GetMetricDataWithRetry | internal/telemetry/cloudwatch/collector.go:183-219 | The loop never falls through: result, requests, budget used, counters and sleeps are those of the specified retried call |
| MetricsCollector.Collector.Collect | internal/telemetry/cloudwatch/collector.go:150-181 | Targets without metrics send nothing; otherwise one retried call for all (target, metric) pairs is made for the window (by default five minutes) up to now, and its failure or its attributed output is the answer |
| MetricsCollector.BudgetNeverExhausted | internal/telemetry/cloudwatch/collector.go:183-219 | A budget for every retry the attempt limit allows is never reported exhausted |
| RuntimeConfig.ValidatedMetricsAreCollected | internal/ingestion/runtime.go:111-153 | Validated settings that collect metrics parse to targets for which every collection asks the back end, and keep warn below error |
| RuntimeConfig.FirstFaultDecides | internal/ingestion/runtime.go:57-153 | The first fault decides the error: an unknown mode, a missing log group in the modes that read logs, malformed or missing targets in those that read metrics, then warn not below error; without one the settings are valid |
| MetricTargets.ParseMetricTargets | internal/ingestion/runtime.go:155-214 | The loop over the items of the trimmed setting computes the specified parse of the setting itself |
| MetricTargets.RenderedSettingParses | internal/ingestion/runtime.go:155-214 | Writing any list of well-formed targets with any white space around every part, any letter case of the type name and any blank items, and parsing it, gives the stable sort of the list by its key string |
| MetricTargets.ParsesIffWritten | internal/ingestion/runtime.go:155-214 | A setting parses to a list if and only if it writes a list of well-formed targets that sorts to it; everything else is an error |
| MetricTargets.ItemParses | internal/ingestion/runtime.go:163-198 | Each written item trims to nothing or to a token that parses to its target |
| MetricTargets.TokenIsWritten | internal/ingestion/runtime.go:168-198 | Every token that parses is the writing of a well-formed target |
| MetricTargets.FirstMalformedTokenDecides | internal/ingestion/runtime.go:163-199 | An error is reported exactly when some non-blank token is malformed, and it is the error of the first such token |
| MetricTargets.TokenErrors | internal/ingestion/runtime.go:168-198 | Which error it is follows from the text before and after the first colon: none, an empty value, an unknown type, or a service without a cluster and a name around its first slash |
| MetricTargets.AcceptedTargetsHaveMetrics | internal/telemetry/cloudwatch/collector.go:324-365 | Every target of an accepted setting is well formed and has at least one metric |
| MetricTargets.TargetsAreSorted | internal/ingestion/runtime.go:201-211 | The targets of a setting are in order of kind, instance, cluster and service, joined by colons |
| Ordering.StableSortSorts | internal/ingestion/runtime.go:201-211 | The stable sort is sorted by the comparison |
| Ordering.StableSortIsStable | internal/ingestion/runtime.go:201-211 | The stable sort keeps elements that compare equal in their order |
| Ordering.StableUnique | internal/ingestion/runtime.go:201-211 | A sorted permutation that keeps equal elements in order is unique, so the sort is determined |
| Ordering.StringLessIff | internal/analyzer/timeline/service.go:100-117 | One text is below another if and only if it is a proper prefix of it or smaller at the first difference |
| Text.DecimalStandsFor | internal/graph/correlation.go:229-229 | The digits of a number have its value, without a leading zero |
| Ordering.ArrangeBySorts | internal/telemetry/signals/store.go:105-123 | Any sort that only sees the compared keys yields a sorted permutation |
| Ordering.StableOrderSorts | internal/telemetry/signals/store.go:105-123 | There is such a sort |
| Timeline.InMemoryService.AddEvents | internal/analyzer/timeline/service.go:59-64 | Events are appended and nothing else changes |
| Timeline.InMemoryService.QueryTimeline | internal/analyzer/timeline/service.go:66-144 | Exactly the ranges that start after they end are rejected. The answer is a page, cut by int64 offsets, from some sorted permutation of the events in range: newest first, equal instants by id, nothing out of range, 50 or the number asked for but at most 200 |
| Timeline.PageShows | internal/analyzer/timeline/service.go:66-144 | The same of every answer: on a page no event is older than a later one |
| Timeline.AnswerIgnoresInsertionOrder | internal/analyzer/timeline/service.go:59-144 | Two services that hold the same events in any order and batching answer every query alike, when no two in-range events tie |
| Timeline.OneArrangement | internal/analyzer/timeline/service.go:100-117 | Without ties there is one arrangement of the in-range events |
| Timeline.PagesPartition | internal/analyzer/timeline/service.go:66-144 | Enough pages laid end to end are the whole arrangement, newest first: every in-range event as often as it was stored, nothing else; and each of those pages reports the number of in-range events |
| Timeline.LaterPagesAreOlder | internal/analyzer/timeline/service.go:100-138 | No event of a later page is newer than one of an earlier page |
| Timeline.PagesArePrefix | internal/analyzer/timeline/service.go:120-143 | The first k pages are the first k page sizes of the arrangement |
| Timeline.PageExactIff | internal/analyzer/timeline/service.go:120-138 | The page is the one asked for if and only if the offset fits an int64 or wraps beyond the answer |
| Timeline.OverflowingPagePanics | internal/analyzer/timeline/service.go:120-138 | Page 2^62 + 1 of size 2 panics on every timeline |
| Timeline.LaterEventsKeepFullPages | internal/analyzer/timeline/service.go:59-144 | Adding events that sort after the m-th one leaves the first m of the arrangement as they were |
| SignalStore.InMemoryStore.constructor | internal/telemetry/signals/store.go:36-52 | A new store is empty, owns no maps and has the bounds asked for, 20000 where none is |
| SignalStore.InMemoryStore.AddMetricPoints | internal/telemetry/signals/store.go:54-66 | The unbounded history grows by the points; the buffer is its newest items, all or as many as fit, so a batch within the bound is wholly in the buffer, at its end |
| SignalStore.InMemoryStore.AddLogRecords | internal/telemetry/signals/store.go:68-83 | The same for the records as they are now; every field map the store gains is new |
| SignalStore.InMemoryStore.QueryMetricPoints | internal/telemetry/signals/store.go:85-126 | The answer is the library sort's arrangement of the in-range points of the tail of the history |
| SignalStore.InMemoryStore.QueryLogRecords | internal/telemetry/signals/store.go:128-172 | The answer shows the library sort's arrangement of the in-range records of the tail of the history, in maps of its own |
| SignalStore.AnswersAreSorted | internal/telemetry/signals/store.go:85-172 | Whatever the library sort does with ties, an answer is a sorted permutation of the signals in range |
| SignalStore.MetricAnswerShows | internal/telemetry/signals/store.go:85-126 | A metric answer is oldest first, then by resource and metric, and holds each point of the closed range as often as the buffer, and nothing else |
| SignalStore.LogAnswerShows | internal/telemetry/signals/store.go:128-172 | A log answer is oldest first, then by event id; a record without an instant is in range when its ingestion is |
| SignalStore.CopyEntries | internal/telemetry/signals/store.go:73-77 | Every copy shows the same record through a new map |
| SignalStore.CopyFields | internal/telemetry/signals/store.go:178-188 | A copy is a new map with the same entries; an empty map is copied to none |
| SignalStore.BufferIsTailOfHistory | internal/telemetry/signals/store.go:54-83 | However additions are batched, the buffer has min(max, history) items, and they are the last ones of the history |
| SignalStore.LastConcat | internal/telemetry/signals/store.go:62-65 | Trimming before adding loses nothing that trimming after would keep |
| SignalStore.LastIsNewest | internal/telemetry/signals/store.go:62-65 | What is kept of a list is its end, as long as fits; a batch added last that fits is kept whole |
| SignalStore.OutsideWritesAreInvisible | internal/telemetry/signals/store.go:178-188 | Any change of the heap that leaves the store's fields and its own maps alone keeps the store valid and both histories, hence every answer |
| SignalStore.MutationsAreInvisible | internal/telemetry/signals/store.go:68-188 | After adding records, overwriting any maps the store does not own with anything, querying, and overwriting every map of the answer, the same query gets the same answer |
| SignalStore.MetricAnswerUnique | internal/telemetry/signals/store.go:85-126 | Without ties a metric query has one answer |
| SignalStore.LogAnswerUnique | internal/telemetry/signals/store.go:128-172 | Without ties a log query has one answer |
| Graph.Graph.AddNode | internal/graph/correlation.go:52-60 | The first node with an id stays; edges are untouched |
| Graph.Graph.AddEdge | internal/graph/correlation.go:62-78 | An edge is added once, only between known nodes and with a kind; the graph stays free of duplicates and dangling ends |
| Graph.Graph.Nodes | internal/graph/correlation.go:85-100 | In any map order: every node once, strictly sorted by id |
| Graph.Graph.EdgesForNode | internal/graph/correlation.go:108-116 | Exactly the edges that touch the node, in insertion order |
| Graph.Graph.Neighbors | internal/graph/correlation.go:118-155 | The nodes one edge away in either direction, each once, strictly sorted |
| Graph.Graph.RelatedByEdgeKind | internal/graph/correlation.go:157-187 | The targets of the node's edges of one kind, each once, strictly sorted |
| Graph.Graph.HasEdge | internal/graph/correlation.go:189-196 | True exactly for the edges of the graph |
| Correlation.BuildCorrelationGraph | internal/graph/correlation.go:202-313 | For every map order the edge list is duplicate-free and its set is exactly the emits_metric edges, the emits_log edges and the pairs of one resource within the skew; for instants less than 2^63 ns apart a pair is within it if and only if the instants differ by at most the configured bound, two minutes if it is not positive; the nodes are determined too |
| Correlation.CorrelatedIff | internal/graph/correlation.go:202-313 | There is a correlated_with edge between two node ids if and only if some metric and log with these ids have one resource and instants that far apart at most |
| Correlation.JoinBucket | internal/graph/correlation.go:298-309 | The two inner loops add exactly the pairs of a bucket that are within the skew |
| Correlation.AddMetrics | internal/graph/correlation.go:222-259 | The first loop adds the metric nodes and edges and fills the buckets by resource, in input order |
| Correlation.AddLogs | internal/graph/correlation.go:261-294 | The second loop adds the log nodes and edges and fills their buckets |
| Correlation.BucketsAreAllPairs | internal/graph/correlation.go:296-310 | Joining bucket by bucket yields an edge if and only if the all-pairs join does |
| Correlation.NodeKeys | internal/graph/correlation.go:222-294 | The node ids are exactly those of the metrics, of the logs, and of the resources either resolves to |
| Correlation.SkewTestExactIff | internal/graph/correlation.go:300-302 | Saturating subtraction and wrapping negation test the true distance if and only if the metric is less than 2^63 ns older and, for the largest skew, less than 2^63 ns newer |
| Correlation.DistantPairCorrelates | internal/graph/correlation.go:339-344 | A metric exactly 2^63 ns older than a log passes every skew test |
| Correlation.MetricNodeIDInjective | internal/graph/correlation.go:229-229 | Metric node ids of different indexes differ, whatever the points hold |
| Correlation.FamiliesDisjoint | internal/graph/correlation.go:228-264 | Resource, metric and log ids never meet and are never empty |
| Correlation.ResourceNodeIDInjective | internal/graph/correlation.go:228-228 | Different resources have different nodes |
| CorrelationFacts.NodesDescribed | internal/graph/correlation.go:222-294 | Every node is a resource, the metric of one index, or the first log with its id |
| CorrelationFacts.MetricNodeAt | internal/graph/correlation.go:238-248 | The node under a metric's id is that metric's |
| CorrelationFacts.MetricNodeShows | internal/graph/correlation.go:228-248 | That id is the resource, name, millisecond and position of the point; the node shows its resource (or unknown-resource), namespace, metric, instant and value |
| CorrelationFacts.LogNodeAt | internal/graph/correlation.go:273-283 | The node under a log's id is that of the first log with the id |
| CorrelationFacts.LogNodeShows | internal/graph/correlation.go:273-337 | That id is the record's event id, or without one its stream, millisecond and position; the node shows its resource, group, stream, event id and instant |
| CorrelationFacts.ResourceNodeAt | internal/graph/correlation.go:231-237 | The node under a resource's id carries that resource |
| CorrelationFacts.MetricHangsUnder | internal/graph/correlation.go:222-249 | A metric has an emits_metric edge from the node of its own resource, or of unknown-resource, and from no other |
| CorrelationFacts.LogHangsUnder | internal/graph/correlation.go:315-330 | A log hangs under the resource of its resource_id field, without one of its instance_id field, without either of its group and stream, or else under unknown-resource; and under nothing else unless another log has its node id |
| CorrelationFacts.EdgesAreTyped | internal/graph/correlation.go:249-307 | The kind of an edge says exactly which kinds of node it joins, despite colliding log ids |
| CorrelationFacts.EdgeWithinResource | internal/correlation/service.go:89-100 | When logs that share an id share a resource, both ends of every edge carry the same resource id |
| CorrelationFacts.FilterCutsNoEdgeIff | internal/correlation/service.go:89-134 | Both ends of every edge carry the same resource id if and only if logs that share a node id resolve to the same resource |
| CorrelationFacts.CollidingLogsCutAnEdge | internal/graph/correlation.go:332-337 | Two logs with one event id and different resources: an edge joins two resources |
| CorrelationFacts.NodeCount | internal/graph/correlation.go:222-294 | Node count = resources + metrics + distinct log ids, at most two per signal |
| GraphQuery.Service.QueryGraph | internal/correlation/service.go:56-167 | Exactly the queries with a range that starts after it ends or a negative limit are rejected, a missing store gives an empty answer, any other query the answer over the signals the store has for the range |
| GraphQuery.AnswerQuery | internal/correlation/service.go:85-166 | Nodes are the first k of the filtered nodes by id; edges the first m of the whole subgraph induced on them by (from, to, kind); the counts are those of the signals |
| GraphQuery.FilterByResource | internal/correlation/service.go:89-100 | Exactly the nodes of the resource stay, still sorted |
| GraphQuery.InducedOn | internal/correlation/service.go:106-155 | Exactly the edges between the given nodes, strictly sorted |
| GraphQuery.SelectNodes | internal/correlation/service.go:89-104 | The sorted filtered nodes, cut to the limit |
| GraphQuery.SelectEdges | internal/correlation/service.go:106-159 | The sorted induced edges, cut to the limit |
| GraphQuery.AnswerUnique | internal/correlation/service.go:85-166 | One answer per signals and query, for every map order of the build and the query |
| GraphQuery.FirstNodesReturned | internal/correlation/service.go:85-104 | Returned nodes are the graph's nodes of the resource asked for, strictly by id; one is missing only if the limit is positive and exactly that many are returned, all with a smaller id; the counts are those of the signals |
| GraphQuery.FirstEdgesReturned | internal/correlation/service.go:106-159 | Returned edges are strictly by from, to and kind; an edge between returned nodes is missing only if the limit is positive and exactly that many are returned, all before it |
| GraphQuery.AnswerCorrelatesIff | internal/correlation/service.go:85-166 | Without an edge limit two returned nodes are correlated if and only if they have a metric and a log of one resource at most the query's skew, or two minutes, apart |
| GraphQuery.StoredSignalsDetermineAnswer | internal/correlation/service.go:76-166 | The same stored signals and query always get the same answer, for every library sort and every map order, ties included |
| LogTies.HiddenTiesDoNotShow | internal/correlation/service.go:76-166 | Two different library sorts, too, lead to the same answer when tied points have one namespace and rendered value, and tied logs have one group, stream and resource or share their event id with an earlier log |
| LogTies.LogTiesShowIff | internal/telemetry/signals/store.go:151-169 | When no event id spells a made-up node id, the graph's nodes are the same for every sorted arrangement of the selected logs if and only if tied logs have one group, stream and resource or share their event id with an earlier log |
| GraphTies.MetricTiesShowIff | internal/telemetry/signals/store.go:105-123 | The graph's nodes are the same for every sorted arrangement of the selected points if and only if tied points have one namespace and rendered value |
| GraphTies.UnlikeMetricTiesShow | internal/telemetry/signals/store.go:105-123 | Swapping two points that tie but differ in either gives another sorted arrangement, and the unlimited, unfiltered answer differs |
| GraphTies.MetricTieExample | internal/telemetry/signals/store.go:105-123 | Points of one resource, metric and instant with values 1 and 2 are such a pair |
| GraphQuery.AnswerIsClosed | internal/correlation/service.go:106-159 | Under any limits no returned edge dangles or is invented, and without an edge limit none between returned nodes is missing |
| GraphQuery.NodeReturnedIff | internal/correlation/service.go:89-104 | Without a node limit a node is returned if and only if it passes the filter |
| GraphQuery.FilteredAnswerIsWholeComponents | internal/correlation/service.go:89-134 | Without limits, and when logs that share an id share a resource, an edge of the graph has both ends in the answer or neither, and is in the answer exactly with its ends |
| FileTree.MkdirAllMakes | internal/telemetry/storage/local.go:38-40 | Making directories succeeds exactly when no file is on the way, and then makes the missing ones and nothing else |
| FileTree.FindAbsent | internal/telemetry/storage/local.go:65-71 | A missing path is reported as not existing exactly when no file is above it |
| ObjectKeys.SanitizeMeaning | internal/telemetry/storage/local.go:205-217 | A key is accepted exactly when, trimmed, it resolves to the root or a path below without stepping up; it is then that path written plainly |
| ObjectKeys.EscapesIff | internal/telemetry/storage/local.go:212-214 | The textual tests on a cleaned path refuse exactly the paths that name nothing or step up |
| ObjectKeys.FixpointIff | internal/telemetry/storage/local.go:205-217 | A key is its own sanitized form if and only if it is trimmed and splits into ordinary names |
| ObjectKeys.IdempotentIff | internal/telemetry/storage/local.go:205-217 | Sanitizing an accepted key twice is sanitizing it once if and only if the trimmed key does not start with a slash and the path it resolves to neither starts nor ends with white space |
| ObjectKeys.TwoSlashes | internal/telemetry/storage/local.go:205-217 | Every key that names itself loses one leading slash per sanitizing: two become one, one becomes none |
| ObjectKeys.UncoveredSpace | internal/telemetry/storage/local.go:205-217 | Resolving can uncover white space: "./ a" becomes " a", and that "a" |
| ObjectKeys.AcceptedStaysBelow | internal/telemetry/storage/local.go:37-37 | The path of an accepted key is the root followed by ordinary names |
| StorePaths.SamePathSameKey | internal/telemetry/storage/local.go:201-203 | Good keys with a common data path or metadata path are equal, and no data path is a metadata path |
| StorePaths.NothingInTheWay | internal/telemetry/storage/local.go:37-55 | In a family of keys that keep apart no file of one key stands above the object of another |
| ObjectStore.LocalStore.constructor | internal/telemetry/storage/local.go:24-29 | The store keeps its root and touches nothing |
| ObjectStore.LocalStore.Put | internal/telemetry/storage/local.go:31-56 | Tree and result are those of the specified put, with what is left behind when a later step fails |
| ObjectStore.LocalStore.Get | internal/telemetry/storage/local.go:58-80 | The result is that of the specified read; a missing object and other failures are told apart |
| ObjectStore.LocalStore.Delete | internal/telemetry/storage/local.go:133-148 | Tree and result are those of the specified delete |
| ObjectStore.LocalStore.Walk | internal/telemetry/storage/local.go:85-115 | In any order: one entry for every file below the root that is no metadata file and whose key has the prefix |
| ObjectStore.LocalStore.List | internal/telemetry/storage/local.go:82-131 | The listing is complete, without invented entries, and strictly sorted by key; it fails only when a file is above the root |
| ObjectStore.LocalStore.ApplyRetention | internal/telemetry/storage/local.go:150-182 | Without a maximum age nothing happens; otherwise the run is the specified sweep over the listing, up to the first failed delete |
| ObjectStore.ListingUnique | internal/telemetry/storage/local.go:82-131 | A tree has one listing per prefix |
| ObjectStore.KeyOfInjective | internal/telemetry/storage/local.go:96-100 | Different files are listed under different keys |
| StoreRefinement.PutRefines | internal/telemetry/storage/local.go:31-56 | On a family of keys that keep apart a put succeeds, replaces the object of its key and leaves every other key alone |
| StoreRefinement.GetRefines | internal/telemetry/storage/local.go:58-80 | A read returns exactly the data, metadata and creation time last stored under the key, or reports that there is none |
| StoreRefinement.DeleteRefines | internal/telemetry/storage/local.go:133-148 | A delete removes the object of its key, if any, succeeds, and leaves every other key alone |
| StoreRefinement.EmptyRootRepresents | internal/telemetry/storage/local.go:24-29 | A missing or empty root holds no objects |
| StoreRetention.ListRefines | internal/telemetry/storage/local.go:82-131 | A listing shows exactly the objects whose key has the prefix, each once, with its creation time, strictly by key |
| StoreRetention.ExpiredIff | internal/telemetry/storage/local.go:163-199 | A listed file expires by the time in its metadata file, never if that does not decode, and by its own time if there is none |
| StoreRetention.RetentionRefines | internal/telemetry/storage/local.go:150-182 | A run reports exactly the objects under the prefix with a creation time before the cutoff; a real run removes those and nothing else, a dry run reports the same and changes nothing |
| StoreRetention.SweepRefines | internal/telemetry/storage/local.go:163-179 | Deleting the expired entries one by one removes exactly their objects and never fails |
| StoreRetention.SecondRunFindsNothing | internal/telemetry/storage/local.go:150-182 | A second run at the same cutoff returns nothing and changes nothing |
| StoreRetention.ApplyRetentionRefines | internal/telemetry/storage/local.go:150-182 | On a store that represents objects the whole call never fails: it reports, by key, exactly the objects under the prefix whose creation time is set and before now minus the maximum age, removes exactly those unless it is a dry run, and does nothing without a maximum age |
| StoreRetention.ApplyTwiceFindsNothing | internal/telemetry/storage/local.go:150-182 | Applying one policy twice at one clock finds and changes nothing the second time |
| StoreInterference.PutSucceedsIff | internal/telemetry/storage/local.go:37-55 | With directories only on the way to objects, a good key can be stored if and only if neither it nor its metadata file meets a file of an object or its way |
| StoreInterference.BlockedPutFails | internal/telemetry/storage/local.go:38-55 | A directory in the place of either file, or a file on the way, makes a put fail |
| StoreInterference.RefusedIff | internal/telemetry/storage/local.go:31-148 | Put, read and delete refuse exactly the keys that sanitizing refuses, and then change nothing |
| StoreInterference.FailedPutLeaves | internal/telemetry/storage/local.go:31-56 | A put whose metadata cannot be encoded fails but leaves the new data under the metadata and time of the object it replaced, or under none and its file's time; other objects stay |
| StoreInterference.SidecarDirectoryExample | internal/telemetry/storage/local.go:55-55 | "a" and "a.meta.json/b" are good keys, neither a directory of the other, that do not keep apart |
| StrayKeys.OwnKeyDeletesIff | internal/telemetry/storage/local.go:133-148 | Deleting a listed file by its listed key, as retention does, removes that file if and only if the key is its own sanitized form; for a file below the root, if and only if the key has no white space at an end |
| StrayKeys.StrayDelete | internal/telemetry/storage/local.go:133-176 | An object put under "./ a" is stored and listed as " a", and deleting it by that key deletes "a" |
| ArchiveKeys.SanitizedIsToken | internal/telemetry/archive/sink.go:136-166 | A token is 1 to 80 safe characters and starts with a letter or digit |
| ArchiveKeys.TokenIdempotentIff | internal/telemetry/archive/sink.go:136-166 | A token is its own sanitized form if and only if cutting it short left no mark at its end |
| ArchiveKeys.BuildToken | internal/telemetry/archive/sink.go:136-166 | The character loop computes the specified token |
| ArchiveKeys.TokenShows | internal/telemetry/archive/sink.go:136-166 | An id of at most 80 characters between letters or digits is shown character by character: capitals as small letters, small letters, digits, dots, dashes and underscores as they are, the rest as underscores |
| ArchiveKeys.NothingToShow | internal/telemetry/archive/sink.go:136-161 | An id without a letter or digit is shown as unknown |
| ArchiveKeys.MetricKeyIsGood | internal/telemetry/archive/sink.go:86-107 | Every metric key is its own sanitized form, is not mistaken for a metadata file and has six parts |
| ArchiveKeys.MetricKeyDeterminesHash | internal/telemetry/archive/sink.go:86-107 | Points with the same key have the same hashed identity and hour |
| ArchiveKeys.MetricKeyPath | internal/telemetry/archive/sink.go:86-107 | A metric key leads through the year, month, day and hour of the point, or of the archiving if it has no instant, to the tokens of resource and metric and the hash |
| ArchiveKeys.MetricKeySameIff | internal/telemetry/archive/sink.go:86-107 | Points overwrite each other if and only if they agree on resource, namespace, metric, instant and written value, for names without bars and a hash that tells the two apart |
| ArchiveKeys.MetricAndLogKeysDiffer | internal/telemetry/archive/sink.go:86-134 | No point is stored under the key of a record |
| ArchiveKeys.LogKeyIsGoodIff | internal/telemetry/archive/sink.go:109-134 | A log key is its own sanitized form with six parts; it is mistaken for a metadata file if and only if the record's token ends in ".meta" |
| ArchiveKeys.LogKeyPath | internal/telemetry/archive/sink.go:109-134 | A log key leads through the hour of the record, of its ingestion or of the archiving, the first that is set, to the tokens of its group and of its event id, or of its hash if it has none |
| ArchiveKeys.HashedRecordIsGood | internal/telemetry/archive/sink.go:118-126 | A record without an event id is never mistaken |
| ArchiveKeys.MetaTokenExample | internal/telemetry/archive/sink.go:136-166 | The event id "x.meta" yields such a token |
| ArchiveKeys.LogKeySameIff | internal/telemetry/archive/sink.go:109-134 | Two records share a key, so that one overwrites the other, if and only if they fall in one hour and get one name |
| ArchiveKeys.GroupedRecordsSeparate | internal/telemetry/archive/sink.go:109-134 | Within one log group they share a key if and only if they fall in one hour and their ids have one token |
| ArchiveKeys.HashedLogKeySameIff | internal/telemetry/archive/sink.go:109-134 | Without event ids they do if and only if they agree on stream, message and instant, for names without bars and a hash that tells the two apart |
| ArchiveKeys.TokensForgetUnsafeCharacters | internal/telemetry/archive/sink.go:142-156 | Ids that differ only in characters unsafe in file names have one token |
| ArchiveKeys.UnsafeExample | internal/telemetry/archive/sink.go:136-166 | "a b" and "a_b" are such ids |
| ArchiveKeys.TokensForgetTheEnd | internal/telemetry/archive/sink.go:157-165 | Ids whose safe form without marks at its ends exceeds 80 characters have one token if and only if those forms agree in their first 80 characters |
| ArchiveKeys.WholeIsUnmarked | internal/telemetry/archive/sink.go:136-156 | That form is the whole id in safe characters when neither end is white space or turns into a mark |
| ArchiveKeys.ArchiveKeysKeepApart | internal/telemetry/archive/sink.go:86-134 | The archive's keys, without the mistaken ones, form a family on which the store keeps its promises |
| ArchiveKeys.SameDepthApart | internal/telemetry/storage/local.go:37-55 | Keys with equally many parts keep apart |
| Archive.Sink.AddMetricPoints | internal/telemetry/archive/sink.go:36-59 | The store ends up as after the specified puts, in order, skipping what cannot be encoded or stored |
| Archive.Sink.AddLogRecords | internal/telemetry/archive/sink.go:61-84 | The same for log records |
| Archive.ArchiveRefines | internal/telemetry/archive/sink.go:36-84 | Archiving stores every item that can be encoded and leaves all other objects alone |
| Archive.LastDepositStays | internal/telemetry/archive/sink.go:36-84 | In what the archive then stores, a deposit stays under its key until one with the same key replaces it |
| ArchiveReads.PutWrites | internal/telemetry/storage/local.go:31-56 | In a store that only the archive writes, a put always finds its way, and changes the data at its key and the metadata beside it and nothing else |
| ArchiveReads.EmptyRootIsLayered | internal/telemetry/storage/local.go:24-29 | An empty root is such a store |
| ArchiveReads.RepresentedIsLayered | internal/telemetry/archive/sink.go:86-134 | So is every store that represents objects under archive keys |
| ArchiveReads.ReadsBackIff | internal/telemetry/storage/local.go:58-80 | After any batch an item reads back with its payload, metadata and time if and only if what later items leave in its two files is its payload and something that decodes to its metadata and time |
| ArchiveReads.UntouchedReadsBack | internal/telemetry/archive/sink.go:36-84 | In particular when no later item is stored under its key or where either of the two keeps its metadata |
| ArchiveReads.ArchivedPointIsReadable | internal/telemetry/archive/sink.go:36-107 | After a batch of points each that could be encoded reads back as its payload, with its kind, resource, namespace and metric as metadata and the time it was stored, unless a later one has the same hashed identity, whatever the archive holds besides |
| ArchiveReads.ArchivedRecordIsReadable | internal/telemetry/archive/sink.go:61-134 | After a batch of log records each that could be encoded reads back as its payload, with its kind, group, stream and event id as metadata and the time it was stored, mistaken for a metadata file or not, unless a later one falls in the same hour and either gets the same name or one of the two names is the other with ".json.meta" after it |
| ArchiveReads.ShadowsIff | internal/telemetry/archive/sink.go:109-134 | A record is stored where another keeps its metadata if and only if both fall in one hour and its name is the other's with ".json.meta" after it |
| ArchiveReads.ShadowedReadsBackIff | internal/telemetry/archive/sink.go:61-134 | A record stored right after one whose metadata file it takes leaves it readable if and only if its payload happens to decode to that metadata and time |
| ArchiveReads.ShadowExample | internal/telemetry/archive/sink.go:109-134 | The event ids "x" and "x.json.meta" of one group and instant are such a pair |
| Archive.LogIsListedIff | internal/telemetry/storage/local.go:89-94 | A stored log record is listed, and so seen by retention, if and only if its token does not end in ".meta" |
| PathLabel.NormalizePathLabel | internal/httpserver/path_normalizer.go:5-37 | The loop's label is the rooted join of the labelled non-empty segments of the trimmed path |
| PathLabel.SplitOfLabel | internal/httpserver/path_normalizer.go:33-36 | Splitting a label gives back the labelled segments |
| PathLabel.LabelsClean | internal/httpserver/path_normalizer.go:22-31 | No label has an empty or dynamic segment or a slash inside a segment |
| PathLabel.HiddenIff | internal/httpserver/path_normalizer.go:39-88 | A segment is replaced by ":id" if and only if it is all decimal digits, at least 16 hexadecimal digits, or five groups of 8, 4, 4, 4 and 12 hexadecimal digits joined by dashes; any other is kept |
| PathLabel.SameLabelIff | internal/httpserver/path_normalizer.go:5-37 | Two paths share a label if and only if their segments agree once every dynamic one is replaced by ":id" |
| PathLabel.RelabelLabel | internal/httpserver/path_normalizer.go:5-37 | Labelling a label again trims its last segment, labels the rest of it, and keeps all others |
| PathLabel.IdempotentIff | internal/httpserver/path_normalizer.go:5-37 | Normalizing twice is normalizing once if and only if the last non-empty segment does not end in white space |
| PathLabel.SpaceBeforeSlash | internal/httpserver/path_normalizer.go:10-36 | White space before a closing slash survives in the label |

## Left out
- LogsIngestion.EventOf: severity, source, message and correlation id of an event are one uninterpreted function of the record; each is a one-branch choice.
- SHA-1, RFC 3339 and number formatting, JSON encoding: function parameters. JSON metadata is assumed to decode to what was encoded; encoding may fail, and theorems that need it to succeed say so.
- Retry.ToDuration: converting a float outside the int64 range yields the minimum, as on amd64; jitter is computed over reals, so rounding is not modelled.
- Retry.CallAccounting: counters are unbounded naturals; the source's 64-bit counters wrap after 2^64 increments.
- Contexts, timers and throttling classification: a world function says for each client call how it was answered and whether the wait before or after it was cancelled.
- LogsIngestion.LogsTimelineIngestor.IngestOnce: the early return on an empty batch is the loop over no records; the log line is not modelled.
- Correlation.CorrelatedIff: for instants 2^63 ns or more apart Correlation.SkewTestExactIff says what the test does instead.
- Retry.CallSleepsAre: needs the maximum delay with full jitter to fit a duration; Retry.JitterExactIff says what a longer one sleeps.
- ExactlyOnce.RegularPollingIsSafe: the gap between successes is measured from the start of the earlier poll's millisecond, since the back end filters on whole milliseconds; it also needs six windows to fit an int64.
- ExactlyOnce.ExactlyOnceDelivery: records that become visible late are outside the hypotheses; the source makes no attempt to catch them. The record limit bounds a page, not a collection.
- MetricsDelivery.OnceIffNoLatePoll: when a collection begins is a parameter of the schedule, as the source reads that instant inside the collector and does not keep it. The poll timeout that cancels a slow collection is not modelled; where it and the window together fit the retention, MetricsDelivery.TimelyIsSafe applies.
- LogTies.LogTiesShowIff: assumes that no event id equals the stream, millisecond and position that make up the id of a log without one; without that only the direction of LogTies.HiddenTiesDoNotShow is proved.
- Ordering.ArrangeBySorts: how the library's sort breaks ties is not modelled, only that it depends on nothing but the compared keys.
- SignalStore.InMemoryStore.QueryLogRecords: a nil and an empty field map are not told apart. Nodes' attribute maps are values.
- Graph.Graph.Nodes: `Graph.Node` and `Graph.Edges` are plain reads of the fields.
- Pipeline.EveryInterleavingIsSafe: a mutex-protected call is one atomic step; memory ordering inside a call is not modelled.
- Timeline.InMemoryService.QueryTimeline: the sum of offset and page size does not overflow for a slice that fits in memory, and is not wrapped.
- ObjectStore.LocalStore.Put: permissions, full disks, symbolic links, name-length limits and concurrent writers; a root directory is given as an absolute path below the top of the tree.
- ObjectStore.LocalStore.ApplyRetention: the deletion callback is not modelled; the returned candidates are what it is called with.
- ArchiveKeys.MetricKeyIsGood: the hour of an instant is assumed to format as four numbers, as it does for the years 0 to 9999.
- RuntimeConfig.ValidatedMetricsAreCollected: thresholds are reals, so a NaN threshold, which passes every comparison test of the source, is not modelled. Environment reading and the remaining default getters are left out as one-branch facts.
- `S3Store`: its behaviour is the remote service's; its retention logic is that of the local store.
- AWS clients, sessions, telemetry exporters, HTTP handlers, the conversion of back-end events to records with its field parser and hooks: library wrappers and I/O. The records of a page are what that conversion yields.

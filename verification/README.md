# Crankfire: a verified model

Crankfire is a load generator. This project models the parts of it where the behaviour comes from
concurrency or from integer allocation, and proves what they promise. It is plain Dafny 4.11; `dafny verify dfyconfig.toml`
checks everything.

| file | part of the system |
|---|---|
| `Runner.dfy` | scheduler goroutine, permit channel, worker pool, pattern controller, graceful shutdown |
| `TokenCache.dfy` | the OAuth2 token cache: mutex, condition variable, one fetch at a time |
| `Metrics.dfy`, `Snapshots.dfy` | sharded statistics, and reads that lock one shard at a time while others record |
| `Endpoints.dfy` | recording a request overall and under its endpoint, whose statistics several goroutines may race to create |
| `EventStream.dfy`, `EventStreamLaws.dfy` | the server-sent event parser and what can be written and read back |
| `LoadPatterns.dfy` | load patterns compiled twice: for the runner and for the dashboard |
| `Layout.dfy`, `Budget.dfy` | sharing out terminal rows |
| `Placeholders.dfy` | the two ways of filling `{{placeholders}}` |
| `Pool.dfy`, `PoolUsers.dfy` | the connection pool, and who owns a connection while WebSocket and SSE requests run |
| `Thresholds.dfy`, `SetRunner.dfy` | pass/fail rules and the staged runs of a test set |
| `Options.dfy`, `Orders.dfy` | an optional value, and the order in which a loop over a map meets its keys |
| `Schedules.dfy`, `Firing.dfy` | cron registrations of test sets and single-flight firing |

## How the model is built

Code that goroutines run at the same time is a step system: one step is one atomic action of one goroutine (a
channel operation, a locked section, an atomic update, a network call returning) or of the environment. A statement about
`Reachable` states, or about every `Exec`, holds in every interleaving. Code that one goroutine runs by changing things
is a method with loops over arrays or a class with fields, proved against a function or predicate whose meaning the
lemmas then settle. Iteration over a Go map, and the order in which goroutines take a mutex, is an arbitrary choice
(`:|`); the contracts of such methods only say what holds for every choice.

Integers are unbounded; durations and instants are integers (nanoseconds in `Runner`, `TokenCache`, `Metrics` and
`LoadPatterns`). Rates and measurements are reals. Network calls, tokens, timers and rate limiting return whatever they
like. In `Layout`, `weights` must be non-negative with a positive sum when there is anything to share (the source divides by
that sum); in `Budget` the needed height of the request context is not negative (it is a line count).

## What the proofs turned up

* `internal/placeholders/placeholders.go:52-53`: the pattern always yields two groups, so with a store an unbound placeholder
  without a default leaves nothing behind (`UnboundNameVanishes`, `UnboundExample`); the comment there and
  `docs/request-chaining.md:132` say it stays as it is. It stays exactly when its name has no key, or the key is bound to that
  very text (`HoleStaysExactly`, and `MatchStaysExactly` for keys and defaults that hold opening braces). Without a store an
  unbound name does stay (`StorelessPathIsSimultaneous`).
* Without a store the outcome can depend on Go's map order (`OrderMattersExample`). Take templates whose braces only enclose
  names, and values that are such templates: the order shows in no template exactly when no value mentions another key, other
  than a key whose value is that key in braces (`OrderNeverShowsExactly`). On a template that is one key the same condition
  is exact for values of any kind (`OrderMattersWhenAValueNamesAKey`). Both restrictions matter: with braces around a
  placeholder the order shows even if keys and values have none (`NestedBracesExample`), and two values with loose braces
  can make a placeholder together (`LooseBracesExample`).
* A latency of 0 also means "no minimum yet". The minimum of one bucket depends on the order exactly when a zero and a positive
  latency meet (`ZeroLatencyMakesMinimumOrderDependent`), and so does the reported minimum, merged over the shards, on order
  and on the shards chance picks (`ReportedMinimumIsFreeExactly`, `ShardsDecideExample`).
* The runner ignores `constant` patterns, the dashboard lays them out (`DashboardAgreesExactly`).
* `internal/scheduler/manager.go:22-23` says a fire is skipped when its context is cancelled. `fire` never looks: a fire is skipped
  exactly when its set is busy, so the comment is true of a fire exactly when the context is not cancelled or the set is busy
  (`CancelledContextSkipsNothing`, and `CancelledFireIsCalled` for a fire that comes due between cancellation and stop).
* Set validation compares the session id when an item has no name (`internal/store/sets_fs.go:110-118`), but the per-item map
  uses the empty name. A stage that passes is free of the finishing order exactly when at most one of its items has no name
  (`ValidatedStageIsOrderFree`, `TwoUnnamedItems`).
* Validation compares names within a stage only, but the per-item map is shared by all stages: a name used again in a later stage
  erases what was measured under it before. The aggregate counts the errors of all items that ran, whatever happens, exactly
  when no name is used twice in the whole set (`EveryErrorCountsExactly`).
* A taller terminal can hide a row: exactly from `needed + 7` to `needed + 8` and from `needed + 10` to `needed + 11` lines
  Protocol disappears (`TallerTerminalHidesARow`).
* Between heights `needed + 4` and `needed + 10` the dashboard can show Protocol without Latency
  (`ProtocolWithoutLatency`), and the branch that restores Latency at full cost
  (`internal/tui/runview/runview.go:288-290`) is never taken (`LatencyIsNeverRestored`).

One more thing is safe only because the manager's parser and the cron service read the same fields
(`internal/scheduler/manager.go:46-53`): `AddOrReplace` removes the old registration before it adds the new one. With one grammar the
entries and the live registrations are in bijection after every call (`Consistent`); with two, a refusal by the service would
leave an entry behind (`RefusalLeavesAnOrphan`).

## Model

| member | source | states |
|---|---|---|
| Runner.Normalize | internal/runner/options.go:31-43 | the options come out usable: below one worker becomes one, a negative total none, no grace 5 seconds; each usable one is kept, and normalizing twice is normalizing once |
| Runner.InvInit | internal/runner/runner.go:31-108 | the initial state satisfies the invariant |
| Runner.StepKeepsInv | internal/runner/runner.go:39-183 | every action of every goroutine and of the environment keeps the invariant |
| Runner.SlotsAreConserved | internal/runner/runner.go:66-108 | in every interleaving total = buffered permits + running requests + finished requests + the slot being offered; it never exceeds a positive TotalRequests; errors never exceed failures |
| Runner.OutstandingIsBounded | internal/runner/runner.go:62-108 | at most 2 * Concurrency + 1 requests are issued but unfinished |
| Runner.ResultIsExact | internal/runner/runner.go:70-146 | on return Total is the permits executed and Errors the requests that failed, the channel is drained, and Total is TotalRequests unless waiting failed or a context ended (for one of the causes named) |
| Runner.ResultTellsTheRun | internal/runner/runner.go:66-146 | for every run, by its steps: Errors is how many requests returned an error, Total how many returned (without a requester, how many permits were received) and how many permits were sent; a positive TotalRequests is reached unless waiting for arrival failed, the caller cancelled, the deadline passed, or the plan was read after its end |
| Runner.RequestsAreCancelledOnlyForACause | internal/runner/runner.go:36-60 | the context of running requests is cancelled only by the parent, or after scheduling has ended and the grace is negative or over |
| Runner.CancellationTellsTheRun | internal/runner/runner.go:36-139 | by the steps of the run: requests are cancelled only if the caller cancelled, the grace passed, or it is negative |
| Runner.ForcedShutdownCancels | internal/runner/runner.go:124-139 | whoever waits for the workers without a limit has cancelled their requests, and with a negative grace they are cancelled before Run returns |
| Runner.SchedulingStopsOnlyForACause | internal/runner/runner.go:42-60 | the scheduler's context ends only by the parent, the deadline, the end of the plan, or the shutdown itself |
| Runner.PatternControlFollowsThePlan | internal/runner/runner.go:149-183 | the controller ends scheduling no earlier than the plan's end, and until then sets the rate that reading the pattern list gives, never above its peak |
| Runner.TickFollowsThePlan | internal/runner/runner.go:149-183 | a tick sets the rate the pattern list has at that time; from the plan's end on the controller leaves and that ends scheduling |
| Runner.AtMostOneMorePermit | internal/runner/runner.go:70-91 | once the scheduler's context has ended every run issues at most the one permit already past the check, and none from the check on |
| Runner.NoPermitAfterScheduling | internal/runner/runner.go:67-92 | once the scheduler has left its loop no run issues a permit or changes the total |
| Runner.NoStateIsStuck | internal/runner/runner.go:62-140 | until Run returns some goroutine can move without the environment, full buffer and draining workers included |
| Runner.EveryStepDoesWork | internal/runner/runner.go:62-183 | with a positive total, or scheduling cancelled, every step but a tick that only resets the rate decreases a measure |
| Runner.RunsAreBounded | internal/runner/runner.go:62-183 | so no interleaving takes more than that many steps besides ticks |
| Runner.RunCanAlwaysReturn | internal/runner/runner.go:110-146 | and the program's own steps lead to the return of Run from every such state |
| Runner.RunIsNeverStuckAndReturns | internal/runner/runner.go:62-146 | the three together for every reachable state |
| Runner.EveryCauseEndsTheRun | internal/runner/runner.go:36-146 | once the caller cancelled, the deadline passed or the plan ended, scheduling can end and Run return, however many requests were asked for |
| Runner.CausesAreFree | internal/runner/runner.go:36-183 | nothing holds up a cancellation, the deadline or the grace, nor what the scheduler, the shutdown and the controller do about it |
| TokenCache.StepKeepsInv | internal/auth/oauth2.go:75-119 | every locked section, fetch result, wake-up and clock tick keeps the invariant of the protocol |
| TokenCache.FetchesNeverOverlap | internal/auth/oauth2.go:94-105 | fetchInProgress is set exactly while one caller is between marking and clearing it; two fetches never overlap |
| TokenCache.NoSleeperIsStranded | internal/auth/oauth2.go:84-105 | nobody sleeps on the condition unless another caller's broadcast is still to come, and after it nobody sleeps, even if the fetch failed |
| TokenCache.NoFetchWhileTheTokenIsGood | internal/auth/oauth2.go:78-99 | a fetch starts only when the cached token is missing or expired and no fetch is under way |
| TokenCache.EveryTokenIsAccountedFor | internal/auth/oauth2.go:75-119 | every token returned is the caller's own fetch, or was stored earlier and unexpired at the caller's locked check |
| TokenCache.EveryAnswerIsReturned | internal/auth/oauth2.go:75-119 | in every interleaving each caller returns, besides cached tokens, just what its own fetches were answered, in that order: the token granted, stored with the lifetime it came with, or a failure for a refusal, and each call returns once |
| TokenCache.LiveTokenIsReturned | internal/auth/oauth2.go:78-92 | a check that finds a token before its expiry returns that very token at once; one that does not returns nothing yet |
| TokenCache.FetchesAreSpaced | internal/auth/oauth2.go:113-116 | if every lifetime less the leeway is at least L > 0, k successful fetches span at least (k - 1) * L |
| TokenCache.NoCallIsStuck | internal/auth/oauth2.go:75-119 | while a call is open some caller can move |
| TokenCache.InnerStepsDoWork | internal/auth/oauth2.go:75-119 | every step of an open call decreases a measure that the clock does not touch, broadcasts included |
| TokenCache.OpenCallsReturn | internal/auth/oauth2.go:75-119 | from every state of the protocol all open calls can return, even if every fetch fails |
| TokenCache.OpenCallsAreBounded | internal/auth/oauth2.go:75-119 | without new calls every interleaving is finite |
| Metrics.StatsBucket.Record | internal/metrics/collector.go:240-271 | in-place recording of one request, nested status tables included, is the value function the laws are about |
| Metrics.StatsBucket.RecordStatusCount | internal/metrics/collector.go:300-308 | the nested tables hold one count more for that protocol and status and nothing else changes |
| Metrics.StatsBucket.Merge | internal/metrics/collector.go:273-294 | the in-place merge adds the other bucket's histogram, counters and every protocol/status count, in any table order |
| Metrics.ShardedStats.Record | internal/metrics/collector.go:206-212 | recording changes the one shard picked |
| Metrics.ShardedStats.MergeShards | internal/metrics/collector.go:214-222 | the merge loop gives the merge of all shards and leaves them unchanged |
| Metrics.RecordThroughShard | internal/metrics/collector.go:206-294 | a record reaches the merged bucket in the same way whichever shard takes it |
| Metrics.MinimumThroughShard | internal/metrics/collector.go:256-281 | the same for the minimum of positive latencies |
| Metrics.ShardsAddUp | internal/metrics/collector.go:206-308 | for any assignment of records to shards the merged bucket is the one bucket that recorded everything; for the minimum, when latencies are positive |
| Metrics.AnyOrderRecordsTheSame | internal/metrics/collector.go:240-271 | any order of the same records gives the same bucket; for the minimum, when latencies are positive |
| Metrics.BucketCounts | internal/metrics/collector.go:240-308 | successes, failures, sum and each status count are the numbers of records of that kind, and the histogram has one entry for each positive latency |
| Metrics.HistogramCounts | internal/metrics/collector.go:240-252 | each value of the histogram counts the positive latencies it stands for: whole microseconds, everything below 2 at 1 and everything from a minute on at 60,000,000 |
| Metrics.MaximumIsTheGreatest | internal/metrics/collector.go:259-261 | the maximum bounds all latencies and is one of them or 0 |
| Metrics.MinimumIsTheLeast | internal/metrics/collector.go:256-258 | with positive latencies the minimum is the least of them |
| Metrics.ZeroLatencyMakesMinimumOrderDependent | internal/metrics/collector.go:256-258 | the minimum is independent of the order exactly when zero and positive latencies do not meet |
| Metrics.ZeroLatencyExample | internal/metrics/collector.go:256-258 | two latencies whose order changes the minimum |
| Metrics.ReportedMinimumIsFreeExactly | internal/metrics/collector.go:206-294 | the minimum merged over the shards is the same for every order and every choice of shards exactly when zero and positive latencies do not meet |
| Metrics.ShardsDecideExample | internal/metrics/collector.go:206-294 | two latencies in one order whose merged minimum depends on the shard of the zero |
| Metrics.RecordAddsUp | internal/metrics/collector.go:206-294 | one more record, in any shard, keeps the shards adding up to the one bucket |
| Endpoints.StepKeepsInv | internal/metrics/collector.go:119-138 | counting, looking up, creating and filing, interleaved in any way, keep the invariant that every record is where it belongs |
| Endpoints.EveryRequestIsCountedOnce | internal/metrics/collector.go:119-138 | in every interleaving the overall statistics are those of one bucket with the requests counted so far, and an endpoint's those of its own requests filed so far, whoever created them |
| Endpoints.QuietCollectorIsExact | internal/metrics/collector.go:119-138 | once all requests are through, no record is lost: overall and per endpoint the statistics are those of exactly their requests, with the minimum when latencies are positive |
| Endpoints.RequestsAreTheArrivals | internal/metrics/collector.go:119-138 | in every interleaving the requests are those that arrived, in that order, each with the record and the endpoint it came with |
| Snapshots.StepKeepsInv | internal/metrics/collector.go:206-222 | recording during a read and reading the next shard keep the invariant of partial reads |
| Snapshots.HistoryIsConsistent | internal/metrics/collector.go:413-477 | in every interleaving totals never fall, each is successes + failures, and the deltas sum to the last total, which never exceeds what was recorded |
| Snapshots.SnapshotTotalIsBetween | internal/metrics/collector.go:214-222 | a snapshot's total lies between the true totals at its start and at its end |
| Snapshots.SnapshotSeesPrefixes | internal/metrics/collector.go:214-222 | a snapshot is the merge of one prefix of each shard's records, containing all made before it began |
| Snapshots.PointCountsPrefixes | internal/metrics/collector.go:432-468 | the point a snapshot adds counts the successes and the failures in the prefixes it read, and the requests since the point before |
| Snapshots.LogsAreTheRecords | internal/metrics/collector.go:206-212 | whatever is read meanwhile, each shard holds what was recorded into it, in order |
| EventStream.Client.ReadLine | internal/sse/sse.go:142-152 | one line up to its LF is taken and counted; an unterminated rest is dropped and counted as an error |
| EventStream.Client.ReadEvent | internal/sse/sse.go:122-197 | the read loop returns the event that the text's lines spell, or the failure that fits how the connection ends; a cancelled read has taken just the lines it had time for and lost no event complete in them, any other no more than those; the counters match what was read |
| EventStream.ReadUpTo | internal/cli/sse_requester.go:118-148 | while nothing is cancelled or retried the bounded loop returns the first events of the stream, in order, all of them unless the bound is reached, and counts the events and the bytes of the lines read |
| EventStream.ReadKeepsTheTail | internal/sse/sse.go:142-150 | a read that finds no event has read every complete line, one that finds an event leaves the unterminated tail where it was |
| EventStreamLaws.TextIsReadByLine | internal/sse/sse.go:131-196 | only LF ends a line: a text reads as its lines do |
| EventStreamLaws.EventThenRest | internal/sse/sse.go:131-196 | a well-formed event written down is read back whole, whatever follows, and nothing carries over; without spaces after the colons, each value but for one space it may begin with |
| EventStreamLaws.FieldLine | internal/sse/sse.go:173-195 | a line is the field its name says, with the value after the colon, less one space if that comes first; nothing else of the value is lost |
| EventStreamLaws.RoundTrip | internal/sse/sse.go:131-196 | writing events and reading them gives the same events exactly when no id or type holds LF or ends in CR and no data line ends in CR |
| EventStreamLaws.TightRoundTrip | internal/sse/sse.go:180-186 | the space after the colon may be left out: events written without it are read back exactly when besides no value begins with a space |
| EventStreamLaws.ReadBack | internal/sse/sse.go:131-196 | what is read back of events written with or without that space |
| EventStreamLaws.EventWithoutData | internal/sse/sse.go:156-166 | an id or a type alone makes an event, neither makes none |
| EventStreamLaws.ReadingIsStable | internal/sse/sse.go:131-196 | whatever any stream delivers can be written and read back |
| EventStreamLaws.TrailingReturnIsLost | internal/sse/sse.go:154 | an id ending in CR does not survive |
| EventStreamLaws.AllReadAreWellFormed | internal/sse/sse.go:131-196 | the parser returns only such events |
| EventStreamLaws.NoiseIsInvisible | internal/sse/sse.go:168-195 | lines that do not begin with `id:`, `event:` or `data:` (comments, lines without a colon, unknown fields) change nothing, anywhere |
| EventStreamLaws.GapsChangeNothing | internal/sse/sse.go:156-178 | any number of blank, comment or unknown lines between events changes nothing |
| EventStreamLaws.LineEndsDoNotMatter | internal/sse/sse.go:154 | CR LF line ends read as LF line ends |
| LoadPatterns.PatternPlan.AppendSegment | internal/runner/pattern_plan.go:78-81 | a segment is added at the end and the peak keeps up |
| LoadPatterns.PatternPlan.AppendSteps | internal/runner/pattern_plan.go:42-55 | the steps that last are laid out one after the other |
| LoadPatterns.PatternPlan.RateAt | internal/runner/pattern_plan.go:83-113 | the scan gives the rate of the first segment covering the time, negative times counting as 0 |
| LoadPatterns.CompilePatternPlan | internal/runner/pattern_plan.go:21-76 | there is no plan exactly when no stretch lasts; otherwise it is the list's stretches laid end to end, with their total duration and peak |
| LoadPatterns.CompiledTimelineIsContiguous | internal/runner/pattern_plan.go:21-76 | segments start at 0, have positive durations, leave no gap or overlap, and end at the plan's duration |
| LoadPatterns.RateComesFromTheCoveringSegment | internal/runner/pattern_plan.go:83-113 | a rate exists exactly before the plan's end, and comes from the one covering segment |
| LoadPatterns.RateIsTheListsReading | internal/runner/pattern_plan.go:83-113 | evaluating the compiled plan is the same as reading the pattern list recursively; times before the start count as the start |
| LoadPatterns.RampIsLinear | internal/runner/pattern_plan.go:29-40 | a ramp has its first rate at the start, goes in a straight line towards its second, and ends after its duration |
| LoadPatterns.SpikeIsFlat | internal/runner/pattern_plan.go:56-67 | a spike has its rate for as long as it lasts |
| LoadPatterns.StepsAreSpikes | internal/runner/pattern_plan.go:41-55 | the steps of a pattern read as spikes one after the other |
| LoadPatterns.PatternsFollowOneAnother | internal/runner/pattern_plan.go:21-76 | of two lists joined the second begins where the first ends |
| LoadPatterns.RampIsMonotone | internal/runner/pattern_plan.go:101-110 | along a segment the rate moves one way, between its two ends |
| LoadPatterns.PeakIsTheMaximum | internal/runner/pattern_plan.go:78-81 | maxRate bounds every rate of the list and is 0 or one of them |
| LoadPatterns.RateNeverExceedsMaxRate | internal/runner/pattern_plan.go:78-113 | no time sees more than maxRate |
| LoadPatterns.BuildLoadPattern | internal/cli/run.go:326-391 | the dashboard's compiler lays out the patterns it knows, in order, with captions, starts and total |
| LoadPatterns.LayOutSteps | internal/cli/run.go:335-347 | the dashboard lays out the steps that last, one after the other |
| LoadPatterns.MarkSteps | internal/tui/runview/loadpattern.go:48-59 | each step is marked active, done or pending by its own window |
| LoadPatterns.DashboardAgreesExactly | internal/cli/run.go:326-391 | the dashboard shows the runner's starts, durations and total exactly when every pattern is a ramp, step or spike, or has no duration |
| LoadPatterns.CaptionsTellTheRates | internal/cli/run.go:326-391 | then each step of the dashboard is captioned with the rates its runner segment starts and ends with |
| LoadPatterns.NamesWhatLasts | internal/cli/run.go:326-391 | the dashboard's name is made of the kinds of pattern that last, and of every step pattern |
| LoadPatterns.ConstantPatternDisagrees | internal/cli/run.go:370-381 | a constant pattern has no runner segment but one dashboard step |
| LoadPatterns.HighlightedStepIsTheRunnersSegment | internal/tui/runview/loadpattern.go:48-59 | the one step marked active is the segment whose rate the runner applies; earlier ones are done, later ones pending |
| Layout.LargestIndex | internal/tui/runview/runview.go:1013-1018 | the scan finds the largest remainder, the earliest among equals |
| Layout.HandOutLeftovers | internal/tui/runview/runview.go:1012-1021 | every leftover cell goes to a different row, and to rows whose remainder is positive and not less than that of any row left out |
| Layout.GiveShares | internal/tui/runview/runview.go:1000-1010 | every row gets the whole part of its share, and the remainders are kept |
| Layout.ScaledHeights | internal/tui/runview/runview.go:968-1024 | the heights are a largest-remainder apportionment of what exceeds the minimum; without excess every row has the minimum |
| Layout.RemaindersAddUp | internal/tui/runview/runview.go:1000-1012 | the remainders come to exactly the leftover cells times the weight sum |
| Layout.BestIsUnpicked | internal/tui/runview/runview.go:1012-1021 | while cells are left, the row picked was not picked before and has a positive remainder |
| Layout.HeightsAddUp | internal/tui/runview/runview.go:968-1024 | the heights sum exactly to the total |
| Layout.EveryRowHasTheMinimum | internal/tui/runview/runview.go:968-1010 | when the minimum fits for all rows no row is lower than it, nor negative |
| Layout.ExtraIsFloorOrCeiling | internal/tui/runview/runview.go:1000-1021 | each extra is the floor or the ceiling of its exact share, and the share itself when that is whole |
| Layout.HeavierRowsAreNotShorter | internal/tui/runview/runview.go:1000-1021 | a heavier row is never lower; of equal ones the earlier is never lower |
| Layout.ApportionmentIsUnique | internal/tui/runview/runview.go:1000-1021 | the rules leave no choice |
| Budget.Dashboard | internal/tui/runview/runview.go:223-360 | the seven stages give the closed-form heights, for every height |
| Budget.ShowSummaryAndLatency | internal/tui/runview/runview.go:276-301 | Summary gets a line first, then Latency up to three |
| Budget.ShowLowerPanels | internal/tui/runview/runview.go:303-313 | Protocol needs two lines, Endpoints four more |
| Budget.GrowSummaryAndLatency | internal/tui/runview/runview.go:315-342 | full cycles of three lines, with the exact remainder left |
| Budget.UseOddLines | internal/tui/runview/runview.go:344-357 | the odd lines go to Protocol, Endpoints, then Request Context |
| Budget.BudgetIsSpentExactly | internal/tui/runview/runview.go:203-360 | the cost never exceeds the height, and equals it as soon as the request context fits, which then gets at least what it needs |
| Budget.ClippedContextGetsWhatFits | internal/tui/runview/runview.go:246-273 | below that only the request context is shown, from two lines on, with the most lines that fit up to five |
| Budget.LowerRowsWait | internal/tui/runview/runview.go:296-313 | once the full baseline fits Protocol is shown only with three lines of Latency, Endpoints only with Protocol |
| Budget.LatencyIsNeverRestored | internal/tui/runview/runview.go:246-295 | Latency is shown exactly when the full baseline fits; below it there are never lines enough to restore Summary and Latency at full cost |
| Budget.ProtocolWithoutLatency | internal/tui/runview/runview.go:296-307 | below that, exactly five heights show Protocol without those lines |
| Budget.TallerTerminalHidesARow | internal/tui/runview/runview.go:223-360 | at every height: one more line hides a row that was shown exactly at needed + 7 and needed + 10, and it is Protocol |
| Budget.LatencyGivesWayOnce | internal/tui/runview/runview.go:276-357 | once the full baseline fits one more line hides no row, and takes a line from Latency only at the one height where Endpoints comes in |
| Placeholders.ReplaceKeys | internal/placeholders/placeholders.go:57-63 | the loop over the record gives the outcome of some order of its keys |
| Placeholders.Apply | internal/placeholders/placeholders.go:12-64 | the template itself with nothing to apply, one pass with a store, the loop over the record without |
| Placeholders.ApplyToMap | internal/placeholders/placeholders.go:66-75 | nil exactly for an empty map; otherwise the same keys, each value applied |
| Placeholders.MatchIsWritten | internal/placeholders/placeholders.go:22-36 | the pattern matches exactly a key in double braces, with or without a bar and a default, and gives exactly these groups |
| Placeholders.MatchingTheMatchAgain | internal/placeholders/placeholders.go:23-36 | matching the matched text again in the callback gives the same groups |
| Placeholders.StorePathFillsEveryHole | internal/placeholders/placeholders.go:20-55 | the store path is one simultaneous substitution, store before record before default, without rescanning inserted values |
| Placeholders.PlaceholderIsFilled | internal/placeholders/placeholders.go:28-54 | what the pattern takes becomes the store's value, else the record's, else the default, else nothing |
| Placeholders.ShortcutDoesNotShow | internal/placeholders/placeholders.go:12-17 | Apply takes one pass exactly when its first store is there, and is the loop over the record otherwise; returning early with nothing to apply makes no difference |
| Placeholders.Merge | internal/variables/store.go:64-78 | the two copying loops give the record with the variables over it, in any key order |
| Placeholders.MergedStoreFillsTheSame | internal/placeholders/placeholders.go:20-55 | filling from a store and a record is filling from the two merged by the store's own Merge, for every template |
| Placeholders.HarmlessHolesAreFilledAtOnce | internal/placeholders/placeholders.go:57-63 | on a template whose braces only enclose names, if every bound name in it has a value that is such a template and that no other key changes, the loop is the simultaneous substitution for every map order, unknown names left alone |
| Placeholders.StorelessPathIsSimultaneous | internal/placeholders/placeholders.go:57-63 | so it is on such templates when keys and values have no braces |
| Placeholders.OrderNeverShowsExactly | internal/placeholders/placeholders.go:57-63 | for a record whose values are such templates, all map orders agree on all such templates exactly when no value mentions another key, but for keys whose value is the key itself in braces |
| Placeholders.NestedBracesExample | internal/placeholders/placeholders.go:57-63 | on a placeholder in further braces the order shows although keys and values have no braces |
| Placeholders.LooseBracesExample | internal/placeholders/placeholders.go:57-63 | two values with loose braces make a placeholder together, and the order shows although no value mentions a key |
| Placeholders.BindingReplaces | internal/placeholders/placeholders.go:60-61 | replacing one key fills its holes and touches nothing else, whatever the value |
| Placeholders.UnboundNameVanishes | internal/placeholders/placeholders.go:25-53 | with a store a plain name that neither the store nor the record binds leaves nothing behind, whatever follows it |
| Placeholders.HoleStaysExactly | internal/placeholders/placeholders.go:22-53 | for every store, record and following text a brace-free name in braces stays as written exactly when it has no key or the key is bound to just that text |
| Placeholders.MatchStaysExactly | internal/placeholders/placeholders.go:22-53 | whatever the pattern takes, opening braces in keys and defaults included, stays exactly when its key is bound to just that text |
| Placeholders.UnboundExample | docs/request-chaining.md:132-133 | the documented path without its variable loses the placeholder |
| Placeholders.OrderMattersWhenAValueNamesAKey | internal/placeholders/placeholders.go:57-63 | for every record, all map orders give `{{first}}` the same outcome exactly when first's value mentions no other key of the record, but for keys whose value is the key itself in braces |
| Placeholders.OrderMattersExample | internal/placeholders/placeholders.go:57-63 | a record of three keys with two outcomes |
| Placeholders.ReplacingChangesNothing | internal/placeholders/placeholders.go:61 | ReplaceAll is without effect exactly when nothing occurs or nothing differs |
| Placeholders.HolesAgreeExactly | internal/placeholders/placeholders.go:20-63 | for which names the two paths agree when the store is empty |
| Placeholders.PathsAgree | internal/placeholders/placeholders.go:12-64 | with an empty store the two paths return the same text when every name in it is such |
| Pool.ConnectionPool.Get | internal/pool/pool.go:42-54 | the longest waiting client of the key, or a new unconnected one exactly when none waits; the bound is kept |
| Pool.ConnectionPool.Put | internal/pool/pool.go:58-75 | the client waits behind the others if there is room, and is closed if not |
| Pool.FirstInFirstOut | internal/pool/pool.go:42-75 | a client put behind n others while there is room is the one for the Get after n Gets of its key, whatever else is taken and put meanwhile |
| Pool.WaitsItsTurn | internal/pool/pool.go:42-75 | each Get for its key brings a waiting client one place forward, and nothing else moves it |
| Pool.ConnectionPool.RetryStaleConnection | internal/pool/pool.go:79-90 | the stale client is closed in any case; the new one is connected or not handed out |
| Pool.ConnectionPool.Close | internal/pool/pool.go:93-112 | every idle client of every key is closed, no other is touched, the shelves are empty |
| PoolUsers.StepKeepsInv | internal/cli/websocket_requester.go:93-214 | every pool and network action of every request keeps the ownership invariant |
| PoolUsers.OpenClientHasOneOwner | internal/pool/pool.go:42-112 | every open connection is in exactly one slot of one shelf or held by exactly one request |
| PoolUsers.OnlyOpenClientsAreUsed | internal/cli/sse_requester.go:88-171 | shelves hold at most size clients, all open; requests only send and read on open ones; Put always finds its shelf |
| PoolUsers.EveryPathEndsInPutOrClose | internal/cli/websocket_requester.go:99-214 | every way out of Do, stale retry and failed reconnect included, leaves the client shelved and open or not open, shelved exactly without error and with room |
| PoolUsers.PutOnlyAfterAllMessages | internal/cli/websocket_requester.go:116-163 | a WebSocket is put back only after all configured messages were sent, and an event source reads no more than its maximum |
| PoolUsers.LateInterruptionFails | internal/cli/websocket_requester.go:153-163 | a context that ends after everything was sent or read is an error exactly for event sources and for messages followed by a pause |
| PoolUsers.OnlyReadingMayTimeOut | internal/cli/sse_requester.go:118-148 | running out of time while reading costs no connection, while sending it does; any other failure closes it, and every failure ends the loop |
| PoolUsers.StaleOnlyOnce | internal/cli/websocket_requester.go:129-148 | a stale connection is replaced at most once per request, and no more than the configured messages or events are handled |
| PoolUsers.StaleExactlyWhenReused | internal/cli/sse_requester.go:118-136 | a request gives its connection up as stale exactly when it came from the pool, nothing was sent or read on it yet, and that first attempt fails, its context ended or not |
| PoolUsers.PooledMayBeReplaced | internal/cli/websocket_requester.go:93-148 | so whoever got an idle client replaces it if the first attempt fails |
| PoolUsers.FreshIsNeverReplaced | internal/cli/websocket_requester.go:93-148 | and whoever got a new client never does, in any interleaving |
| PoolUsers.ReconnectGoesOnExactly | internal/cli/websocket_requester.go:129-148 | the replacement goes on exactly when it connects and, on a WebSocket, the first message is sent again, which counts; the stale client stays closed |
| PoolUsers.ConnectGoesOnExactly | internal/cli/websocket_requester.go:96-102 | a request goes on with a new client exactly when it connects |
| PoolUsers.SuccessGoesOn | internal/cli/sse_requester.go:100-148 | after a success the loop goes on below the limit (100 events unless configured); at the limit a WebSocket that is to receive does so and any other request ends well |
| PoolUsers.ProgressIsSuccess | internal/cli/websocket_requester.go:116-163 | in every interleaving what a request has sent or read is what it succeeded in since it began, up to the limit |
| PoolUsers.PutAfterSendingAll | internal/cli/websocket_requester.go:116-208 | so a WebSocket that goes back to the pool has really sent all its messages |
| PoolUsers.IdlePoolClosesEverything | internal/pool/pool.go:93-112 | with nothing checked out every open connection is idle, and pool Close leaves none open |
| PoolUsers.CloseLeavesTheCheckedOut | internal/pool/pool.go:93-112 | pool Close leaves open exactly the connections that requests still hold |
| PoolUsers.DoMovesOn | internal/cli/sse_requester.go:118-148 | every step brings a request nearer to its end, within 2 * maxEvents + 6 steps for an event source; only receiving messages may repeat |
| PoolUsers.DoCanReturn | internal/cli/websocket_requester.go:93-214 | from every reachable state a request in progress can return by its own steps, while all others stand still |
| Thresholds.AggregateOf | internal/setrunner/runner.go:221-243 | the fold over the map in any order gives the largest latencies and error rate (or 0) and the exact totals |
| Thresholds.EvaluateThresholds | internal/setrunner/threshold.go:57-83 | verdicts come threshold by threshold; per_item gives one for each item in some order, a missing item a failed one |
| Thresholds.AllPassed | internal/setrunner/runner.go:245-252 | true exactly when every verdict passed |
| Thresholds.ActualByName | internal/setrunner/threshold.go:18-34 | the actual value of a verdict is the snapshot's value for the configuration's metric name |
| Thresholds.PassesByName | internal/setrunner/threshold.go:36-91 | a verdict passes exactly when its metric is known and the actual value is in the relation lt, le, gt, ge or eq names, and never with another operator |
| Thresholds.SatisfiedByName | internal/setrunner/threshold.go:57-83 | what the scope strings mean |
| Thresholds.VerdictsNameTheItems | internal/setrunner/threshold.go:57-83 | with scope per_item every item gets one verdict, which carries its name; a named item that did not run gets a failed one |
| Thresholds.TotalSplits | internal/setrunner/runner.go:239-240 | the totals do not depend on the order of adding |
| Thresholds.AllPassWhenAllAreSatisfied | internal/setrunner/threshold.go:57-91 | all verdicts pass exactly when every threshold is satisfied by what its scope names |
| Thresholds.PeakThreshold | internal/setrunner/threshold.go:36-55 | on p50, p95, p99 and error_rate an aggregate lt/le passes exactly when it passes for every item, gt/ge exactly when for some item |
| Thresholds.TotalThreshold | internal/setrunner/threshold.go:36-55 | on rps and total_errors an aggregate lt/le passing means it passes for every item; gt/ge the other way |
| Thresholds.TotalBoundIsStricter | internal/setrunner/threshold.go:36-55 | bounding the total is the same as bounding each item exactly when at most one item has anything to add |
| SetRunner.SnapshotKeepsTheCounts | internal/setrunner/runner.go:202-219 | the snapshot's rates times requests or seconds give back the counts, the percentiles are kept, and nothing is negative when the counts are not |
| SetRunner.ItemStatusExactly | internal/setrunner/runner.go:146-189 | an item is completed exactly when it ran and ended without error, cancelled exactly when it ran and ended with the context, failed otherwise; what it measured is kept |
| SetRunner.RunStage | internal/setrunner/runner.go:114-144 | results are in the order of the items, the failure flag says whether some item did not complete, and the map is one that some order of finishing leaves |
| SetRunner.OrderMattersOnlyInAClash | internal/setrunner/runner.go:130-140 | every order of finishing leaves the same per-item map exactly when items of one name measured the same |
| SetRunner.OrderFreeExactlyWithDistinctNames | internal/setrunner/runner.go:130-140 | whatever the items come to, the finishing order does not matter: exactly so when the names in the stage are distinct |
| SetRunner.ValidatedStageIsOrderFree | internal/store/sets_fs.go:108-118 | a stage that passes validation is so exactly when at most one of its items has no name |
| SetRunner.TwoUnnamedItems | internal/store/sets_fs.go:110-118 | two unnamed items of different sessions pass validation and have two outcomes |
| SetRunner.Run | internal/setrunner/runner.go:57-112 | without a set or a run nothing is executed and the error says which; otherwise the stages that ran, the judgement and the status follow from what happened to the items, saved or not |
| SetRunner.RunStages | internal/setrunner/runner.go:69-95 | the stages that run are a prefix that ends at the first cancellation or abort |
| SetRunner.StagesEndExactly | internal/setrunner/runner.go:69-95 | a set ends before its last stage exactly at a cancellation, or at a failing item of a stage that does not say to continue |
| SetRunner.ReportIsComplete | internal/setrunner/runner.go:66-104 | the report has the stages that ran, by name, each with all its items in order and what became of them |
| SetRunner.CompletedExactly | internal/setrunner/runner.go:66-104 | completed exactly when no stage meets a cancellation or aborts and every threshold is satisfied, and then every stage ran |
| SetRunner.CancelledExactly | internal/setrunner/runner.go:82-95 | cancelled exactly when a stage that ran ended cancelled; a stage followed by another saw none and had no failure or says continue |
| SetRunner.EveryErrorCountsExactly | internal/setrunner/runner.go:67-98 | for every fate of the items and every finishing order the aggregate's errors are those of all items that ran, exactly when no name is used twice in the whole set |
| SetRunner.SchedulingDoesNotShow | internal/setrunner/runner.go:57-144 | with distinct names in each stage any two runs with the same item outcomes report the same stages, judgement and status |
| Schedules.Manager.constructor | internal/scheduler/manager.go:46-53 | the manager's parser and the cron service share one grammar, and entries and registrations start in bijection |
| Schedules.Manager.AddOrReplace | internal/scheduler/manager.go:57-72 | succeeds exactly when the expression parses, and then the set has it under a new number; entries and live registrations stay in bijection |
| Schedules.Manager.Remove | internal/scheduler/manager.go:75-82 | the entry and its registration go together, nothing else goes, and the bijection stays |
| Schedules.Manager.Reload | internal/scheduler/manager.go:86-120 | succeeds exactly when every new or changed schedule is accepted; then the entries are the wanted schedules and unchanged ones keep their number; otherwise each set has its old or its wanted schedule; the bijection stays either way |
| Schedules.DesiredIsTheLastWord | internal/scheduler/manager.go:91-96 | a set is wanted exactly when it is listed with a schedule |
| Schedules.ReplacedIsPaired | internal/scheduler/manager.go:62-70 | replacing keeps entries and registrations one to one |
| Schedules.RefusalLeavesAnOrphan | internal/scheduler/manager.go:63-69 | were the service to refuse after the removal, the bijection would break exactly when there was an entry |
| Firing.NeverTwoRunsOfASet | internal/scheduler/manager.go:144-156 | under every interleaving a set never has two fires in progress |
| Firing.SkippedExactlyWhenRunning | internal/scheduler/manager.go:145-148 | a due fire is skipped exactly when a run of its set is in progress, so no mark is left behind |
| Firing.CancelledContextSkipsNothing | internal/scheduler/manager.go:22-23 | a started fire calls its callback exactly when its set is not busy, whatever the context; so "skipped when cancelled" is true of it exactly when the context is not cancelled or the set is busy |
| Firing.MarkedFireIsCalled | internal/scheduler/manager.go:145-155 | once its set is marked a fire is never skipped, whatever else happens |
| Firing.CancelledFireIsCalled | internal/scheduler/manager.go:144-156 | a reachable state in which a callback runs with a cancelled context |
| Firing.EveryCallHasTheRunContext | internal/scheduler/manager.go:132-155 | every callback gets the context of Run, so the fallback for none is never needed, and a cancelled one only after the cancellation |
| Firing.FiresAreTheDueTimes | internal/scheduler/manager.go:132-156 | in every interleaving there is one fire for each due time, of the set that was due |
| Firing.NoFireAfterStop | internal/scheduler/manager.go:132-140 | once the cron service was stopped no further fire starts |

## Left out

- HTTP, gRPC, WebSocket and SSE transport, TLS, tracing and the token HTTP exchange: I/O; each call is a success or a failure the model does not decide.
- The rate limiter and Poisson sampling: waiting for arrival is a step that returns ok or an error.
- HDR histogram buckets and quantiles: the histogram is the multiset of clamped values.
- Float rounding and 64-bit overflow: rates and measurements are reals, counters and durations unbounded integers.
- RecordRequest's custom metrics (`internal/metrics/collector.go:140-151`): values of any type added up or replaced by key, not part of this model.
- The conversion of configured load patterns (`internal/cli/run.go:228-258`) copies every field; the runner's and the dashboard's compiler take the same pattern type here.
- Stats, CurrentRPS and millisecond fields: derived output.
- WebSocket and SSE delta metrics: after a stale reconnect they compare two different clients.
- MakePoolKey, and the side-by-side height adjustments (`internal/tui/runview/runview.go:379-439`): not part of this model.
- Metrics.ShardedStats.MergeShards: merges while nobody records; the read that overlaps with recording is the step system in `Snapshots.dfy`.
- Goroutines as such: `Runner`, `TokenCache`, `Snapshots`, `PoolUsers` and `Firing` are step systems on values, so updates in place are modelled there as new states.
- Pool Close is the last step of a pool: Get and Put on a closed pool are not part of this model.
- SetRunner.Run: the store's answers are given, not computed, and the progress events are not part of this model.
- Schedules.Manager.Reload: runs uninterrupted; the source lets other calls in between its steps.
- EventStream.ReadUpTo: reads while no context ends and no connection looks stale; the retry and the contexts of that loop are in `PoolUsers.dfy`.
- Screens, widgets and reports: they draw what the modelled parts compute.
- File store, locks, configuration and flags: reading and writing files and option values.
- Feeders, extractors and the weighted endpoint choice: they pick the next record, cut values out of responses and choose a target; none of them shares state with the parts modelled here.

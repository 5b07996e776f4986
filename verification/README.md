# Verified models of the workforce-management cores

A Dafny model of the parts of the workforce-management platform that carry real
invariants, with proofs of what they promise. One module per component:

| file | component |
|---|---|
| `BackpressureQueue.dfy` | the on-premises collector's bounded queue and its asynchronous drain loop |
| `CstaFrame.dfy` | CSTA-XML framing over TCP (Annex J of ECMA-323): encoder, incremental reader, Invoke IDs |
| `RateLimiter.dfy` | the token-bucket limiter in front of the AI operations |
| `DailyRollup.dfy` | the daily adherence rollup: what the query computes, and re-running it over sliding windows |
| `DailyRollupJob.dfy` | one whole tick of that job, from the active employees to the last upsert |
| `PeriodRollup.dfy` | the weekly and monthly rollups and the window they read |
| `PeriodRollupJob.dfy` | one tick of that job as the statements it sends, and run after run |
| `TimezoneResolver.dfy` | the cached time zone resolution that feeds the rollups |
| `Confidence.dfy` | the confidence indicator and the redaction of untrusted text |
| `Recommendations.dfy` | AI governance: policy resolution, risk gate, recommendation lifecycle |
| `ComplianceRules.dfy` | the compliance rule lifecycle and effective-rule resolution |
| `MetricQuery.dfy` | the metric query engine: filter to WHERE clause, results and trends |
| `Csv.dfy` | the CSV printer, against a reference parser for section 2 of RFC 4180 |
| `ExportJob.dfy` | the idempotent export job under every interleaving |
| `Grouping.dfy`, `Upserts.dfy`, `Basics.dfy` | the rollups' grouping loop; tables under `ON CONFLICT DO UPDATE`; shared helpers |

Objects that update their fields are classes whose methods are proved against functions on
values; what the source promises is proved about those functions over whole runs. A step of
an asynchronous method is the code between two suspension points.

## What the proofs found

Where a promise of the source does not hold, the model keeps the code as it is, a lemma
gives a concrete input, and another says exactly when the promise is kept.

- **Daily rollup.** The job's comment says that re-running a day converges on the identical
  result. The scan window slides, so the day it opens in is recomputed from its remaining
  events only and its good row is overwritten: 99.93% becomes 0% fifteen minutes later
  (`LaterTickOverwritesDay`). Provided the window closes after the day's last event, a run
  computes the identical result exactly when it opens no later than the first
  (`RerunIsIdentical`); a window that closes too early can overstate the day
  (`EarlyEndOverstates`). The current day and the days back to one less than the configured
  trailing days are safe (`TickSettlesEveryone`), but as the windows move on every day is
  cut in turn, and the row that remains is made from the events since the last window start
  not after its last event: under a fifteen-minute schedule no day with two events fifteen
  minutes or more apart keeps its total (`ScheduleCutsEveryDay`, and of the job's own ticks
  `JobCutsEveryDay`). Passes in another time
  zone, the fallback to UTC included, write further rows for the same events
  (`TwoZonesTwoRows`, `FallbackCountsTwice`) unless their days begin together.
- **Weekly and monthly rollups.** The window is rounded back to a Monday, with a day to
  spare, so that no period is aggregated from only some of its days. The days before the
  oldest month still fall in it: the month before is overwritten with its last few days
  unless the oldest month starts on a Monday in a zone ahead of UTC (`PreviousMonthIsCut`,
  `JanuaryIsOverwritten`), and the week before exactly where the Sunday is not ahead of UTC
  (`PreviousWeekIsCut`, `SundayOverwritesWeek`). No later run sums more of a period once
  cut (`CutPeriodsDoNotHeal`), although the job's comment counts on the next tick. A
  period's row violates the NOT NULL of the percentage exactly when it has day rows but
  none with a whole scheduled second (`PeriodRowIsStorable`, `LastHalfSecondIsNotStorable`).
  The database then refuses the whole statement, and the tick ends: nobody in that query or
  in any after it gets their week or month brought up to date, on every run that reads the
  empty period (`EmptyPeriodBlocksTheRest`, `OneEventStopsTheJob`).
- **CSTA reader.** The reader's loop never ends exactly on the streams that hold a complete
  frame of declared length 0 (`LoopsForeverExactly`, `ZeroLengthSpins`). A plain frame shorter than
  8 bytes makes the frames read depend on how TCP cuts the stream
  (`ShortFrameDependsOnCut`); `ChunkingIrrelevant` says exactly for which streams it does not.
- **Compliance rules.** The resolver's comment relies on the highest version being the
  active one. Activating an older version leaves the superseded newer one in effect
  (`OlderRuleIsIgnored`, a run from the empty tables); the active rule is resolved exactly
  when no superseded rule of a higher version is in force (`ActiveRuleIsResolved`), which
  activating in version order guarantees (`InOrderActiveRuleIsResolved`).
- **Rate limiter.** Buckets are meant per tenant and actor; two tenants share one exactly
  when one tenant id is the other followed by a colon and more (`TenantsCollide`). Over HTTP
  every tenant id is a UUID, and they never do (`UuidTenantsAreApart`); the gRPC path passes
  on any tenant id, and there they can (`CollidingTenantIsDenied`).
- **Metric query.** A result is meant to be compared with the period before it. It is,
  exactly when the next row starts at another instant and is of the same series
  (`ComparisonIsPreviousPeriod`). For a caller: every comparison is right, whatever the
  tables hold, exactly when the filter leaves no dimension of the view open
  (`OpenFiltersMixSeries`). With one left open, rows of one period are compared with each
  other (`OpenDimensionComparesSiblings`), and one unit's month with another unit's month
  before (`OpenDimensionCrossesSeries`).
- **CSV.** Reading back gives the original table exactly when every row has a field
  (`RoundTrip`, `EmptyRowIsReadAsField`).
- **Exports.** A retry that starts after its key's row was committed is answered with that
  row exactly when the key is not empty (`RetriesFindTheirRow`). A retry that races the
  first request is refused with a database error instead: exactly when the key is committed
  between its look-up and its INSERT, or is empty and has a row by then (`RefusedExactly`,
  `RacingRetryIsRefused`).

## Model

| member | source | states |
|---|---|---|
| BackpressureQueue.Queue.Enqueue | acd-onprem-collector/src/backpressure-queue.ts:39-48 | accepts exactly when not stopped and below capacity: an accepted item is logged and at the end of the queue, a refusal for capacity is reported, a refusal after stop is silent; starts a drain loop if none is draining |
| BackpressureQueue.Queue.Stop | acd-onprem-collector/src/backpressure-queue.ts:54-56 | sets the flag that the loop reads at its head and after a backoff |
| BackpressureQueue.Queue.OnProcessSettled | acd-onprem-collector/src/backpressure-queue.ts:73-91 | what the loop does when `process` succeeds, fails or signals degradation, up to its next suspension |
| BackpressureQueue.Queue.OnTimer | acd-onprem-collector/src/backpressure-queue.ts:91-92 | after a backoff the loop retries the same item, or ends if stopped |
| BackpressureQueue.FifoConservation | acd-onprem-collector/src/backpressure-queue.ts:39-97 | in every reachable state the accepted items are the settled ones in order followed by the queue, the queue is within capacity, and every attempt is for the oldest unsettled item |
| BackpressureQueue.EnqueuedItemsAreConserved | acd-onprem-collector/src/backpressure-queue.ts:39-97 | in every run the settled items followed by the queue are exactly the items of the `enqueue` events that met an unstopped queue below capacity, in order |
| BackpressureQueue.OutcomesAreTold | acd-onprem-collector/src/backpressure-queue.ts:73-91 | in every run, as many items are reported delivered as calls of `process` succeeded, and as many errored as calls failed |
| BackpressureQueue.SingleLiveLoop | acd-onprem-collector/src/backpressure-queue.ts:58-97 | at most one live drain loop; exactly one whenever an unstopped queue is not empty; the item in flight is the head |
| BackpressureQueue.BoundedAttempts | acd-onprem-collector/src/backpressure-queue.ts:64-94 | no item is attempted more than retries + 1 times (5 retries unless configured, none if negative), none is given up on earlier, and no call starts after stop |
| BackpressureQueue.NoDeadlock | acd-onprem-collector/src/backpressure-queue.ts:64-97 | an unstopped queue that holds items can always resume |
| BackpressureQueue.DrainingTerminates | acd-onprem-collector/src/backpressure-queue.ts:64-97 | without enqueues at most (2 * retries + 1) calls and timers end per queued item, in every run |
| BackpressureQueue.BudgetIsReached | acd-onprem-collector/src/backpressure-queue.ts:79-94 | one item that keeps signalling degradation uses that bound up and is then given up on |
| BackpressureQueue.StopIsPrompt | acd-onprem-collector/src/backpressure-queue.ts:54-97 | after `stop` at most two calls or timers end, in every run, enqueues included |
| CstaFrame.Reader.Push | acd-onprem-collector/src/csta-xml-frame.ts:72-100 | on a stream with no complete frame of length 0, the loop returns the frames and keeps the residue that `Read` defines |
| CstaFrame.StuckIsAFixpoint | acd-onprem-collector/src/csta-xml-frame.ts:78-98 | where the loop stops there is no complete frame left; where it does not, a turn leaves the buffer as it was |
| CstaFrame.SpinsExactly | acd-onprem-collector/src/csta-xml-frame.ts:78-98 | `Read` reports the loop stuck if and only if the bytes hold, walking from frame to frame, a complete frame of declared length 0 |
| CstaFrame.LoopsForeverExactly | acd-onprem-collector/src/csta-xml-frame.ts:78-98 | turn after turn, the loop's guards let it go on for ever on exactly those streams; on all others it ends where `Read` says |
| CstaFrame.ZeroLengthSpins | acd-onprem-collector/src/csta-xml-frame.ts:78-98 | four zero bytes are such a stream, alone or behind any frames that were read to the end |
| CstaFrame.ReadAppend | acd-onprem-collector/src/csta-xml-frame.ts:75-98 | the residue, and whether the loop ends, never depend on how the bytes were split |
| CstaFrame.ChunkingIrrelevant | acd-onprem-collector/src/csta-xml-frame.ts:72-100 | every chunking reads the same frames if and only if each plain frame met is at least 8 bytes long or ends the stream |
| CstaFrame.ShortFrameDependsOnCut | acd-onprem-collector/src/csta-xml-frame.ts:86-97 | eight bytes that read as Invoke ID "1234" when they arrive together and as "1" when cut after five |
| CstaFrame.ReadsBack | acd-onprem-collector/src/csta-xml-frame.ts:37-54 | any chunking of encoded frames mixed with foreign frames reads back exactly the encoded ones, with no residue |
| CstaFrame.EncodeRoundTrip | acd-onprem-collector/src/csta-xml-frame.ts:37-54 | which inputs are refused; a frame survives the trip if and only if it is ASCII |
| CstaFrame.InvokeIdGenerator.Generate | acd-onprem-collector/src/csta-xml-frame.ts:59-63 | hands out the padded counter and advances it, wrapping at 9998 |
| CstaFrame.InvokeIdsAreFresh | acd-onprem-collector/src/csta-xml-frame.ts:56-64 | four characters, never the reserved event ID, no repeat within 9998 requests |
| RateLimiter.Limiter.TryAcquire | ai-layer-service/src/auth/ai-interaction-rate-limiter.service.ts:84-124 | the decision and the new buckets, with every bucket's tokens in [0, capacity] |
| RateLimiter.AllowedIsBounded | ai-layer-service/src/auth/ai-interaction-rate-limiter.service.ts:84-124 | over any stretch of any run a key is allowed at most L + L * t / (1000 * W) calls, L and W being the limit and the window in seconds that the override map or the defaults give the tenant that opened the bucket, t the advance in ms of the latest clock it has seen, even if clocks step back |
| RateLimiter.AllowedIsCounted | ai-layer-service/src/auth/ai-interaction-rate-limiter.service.ts:84-99 | what the bound counts: the calls on the key, from one index on, whose decision was to allow |
| RateLimiter.EmptyBucketFillsInWindow | ai-layer-service/src/auth/ai-interaction-rate-limiter.service.ts:101-116 | an empty bucket holds its limit again after its window of seconds, and less before |
| RateLimiter.BurstUpToLimit | ai-layer-service/src/auth/ai-interaction-rate-limiter.service.ts:84-99 | of a new key's calls at one instant exactly those up to the limit are allowed |
| RateLimiter.KeysAreIsolated | ai-layer-service/src/auth/ai-interaction-rate-limiter.service.ts:84-116 | deleting all calls on other keys leaves a key's decisions and bucket unchanged |
| RateLimiter.TenantsCollide | ai-layer-service/src/auth/ai-interaction-rate-limiter.service.ts:86 | callers of two tenants can share a bucket if and only if one tenant id is the other followed by a colon and more |
| RateLimiter.UuidTenantsAreApart | ai-layer-service/src/common/tenant/tenant-context.service.ts:13-38 | tenants whose ids pass the HTTP path's UUID check never share a bucket |
| RateLimiter.CollidingTenantIsDenied | ai-layer-service/src/ai/nl-analytics-bridge.service.ts:194-199 | on the gRPC path, a caller who has made no call is denied because of another tenant's |
| RateLimiter.RetryAfterIsExact | ai-layer-service/src/auth/ai-interaction-rate-limiter.service.ts:90-97 | in any run, whatever other keys do meanwhile and however the clock steps: waiting `retryAfterSeconds` from the latest reading is enough exactly when the capacity is at least 1; one second less never is |
| DailyRollup.DayTelescopes | adherence-compliance-service/src/adherence/adherence-daily-rollup-job.service.ts:42-70 | a day's segments add up to its end minus its first scanned event; adherent <= total; major deviations x threshold <= non-adherent time |
| DailyRollup.AdherentIsTimeOnShift | adherence-compliance-service/src/adherence/adherence-daily-rollup-job.service.ts:10-23 | the adherent sum is exactly the time during which the latest event so far says on shift |
| DailyRollup.MajorsAreCounted | adherence-compliance-service/src/adherence/adherence-daily-rollup-job.service.ts:56-87 | the major deviations of a day are exactly its events that say off shift and last at least the threshold, until the next event or, for the last, the day's end |
| DailyRollup.DayRowIsExact | adherence-compliance-service/src/adherence/adherence-daily-rollup-job.service.ts:74-94 | the whole row said of the day's events: the seconds are the microseconds rounded to the nearest, half up, the percentage the rounded quotient, the deviations the long breaks |
| DailyRollup.DayRowIsInRange | adherence-compliance-service/src/adherence/adherence-daily-rollup-job.service.ts:78-87 | the percentage is never NULL and lies in [0, 100]; adherent seconds <= total seconds |
| DailyRollup.WindowIndependence | adherence-compliance-service/src/adherence/adherence-daily-rollup-job.service.ts:49-94 | every window that misses none of the day's events writes the same row |
| DailyRollup.WholeDayIsCovered | adherence-compliance-service/src/adherence/adherence-daily-rollup-job.service.ts:54 | a window that contains the whole local day misses none of its events |
| DailyRollup.CutDayIsShortened | adherence-compliance-service/src/adherence/adherence-daily-rollup-job.service.ts:42-70 | how much scheduled time a window that cuts the day loses |
| DailyRollup.RerunIsIdentical | adherence-compliance-service/src/adherence/adherence-daily-rollup-job.service.ts:110-114 | a run whose window closes after the day's last event computes the same sums as the whole log if and only if it opens no later than the first |
| DailyRollup.CutShowsInRow | adherence-compliance-service/src/adherence/adherence-daily-rollup-job.service.ts:78-94 | a cut of a second or more lowers the stored scheduled seconds |
| DailyRollup.EarlyEndOverstates | adherence-compliance-service/src/adherence/adherence-daily-rollup-job.service.ts:54 | a window that closes before the day's last event turns 50% into 100% with the same total |
| DailyRollup.LaterTickOverwritesDay | adherence-compliance-service/src/adherence/adherence-daily-rollup-job.service.ts:110-114 | two ticks fifteen minutes apart: the second overwrites 99.93% with 0% |
| DailyRollup.ScheduleCutsEveryDay | adherence-compliance-service/src/adherence/adherence-daily-rollup-job.service.ts:128-165 | for every log and every schedule with ticks at most `gap` apart, with or without a pass where there is nothing to scan: which row of a day remains, when it is the whole day's, and that a day with events `gap` apart does not keep its total |
| DailyRollupJob.JobCutsEveryDay | adherence-compliance-service/src/adherence/adherence-daily-rollup-job.service.ts:128-198 | the same of every sequence of the job's own ticks |
| DailyRollup.TwoZonesTwoRows | adherence-compliance-service/src/adherence/adherence-daily-rollup-job.service.ts:74-94 | passes in two zones that scan one event leave two rows for it, or one, the later, exactly when the local days begin together |
| DailyRollup.FallbackCountsTwice | adherence-compliance-service/src/adherence/adherence-daily-rollup-job.service.ts:74-94 | an employee at UTC+1 and a fallback to UTC: rows of eleven and of twelve hours |
| DailyRollupJob.ActiveEmployees | adherence-compliance-service/src/adherence/adherence-daily-rollup-job.service.ts:97-101 | everyone with an event in the window, once |
| DailyRollupJob.PlanTenant | adherence-compliance-service/src/adherence/adherence-daily-rollup-job.service.ts:178-197 | one pass for each employee of the resolver's map, in the zone it gives them |
| DailyRollupJob.RollupTrailingWindow | adherence-compliance-service/src/adherence/adherence-daily-rollup-job.service.ts:157-198 | a tick upserts the rows of one pass for every active employee and of no employee twice, in the zone that the resolver makes of this tick's answers and of its cache, tenant after tenant |
| DailyRollup.RerunsConverge | adherence-compliance-service/src/adherence/adherence-daily-rollup-job.service.ts:88-94 | after a covering pass, any later passes, in any zones, that neither cut the day nor have another day that begins with it leave the whole log's row under its key |
| DailyRollup.TrailingDaysAreCovered | adherence-compliance-service/src/adherence/adherence-daily-rollup-job.service.ts:147-165 | for any number of trailing days the window covers those local days in every zone, daylight-saving changes included |
| DailyRollupJob.TickSettlesEveryone | adherence-compliance-service/src/adherence/adherence-daily-rollup-job.service.ts:157-198 | after every tick the rows of those days, for everyone the tick resolved, are the whole log's, whatever the table held |
| PeriodRollup.PeriodsConserve | adherence-compliance-service/src/adherence/adherence-weekly-monthly-rollup-job.service.ts:22-78 | week or month rows add up, column by column, to the day rows read |
| PeriodRollup.PeriodRowAdds | adherence-compliance-service/src/adherence/adherence-weekly-monthly-rollup-job.service.ts:24-42 | a period's row starts from zero; each day row of the period adds its own seconds and deviations, and no other row changes it |
| PeriodRollup.PeriodRowIsStorable | adherence-compliance-service/src/adherence/adherence-weekly-monthly-rollup-job.service.ts:24-42 | which periods get a row; its percentage is NULL exactly when no day row has scheduled seconds, and otherwise in [0, 100] |
| PeriodRollup.LastHalfSecondIsNotStorable | adherence-compliance-service/src/adherence/adherence-weekly-monthly-rollup-job.service.ts:35 | an event half a second before midnight: a day row of 0 seconds, and a week and a month row without a percentage |
| PeriodRollup.FallbackDoublesWeek | adherence-compliance-service/src/adherence/adherence-weekly-monthly-rollup-job.service.ts:24-42 | the two rows of a fallback add up to 23 hours of a 12-hour stretch |
| PeriodRollup.WindowIsExact | adherence-compliance-service/src/adherence/adherence-weekly-monthly-rollup-job.service.ts:39-40 | the day rows read are those that start at or after the window's start and before its end, and no others |
| PeriodRollup.WindowSplits | adherence-compliance-service/src/adherence/adherence-weekly-monthly-rollup-job.service.ts:39-41 | a period's sum falls short of the whole by exactly the day rows before the window |
| PeriodRollup.CalendarIsGregorian | adherence-compliance-service/src/adherence/adherence-weekly-monthly-rollup-job.service.ts:60-61 | the months that the truncated dates fall in are those of the Gregorian calendar, by its closed form |
| PeriodRollup.DatesInWindow | adherence-compliance-service/src/adherence/adherence-weekly-monthly-rollup-job.service.ts:122-138 | exactly which local dates begin inside the window, for every `now` and every offset in [-12h, +14h] |
| PeriodRollup.LaterPeriodsBeginInWindow | adherence-compliance-service/src/adherence/adherence-weekly-monthly-rollup-job.service.ts:125-137 | months from the oldest one on, and weeks from its Monday on, begin inside the window |
| PeriodRollup.LaterPeriodsAreWhole | adherence-compliance-service/src/adherence/adherence-weekly-monthly-rollup-job.service.ts:122-165 | and so are summed from all of their day rows |
| PeriodRollup.PreviousMonthIsCut | adherence-compliance-service/src/adherence/adherence-weekly-monthly-rollup-job.service.ts:125-138 | the month before is read in part unless the oldest month starts on a Monday in a zone ahead of UTC |
| PeriodRollup.PreviousWeekIsCut | adherence-compliance-service/src/adherence/adherence-weekly-monthly-rollup-job.service.ts:125-138 | the week before is read in part exactly where its Sunday is not ahead of UTC |
| PeriodRollup.CutPeriodsDoNotHeal | adherence-compliance-service/src/adherence/adherence-weekly-monthly-rollup-job.service.ts:131-138 | every later run sums at most what the run that cut the period did, and misses at least each row cut off then |
| PeriodRollup.JanuaryIsOverwritten | adherence-compliance-service/src/adherence/adherence-weekly-monthly-rollup-job.service.ts:51-78 | two upserts under one key: a month at 96% is overwritten with one hour at 0% |
| PeriodRollup.SundayOverwritesWeek | adherence-compliance-service/src/adherence/adherence-weekly-monthly-rollup-job.service.ts:22-49 | two upserts under one key: a week at 96% is overwritten with its Sunday at 0% |
| PeriodRollup.EmployeeRowsAreExact | adherence-compliance-service/src/adherence/adherence-weekly-monthly-rollup-job.service.ts:22-78 | an employee's rows are those of exactly the periods read, under the period's own key |
| PeriodRollupJob.QueryIsStorable | adherence-compliance-service/src/adherence/adherence-weekly-monthly-rollup-job.service.ts:22-78 | a statement is refused as a whole exactly if one of its employees has an empty period |
| PeriodRollupJob.RunQueries | adherence-compliance-service/src/adherence/adherence-weekly-monthly-rollup-job.service.ts:160-164 | the loop writes the rows of exactly the statements before the first refused one |
| PeriodRollupJob.EmptyPeriodBlocksTheRest | adherence-compliance-service/src/adherence/adherence-weekly-monthly-rollup-job.service.ts:97-165 | over any number of runs that read an empty period, no row of its query or a later one is written or changed |
| PeriodRollupJob.OneEventStopsTheJob | adherence-compliance-service/src/adherence/adherence-weekly-monthly-rollup-job.service.ts:160-164 | one event half a second before midnight in one tenant, and a tick writes nothing for any tenant |
| TimezoneResolver.Resolver.ResolveOrgUnit | adherence-compliance-service/src/adherence/timezone-resolver.service.ts:71-95 | a live cache entry, else the calendar's answer, cached, else UTC, not cached |
| TimezoneResolver.Resolver.ResolveTimezones | adherence-compliance-service/src/adherence/timezone-resolver.service.ts:39-69 | every requested employee gets the one non-empty zone of their org unit, live in the cache or told by the calendar, or UTC for lack of it; and what the cache then holds |
| TimezoneResolver.UnitZoneIs | adherence-compliance-service/src/adherence/timezone-resolver.service.ts:58-61 | org units resolved in turn do not disturb each other |
| TimezoneResolver.EntriesWereTold | adherence-compliance-service/src/adherence/timezone-resolver.service.ts:78-94 | a cache entry is always an answer of the calendar, never a failure's fallback |
| TimezoneResolver.ResolvedIsFresh | adherence-compliance-service/src/adherence/timezone-resolver.service.ts:71-95 | in every history, overlapping resolutions included, a result is the fallback, the answer just given, or one given less than an hour before |
| TimezoneResolver.CacheIsTransparent | adherence-compliance-service/src/adherence/timezone-resolver.service.ts:71-95 | with a constant, reachable calendar, cached and uncached resolution agree |
| Grouping.GroupByKey | adherence-compliance-service/src/adherence/adherence-daily-rollup-job.service.ts:180-185 | one non-empty group per key in use, holding its values in order; the jobs group by tenant and by time zone with it |
| Grouping.OneGroupEach | adherence-compliance-service/src/adherence/adherence-daily-rollup-job.service.ts:178-196 | a value paired with one key lands in exactly one group, that of its key |
| Confidence.StripForgetsExactly | ai-layer-service/src/ai/confidence-indicator.ts:43-55 | two contexts redact to the same value if and only if they differ only beneath `reason` or `question`, at any depth |
| Confidence.StripIsIdempotent | ai-layer-service/src/ai/confidence-indicator.ts:43-55 | redacting twice is redacting once |
| Confidence.StripRedacts | ai-layer-service/src/ai/confidence-indicator.ts:43-55 | what redaction does: beneath `reason` and `question` the value becomes null, everything else keeps its place, at any depth |
| Confidence.UntrustedTextIsPowerless | ai-layer-service/src/ai/confidence-indicator.ts:66-75 | such contexts give the same indicator for the same model output |
| Confidence.Indicator | ai-layer-service/src/ai/confidence-indicator.ts:66-75 | the indicator always lies in [0, 1] |
| Confidence.IndicatorIsExact | ai-layer-service/src/ai/confidence-indicator.ts:57-75 | the indicator is half the self-reported confidence, clamped to [0, 1], and half the share of tokens that occur in the redacted context, that share being one half if there are no tokens, to the nearest hundredth |
| Confidence.EveryDigitIsChecked | ai-layer-service/src/ai/confidence-indicator.ts:57-58 | the numeric tokens hold every digit of the output, in order |
| Confidence.TokensAreNumerals | ai-layer-service/src/ai/confidence-indicator.ts:38 | each token is one whole numeral of the pattern |
| Confidence.TokensAreLeftmostLongest | ai-layer-service/src/ai/confidence-indicator.ts:38 | the tokens are those of a left-to-right search that takes the longest numeral at each place and skips what begins none |
| Confidence.GroundednessExtremes | ai-layer-service/src/ai/confidence-indicator.ts:57-64 | full credit means every figure is in the context, none that no figure is |
| Recommendations.PermissionIsExplicit | ai-layer-service/src/ai/ai-governance-policy-resolver.service.ts:29-41 | anything above suggest-only comes from a row of that tenant, exact before default |
| Recommendations.EvaluateRisk | ai-layer-service/src/ai/risk-threshold-evaluator.service.ts:36-68 | passes exactly when some threshold is set and all that are set are met; which criteria are reported |
| Recommendations.Service.CreateFromInteraction | ai-layer-service/src/ai/ai-recommendation.service.ts:110-193 | a row is created only from a usable rationale, each refusal has its exact reason, and the row executes on its own exactly when the gate is open |
| Recommendations.CreationRespectsGate | ai-layer-service/src/ai/ai-recommendation.service.ts:110-193 | under the tenant's governing policy row, a recommendation needs a human exactly unless the row is for automatic execution, sets a threshold, and every threshold it sets is met by the interaction's confidence and by the length of the first `affectedEmployeeIds` array in its context, with nothing suspicious in the text; then, and only then, the owning module is called, once, for the action named in the context |
| Recommendations.UngovernedIsHeld | ai-layer-service/src/ai/ai-governance-policy-resolver.service.ts:29-41 | without a policy row a tenant's recommendations are suggest-only, wait for a human and make no call |
| Recommendations.Service.DecideRecommendation | ai-layer-service/src/ai/ai-recommendation.service.ts:195-242 | only undecided rows are decided; suggest-only approvals execute nothing |
| Recommendations.DecisionTakesEffect | ai-layer-service/src/ai/ai-recommendation.service.ts:195-266 | an approval above suggest-only calls the owning module once for the row's action and is recorded if that succeeds; other decisions are recorded without a call; a decision on a decided, foreign or unexecutable row changes nothing |
| Recommendations.Service.Execute | ai-layer-service/src/ai/ai-recommendation.service.ts:245-266 | a failed call leaves the row suggested |
| Recommendations.EveryCallIsAuthorised | ai-layer-service/src/ai/ai-recommendation.service.ts:110-266 | in every run, each execution call had an open automatic gate or an approval of an undecided row above suggest-only, for that very action |
| Recommendations.EveryCallIsTraced | ai-layer-service/src/ai/ai-recommendation.service.ts:110-266 | each execution call goes back to the event that created its recommendation, from an interaction about that action, when a row of the tenant's own policies permitted it; and to the open gate or a later approval |
| Recommendations.UnapprovedCallsAreLowRisk | ai-layer-service/src/ai/ai-recommendation.service.ts:126-158 | in every run, a call for a recommendation that nobody approved was made as it was created, from an interaction that met every threshold of the governing row, its list of affected employees no longer than the row allows |
| Recommendations.LowRiskRunExecutes | ai-layer-service/src/ai/ai-recommendation.service.ts:110-193 | for every low-risk policy and interaction there is a run that executes it unattended |
| Recommendations.ApprovalIsPossible | ai-layer-service/src/ai/ai-recommendation.service.ts:195-266 | every run that leaves an undecided executable row can go on with its approval and execution |
| Recommendations.ExecutedAtMostOnce | ai-layer-service/src/ai/ai-recommendation.service.ts:245-266 | each recommendation succeeds at most once, and its status says exactly whether it did |
| Recommendations.DecisionsAreFinal | ai-layer-service/src/ai/ai-recommendation.service.ts:207-209 | a decided row never changes again |
| Recommendations.DecisionsHaveReasons | ai-layer-service/src/ai/ai-recommendation.service.ts:195-266 | in every run, a row is approved or rejected by a decision that said so, by a user of its tenant, and executed automatically only as it was created |
| Recommendations.RowsWereGoverned | ai-layer-service/src/ai/ai-recommendation.service.ts:130-177 | every executable row was created at the level its tenant's policy gave then, with the approval flag the gate gave |
| Recommendations.GateIgnoresUntrustedText | ai-layer-service/src/ai/ai-recommendation.service.ts:130-158 | contexts that differ only in untrusted text get the same gate verdict and approval flag |
| ComplianceRules.ResolveEffectiveRules | adherence-compliance-service/src/compliance/resolve-effective-rules.ts:48-65 | the map returned holds, for each rule type of which some row is active or superseded, has begun, has not passed the end of its last day and has served its delay, such a row of that type, unbeaten by the others in version; no other type |
| ComplianceRules.WinnerIsBest | adherence-compliance-service/src/compliance/resolve-effective-rules.ts:67-75 | the winner is in force and beaten by no other row in force |
| ComplianceRules.ListOrderIsIrrelevant | adherence-compliance-service/src/compliance/resolve-effective-rules.ts:57-64 | with distinct versions the order of the list does not matter |
| ComplianceRules.SingleLookupAgrees | adherence-compliance-service/src/compliance/compliance-rule.service.ts:282-294 | the single-rule lookup agrees with the full resolution |
| ComplianceRules.RuleService.CreateRule | adherence-compliance-service/src/compliance/compliance-rule.service.ts:48-92 | refuses a blank citation and a reversed range, else appends a pending row with the next version |
| ComplianceRules.BlankIsAllSpaces | adherence-compliance-service/src/compliance/compliance-rule.service.ts:49-53 | a citation is refused as blank exactly when every character of it is a space |
| ComplianceRules.RuleService.ActivateRule | adherence-compliance-service/src/compliance/compliance-rule.service.ts:126-183 | which activations are refused and why; the new table otherwise |
| ComplianceRules.LifecycleIsSound | adherence-compliance-service/src/compliance/compliance-rule.service.ts:126-202 | in every run one active row per scope, versions 1, 2, 3, ..., and behind every activation the newest preview there was then, justified if flagged |
| ComplianceRules.MaxIsCount | adherence-compliance-service/src/compliance/compliance-rule.service.ts:296-309 | the highest version of a scope is its number of rows |
| ComplianceRules.StatusesMoveForward | adherence-compliance-service/src/compliance/compliance-rule.service.ts:163-181 | statuses only move pending, active, superseded; nothing else of a row changes but the delay set on activation |
| ComplianceRules.ActivationIsLocal | adherence-compliance-service/src/compliance/resolve-effective-rules.ts:20-37 | activation changes no resolution at an instant at which the new rule is not in force, nor for another type, jurisdiction or tenant |
| ComplianceRules.ActiveRuleIsResolved | adherence-compliance-service/src/compliance/resolve-effective-rules.ts:30-35 | an active rule in force is resolved if and only if no higher version of its scope is in force |
| ComplianceRules.InOrderActiveRuleIsResolved | adherence-compliance-service/src/compliance/resolve-effective-rules.ts:30-35 | if activations happen in version order, it always is |
| ComplianceRules.OlderRuleIsIgnored | adherence-compliance-service/src/compliance/resolve-effective-rules.ts:30-35 | the run that creates and previews two rules, activates version 2 and then version 1, leaves version 2 resolved |
| MetricQuery.WhereClause.AppendPeriodConditions | analytics-reporting-service/src/analytics/metric-query-engine.service.ts:270-279 | narrows the clause to exactly the filter's period, with a parameter per placeholder |
| MetricQuery.WhereClause.AppendDimensionConditions | analytics-reporting-service/src/analytics/metric-query-engine.service.ts:281-295 | narrows the clause to exactly the filter's allowed dimensions |
| MetricQuery.Query | analytics-reporting-service/src/analytics/metric-query-engine.service.ts:228-250 | reads each row that meets the filter as often as the table holds it and no other, newest first, every placeholder pointing at its own parameter; gives as many results as the caller asked for (12 by default, at most 100) or as there are rows; refused exactly for limits below -1 |
| MetricQuery.ComparisonIsPreviousPeriod | analytics-reporting-service/src/analytics/metric-query-engine.service.ts:297-343 | a result is compared with the previous period of its own series exactly when the next row starts at another instant and is of that series; with nothing when there is no next row; its trend says which of the two values is greater, if there are two |
| MetricQuery.OpenFiltersMixSeries | analytics-reporting-service/src/analytics/metric-query-engine.service.ts:281-328 | for all tables with the views' keys and all orders of equal starts the comparisons are right if and only if the filter leaves no dimension open |
| MetricQuery.OpenDimensionComparesSiblings | analytics-reporting-service/src/analytics/metric-query-engine.service.ts:297-328 | two org units in their first month: one is shown as up or down on the other |
| MetricQuery.OpenDimensionCrossesSeries | analytics-reporting-service/src/analytics/metric-query-engine.service.ts:297-328 | two org units over two months: one that fell is shown as up, on the other's month before |
| MetricQuery.LimitIsInvisible | analytics-reporting-service/src/analytics/metric-query-engine.service.ts:297-328 | result i is that of row i of the full selection, comparison and trend included, and no row is dropped |
| MetricQuery.SmallerLimitIsAPrefix | analytics-reporting-service/src/analytics/metric-query-engine.service.ts:239-246 | the result for a smaller limit is a prefix of that for a larger one |
| Csv.RoundTrip | analytics-reporting-service/src/analytics/csv.ts:9-20 | the reference parser returns exactly the header and rows printed if and only if each has a field |
| Csv.EmptyRowIsReadAsField | analytics-reporting-service/src/analytics/csv.ts:9-20 | a row without fields prints like a row with an empty field |
| Csv.Injective | analytics-reporting-service/src/analytics/csv.ts:9-20 | different tables print different files |
| ExportJob.ExportService.LookUpKey | analytics-reporting-service/src/analytics/analytics-export.service.ts:54-63 | returns the key's row if it is looked up and found, else goes on |
| ExportJob.ExportService.InsertRow | analytics-reporting-service/src/analytics/analytics-export.service.ts:65-76 | inserts a pending row unless the unique index refuses it |
| ExportJob.ExportService.StartGeneration | analytics-reporting-service/src/analytics/analytics-export.service.ts:81-85 | starts one generation, for a new row only |
| ExportJob.ExportService.UploadFile | analytics-reporting-service/src/analytics/analytics-export.service.ts:140-141 | stores the file before the row says so |
| ExportJob.ExportService.CompleteRow | analytics-reporting-service/src/analytics/analytics-export.service.ts:143-154 | completes the row with the uri of the stored file |
| ExportJob.ExportService.FailRow | analytics-reporting-service/src/analytics/analytics-export.service.ts:156-167 | fails the row and ends the generation |
| ExportJob.IdempotencyHolds | analytics-reporting-service/src/analytics/analytics-export.service.ts:54-87 | in every interleaving a tenant's key has at most one row and no generation starts twice |
| ExportJob.DecidedRowsAreFinal | analytics-reporting-service/src/analytics/analytics-export.service.ts:122-170 | status moves only from pending to completed or failed |
| ExportJob.PendingRowsAreInHand | analytics-reporting-service/src/analytics/analytics-export.service.ts:25-29 | in every run without a crash and without a failure that could not be recorded, a pending row has a generation or is about to get one |
| ExportJob.OutcomeIsRecorded | analytics-reporting-service/src/analytics/analytics-export.service.ts:143-167 | a row starts pending, and only the end of its own generation decides it: completed if it was, failed if it failed |
| ExportJob.CompletedRowsHaveFiles | analytics-reporting-service/src/analytics/analytics-export.service.ts:136-154 | in every run a completed row names the stored file of its tenant and id, and no other row names a file |
| ExportJob.ExportIsServed | analytics-reporting-service/src/analytics/analytics-export.service.ts:54-167 | every request, with a key or without, can go all the way to a URL |
| ExportJob.UrlsLeadToFiles | analytics-reporting-service/src/analytics/analytics-export.service.ts:104-120 | a URL is given only for the requester's completed export, and leads to the stored file of its own tenant and id |
| ExportJob.FilesAreApart | analytics-reporting-service/src/analytics/analytics-export.service.ts:136-154 | in every run, rows with different ids, none with a slash as in a UUID, have different files |
| ExportJob.RetriesFindTheirRow | analytics-reporting-service/src/analytics/analytics-export.service.ts:56-63 | in every run, a retry that starts once its key's row is committed finds that very row, the only one of the key, and is answered with it if and only if the key is not empty; with an empty key its INSERT is always refused |
| ExportJob.RefusedExactly | analytics-reporting-service/src/analytics/analytics-export.service.ts:56-76 | in every run, an INSERT is refused if and only if its key was committed between the request's own look-up and the INSERT, or is empty and taken |
| ExportJob.RacingRetryIsRefused | analytics-reporting-service/src/analytics/analytics-export.service.ts:56-76 | the run of two requests that both look up before either inserts |

## Left out

- Backoff delays, metrics and log lines: a timer may fire at any moment after it is set.
- BackpressureQueue.Queue.OnProcessSettled: callbacks are assumed not to throw and not to call the queue back before they suspend.
- RateLimiter.AllowedIsBounded: exact reals instead of floating point; limits and windows are assumed positive, and parsing the override configuration is not modelled.
- DailyRollup.DayRowIsInRange: the percentage is the exact quotient rounded half up to hundredths, not the database's finite-precision division.
- CstaFrame.Reader.Push: says nothing of streams that hold a complete frame of length 0, because the source's call does not return on them.
- DailyRollup.RerunsConverge: `computed_at` and the row id are not part of a row; the log of an employee is a sequence in the order the query sorts it.
- DailyRollup.ScheduleCutsEveryDay: the ticks at which the employee has events resolve them to one time zone and see the same log; `TwoZonesTwoRows` says what a tick in another zone leaves.
- PeriodRollup.CutPeriodsDoNotHeal: the day rows stay as they are between the runs.
- PeriodRollupJob.EmptyPeriodBlocksTheRest: the day rows stay as they are between the runs, and a refused statement is the only way in which one fails.
- The time zone database: a zone is any strictly increasing sequence of day boundaries, in which no stretch of days takes a whole day longer than its number of days, with offsets from UTC-12 to UTC+14 for the weekly and monthly window.
- PeriodRollup.PeriodsConserve: the day rows of one employee are a list; reading them out of the score table, and how the job finds and groups its employees (as the daily job does), are not modelled.
- The `ticking` guard of the two jobs: one run at a time per process.
- Confidence.Indicator: `JSON.stringify` is an arbitrary function of the redacted value; a self-reported confidence is a number, not NaN; an object key `__proto__` is an ordinary key.
- Recommendations.EveryCallIsAuthorised: service calls are serial and saves succeed; the suspicious-phrase patterns are an arbitrary function from text to flags; audit records and events are best effort and omitted.
- ComplianceRules.RuleService.CreateRule: rule definitions and timestamps of creation and activation are not kept, and `trim` knows the ASCII spaces, U+00A0 and U+FEFF only.
- ComplianceRules.LifecycleIsSound: how an impact preview computes its count, and the audit event of a flagged activation.
- MetricQuery.Query: SQL text is kept as parsed conditions; the lookup of metric definitions and `data_as_of` are not modelled, and rows with equal `period_start` may come in any order.
- DailyRollupJob.RollupTrailingWindow: the answers of the employee service and of the calendar are functions of the tenant and the org unit during one tick, no resolution of the other job comes in between (`ResolvedIsFresh` allows it), and a failing query, which ends the tick, is not modelled.
- Csv.RoundTrip: fields are the texts that `String(value)` gives.
- ExportJob.DecidedRowsAreFinal: a transaction that throws is taken not to have committed; if the completing one commits and its await still rejects, the source marks the completed row failed.
- ExportJob.UrlsLeadToFiles: presigning, the content of the file and its later deletion.
- Guards, gRPC and NATS transport, GraphQL, row-level security, the scheduling solver and the mobile app.

# SyncBridge in Dafny

SyncBridge is a data-sync backend: pipelines with a mapping and a schedule pull records in, transform them
and store them; webhooks do the same for single events; a rate limiter guards the API. This project models the
parts of it that hold state or do arithmetic, and proves what they promise.

`dafny verify dfyconfig.toml` checks everything.

| module | what it models |
|---|---|
| `Common`, `Text`, `Json`, `Collecting`, `Shuffle` | options and results, the JavaScript string operations in use, JSON values, and two general facts about sequences |
| `Calendar`, `MinuteSearch`, `CronFields`, `CronExpressions`, `CronSearch`, `CronText`, `CronMeaning`, `Horizon` | five-field cron expressions, their parser and a printer for it, the Gregorian calendar of section 21.4.1 of ECMA-262, the minute-by-minute search for the next run, what any text and any next run mean, and exactly when the 366 days that are searched are enough |
| `Scheduler`, `Firings`, `SingleFlight`, `PollCycles` | saving a schedule and polling (a class over a store), how often one pipeline fires over a run of polls, the poller interleaved with ticks and workers, and the agreement of the two views of a poll |
| `Paths`, `Transformation`, `TransformationMeaning`, `JsObjects`, `HeapTransformation` | path get and set, the mapping compiler and its interpreter on values, what a mapping asks for, told without running it, and the same interpreter on mutable objects that it writes in place |
| `Cursors`, `RunRecords`, `CursorFilter`, `CursorHistory`, `RunCursors` | the incremental cursor, one pass over a batch (a class over a store), which records it handles and stores, the cursor over whole histories of runs, and after deliveries that throw |
| `SyncRuns`, `Overlaps`, `Executions` | a run and its background job under redelivery and failing calls, which overlaps of two deliveries are harmless, and the agreement of preview, synchronous and queued execution |
| `RateLimitRules`, `RateLimitRoutes`, `RateLimiter` | the rule table, path matching and keys, which requests are limited, and the fixed-window limiter with lazy cleanup |
| `WebhookIntake`, `Webhooks`, `WebhookRecords` | concurrent intake with an idempotency key, the processing of an event over its pipelines, and what it stores |

Conventions. Instants are milliseconds since the epoch. Store calls that may fail are parameters: a fault, or a
`throwAt`, the number of the awaited call that throws. What the store or the clock answers is a parameter too.
Whole runs are datatypes (`Start | Then(past, event)`), so a lemma about every history is about every
reachable state. A class method is proved equal to a function of the old state, and the lemmas are about that
function.

Where the code and other texts disagree, the model follows the code:

- Day of month and day of week must both match (`apps/api/src/scheduler/cron-utils.ts:208`); the INPUT FILES
  section of crontab in POSIX.1-2017 asks for either when both are restricted.
- `docs/SCHEDULER.md` says that a queued or running run prevents a second one. A worker starts a redelivered job
  without that check, so it holds for a history iff each redelivery in it is allowed: its run is active anyway, or
  its pipeline has no active run and no poll is between its check and the creation of one
  (`SingleFlight.SafeIffAllowed`). Two histories break it (`SingleFlight.RedeliveryBreaks`,
  `SingleFlight.RedeliveryRacesCheck`).
- `docs/SCHEDULER.md` says that only active pipelines can be scheduled. The code refuses archived ones only; a
  paused pipeline can be given any schedule that parses (`Scheduler.PausedCanBeScheduled`). It has no next run then and
  is never due (`Scheduler.PausedIsNeverDue`).
- `docs/WEBHOOKS.md` says that duplicate events are ignored. A duplicate whose lookup came before the insert of the
  first fails on the unique constraint instead (`WebhookIntake.OverlapIsRefused`); exactly those do
  (`WebhookIntake.RefusedIffOvertaken`).
- `docs/WEBHOOKS.md` offers manual processing for received events. The code allows it for failed ones as well
  (`Webhooks.WebhooksService.ProcessEvent`).

## Model

| member | source | states |
|---|---|---|
| Calendar.FormulaHolds | apps/api/src/scheduler/cron-utils.ts:219-249 | Counting days year by year from 1970 gives the closed formula of ECMA-262 for every year, before 1970 too |
| Calendar.DateOfDay | apps/api/src/scheduler/cron-utils.ts:219-249 | The date that the formatter shows for a day is a valid date, and its day number is that day |
| Calendar.DayOfDate | apps/api/src/scheduler/cron-utils.ts:219-249 | Conversely every valid date is the date of its own day number, so days and dates correspond one to one |
| Calendar.DayNumberFormula | apps/api/src/scheduler/cron-utils.ts:219-249 | A date is valid iff its day lies between the closed forms of the starts of its month and the next, the MonthFromTime table of ECMA-262; its day number has a closed form too |
| Calendar.YearlyDateRecurs | apps/api/src/scheduler/cron-utils.ts:75 | Any date other than 29 February comes up within 366 days of any day, which is what the search's bound rests on |
| MinuteSearch.NextUnique | apps/api/src/scheduler/cron-utils.ts:71-82 | The search result is the only one that is the least match in the horizon, or None when no minute of it matches |
| MinuteSearch.IterateHasNoGaps | apps/api/src/scheduler/cron-utils.ts:71-82 | Feeding each result back enumerates matches in order and skips none |
| CronFields.AddRange | apps/api/src/scheduler/cron-utils.ts:192-206 | Adds exactly the members of start, start + step, ... up to end to what was there, or throws for a zero step |
| CronFields.ParseField | apps/api/src/scheduler/cron-utils.ts:110-158 | Returns the union of the segments, or the error of the first bad one |
| CronFields.SegmentInRange | apps/api/src/scheduler/cron-utils.ts:160-190 | An accepted segment is a non-empty progression inside the field's range |
| CronFields.FieldDenotation | apps/api/src/scheduler/cron-utils.ts:110-158 | A field is accepted iff every comma segment is; it then denotes their union, lies in the range and is not empty, so the empty-set error is unreachable |
| CronExpressions.ParseCronExpression | apps/api/src/scheduler/cron-utils.ts:85-108 | The five sets, or the first error in the order the parser meets them |
| CronExpressions.ParsedIsWellFormed | apps/api/src/scheduler/cron-utils.ts:85-108 | Every parsed expression has five non-empty sets, each in its range, Sunday written as 0 |
| CronExpressions.StoredExpressionParsesAlike | apps/api/src/scheduler/cron-utils.ts:86-102 | The normalised and the trimmed expression parse like the original |
| CronExpressions.SegmentRoundTrip | apps/api/src/scheduler/cron-utils.ts:114-190 | A printed segment is accepted iff its values lie in the range, in order, and its step is positive and not too large for a number, and then parses to the progression it asks for |
| CronExpressions.FieldRoundTrip | apps/api/src/scheduler/cron-utils.ts:110-158 | A printed list of segments parses to exactly the values that some segment asks for |
| CronExpressions.ExpressionRoundTrip | apps/api/src/scheduler/cron-utils.ts:85-108 | A printed expression parses, field by field, to what its segments ask for |
| Text.DigitsMeaning | apps/api/src/scheduler/cron-utils.ts:172-176 | A digit string is zeros and the decimal form of the number that it is read as |
| Text.NormalizeMeaning | apps/api/src/scheduler/cron-utils.ts:86 | Normalising any text leaves its words, with one blank between two of them |
| CronText.SegmentMeaning | apps/api/src/scheduler/cron-utils.ts:114-190 | Over every text: a segment is read as a progression iff it is a star, or a star or a range with a positive step, or a range or a numeral without one; leading zeros count for nothing, 7 is Sunday in the weekday field, what follows a second hyphen is ignored |
| CronText.FieldMeaning | apps/api/src/scheduler/cron-utils.ts:110-158 | Over every text: a field is accepted iff each comma segment says something, and holds exactly what some segment names |
| CronText.ExpressionMeaning | apps/api/src/scheduler/cron-utils.ts:85-108 | Over every text, as words and gaps: accepted iff it has five words that are, each in its range; it admits exactly the minutes, hours, dates and weekdays that they name; without a word, or with another number of them, it is refused as such |
| CronSearch.SearchMinutes | apps/api/src/scheduler/cron-utils.ts:71-82 | The loop returns the least matching minute of the 527040 that follow, or none if none matches |
| CronSearch.ComputeNextRunAt | apps/api/src/scheduler/cron-utils.ts:61-83 | Parse error, unknown time zone, or the next run, in that order |
| CronSearch.NextRunIsLeast | apps/api/src/scheduler/cron-utils.ts:61-83 | The result is a whole minute strictly after the instant that matches, and no whole minute before it does; without a result none in the horizon does |
| CronSearch.SameUntilNextRun | apps/api/src/scheduler/cron-utils.ts:61-83 | Every instant from the start up to the result gives the same result |
| CronSearch.HorizonCompleteIff | apps/api/src/scheduler/cron-utils.ts:61-83 | With every weekday allowed, every start has a next run iff the expression admits a date that every year has |
| CronSearch.NoYearlyDateMissed | apps/api/src/scheduler/cron-utils.ts:75-82 | An expression without such a date finds nothing from the last minute before any two common years |
| CronSearch.EveryDateWithinAWeek | apps/api/src/scheduler/cron-utils.ts:61-83 | With all days and months allowed the next run is at most seven days away |
| CronMeaning.MatchesIff | apps/api/src/scheduler/cron-utils.ts:208-217 | An expression matches a minute of local time iff its five sets hold the minute, hour, day, month and weekday, where the minute is told from its date in closed form; every minute has such a form |
| CronMeaning.OneDate | apps/api/src/scheduler/cron-utils.ts:208-217 | With one month and one day it matches, on allowed weekdays, the allowed times of that date and no other |
| CronMeaning.NextRunMeaning | apps/api/src/scheduler/cron-utils.ts:61-108 | From text to instant: the next run of an accepted text is the first minute after the start that its five words name, by the closed forms, if one lies in the 366 days that are searched; otherwise there is none |
| Horizon.CompleteIffWindows | apps/api/src/scheduler/cron-utils.ts:71-82 | For any expression: every start has a next run iff every 366 days in a row hold an admitted date on an admitted weekday |
| Horizon.CompleteIffShapes | apps/api/src/scheduler/cron-utils.ts:71-82 | For any expression: that is so iff it is in each of the 21 shapes that two years in a row can have, a finite condition |
| Horizon.ShapeOccurs | apps/api/src/scheduler/cron-utils.ts:219-249 | Every one of the 21 shapes is that of some year |
| Scheduler.SchedulerService.UpdatePipelineSchedule | apps/api/src/scheduler/scheduler.service.ts:88-163 | A change that is to be refused comes back as that refusal, with nothing changed, whatever would fail later; otherwise the row that is saved, with success or, if an audit throws after the save, an error |
| Scheduler.TextsMeaning | apps/api/src/scheduler/scheduler.service.ts:94-97 | A change brings its own expression and zone, and takes those of the row, or none and UTC, only where it has none; the poller reads the row with the same defaults (lines 331-337); spaces at the ends do not count |
| Scheduler.SavedScheduleIsValid | apps/api/src/scheduler/scheduler.service.ts:94-121 | A schedule saved as enabled is never skipped as invalid: the poller reads back the expression and zone that were checked, and the stored next run is the one it would compute |
| Scheduler.PausedIsNeverDue | apps/api/src/scheduler/scheduler.service.ts:118-121 | A schedule saved as enabled for a paused pipeline has no next run, and the poller never finds it due |
| Scheduler.PausedCanBeScheduled | apps/api/src/scheduler/scheduler.service.ts:94-121 | An input for that: any expression that parses, on a paused pipeline, is saved and refused for no cause |
| Scheduler.SchedulerService.VisitPipeline | apps/api/src/scheduler/scheduler.service.ts:331-397 | One pass of the due loop: run created or not, next run moved or not, counted or thrown, for each branch and each failing call |
| Scheduler.SchedulerService.EnqueueDuePipelines | apps/api/src/scheduler/scheduler.service.ts:315-405 | The rows, the created runs and the summary of a poll, which ends at the first call that throws |
| Scheduler.SchedulerService.RunPollingCycle | apps/api/src/scheduler/scheduler.service.ts:229-313 | Nothing happens while locked or disabled; otherwise the poll runs and the lock is released however it ends |
| Scheduler.PollConserves | apps/api/src/scheduler/scheduler.service.ts:327-404 | A poll that returns has enqueued or skipped each due pipeline and created one run for each enqueued; one that throws has at most one run it did not count |
| Scheduler.PollPointwise | apps/api/src/scheduler/scheduler.service.ts:330-398 | Every row is changed by its own visit alone, if the poll reaches it, and by nothing else |
| Scheduler.StartedIff | apps/api/src/scheduler/scheduler.service.ts:338-373 | A poll creates exactly one run for a due pipeline iff it is reached, its schedule is valid, it has no active run and neither the check nor the creation throws; otherwise none |
| Scheduler.DueAfterPoll | apps/api/src/scheduler/scheduler.service.ts:338-381 | After a poll that returns, a due pipeline is still due iff it was skipped |
| Scheduler.DueIsVisited | apps/api/src/scheduler/scheduler.service.ts:317-331 | A poll visits each active pipeline with an enabled schedule whose next run has come, exactly once unless a visit before it throws, and no other |
| Firings.PollExtendsHistory | apps/api/src/scheduler/scheduler.service.ts:315-405 | Each poll of the service is one step of a pipeline's firing history, or none if the pipeline is not due or a visit throws, so the results about histories hold of the service |
| Firings.RhythmHolds | apps/api/src/scheduler/scheduler.service.ts:370-381 | For every history, failing calls included: each firing was made due by a computed instant not after it, and the next due instant lies after it unless the next run was not moved |
| Firings.NeverMoreOften | apps/api/src/scheduler/scheduler.service.ts:315-405 | Unless an update is lost, r_0 <= t_0 < r_1 <= t_1 < ..., each r_k in a matching minute of its own, whatever else fails |
| Firings.FiringsBounded | apps/api/src/scheduler/scheduler.service.ts:315-405 | So there are at most as many firings as matching minutes between the save and the last poll |
| Firings.FiresIff | apps/api/src/scheduler/scheduler.service.ts:315-405 | With nothing failing and no active run, a poll fires iff a matching minute lies between the last firing, or the save, and the poll, as long as the search found a next run |
| Firings.DormantForGood | apps/api/src/scheduler/scheduler.service.ts:315-405 | Once the search has found none the pipeline never fires again, whatever happens |
| Firings.NeverDormant | apps/api/src/scheduler/cron-utils.ts:71-82 | That happens in no history of an expression that admits a date on a weekday in every window of the 21 shapes |
| Firings.FiresWheneverDue | apps/api/src/scheduler/scheduler.service.ts:315-405 | For such an expression each poll fires iff a matching minute has come since the last firing, or the save |
| Firings.SharedMinuteIff | apps/api/src/scheduler/scheduler.service.ts:370-381 | Two firings in a row share a minute iff in the first the creation threw after its run existed, or the update threw |
| Firings.LostMoveFiresAgain | apps/api/src/scheduler/scheduler.service.ts:370-381 | From any saved schedule, a lost update followed by a clean poll fires twice for the same minute |
| Firings.ServiceHasHistory | apps/api/src/scheduler/scheduler.service.ts:315-405 | Over any run of polls of the service, whatever fails, the runs it creates for a pipeline are the firings of one history that starts at the save |
| Firings.ServiceNeverMoreOften | apps/api/src/scheduler/scheduler.service.ts:88-132 | A pipeline whose schedule an update has enabled gets at most as many runs from all later polls as it has matching minutes, unless a run is created and its update lost |
| Firings.ServiceFiresWheneverDue | apps/api/src/scheduler/scheduler.service.ts:315-405 | Over any run of polls of the service in which nothing fails and nothing is active, each poll gives a pipeline with such an expression a run iff a matching minute has come since its last run, or the save |
| SingleFlight.AllowedIsEnough | apps/api/src/scheduler/scheduler.service.ts:229-405 | Over every interleaving of ticks, awaited steps, workers and allowed redeliveries: at most one cycle, a set lock means a poll in progress, at most one queued or running run a pipeline, and none beside a run about to be created |
| SingleFlight.SingleFlightAlways | apps/api/src/scheduler/scheduler.service.ts:229-405 | In particular over every interleaving without a redelivery |
| SingleFlight.ExpiryNeverDecides | apps/api/src/scheduler/scheduler.service.ts:234-240 | The lock's expiry time never decides: a tick starts a cycle iff no poll is in progress |
| SingleFlight.RedeliveryKeepsIff | apps/api/src/sync-runs/sync-runs.service.ts:158-164 | A redelivery keeps all of that iff its run is active already, or its pipeline has no active run and no cycle has passed the check for one without having created its own |
| SingleFlight.ForbiddenBreaks | apps/api/src/sync-runs/sync-runs.service.ts:158-164 | Any other redelivery gives the pipeline two active runs, at once or by one more step of the cycle |
| SingleFlight.SafeIffAllowed | apps/api/src/scheduler/scheduler.service.ts:353-373 | A history has at most one active run a pipeline throughout, one step ahead included, iff each of its redeliveries is allowed where it happens |
| SingleFlight.RedeliveryBreaks | apps/api/src/sync-runs/sync-runs.service.ts:158-164 | A history whose one redelivery meets an active run of its pipeline |
| SingleFlight.RedeliveryRacesCheck | apps/api/src/scheduler/scheduler.service.ts:353-373 | A history whose one redelivery falls between the check for active runs and the creation of the run |
| SingleFlight.StuckIsReached | apps/api/src/sync-runs/sync-runs.service.ts:554-560 | A synchronous scheduled run that throws is left running with nobody to end it |
| SingleFlight.StuckForever | apps/api/src/sync-runs/sync-runs.service.ts:554-560 | It stays so for the rest of any history, and its pipeline never gets another run |
| PollCycles.ServiceMatchesSteps | apps/api/src/scheduler/scheduler.service.ts:315-405 | In either queue mode and for every placement of failing calls, an undisturbed cycle of the step system and the poll of the service over the same due list create runs of the same pipelines in the same order, and one throws iff the other does |
| RateLimitRules.AtMostOneRule | apps/api/src/common/middleware/rate-limit.middleware.ts:137-140 | At most one rule applies to any request, so the table's order is irrelevant |
| RateLimitRules.TableIsGood | apps/api/src/common/middleware/rate-limit.middleware.ts:23-73 | Rule names are distinct and free of colons, limits and windows are positive |
| RateLimitRules.KeysInjective | apps/api/src/common/middleware/rate-limit.middleware.ts:128-130 | Keys of different rules or clients differ, even if an address contains colons |
| RateLimitRoutes.LimitedIff | apps/api/src/common/middleware/rate-limit.middleware.ts:23-73 | A request is limited by the i-th rule iff it is a POST to the i-th route, with any non-empty id in place of the free segment, plain or behind /api, with or without a query (lines 132-140); it is unlimited iff it is none of these |
| RateLimiter.RateLimitMiddleware.Use | apps/api/src/common/middleware/rate-limit.middleware.ts:85-126 | Unlimited requests leave the limiter alone; a limited one gets its decision and headers and counts once |
| RateLimiter.RateLimitMiddleware.CleanupExpiredBuckets | apps/api/src/common/middleware/rate-limit.middleware.ts:142-153 | At most every 30 s, drops exactly the buckets whose window is over |
| RateLimiter.CleanupUnobservable | apps/api/src/common/middleware/rate-limit.middleware.ts:97-111 | Every request of every history gets the decision and headers of a limiter that never deletes, although cleanup reads an earlier clock |
| RateLimiter.OthersNeverInterfere | apps/api/src/common/middleware/rate-limit.middleware.ts:97-130 | Every request gets the outcome that it gets in the history reduced to the requests of its own rule and client |
| RateLimiter.SlidingBound | apps/api/src/common/middleware/rate-limit.middleware.ts:99-123 | Any closed interval as long as the window admits at most twice the limit per key |
| RateLimiter.SlidingBoundReached | apps/api/src/common/middleware/rate-limit.middleware.ts:99-123 | Two bursts a window apart reach that bound, for every rule |
| RateLimiter.RefusedNeverMoveReset | apps/api/src/common/middleware/rate-limit.middleware.ts:101-107 | While every request of a key is refused its window does not move |
| RateLimiter.WaitingReachesFreshWindow | apps/api/src/common/middleware/rate-limit.middleware.ts:101-115 | A refused client that waits Retry-After seconds is admitted into a fresh window |
| RateLimiter.HeadersAreTrue | apps/api/src/common/middleware/rate-limit.middleware.ts:106-118 | The limit header is that of the rule, the reset header the second in which the window ends, and until then exactly `remaining` more requests of the key are admitted, whatever else is requested |
| Paths.SafePathMeaning | apps/api/src/transformations/path-utils.ts:3-23 | A path is accepted iff it has a segment and none is one of the three dangerous names; segments are trimmed, not empty and free of dots |
| Paths.SplitPathMeaning | apps/api/src/transformations/path-utils.ts:3-8 | Parts joined by dots, with any spaces around them, are read as their segments in order; empty ones are left out |
| Paths.GetAfterSet | apps/api/src/transformations/path-utils.ts:25-55 | After a write the path holds the value with everything below it |
| Paths.GetElsewhere | apps/api/src/transformations/path-utils.ts:39-55 | A write leaves every incomparable path alone, even when a scalar or array on the way is replaced |
| Paths.PrefixIsObject | apps/api/src/transformations/path-utils.ts:43-52 | Every proper prefix of a written path is an object afterwards |
| Paths.SetForgets | apps/api/src/transformations/path-utils.ts:39-55 | A write forgets every earlier write at or below its path |
| Paths.SetCommutes | apps/api/src/transformations/path-utils.ts:39-55 | Writes at incomparable paths commute |
| Paths.BuildHoldsOwn | apps/api/src/transformations/path-utils.ts:39-55 | Among writes at incomparable paths each path holds its own value, or nothing |
| Paths.BuildAnyOrder | apps/api/src/transformations/path-utils.ts:39-55 | Such writes build the same object in any order |
| Transformation.CompileMapping | apps/api/src/transformations/transformation-engine.service.ts:76-215 | All fields in candidate order, or all errors in candidate order |
| Transformation.CompileSound | apps/api/src/transformations/transformation-engine.service.ts:76-215 | A mapping compiles iff every candidate does; then fields and candidates correspond in order, and each field is safe, of a supported type and not in two letter cases |
| TransformationMeaning.CandidatesMeaning | apps/api/src/transformations/transformation-engine.service.ts:277-301 | The candidates are the properties of `fields`, or those of the mapping if it has none, each once; any other `fields` is an error |
| TransformationMeaning.CandidateMeaning | apps/api/src/transformations/transformation-engine.service.ts:84-206 | A candidate compiles iff it is a pair of safe paths or an acceptable definition; the field then has the path, flags, default, type and compute mode that the definition asks for |
| Collecting.OneEach | apps/api/src/transformations/transformation-engine.service.ts:82-212 | Each candidate yields exactly one field or one error |
| Transformation.CompiledNeverThrows | apps/api/src/transformations/transformation-engine.service.ts:222-275 | A compiled mapping throws on no record; its output is the fields' writes in order and its errors their failures in order |
| Transformation.CoerceIdempotent | apps/api/src/transformations/transformation-engine.service.ts:309-408 | Coercing a coerced value again changes nothing |
| TransformationMeaning.CoerceMeaning | apps/api/src/transformations/transformation-engine.service.ts:309-408 | For every value and field: what coercion may give, type by type, and that it refuses exactly the values that nothing stands for: texts trimmed and in the case asked for, finite numbers and texts of them, the three texts and one number of each truth value, the instant of a text |
| TransformationMeaning.RecordMeaning | apps/api/src/transformations/transformation-engine.service.ts:222-275 | On every record the output is built from one write a field, in order, of what stands for the value at the source path, or for the default iff that is missing; the errors are those of required fields without a value and of values that nothing stands for, in order |
| TransformationMeaning.FieldwiseCorrect | apps/api/src/transformations/transformation-engine.service.ts:229-274 | With pairwise incomparable output paths each path holds exactly that, in a value of the declared type, and there is nothing at other paths |
| Transformation.FieldOrderIrrelevant | apps/api/src/transformations/transformation-engine.service.ts:229-274 | And the order of the fields changes neither the output nor which errors there are |
| JsObjects.JsObject.SetByPath | apps/api/src/transformations/path-utils.ts:39-55 | The write in place leaves the object that the value-level write describes, and the tree stays free of sharing |
| JsObjects.GetByPath | apps/api/src/transformations/path-utils.ts:25-37 | The walk returns the value at the path as a reference into the record, or undefined |
| JsObjects.StructuredClone | apps/api/src/transformations/transformation-engine.service.ts:236-316 | A clone has the same value and shares no object with the original |
| HeapTransformation.CoerceOnHeap | apps/api/src/transformations/transformation-engine.service.ts:309-408 | What a field is about to write shares no object with anything that existed before |
| HeapTransformation.TransformOnHeap | apps/api/src/transformations/transformation-engine.service.ts:222-275 | The imperative interpreter computes the value-level one and changes no object of the record or of the mapping's defaults |
| HeapTransformation.WriteIntoOutput | apps/api/src/transformations/transformation-engine.service.ts:236-268 | Any writes into the finished output take effect in it, in objects that are all new, and leave the record and the defaults alone |
| Cursors.CursorRoundTrip | apps/api/src/sync-runs/sync-runs.service.ts:810-918 | The stored form of a cursor reads back as that cursor |
| Cursors.PickIsNewer | apps/api/src/sync-runs/sync-runs.service.ts:875-904 | The later of two cursors is the second iff the filter would call it newer than the first |
| RunRecords.PipelineStore.ProcessRunRecords | apps/api/src/sync-runs/sync-runs.service.ts:659-797 | The rows added, the cursor left and what is returned or thrown, for every placement of failing calls |
| RunRecords.PipelineStore.ProcessEligible | apps/api/src/sync-runs/sync-runs.service.ts:680-742 | The loop: rows and counts of the handled records, ended by an audit of a failed record that throws |
| RunRecords.PipelineStore.MoveCursor | apps/api/src/sync-runs/sync-runs.service.ts:744-797 | The cursor moves only in incremental mode, after a pass without a failed record and with a candidate |
| RunRecords.TallyConserves | apps/api/src/sync-runs/sync-runs.service.ts:675-742 | Rows are the created count, errors are at least failures, and the counts add up to the handled records plus those stored without audits |
| RunRecords.RecordConservation | apps/api/src/sync-runs/sync-runs.service.ts:675-796 | Processed, failed and skipped add up to received plus the unaudited ones, and to received exactly iff every stored record was audited |
| CursorFilter.EligibleIff | apps/api/src/sync-runs/sync-runs.service.ts:669-673 | A pass handles a record of its batch, as often and in the order it comes, iff the cursor is not heeded, or sequences or else times can be compared and that of the record is greater, or neither can (lines 795-873); so a record without a cursor is always handled |
| CursorFilter.SuccessStoresEligible | apps/api/src/sync-runs/sync-runs.service.ts:675-742 | A successful run stores each handled record in order, with its id, its raw object and its output, and none of them has an error |
| CursorFilter.SuccessKeepsRecord | apps/api/src/sync-runs/sync-runs.service.ts:669-742 | So it has a row for each record of its batch that carries no cursor, or one that is let pass |
| CursorHistory.FilterByKey | apps/api/src/sync-runs/sync-runs.service.ts:669-673 | The filter lets pass exactly the records beyond the cursor |
| CursorHistory.CursorOnlyAdvances | apps/api/src/sync-runs/sync-runs.service.ts:744-772 | Every write of the cursor moves it strictly forward; a run with a failed record never writes it |
| CursorHistory.SuccessReachesAll | apps/api/src/sync-runs/sync-runs.service.ts:669-772 | After a success the cursor bounds every record of the batch, skipped ones included |
| CursorHistory.ReplayPersistsNothing | apps/api/src/sync-runs/sync-runs.service.ts:669-797 | Replaying the batch finds no eligible record, stores nothing and leaves the cursor |
| CursorHistory.CursorMonotone | apps/api/src/sync-runs/sync-runs.service.ts:659-904 | What the cursor once reached it reaches for the rest of any history |
| CursorHistory.NothingPersistedAgain | apps/api/src/sync-runs/sync-runs.service.ts:659-904 | No later run of a history stores a record that is not beyond everything in an earlier successful batch |
| CursorHistory.CursorExactly | apps/api/src/sync-runs/sync-runs.service.ts:744-797 | The cursor that any run leaves, whatever its records carry, whether it returns or throws: the latest one eligible, iff all of them are stored and the update does not throw |
| CursorHistory.MovesIff | apps/api/src/sync-runs/sync-runs.service.ts:750-771 | A pass changes the cursor iff that holds and some eligible record carries one; a pass that throws has changed it iff the throw is that of its last audit |
| CursorHistory.SkipsAfterRunIff | apps/api/src/sync-runs/sync-runs.service.ts:863-904 | After any run the filter still skips every record that it skipped before iff there was no cursor, the run did not move it, or the old and the new cursor are of one sort: both with a sequence or both without, and a time beside a stored sequence is kept and not lowered; after a successful run, iff there was none, no eligible record carries one, or the latest one is of that sort |
| CursorHistory.SkippedForGood | apps/api/src/sync-runs/sync-runs.service.ts:863-904 | Over a history whose runs all keep the sort, what was skipped once is skipped for the rest of it |
| CursorHistory.MixedKindsForget | apps/api/src/sync-runs/sync-runs.service.ts:863-904 | Three inputs where it does not, each a success after which a skipped record is let pass: a dated record makes the cursor forget its sequence, a numbered one makes it ignore its time, and one with both parts lowers its time |
| CursorHistory.LateThrowMovesCursor | apps/api/src/sync-runs/sync-runs.service.ts:750-771 | An input where a pass throws after it has moved the cursor |
| RunCursors.FailedDeliveryMovesIff | apps/api/src/sync-runs/sync-runs.service.ts:192-357 | A delivery that throws in its try block ends run and job failed; it has changed the cursor iff it got to its pass and the pass moves the cursor |
| RunCursors.ThrownExecutionMovesIff | apps/api/src/sync-runs/sync-runs.service.ts:554-657 | A synchronous run that throws has changed the cursor by the same condition, and is left running, or as it ended if the last update was made |
| RunCursors.FailedDeliveryMoves | apps/api/src/sync-runs/sync-runs.service.ts:192-357 | An input where a delivery throws after a clean pass: run and job have failed and the cursor has moved |
| SyncRuns.SyncRunsService.QueueSyncRun | apps/api/src/sync-runs/sync-runs.service.ts:471-552 | The writes of queueing, in order, up to the call that throws |
| SyncRuns.SyncRunsService.ProcessQueuedSyncRun | apps/api/src/sync-runs/sync-runs.service.ts:130-358 | The writes, rows and cursor of one delivery, for every call of the try block, before it or in the catch block that throws |
| SyncRuns.SyncRunsService.ExecuteSyncRunNow | apps/api/src/sync-runs/sync-runs.service.ts:554-657 | The run, rows and cursor of a synchronous execution, which has no catch block |
| SyncRuns.DeliveryKeepsCoupling | apps/api/src/sync-runs/sync-runs.service.ts:130-358 | Run and job stay coupled after every single write of a delivery, wherever it throws |
| SyncRuns.CoupledOverHistory | apps/api/src/sync-runs/sync-runs.service.ts:130-358 | And so over queueing and any number of redeliveries, one at a time |
| SyncRuns.CoupledAlongIff | apps/api/src/sync-runs/sync-runs.service.ts:148-164 | Any writes, those of overlapping deliveries in any order included, keep run and job coupled throughout iff each write finds the other row as it needs it |
| SyncRuns.LockstepIsHarmless | apps/api/src/sync-runs/sync-runs.service.ts:148-164 | Two deliveries in lockstep do |
| SyncRuns.OverlapBreaksCoupling | apps/api/src/sync-runs/sync-runs.service.ts:148-164 | Another overlap leaves a running run under a completed job |
| Overlaps.EveryMergeIsAnOrder | apps/api/src/sync-runs/sync-runs.service.ts:148-164 | However two clean deliveries overlap, their writes come in some order, given by how many of the one precede each of the other |
| Overlaps.OverlapIff | apps/api/src/sync-runs/sync-runs.service.ts:148-164 | Every such order is an overlap, and it keeps run and job coupled throughout iff neither delivery crosses the other, that is, ends the run before the other starts it and completes the job after the other took it and before the other ends the run |
| Executions.TallyOfPreview | apps/api/src/pipelines/pipelines.service.ts:153-166 | A pass without failing calls stores the valid results of the preview in order, and counts what it counts |
| Executions.ThreeExecutionsAgree | apps/api/src/pipelines/pipelines.service.ts:145-191 | For a compute-free mapping and no cursor filter, preview, synchronous and queued run give the same outputs and counts, and both runs the same rows, cursor, summary and status, a success iff no result is invalid |
| Executions.SyncAndQueuedAgree | apps/api/src/sync-runs/sync-runs.service.ts:471-657 | For a compute-free mapping, with the cursor filter on or off and whatever fails, synchronous and queued run give the same rows, cursor and result; they end alike if the pass returns, and otherwise the one stays running and the other fails |
| Executions.BrokenMappingParts | apps/api/src/sync-runs/sync-runs.service.ts:931-940 | For a mapping that does not compile they part: the preview refuses, a synchronous run stays running, a queued one ends failed, and nothing is stored |
| WebhookIntake.IntakeIsIdempotent | apps/api/src/webhooks/webhooks.service.ts:64-115 | Over every interleaving of deliveries: one event for each connector reference and key, and every finished delivery inserted its own, names the one that was there, or failed on the constraint because of it |
| WebhookIntake.OneWinner | apps/api/prisma/schema.prisma:195 | Of all deliveries with one key at most one inserts |
| WebhookIntake.SameAnswer | apps/api/src/webhooks/webhooks.service.ts:72-92 | All deliveries with one key that answer name the same event |
| WebhookIntake.SecondTryIsDuplicate | apps/api/src/webhooks/webhooks.service.ts:64-92 | A sender that tries again after the constraint refused it is told the event |
| WebhookIntake.RefusedIffOvertaken | apps/api/src/webhooks/webhooks.service.ts:64-115 | A delivery whose lookup found nothing is refused iff an event with its key was inserted after that lookup |
| WebhookIntake.OverlapIsRefused | apps/api/src/webhooks/webhooks.service.ts:64-115 | Two deliveries that both look before either inserts: one inserts, the other fails on the constraint |
| WebhookIntake.LookupIsNotEnough | apps/api/prisma/schema.prisma:195 | Without the constraint the same two leave two events with one key |
| Webhooks.WebhooksService.ProcessWebhookForPipeline | apps/api/src/webhooks/webhooks.service.ts:699-900 | How the run ends and whether a record is stored, for each outcome and each failing call |
| Webhooks.WebhooksService.ProcessPipelines | apps/api/src/webhooks/webhooks.service.ts:622-663 | The runs, records and counts of the loop, ended by the first call that throws |
| Webhooks.WebhooksService.ProcessWebhookEventNow | apps/api/src/webhooks/webhooks.service.ts:528-697 | Failed without a connector, ignored without pipelines, processed otherwise; the event moves only after every pipeline had its run |
| Webhooks.WebhooksService.ProcessQueuedWebhookEvent | apps/api/src/webhooks/webhooks.service.ts:286-433 | Event, job, runs and records after a delivery, and every event state on the way satisfies the event invariant |
| Webhooks.WebhooksService.RetryEvent | apps/api/src/webhooks/webhooks.service.ts:268-275 | Only a failed event is received again and processed or queued, for every call that throws |
| Webhooks.WebhooksService.ProcessEvent | apps/api/src/webhooks/webhooks.service.ts:277-284 | Only an event that is not final is received again and processed or queued, for every call that throws |
| Webhooks.WebhooksService.QueueOrProcessEvent | apps/api/src/webhooks/webhooks.service.ts:435-526 | The event is received again, then processed at once or queued, and an error iff some call throws, with what was done by then |
| Webhooks.PassConserves | apps/api/src/webhooks/webhooks.service.ts:622-663 | A pass that nothing interrupts adds one ended run a pipeline, in order, and one record for each accepting one |
| Webhooks.PassRowsBelong | apps/api/src/webhooks/webhooks.service.ts:827-836 | Every new record belongs to a new run of its own pipeline that accepted the payload, no two to the same run |
| Webhooks.InterruptedPass | apps/api/src/webhooks/webhooks.service.ts:622-663 | An interrupted pass leaves at most one run that has not ended, the last one |
| Webhooks.ProcessedConserves | apps/api/src/webhooks/webhooks.service.ts:528-697 | A result PROCESSED over n pipelines means n new ended runs, processed and failed adding up to n, and exactly the processed records stored |
| WebhookRecords.EventLeaves | apps/api/src/webhooks/webhooks.service.ts:622-900 | After a pass that nothing interrupts each pipeline has one run: a success with 1/1/0 and the output of the payload stored under it, with the id of the event, iff its mapping compiles and transforms the payload without an error; otherwise a failed one with 1/0/1 and nothing stored |
| WebhookRecords.EndsAsPreviewed | apps/api/src/webhooks/webhooks.service.ts:622-900 | So an event stores for each pipeline what the preview of its payload shows, iff that is valid |
| WebhookRecords.EventEndsAs | apps/api/src/webhooks/webhooks.service.ts:528-697 | The status of the event is the one that is reported: failed iff there is no connector, ignored iff it has no pipelines, processed otherwise, with all of its pipelines |
| Webhooks.EventAlwaysOk | apps/api/src/webhooks/webhooks.service.ts:383-672 | Over every history of retries, manual processing and deliveries: received iff without a processing time, failed iff with an error message |
| Webhooks.FinalStays | apps/api/src/webhooks/webhooks.service.ts:268-390 | A final event stays final through any history in which no delivery throws and records it, or finds the connector gone |

## Left out

- ZonedDateParts: named time zones and daylight saving; a zone is a fixed offset in whole minutes, and the server's own offset is constant, because `setMinutes` works in local time.
- ParseFieldValue: of what `Number` accepts, decimal digits and the empty string only, those that overflow to infinity included; signs, decimal points, hexadecimal and exponents are not part of this model.
- ComputeNextRunAt: the range limits of `Date`.
- SetByPath: written level by level as a recursion instead of a loop, so that each level can state the tree it leaves; the writes and their order are the same.
- JsObject: property order, inherited members of `Object.prototype`, and cyclic objects, which JSON does not have; arrays are values, since nothing writes into one.
- Coerce: `String`, letter case, number parsing and date parsing and printing are functions of the host, with parse(print(t)) = t for dates; `Date` objects inside records are not part of this model.
- CoerceIdempotent: not for fields that change the letter case, because the host's case mapping is not known to be idempotent.
- TransformOnHeap: the computed values `now` and `uuid` are arbitrary inputs.
- ProcessQueuedSyncRun: the counters, timestamps and messages on the run, job and pipeline rows; the counters are those of the summary that the pass returns.
- ThreeExecutionsAgree: the queue hands over the payload as it was put in; its serialisation is not part of this model.
- EnqueueDuePipelines: the store's due list is a parameter with the properties of the query; pipelines are not deleted or edited while a poll runs.
- RunPollingCycle: the time and duration of the last poll, and the text of its error.
- SingleFlightAlways: one process's poller is the only one to create runs of a pipeline; manual triggers and webhooks create theirs without its lock.
- ProcessWebhookEventNow: an event that is not found, and the connector's owner.
- RateLimitMiddleware: the header map and the error text; the decision and the header values are one outcome value.
- The text of error messages, log lines and audit rows; only whether an audit throws matters here.
- `getIdempotencyKey`, payload size, header redaction: small string helpers without state.
- Authentication, roles, controllers, connectors, BullMQ and Redis, health, dashboard and the web application.

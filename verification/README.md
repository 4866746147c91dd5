# NodeGet: verified models of the server's stateful core

NodeGet is a monitoring server with remote agents. This project models the parts of it whose correctness
depends on whole histories rather than on one call, and proves what those histories keep:

| module | models |
|---|---|
| `TrafficReading`, `TrafficTotals`, `TrafficState`, `TrafficHistory`, `TrafficLoss`, `TrafficStore` | traffic accounting: counter resets, totals, intervals of possible data loss, lost and late reports, flush with retry, restart and crash |
| `BytecodeElision`, `WorkerPool` | the JS runtime pool: bytecode left out of commands, worker creation, idle cleanup |
| `UuidCache`, `UuidRaces` | the two-way UUID index, one call at a time and under every interleaving |
| `CronCache`, `CronRuns`, `CronDispatch`, `CronThrottle` | the cron scheduler, dispatch to agents, throttled failure rows |
| `CanonicalJson` | the key-sorting printer behind the deduplication hash |
| `WriteBuffer` | the bounded write buffer and its sub-batching |
| `TimescaleConfig`, `TimescaleSetup` | idempotent database configuration with failing statements |
| `OutputTruncation` | head-and-tail truncation of UTF-8 command output |

`Base` holds machine integers, casts and sequence helpers. `dafny verify dfyconfig.toml` checks everything.

## Reading the models

- Objects that the program updates in place are classes (`State`, `TrafficStats`, `Worker`, `JsRuntimePool`,
  `MonitoringUuidCache`, `CrontabCache`, `BufferSender`, `Database`). Each method is proved equal to a function on
  values, and the theorems are about runs of those functions.
- Concurrency is a state machine whose steps are the program's locked sections, atomic accesses and database
  accesses; a theorem about a run holds for every interleaving.
- Database accesses, script engine outcomes, clocks and sends are parameters, so every pattern of failures is covered.
- Every rule that the machines are built from is also stated once on the plain fields it reads: the reset and loss rules on
  samples, the columns of stored rows, the idle test, the due test on instants, the settings of a configuration. The lemmas
  named `…ByFields`, `…ByColumns` and so on do this, and the theorems about runs use the same terms.
- Integers that can wrap or saturate do so explicitly, as in the release build. Totals saturate, so the closed form of
  a total is stated clamped to the `u64` range instead of under an assumption that nothing saturates.

Where a promise does not hold for all inputs, the exact condition is proved:

- For reports in time order, losing reports never raises an interface's total if and only if no reading hides a reset, that
  is, no two readings differ in boot id or interface index while every step between them leaves that difference out (or
  the total is already at its ceiling). An agent that always sends these fields, or never does, satisfies it;
  `MixedPresenceOvercounts` is the counterexample otherwise.
- Late reports break this: a late report is dropped, and losing the report that made it late lets it through, as
  `LateReportOvercounts` shows. For any order of arrival the exact condition is that no chain of the interface's
  readings, never going back in time, adds up to more than the readings accepted when nothing is lost. The same
  condition decides whether any interleaving of reports, flushes, failures and crashes can over-count.
- Leaving bytecode out is sound if and only if the hash is collision-free on the bytecodes in use and maps only the empty
  bytecode to 0. When sends overlap, it is sound if and only if, in addition, all callers pass the same bytecode.
- A scheduled instant is served exactly once over any events, restarts included, unless a restart follows a tick whose write
  failed; then the instants of that tick are served again, as `LostWriteServesTwice` shows.
- Sub-batching terminates if and only if the backend is PostgreSQL or a row has at most 999 columns.
- With `retention_days = 0`, an existing deletion policy survives a start if and only if the server has no TimescaleDB or one of
  a fixed list of statements fails.
- A clean setup run configures a table if and only if the table has no row without a time.

Where code and comments disagree, the code is followed:

- The comment on `enabled` says that disabled setup leaves retention policies alone
  (`crates/ng-core/src/config.rs:41-44`); the code removes them when `retention_days` is 0.
- The log text says that an unrepresentable last run time counts as "never run"
  (`crates/ng-crontab/src/server_cron.rs:215`); the trigger rule uses the epoch, and the deadline uses the present.
- The truncation limit is named in characters and applied to bytes (`agent/src/tasks/execute.rs:39-43`).

## Model

| member | source | states |
|---|---|---|
| TrafficReading.IncreaseByFields | crates/ng-monitoring/src/traffic_stats.rs:527-636 | on the readings' fields: two present and different boot ids or interface indices restart both counters, a smaller counter its own direction; a restart adds the counter, anything else the growth |
| TrafficReading.IncreaseIsExact | crates/ng-monitoring/src/traffic_stats.rs:562-636 | without a reset the saturating difference never saturates: the step adds exactly the counter's growth |
| TrafficHistory.SamplesByFields | crates/ng-monitoring/src/traffic_stats.rs:145-165 | the samples of a report are its interfaces marked as outlets, in order, field by field |
| TrafficHistory.UnmarkedReportsAreIgnored | crates/ng-monitoring/src/traffic_stats.rs:133-139 | a report that leaves any interface unmarked changes nothing |
| TrafficHistory.ReadingIsLastAccepted | crates/ng-monitoring/src/traffic_stats.rs:150-164 | after any samples, the reading has the fields of the last sample that was not late, the first sample's time and that sample's receive time |
| TrafficHistory.NextReportTotal | crates/ng-monitoring/src/traffic_stats.rs:166-177 | after any run, one more report adds nothing if it is the first or late, and otherwise the counter or its growth by the fields of the last accepted sample, up to the ceiling |
| TrafficHistory.ReplacedInterfaceCountsWhole | crates/ng-monitoring/src/traffic_stats.rs:527-551 | two reports whose interface index changes total the second counter, whatever the first was |
| TrafficHistory.LossIsRecordedExactly | crates/ng-monitoring/src/traffic_stats.rs:179-192 | after any run, a report records an interval if and only if some outlet was restarted more than ten minutes after its last accepted sample was received; it runs from that receive time to the boot time or the report's receive time |
| TrafficTotals.TotalIsClosedForm | crates/ng-monitoring/src/traffic_stats.rs:562-636 | the sum of all increases is the growth of the first epoch plus the last counter of every later epoch, for every split at the resets |
| TrafficTotals.EpochSplitExists | crates/ng-monitoring/src/traffic_stats.rs:562-574 | every sequence of readings has such a split |
| TrafficTotals.LostReadingsNeverOvercount | crates/ng-monitoring/src/traffic_stats.rs:562-636 | if no reset is hidden, no choice of lost readings raises the sum of increases over accepted readings |
| TrafficTotals.HiddenResetOvercounts | crates/ng-monitoring/src/traffic_stats.rs:532-589 | losing the readings that hide a reset always raises the total |
| TrafficTotals.NeverOvercountsIffNoHiddenReset | crates/ng-monitoring/src/traffic_stats.rs:532-636 | for readings that are all accepted, no loss raises the sum of increases if and only if no reset is hidden |
| TrafficTotals.UniformPresenceHidesNothing | crates/ng-monitoring/src/traffic_stats.rs:532-589 | agents that always or never report the identifying fields hide no reset |
| TrafficTotals.LostStretchIsCaughtUp | crates/ng-monitoring/src/traffic_stats.rs:597-636 | with both ends kept and no reset in a lost stretch, the total is exact |
| TrafficState.State.ApplyReport | crates/ng-monitoring/src/traffic_stats.rs:132-196 | the loop over interfaces has exactly the effect of folding the per-interface rule |
| TrafficState.AtMostOneLossPerReport | crates/ng-monitoring/src/traffic_stats.rs:144-192 | a report appends at most one loss interval, and it is the device's and longer than ten minutes |
| TrafficState.RunProjects | crates/ng-monitoring/src/traffic_stats.rs:146-195 | over any run, an interface's reading and total depend only on its own samples |
| TrafficState.MeterIsAccepted | crates/ng-monitoring/src/traffic_stats.rs:150-177 | after any samples, late ones dropped, the total is the exact total of the accepted readings clamped to u64 |
| TrafficState.RunTotalIsClosedForm | crates/ng-monitoring/src/traffic_stats.rs:132-196 | after any run of reports of any devices, the stored total is the clamped closed form, and readings and totals have the same keys |
| TrafficLoss.RunTotal | crates/ng-monitoring/src/traffic_stats.rs:150-177 | for any order of arrival, the stored total is the clamped sum of increases over the readings that are not late |
| TrafficLoss.KeptIsBounded | crates/ng-monitoring/src/traffic_stats.rs:150-177 | whatever readings are lost, the accepted ones add up to at most the best chain ending in the last of them |
| TrafficLoss.BestIsReached | crates/ng-monitoring/src/traffic_stats.rs:150-177 | and some choice of lost readings adds up to the best chain |
| TrafficLoss.LostReportsNeverOvercount | crates/ng-monitoring/src/traffic_stats.rs:132-196 | for any order of arrival, losing whole reports never raises an interface's total if no chain of its readings beats what is accepted without loss |
| TrafficLoss.LostReportsHarmlessIff | crates/ng-monitoring/src/traffic_stats.rs:132-196 | and that condition, or a total at its ceiling, is necessary as well |
| TrafficLoss.InOrderLossIff | crates/ng-monitoring/src/traffic_stats.rs:132-196 | for reports in time order, no loss of reports raises the total if and only if no reset is hidden or the total is at its ceiling |
| TrafficLoss.MixedPresenceOvercounts | crates/ng-monitoring/src/traffic_stats.rs:581-589 | three reports in time order, one without boot id: losing that one shows 30 bytes instead of 20 |
| TrafficLoss.LateReportOvercounts | crates/ng-monitoring/src/traffic_stats.rs:150-154 | three reports, the last one late, no reset hidden: losing the second shows 90 bytes instead of 5 |
| TrafficStore.RowRoundTrip | crates/ng-monitoring/src/traffic_stats.rs:473-493 | storing as signed columns and loading back is the identity on the full unsigned range |
| TrafficStore.RowByColumns | crates/ng-monitoring/src/traffic_stats.rs:473-493 | which column holds what: the signed columns hold the bits of the unsigned values |
| TrafficStore.MergeByColumns | crates/ng-monitoring/src/traffic_stats.rs:423-441 | a conflicting row replaces every column except the creation time |
| TrafficStore.UpsertAllIsMerge | crates/ng-monitoring/src/traffic_stats.rs:423-441 | a batch may be written in any order; conflicts keep the stored creation time |
| TrafficStore.MaxRowsPerStatement | crates/ng-monitoring/src/traffic_stats.rs:458-465 | the largest row count that fits the parameter limit, and at least one |
| TrafficStore.WriteToDb | crates/ng-monitoring/src/traffic_stats.rs:415-451 | one atomic transaction: all rows and losses or nothing, and success exactly if none of its statements fails |
| TrafficStore.TrafficStats.Init | crates/ng-monitoring/src/traffic_stats.rs:217-249 | loading rows in any order gives the restored memory |
| TrafficStore.TrafficStats.TakeForFlush | crates/ng-monitoring/src/traffic_stats.rs:308-323 | lists every interface once and takes the pending losses, leaving the rest |
| TrafficStore.TrafficStats.PutBack | crates/ng-monitoring/src/traffic_stats.rs:337-343 | the losses of a failed write go back in front of newer ones |
| TrafficStore.TrafficStats.Flush | crates/ng-monitoring/src/traffic_stats.rs:308-345 | success stores everything and empties the pending list; failure changes neither memory nor database |
| TrafficStore.RestoreUndoesSnapshot | crates/ng-monitoring/src/traffic_stats.rs:222-243 | restoring a snapshot gives back the readings and totals |
| TrafficStore.LossesArePersistedExactlyOnce | crates/ng-monitoring/src/traffic_stats.rs:308-345 | stored, in-flight and pending losses together are everything detected, in order, for any failures and any reports during a write |
| TrafficStore.LossesAreNeverRepeated | crates/ng-monitoring/src/traffic_stats.rs:217-345 | with crashes at any point as well, losses may go missing but are never stored twice or out of order |
| TrafficStore.EveryRunIsExplained | crates/ng-monitoring/src/traffic_stats.rs:308-403 | with failing flushes and crashes anywhere, memory and stored rows are those of an uninterrupted run over the surviving reports |
| TrafficStore.SystemNeverOvercounts | crates/ng-monitoring/src/traffic_stats.rs:217-345 | if no chain of an interface's readings beats what is accepted without loss (in time order: if no reset is hidden), no run of its reports, flushes, failures and crashes shows more than an uninterrupted run |
| TrafficStore.SystemOvercountsIff | crates/ng-monitoring/src/traffic_stats.rs:217-345 | and otherwise some run of flushes and crashes over the same reports does show more |
| TrafficStore.StoredRowByReports | crates/ng-monitoring/src/traffic_stats.rs:308-345 | after any steps, an interface's row holds the last accepted sample of the stored reports, the time of the first and the total |
| TrafficStore.CrashForgetsSinceFlush | crates/ng-monitoring/src/traffic_stats.rs:217-249 | a crash forgets exactly what came in since the last committed flush |
| TrafficStore.RestartIsInvisible | crates/ng-monitoring/src/traffic_stats.rs:352-403 | after a final flush, the restored process answers all later reports as the old one would, and all losses are stored |
| TrafficStore.CrashesAreCaughtUp | crates/ng-monitoring/src/traffic_stats.rs:217-345 | after any steps with any number of crashes, for samples in time order that hide no reset: if the first and last sample survived and no step touching a lost sample is a reset, the total is that of an uninterrupted run |
| BytecodeElision.Worker.Send | crates/ng-js-runtime/src/runtime_pool.rs:134-165 | accepted exactly if the worker is alive with fewer than 256 commands waiting; the bytecode travels exactly if its hash is not the last one sent; a rejected send changes nothing |
| BytecodeElision.Worker.Process | crates/ng-js-runtime/src/runtime_pool.rs:524-646 | one worker iteration: when the script is invoked, that the cache takes new bytecode and outlives the runtime, that a killed or restless script takes its runtime with it, and that a shutdown ends the worker |
| BytecodeElision.SpoiledRuntimesAreNotReused | crates/ng-js-runtime/src/runtime_pool.rs:701-751 | in every run, no invocation runs in a runtime in which an earlier one was killed or did not come to rest |
| BytecodeElision.OverlapKeepsRuntimesClean | crates/ng-js-runtime/src/runtime_pool.rs:701-751 | the same for every interleaving of overlapping senders |
| BytecodeElision.CommandsAreTakenInOrder | crates/ng-js-runtime/src/runtime_pool.rs:525-564 | what a live worker has taken and what waits are exactly the accepted commands in order; without failures every command taken is invoked |
| BytecodeElision.ShutdownEndsWorker | crates/ng-js-runtime/src/runtime_pool.rs:560-566 | a shutdown is queued behind the waiting commands, and when they are done the worker and its runtime end |
| BytecodeElision.ElisionIsSound | crates/ng-js-runtime/src/runtime_pool.rs:520-751 | in every run each invocation used the module of exactly the bytecode its caller passed |
| BytecodeElision.ElisionIsSoundIffCollisionFree | crates/ng-js-runtime/src/runtime_pool.rs:134-165 | elision is sound in all runs if and only if the hash is collision-free on the bytecodes in use |
| BytecodeElision.OverlapIsSoundIffOneBytecode | crates/ng-js-runtime/src/runtime_pool.rs:139-162 | with overlapping senders and shutdowns, elision is sound in all interleavings if and only if all callers pass the same bytecode and it does not collide with the "nothing sent" mark |
| BytecodeElision.RunsAreInterleavings | crates/ng-js-runtime/src/runtime_pool.rs:134-165 | every run of undisturbed sends is one of the interleavings |
| BytecodeElision.OverlapBreaks | crates/ng-js-runtime/src/runtime_pool.rs:139-162 | the interleaving of two bytecodes that runs the wrong module |
| WorkerPool.JsRuntimePool.GetOrInitWorker | crates/ng-js-runtime/src/runtime_pool.rs:272-298 | the pool's worker, or a fresh one that is now the pool's with its initial fields, or nothing if spawning fails |
| WorkerPool.JsRuntimePool.EvictWorker | crates/ng-js-runtime/src/runtime_pool.rs:381-392 | eviction removes exactly the named worker, marks it and shuts it down, and reports whether there was one |
| WorkerPool.JsRuntimePool.IsIdle | crates/ng-js-runtime/src/runtime_pool.rs:346-365 | the four idle conditions, read in order, decide eligibility |
| WorkerPool.JsRuntimePool.CleanupIdleWorkers | crates/ng-js-runtime/src/runtime_pool.rs:304-376 | an undisturbed pass retires and shuts down exactly the idle workers |
| WorkerPool.EligibleByFields | crates/ng-js-runtime/src/runtime_pool.rs:346-365 | idle means: a positive clean time, nothing running, no call with a handle, and unused for at least the clean time |
| WorkerPool.CheckAloneIsEligible | crates/ng-js-runtime/src/runtime_pool.rs:345-375 | the four reads of a candidate, left alone, retire it exactly if it is idle |
| WorkerPool.PassAlone | crates/ng-js-runtime/src/runtime_pool.rs:304-376 | an undisturbed pass takes the lock, retires exactly the idle candidates and lets go of the lock |
| WorkerPool.CleanerRetiresOnlyIdle | crates/ng-js-runtime/src/runtime_pool.rs:345-375 | under every interleaving, a worker that cleanup retires is unheld, runs nothing and has gone unused for the clean time read, and no other worker is touched |
| WorkerPool.HandleByStep | crates/ng-js-runtime/src/runtime_pool.rs:96-100 | only a call's own steps date a handle or set its clean time, and only retiring sends a shutdown |
| WorkerPool.CallAlone | crates/ng-js-runtime/src/runtime_pool.rs:120-195 | an undisturbed call leaves behind its end time and clean time, and nothing else |
| WorkerPool.RetireAllIsExact | crates/ng-js-runtime/src/runtime_pool.rs:343-375 | visiting candidates in any order retires exactly the eligible ones |
| WorkerPool.EveryRunKeepsInv | crates/ng-js-runtime/src/runtime_pool.rs:272-392 | under every interleaving the map is exact, request counts are exact, and no held handle was cleaned |
| WorkerPool.OneLiveWorkerPerName | crates/ng-js-runtime/src/runtime_pool.rs:285-298 | at most one worker per script name is not retired, and the pool hands out that one |
| WorkerPool.OnlyEvictionRetiresHeldWorkers | crates/ng-js-runtime/src/runtime_pool.rs:304-392 | a worker whose handle a call holds can only have been retired by eviction |
| WorkerPool.ActiveImpliesHeld | crates/ng-js-runtime/src/runtime_pool.rs:131-132 | requests in progress are always fewer than the references to the handle |
| UuidCache.TryIdI16 | crates/ng-monitoring/src/monitoring_uuid_cache.rs:61-73 | succeeds exactly in range, and never changes the number |
| UuidCache.AgreementIsExact | crates/ng-monitoring/src/monitoring_uuid_cache.rs:87-101 | agreeing with the table determines both maps and makes them mirrors |
| UuidCache.MonitoringUuidCache.Fill | crates/ng-monitoring/src/monitoring_uuid_cache.rs:109-128 | building or reloading from rows in any order gives the table restricted to 16-bit ids |
| UuidCache.MonitoringUuidCache.GetId | crates/ng-monitoring/src/monitoring_uuid_cache.rs:138-143 | the cached id, whose reverse lookup is the UUID |
| UuidCache.MonitoringUuidCache.GetUuid | crates/ng-monitoring/src/monitoring_uuid_cache.rs:146-151 | the cached UUID, whose lookup is the id |
| UuidCache.MonitoringUuidCache.GetOrInsert | crates/ng-monitoring/src/monitoring_uuid_cache.rs:209-344 | the whole call, every error return included, as a function of table and index |
| UuidCache.MonitoringUuidCache.SoftDelete | crates/ng-monitoring/src/monitoring_uuid_cache.rs:356-400 | the whole call, every error return included, as a function of table and index |
| UuidCache.GetOrInsertKeepsStep | crates/ng-monitoring/src/monitoring_uuid_cache.rs:209-344 | keeps index and table equal, touches one row, succeeds exactly when the id fits and the needed accesses work, and then the UUID is active in both with the row's id or the new one |
| UuidCache.SoftDeleteKeepsStep | crates/ng-monitoring/src/monitoring_uuid_cache.rs:356-400 | returns true exactly if the row was already marked, or is found, fits and can be written, false exactly if there is no row; then marks the UUID in both; errors change nothing |
| UuidCache.IndexEqualsTable | crates/ng-monitoring/src/monitoring_uuid_cache.rs:87-400 | in every state reachable by calls one at a time, the index is the restricted table, flags included |
| UuidRaces.IdsStayExact | crates/ng-monitoring/src/monitoring_uuid_cache.rs:209-400 | under every interleaving the maps stay mirrors, every cached pair is a real row's, and rows keep their ids |
| UuidRaces.RacingRegistrationsAgree | crates/ng-monitoring/src/monitoring_uuid_cache.rs:263-344 | registrations of one UUID that succeed return the same id, the row's own |
| UuidRaces.RegistrationAlone | crates/ng-monitoring/src/monitoring_uuid_cache.rs:209-344 | a registration that nobody disturbs does in at most four steps what the whole call does |
| UuidRaces.DeletionAlone | crates/ng-monitoring/src/monitoring_uuid_cache.rs:356-400 | likewise a deletion, in three steps |
| UuidRaces.LoserRegisters | crates/ng-monitoring/src/monitoring_uuid_cache.rs:290-344 | a registration that loses the race for the insert still registers, with the winner's id |
| UuidRaces.ReloadAlone | crates/ng-monitoring/src/monitoring_uuid_cache.rs:109-128 | an undisturbed reload installs the index of the rows it loaded |
| CronCache.BuildMapByRows | crates/ng-crontab/src/cache.rs:104-156 | a reload caches exactly the rows that parse, each with its own data |
| CronCache.DueByInstants | crates/ng-crontab/src/server_cron.rs:206-240 | a job is due exactly if it is enabled and has an instant after its last run (overlay, row, or a second ago) and not after the clock |
| CronCache.UpcomingByInstants | crates/ng-crontab/src/server_cron.rs:147-170 | the deadline aims at the first instant after the last run |
| CronCache.ClockByRange | crates/ng-crontab/src/server_cron.rs:199-202 | a pass needs a clock that milliseconds in 64 bits and the date type can hold |
| CronCache.CrontabCache.ReloadFromModels | crates/ng-crontab/src/cache.rs:88-112 | replaces the jobs by the parsable rows and keeps the overlay |
| CronCache.CrontabCache.Upsert | crates/ng-crontab/src/cache.rs:162-175 | replaces one job, or removes it if it no longer parses, and keeps the overlay |
| CronCache.CrontabCache.RemoveByName | crates/ng-crontab/src/cache.rs:180-206 | removes exactly the jobs of that name, with their overlay entries |
| CronCache.CrontabCache.GetLastRunTime | crates/ng-crontab/src/cache.rs:231-234 | the overlay's time if there is one, otherwise the time the caller read from the row |
| CronCache.CrontabCache.CollectDue | crates/ng-crontab/src/server_cron.rs:197-252 | collects exactly the due jobs, each once |
| CronCache.CrontabCache.ProcessCrontab | crates/ng-crontab/src/server_cron.rs:186-281 | runs exactly the due jobs and marks them all, whether or not the database write fails |
| CronCache.CrontabCache.ComputeNextDeadline | crates/ng-crontab/src/server_cron.rs:147-178 | never sleeps past the next instant of an enabled job or a minute, nor wakes a millisecond too early |
| CronRuns.EventKeepsTracked | crates/ng-crontab/src/cache.rs:88-175 | failed writes, stale reloads and upserts never make a job forget when it last ran |
| CronRuns.RestartKeepsTracked | crates/ng-crontab/src/cache.rs:77-83 | a restart forgets nothing if the table knows the last run |
| CronRuns.RowByEvent | crates/ng-crontab/src/server_cron.rs:255-281 | a tick whose write succeeds stores its time in exactly the due rows; edits keep the last run and new rows have none |
| CronRuns.TickServes | crates/ng-crontab/src/server_cron.rs:206-281 | a tick serves exactly the instants between the last run and the clock |
| CronRuns.InstantsAreServedExactlyOnce | crates/ng-crontab/src/server_cron.rs:186-281 | over any run, with restarts and any clock, an instant after the recorded last run and not after the latest tick is served exactly once, others never, if no restart follows a failed write |
| CronRuns.LostWriteServesTwice | crates/ng-crontab/src/server_cron.rs:255-281 | a failed write, a restart and another tick serve every instant of the first tick twice |
| CronRuns.DisabledJobsNeverRun | crates/ng-crontab/src/cache.rs:209-217 | a job that stays disabled never runs, whatever else happens |
| CronDispatch.ConnectedUuids | crates/ng-task/src/rpc/mod.rs:537-545 | keeps exactly the agents among the connected peers, in order |
| CronDispatch.CollectSends | crates/ng-crontab/src/task.rs:324-442 | the completion loop computes the rollback list, the counts and the result rows |
| CronDispatch.DispatchTask | crates/ng-crontab/src/task.rs:171-461 | whatever the order of completion: exactly the new task rows that were delivered or panicked survive, and the recorded rows follow the policy; with nobody online or failing writes, what each path leaves behind |
| CronDispatch.Complete | crates/ng-crontab/src/task.rs:477-482 | each agent's send carries the id of its own row, through the unsigned task id |
| CronDispatch.RequestedIsAccountedFor | crates/ng-crontab/src/task.rs:171-183 | requested = precheck skips + rows sent, found offline, full and panicked; the loop's counters and failure rows show these numbers for any completion order |
| CronDispatch.CompletionOrderDoesNotMatter | crates/ng-crontab/src/task.rs:338-442 | result rows and rolled-back tasks are the same for every completion order |
| CronDispatch.RecordedRowsFollowPolicy | crates/ng-crontab/src/task.rs:407-442 | one failure row per full queue, naming its agent; a summary row with the counts and the sole task id, or a success row per delivered agent with its task id; and no other row |
| CronDispatch.SurvivingTasks | crates/ng-crontab/src/task.rs:444-452 | the new task rows that survive are exactly the delivered ones and those whose send panicked |
| CronThrottle.ReportedByColumns | crates/ng-crontab/src/task.rs:193-212 | the check looks for a failure row of the cron with the prefix and a time within ten minutes |
| CronThrottle.OfflineRunByColumns | crates/ng-crontab/src/task.rs:213-241 | an offline run adds its row unless the insert fails or the check finds a recent one |
| CronThrottle.ThrottleHolds | crates/ng-crontab/src/task.rs:184-241 | if the check queries succeed, a later all-offline row lies more than ten minutes after every earlier one, whatever the clock does |
| CronThrottle.StepKeepsSpacingIff | crates/ng-crontab/src/task.rs:193-225 | a step breaks the spacing exactly if it writes although a recent row exists |
| CronThrottle.RowRateIsBounded | crates/ng-crontab/src/task.rs:60-64 | n + 1 all-offline rows of one cron span at least n full windows |
| CronThrottle.OfflineRunIsCovered | crates/ng-crontab/src/task.rs:223-240 | after a run that could write, some row covers its window |
| CanonicalJson.WriteCanonicalJson | crates/ng-monitoring/src/data_structure.rs:110-144 | the recursive writer appends exactly the canonical print |
| CanonicalJson.WriteObject | crates/ng-monitoring/src/data_structure.rs:115-128 | sorting keys and looking values up visits the members in canonical order |
| CanonicalJson.WriteArray | crates/ng-monitoring/src/data_structure.rs:129-138 | items are written in their own order |
| CanonicalJson.WriteHashInput | crates/ng-monitoring/src/data_structure.rs:67-83 | the three parts with their separators |
| CanonicalJson.SameIffCanonEqual | crates/ng-monitoring/src/data_structure.rs:105-144 | canonical forms are equal exactly for values equal up to member order |
| CanonicalJson.ReadUndoesRender | crates/ng-monitoring/src/data_structure.rs:110-144 | a reader for the JSON grammar gives back every printed value and stops where it ends |
| CanonicalJson.PrintReadsBack | crates/ng-monitoring/src/data_structure.rs:105-144 | reading a canonical print gives back the same value up to member order |
| CanonicalJson.PrintedMembersAreSorted | crates/ng-monitoring/src/data_structure.rs:115-128 | objects print exactly their members, in lexicographic order of the keys |
| CanonicalJson.HashInputReadsBack | crates/ng-monitoring/src/data_structure.rs:67-83 | the hash input reads back as cpu, system and gpu, in this order |
| CanonicalJson.RenderIsUnambiguous | crates/ng-monitoring/src/data_structure.rs:110-144 | a printed value can be read off a stream in only one way |
| CanonicalJson.PrintDeterminesValue | crates/ng-monitoring/src/data_structure.rs:110-144 | two values print the same stream if and only if they are equal up to member order |
| CanonicalJson.PrintIsPrefixFree | crates/ng-monitoring/src/data_structure.rs:110-144 | no printed stream is a proper prefix of another |
| CanonicalJson.HashInputDeterminesParts | crates/ng-monitoring/src/data_structure.rs:56-88 | the hash input determines cpu, system and gpu, each up to member order |
| WriteBuffer.DoFlush | crates/ng-monitoring/src/monitoring_buffer.rs:349-423 | after any number of rounds, every buffered row is in exactly one sub-batch or still to do, in order; only failing sub-batches are dropped; all but the last are full; enough rounds finish if a row fits one statement |
| WriteBuffer.SqliteRowsIsLargest | crates/ng-monitoring/src/monitoring_buffer.rs:367-373 | a SQLite sub-batch has as many rows as 999 parameters allow |
| WriteBuffer.AtMost999Parameters | crates/ng-monitoring/src/monitoring_buffer.rs:367-373 | no SQLite insert binds more than 999 parameters |
| WriteBuffer.SubBatchingTerminatesIff | crates/ng-monitoring/src/monitoring_buffer.rs:368-383 | the loop ends if and only if the backend is not SQLite or a row fits one statement |
| WriteBuffer.ItemsAreConserved | crates/ng-monitoring/src/monitoring_buffer.rs:229-335 | every accepted item is handed over, buffered or queued, once and in order, under every interleaving |
| WriteBuffer.DropsAreCounted | crates/ng-monitoring/src/monitoring_buffer.rs:229-252 | exactly the items that found room are accepted, in order, and exactly those that found the channel full are counted as dropped |
| WriteBuffer.SendingByStep | crates/ng-monitoring/src/monitoring_buffer.rs:229-240 | a send is under way exactly from a check that found the buffer open until its push |
| WriteBuffer.EveryItemIsFlushed | crates/ng-monitoring/src/monitoring_buffer.rs:302-335 | in every run, open or closed, an accepted item is handed over within a number of loop steps that depends only on the items before it |
| WriteBuffer.ExitLosesNothing | crates/ng-monitoring/src/monitoring_buffer.rs:306-318 | once the loop has exited, everything ever accepted has been handed over and nothing more is accepted |
| WriteBuffer.ClosedLoopExits | crates/ng-monitoring/src/monitoring_buffer.rs:302-335 | in every run, three loop steps per item queued at the close and three more lead to the exit, with everything accepted handed over |
| WriteBuffer.ClosedLoopProgresses | crates/ng-monitoring/src/monitoring_buffer.rs:229-335 | after close every loop step brings the exit nearer, and no sender or closer delays it |
| WriteBuffer.Drain | crates/ng-monitoring/src/monitoring_buffer.rs:306-328 | takes the first item and then up to the batch size, in order |
| WriteBuffer.FlushLoopAfterClose | crates/ng-monitoring/src/monitoring_buffer.rs:288-335 | on a closed channel the loop hands over everything queued, in order, in bounded flushes, dropping exactly the failing sub-batches, and exits |
| WriteBuffer.BufferSender.Send | crates/ng-monitoring/src/monitoring_buffer.rs:229-252 | an open channel with room takes the item, a full one counts a drop, a closed one ignores |
| WriteBuffer.BufferSender.Close | crates/ng-monitoring/src/monitoring_buffer.rs:262-272 | closes once, keeping what is queued |
| TimescaleConfig.ValidRetentionConverts | crates/ng-core/src/config.rs:90-104 | validation accepts exactly the retention periods whose milliseconds fit |
| TimescaleConfig.SettingsByFields | crates/ng-core/src/config.rs:74-133 | hours win over the older day keys and those over six and twelve hours; what is enabled and what is valid |
| TimescaleSetup.AppliesByFields | crates/ng-db/src/timescale.rs:181-260 | when setup applies, by the fields of the configuration |
| TimescaleSetup.TargetByFields | crates/ng-db/src/timescale.rs:356-445 | the target's chunk interval, compression delay and schedule and retention, by the fields of the configuration |
| TimescaleSetup.SetupSucceedsIff | crates/ng-db/src/timescale.rs:356-445 | a table is reported as configured if and only if it has no row without a time and no statement it needs fails |
| TimescaleSetup.SuccessIsHonest | crates/ng-db/src/timescale.rs:426-445 | whatever failed on the way, a table reported as configured has reached its target |
| TimescaleSetup.Database.SetupTable | crates/ng-db/src/timescale.rs:356-445 | setup of one table as a function of its state, the configuration and the failing statements |
| TimescaleSetup.Database.ApplyRetentionPolicy | crates/ng-db/src/timescale.rs:518-585 | installs or removes the policy, or changes nothing |
| TimescaleSetup.Database.ApplyCompression | crates/ng-db/src/timescale.rs:592-643 | enables compression once and re-applies its policy on the actual chunk interval |
| TimescaleSetup.Database.ReconcileRetentionOnSkip | crates/ng-db/src/timescale.rs:456-513 | removes policies on every hypertable when deletion is not wanted |
| TimescaleSetup.Database.SetupTimescaleIfAvailable | crates/ng-db/src/timescale.rs:181-310 | the whole start: which path is taken, every table's new state, and the number of failures |
| TimescaleSetup.CleanRunReachesTarget | crates/ng-db/src/timescale.rs:356-445 | a run without failures configures a table completely if and only if it has no row without a time, from any state |
| TimescaleSetup.SetupConverges | crates/ng-db/src/timescale.rs:181-310 | a clean run reaches the state fixed by the configuration and the existing chunk interval, and reports success exactly then |
| TimescaleSetup.SetupIsIdempotent | crates/ng-db/src/timescale.rs:181-310 | a second clean run changes nothing |
| TimescaleSetup.StartsAdvance | crates/ng-db/src/timescale.rs:398-424 | no sequence of starts undoes a conversion, changes a chunk interval or leaves an incoherent table |
| TimescaleSetup.CleanStartHeals | crates/ng-db/src/timescale.rs:398-413 | after any failing starts with any configurations, one clean start reaches the target |
| TimescaleSetup.PolicySurvivesIffBlocked | crates/ng-db/src/timescale.rs:191-279 | with retention 0 an existing policy survives if and only if TimescaleDB is absent or one of the listed statements fails |
| TimescaleSetup.SkippedByFields | crates/ng-db/src/timescale.rs:456-513 | a start that skips setup changes nothing, except that it removes a retention policy exactly if none is wanted or the period does not fit, and nothing needed fails |
| TimescaleSetup.StopDeletingIsHonoured | crates/ng-db/src/timescale.rs:426-513 | if only function or compression statements fail, no managed table keeps a policy, on every path |
| TimescaleSetup.NeverDeletesUnasked | crates/ng-db/src/timescale.rs:518-585 | a start only installs the period that its own valid, enabled configuration asks for |
| OutputTruncation.Truncate | agent/src/tasks/execute.rs:117-153 | the head and tail are the longest parts within budget that end on a boundary; the head never meets the tail; short output is unchanged |
| OutputTruncation.MarkerText | agent/src/tasks/execute.rs:145-150 | the marker names the bytes left out and the original size, in decimal |
| OutputTruncation.TruncationIsValid | agent/src/tasks/execute.rs:124-152 | both parts and the whole result are valid UTF-8, at most three bytes under budget, and add up to the original |
| OutputTruncation.ValidIffEncoded | agent/src/tasks/execute.rs:129-138 | valid text is exactly the UTF-8 encodings of sequences of Unicode scalar values |
| OutputTruncation.CutIsValidIffBoundary | agent/src/tasks/execute.rs:129-138 | cutting valid text leaves valid text exactly at character boundaries |
| OutputTruncation.UnadjustedCutIsInvalid | agent/src/tasks/execute.rs:129-132 | any cut between the chosen one and the budget would break a character |

## Left out

- WriteBuffer.FlushLoopAfterClose: asks for at most 999 columns on SQLite, because with more a flush does not end, as `SubBatchingTerminatesIff` states; the program's tables have at most 27.
- TrafficLoss.LostReportsHarmlessIff: is stated for reports that list an interface at most once, because a report is lost as a whole; `LostReportsNeverOvercount` does not need this.
- CronCache.CrontabCache.ProcessCrontab: a scheduler pass is one step of a run; reloads during its database write touch other fields and commute with it.
- CronRuns.InstantsAreServedExactlyOnce: covers jobs with a recorded last run; the first firing of a job that never ran has a one-second look-back only, as `DueByInstants` states.
- CronDispatch.DispatchTask: whether an all-offline row was written recently is a parameter; `CronThrottle` has that rule. A missing connection or a task that cannot be serialised writes nothing and is left out.
- TrafficStore.LossesArePersistedExactlyOnce: is about one process, because a crash loses what is pending in memory; `LossesAreNeverRepeated` covers crashes.
- BytecodeElision.ElisionIsSound: one worker thread whose host runtime starts; the error loop of a failed start is not modelled.
- Soft-delete flags of the UUID index under interleaved calls: only the id mapping is claimed there.
- Starting a second flush loop by initialising traffic accounting twice, and the five-second shutdown timeouts.
- The script engine, its timers and its watchdog thread: one execution is an arbitrary outcome.
- SHA-256, JSON string escaping and number formatting: each scalar is one token.
- SQL text, drivers, cron expression parsing, agent connections and permission checks.
- JS call auditing, lookups and listings that only read, and configuration loading would only add easy members.

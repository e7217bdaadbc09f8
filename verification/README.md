# Verified model of the backup control plane

A Dafny model of the hard algorithms and state machines of the backup control plane and its workers, with proofs about
them: the cron engine and scheduler, the job lease protocol with its two repositories, the live change pipeline, log and
output bounding, mount folders, restore ownership, the runtime command policy, quiescing in Kubernetes, and worker
enrollment. `dafny verify dfyconfig.toml` checks everything.

## Layout

| files | what they model |
|---|---|
| `Text`, `Decimal`, `Ordering` | string, decimal and sorting helpers |
| `Calendar`, `Moments`, `IsoText` | the Gregorian calendar, the range of `datetime`, and `isoformat()` texts |
| `CronFields`, `CronMatch`, `CronTexts`, `CronHorizon`, `CronSearch` | parsing, matching, what a written expression says, the horizon, and the skipping search |
| `Scheduler`, `SchedulerFires` | the tick, interleaved with every other job operation, and what makes it dispatch |
| `JobSpec`, `JobRuns`, `JobClock` | the abstract job map, runs of the service's calls, lease times over runs |
| `JobEffects`, `JobLogs` | what each call does to the records, and how long logs get over the runs of the service |
| `JobMemory`, `JobSqlite`, `JobBackends` | the two repositories, proved against the abstract job map, and runs over either |
| `LogBound`, `LineSplitter`, `ProgressReporter` | bounded logs, the streaming line splitter, the worker's reporter |
| `LiveSnapshot`, `LiveEvents` | the worklist traversal, diffs, folding, the watch loop |
| `LiveLog`, `LiveSession`, `LiveService` | event logs and queues, one session, the live service |
| `LiveMirror` | convergence of a client's copy |
| `MountFolders`, `MountNames` | live mount folders: choosing and renaming, which destinations have one and how it is spelled |
| `Ownership`, `OwnershipLayers` | restore ownership: scopes and layers, what a resolved policy says |
| `CommandPolicy`, `CommandForms` | the runtime command policy, and the forms it accepts |
| `Quiesce` | scaling workloads down and back |
| `WorkerAuth`, `WorkerAuthEffects` | enrollments and credentials, and what each call does to them |

Objects the program updates in place are classes with the same fields; each method is proved against a function of the old
state, and the theorems about whole runs are proved about that function. Clocks are parameters and may go back unless a
lemma says otherwise. Ids, tokens and nonces are parameters that are new when the program draws them at random; digests and
signed cursors are constructors, hence injective. One service or repository call is one step, except in the scheduler,
where the check and the dispatch of a target are two steps with any other job operations between them.

## What the code does not do as its tests or comments suggest

- Lines of worker output: `str.splitlines` also breaks at VT, FF, FS, GS, RS, NEL, LS and PS. The lines are the runs between
  CR and LF exactly when no such character stands next to a line's text (`LineSplitter.LinesAreRunsIff`).
- Lease tokens: for a row whose token is missing or empty the in-memory repository accepts an empty token, and the guarded
  UPDATE does not (`JobSqlite.RepositoriesDifferIff`). Leased jobs never carry such a token (`JobRuns.RunsStayLeased`), so
  no run of the service shows the difference (`JobBackends.RunsAgree`).
- Issue before expiry: over a run it holds exactly when no successful renewal reads a clock that has gone back by a whole
  lease since the job was handed out (`JobClock.AlwaysInOrderIff`); `JobClock.BackwardClockBreaksOrder` is a legal run from
  the start in which it fails.
- Reconciling appends its line without trimming: the log still fits exactly when the line was there or there was room
  (`JobSpec.InterruptedLogFitsIff`), and a log of 1000 lines then has 1001 (`JobSpec.FullLogOverflows`). Over runs that line
  is all that is ever beyond the limits (`JobLogs.LogsStayWithin`).
- Lines that entered the reporter's buffer are all sent exactly when no chunk takes the buffer above 32 lines
  (`ProgressReporter.SentIsEnteredIff`, `ProgressReporter.JobProgressReporter.Finish`).
- A replay cursor that an earlier session of the same key issued, which `Last-Event-ID` can carry, is answered as if it were
  this session's. The client then ends up to date exactly when the answer has a mark or its copy happens to cover what comes
  before the cursor (`LiveMirror.ConnectionConvergesIff`); every copy does exactly when the next event was evicted or a later
  one is a resync, which the server could test (`LiveMirror.EveryCopyConvergesIff`). It fails for a cursor within the history
  (`LiveMirror.OldCursorMisses`) and for one beyond it (`LiveMirror.StaleCursorMisses`).
- What a directory below the root held behind a scan error, and an entry whose type or data cannot be had, are silently
  missing from a complete snapshot: the snapshot is the whole tree exactly when no entry it reaches has a file or directory
  behind an error (`LiveSnapshot.WholeIffNothingHidden`). `LiveSnapshot.UnreadableIsMissed` is a tree with a directory that
  cannot be scanned, `LiveSnapshot.UnstatedIsMissed` one where no scan fails.
- A refused scope list is refused with one category in every order exactly when the categories of its entries, with a
  collision if its scopes do not agree, are at most one (`Ownership.OneCategoryIff`); `Ownership.CategoryDependsOnOrder` has
  two orders that differ. With no scopes, every explicit mapping is refused (`Ownership.NoScopesNoMappings`).
- Enrolling a completed secret again does not free it for another attempt (`WorkerAuth.EnrolledAgain`), and deleting a
  worker frees it only if it is enrolled for that worker at the time (`WorkerAuth.DeletionFreesIff`;
  `WorkerAuth.DeletedWorkerStaysBound` is a run after which it is bound to a deleted worker).
- A worker whose version is no number can complete an enrollment once; its next completion or rotation raises
  (`WorkerAuth.WorkerAuthState.Complete`, `WorkerAuth.WorkerAuthState.Rotate`).
- The message `empty cron field` is never reached: an empty part is refused before with `invalid cron field`
  (scheduler_service.py:20), and every accepted part selects at least one value (`CronFields.FieldRange`).

## Model

| member | source | states |
|---|---|---|
| CronFields.RangeHas | src/control_plane/application/services/scheduler_service.py:29-39 | a value is in the expanded range exactly when it is reached from the start in whole steps within the bounds |
| CronFields.ParseField | src/control_plane/application/services/scheduler_service.py:15-43 | the loop that grows the value set gives the union of the parts, and refuses exactly when some part is refused |
| CronFields.FieldMeaning | src/control_plane/application/services/scheduler_service.py:15-43 | a value matches an accepted field exactly when some part of its list reaches it |
| CronFields.FieldRange | src/control_plane/application/services/scheduler_service.py:15-43 | an accepted field is not empty and stays within its bounds |
| CronFields.ParseExpression | src/control_plane/application/services/scheduler_service.py:46-57 | an expression is accepted exactly when it has five accepted fields; weekday 7 becomes 0 |
| CronFields.ExpressionWellFormed | src/control_plane/application/services/scheduler_service.py:46-57 | every accepted expression has five non-empty value sets in range |
| CronFields.AcceptedPart | src/control_plane/application/services/scheduler_service.py:19-28 | an accepted part has at most one slash, and what follows it is read as the step |
| CronTexts.PartRead | src/control_plane/application/services/scheduler_service.py:15-39 | a star, a number or a range, with or without a step, is accepted exactly when its values are in range and in order and the step is a positive number that can be read |
| CronTexts.ListRead | src/control_plane/application/services/scheduler_service.py:15-43 | a comma list of such parts is accepted exactly when all are, and selects exactly the values one of them says: all, that one, from it to the end in steps, or between two in steps |
| CronTexts.ExpressionRead | src/control_plane/application/services/scheduler_service.py:46-57 | five such lists are accepted exactly when each is, and give exactly those value sets, Sunday as 0 or 7 |
| CronTexts.EveryScheduleHasText | src/control_plane/application/services/scheduler_service.py:15-57 | every schedule of non-empty value sets in range is written by some expression that parses to it |
| CronTexts.WeekdayIsCivil | src/control_plane/application/services/scheduler_service.py:75 | weekdays follow each other from Saturday, 1 January 2000, and Sunday counts as 0 |
| CronTexts.DayRuleMeans | src/control_plane/application/services/scheduler_service.py:68-85 | with every day of the month allowed a day matches exactly when month and weekday are listed; with every weekday allowed, month and day of the month; with both restricted, the month and one of the two |
| CronTexts.MatchesAsWritten | src/control_plane/application/services/scheduler_service.py:60-92 | a minute matches an expression exactly when the expression is readable and its text says so, by the civil calendar |
| CronTexts.MondayMidnights | src/control_plane/application/services/scheduler_service.py:60-92 | `0 0 * * 1` matches exactly the midnights of Mondays |
| Calendar.DayOrder | src/control_plane/application/services/scheduler_service.py:95-151 | day numbers are in order of year, month and day |
| Calendar.DateOfDayNumber | src/control_plane/application/services/scheduler_service.py:95-151 | the date of a day number is the date it was counted from |
| CronHorizon.ImpossibleNeverMatches | src/control_plane/application/services/scheduler_service.py:68-85 | a schedule whose day and month sets meet on no calendar day never matches |
| CronHorizon.NextMatchingDay | src/control_plane/application/services/scheduler_service.py:134-151 | from any day a possible schedule matches within 2921 days, also across a century without leap day |
| CronHorizon.WidestGapAttained | src/control_plane/application/services/scheduler_service.py:134-137 | the gap of 2921 days occurs, so the horizon of 2929 days could not be made much shorter |
| CronSearch.SearchDay | src/control_plane/application/services/scheduler_service.py:108-148 | the hour and minute loops of one day find its first acceptable candidate in wall-clock order |
| CronSearch.CandidateIsEarliest | src/control_plane/application/services/scheduler_service.py:108-133 | a candidate is the earliest of the two folds that give back the same local minute after the base; there is none exactly when no fold does |
| CronSearch.SearchDays | src/control_plane/application/services/scheduler_service.py:95-151 | the skipping search over days, hours and minutes gives what a plain minute-by-minute scan of the horizon gives, in any zone |
| CronSearch.FixedOffsetScan | src/control_plane/application/services/scheduler_service.py:95-151 | in a fixed-offset zone the scan's result is the least instant after the base that matches, and None means that none ever does |
| CronSearch.NextRun | src/control_plane/application/services/scheduler_service.py:95-151 | in any zone the result is what a plain scan in wall-clock order finds, after the base, matching, and the earlier of the two instants with its local minute; in a fixed-offset zone it is the least such instant, and None exactly for schedules that never match |
| Scheduler.SchedulerService.CheckTarget | src/control_plane/application/services/scheduler_service.py:267-290 | one target's turn up to the dispatch: which marks are set, and whether a dispatch follows |
| Scheduler.SchedulerService.ConsiderTarget | src/control_plane/application/services/scheduler_service.py:267-301 | one loop turn is a check and a dispatch with any other job operations before and between |
| Scheduler.SchedulerService.Tick | src/control_plane/application/services/scheduler_service.py:261-301 | a tick is the sequence of these actions over its targets |
| SchedulerFires.CheckOutcome | src/control_plane/application/services/scheduler_service.py:268-290 | a check marks its target exactly when it is enabled, its own non-empty or else the global expression matches the minute, no mark is in that minute and the eligibility lookup answers; it decides a dispatch exactly when the worker is eligible besides and no backup of the target is active |
| SchedulerFires.TurnFires | src/control_plane/application/services/scheduler_service.py:267-301 | a turn marks as the check does and dispatches one pending backup of that target on its worker exactly when the check decided so and the dispatch is accepted |
| SchedulerFires.TickFires | src/control_plane/application/services/scheduler_service.py:261-301 | a tick takes all its turns in order, each with that outcome |
| SchedulerFires.EveryFiringHasGrounds | src/control_plane/application/services/scheduler_service.py:261-301 | over every run, each dispatched backup was called for by an earlier check of its target in its minute: enabled, on schedule, unmarked, worker eligible, target idle; and the job is a backup of that target on that worker |
| Scheduler.StepKeepsPurpose | src/control_plane/application/services/control_plane_service.py:1299-1305 | no job operation changes a job's target, command, worker or requester, or makes an ended job active |
| Scheduler.ActionHolds | src/control_plane/application/services/scheduler_service.py:261-301 | every action keeps: at most one active scheduled backup a target, and its dispatch minutes apart and behind its mark |
| Scheduler.ScheduledBackupsAreApart | src/control_plane/application/services/scheduler_service.py:261-301 | over any run with any clock, two backups the scheduler dispatched for one target are different jobs, never both pending or in progress, and at least a minute apart |
| IsoText.IsoOrder | src/control_plane/infrastructure/repositories/sqlite.py:896-912 | text order of naive `isoformat()` values, with or without the fraction, is time order |
| IsoText.IsoRoundTrip | src/control_plane/infrastructure/repositories/sqlite.py:52-55 | reading back a written time gives the same time |
| JobSpec.GuardDisagreesIff | src/control_plane/infrastructure/repositories/sqlite.py:936-1012 | after a successful check the guarded UPDATE matches no row exactly when a missing token met an empty one |
| JobSpec.GuardAgreesWhenLeased | src/control_plane/infrastructure/repositories/sqlite.py:851-924 | on a leased job the guard and the check decide alike |
| JobSpec.NothingExpired | src/control_plane/infrastructure/repositories/in_memory.py:258-295 | after a reconcile or a claim at time t no running job has its expiry at or before t |
| JobSpec.InterruptedLogFitsIff | src/control_plane/infrastructure/repositories/in_memory.py:285-289 | after reconciling, the log fits its limits exactly when the line was there or there was room for it |
| JobSpec.FullLogOverflows | src/control_plane/infrastructure/repositories/in_memory.py:285-289 | a full log has one line more than allowed after the job is reconciled |
| JobSpec.DeliveredProgressIsNewest | src/control_plane/infrastructure/repositories/in_memory.py:331-379 | under any reordered, repeated delivery the job ends with the progress of the highest number delivered, the sequence never falls, and the log is the bounded log of the accepted lines |
| JobMemory.InMemoryJobRepository.Save | src/control_plane/infrastructure/repositories/in_memory.py:202-206 | a saved record is in the map under its id; no other record changes |
| JobMemory.InMemoryJobRepository.ReconcileLocked | src/control_plane/infrastructure/repositories/in_memory.py:258-291 | the loop over all records interrupts exactly the expired ones and counts them |
| JobMemory.InMemoryJobRepository.RenewLease | src/control_plane/infrastructure/repositories/in_memory.py:297-329 | renewing raises for a duration that is not positive or ends a granted lease after year 9999, refuses without a valid lease, and otherwise moves the expiry |
| JobMemory.InMemoryJobRepository.UpdateProgress | src/control_plane/infrastructure/repositories/in_memory.py:331-379 | progress is stored only under a valid lease and only when newer |
| JobMemory.InMemoryJobRepository.ClaimPending | src/control_plane/infrastructure/repositories/in_memory.py:381-412 | exactly the worker's pending jobs are claimed, each once, in order of submission; a lease that would end after year 9999 raises once the expired ones are reconciled |
| JobMemory.EachIsAll | src/control_plane/infrastructure/repositories/in_memory.py:258-291 | treating the records one by one is reconciling the whole map, and the count is the number of expired jobs |
| JobMemory.ClaimIsAll | src/control_plane/infrastructure/repositories/in_memory.py:381-412 | claiming the records one by one in any order is claiming the whole map |
| JobMemory.ClaimableIdsSorted | src/control_plane/infrastructure/repositories/in_memory.py:389-391 | the claimed jobs come in order of submission, each once |
| JobSqlite.RowGuardIsGuard | src/control_plane/infrastructure/repositories/sqlite.py:896-914 | comparing expiry and now as text decides as comparing the times |
| JobSqlite.SQLiteJobRepository.Save | src/control_plane/infrastructure/repositories/sqlite.py:636-669 | a saved job is in the table under its id and reads back as it was; no other row changes |
| JobSqlite.SQLiteJobRepository.ReconcileLocked | src/control_plane/infrastructure/repositories/sqlite.py:773-835 | whatever the row order, the table decodes to the reconciled job map, and the count is the number of expired rows |
| JobSqlite.SQLiteJobRepository.SelectPending | src/control_plane/infrastructure/repositories/sqlite.py:1029-1036 | the query gives exactly the worker's pending rows, each once, ascending by submission text |
| JobSqlite.SQLiteJobRepository.RenewLease | src/control_plane/infrastructure/repositories/sqlite.py:851-924 | the table decodes to the renewed job map exactly when the guard holds, and the answer says so; a lease that would end after year 9999 raises and changes nothing |
| JobSqlite.SQLiteJobRepository.UpdateProgress | src/control_plane/infrastructure/repositories/sqlite.py:926-1018 | the same for progress, where a report that is not newer is answered without an UPDATE |
| JobSqlite.SQLiteJobRepository.ClaimPending | src/control_plane/infrastructure/repositories/sqlite.py:1020-1104 | the table decodes to the claimed job map; the returned jobs are the saved ones in order of submission; a lease that would end after year 9999 raises and rolls everything back |
| JobSqlite.RepositoriesAgree | src/control_plane/infrastructure/repositories/sqlite.py:851-1018 | on leased jobs both repositories make the same change and give the same answer |
| JobSqlite.RepositoriesDifferIff | src/control_plane/infrastructure/repositories/sqlite.py:936-950 | check and guard decide alike exactly when no missing token meets an empty one, and answer progress alike exactly when none does or the report is not new |
| JobBackends.RunsAgree | src/control_plane/infrastructure/repositories/sqlite.py:851-1018 | every legal run of the service gives the same jobs with either repository |
| JobRuns.StepKeepsLife | src/control_plane/application/services/control_plane_service.py:2828-2903 | every service call takes a job's history from one permitted life to another |
| JobRuns.StepKeepsTokens | src/control_plane/application/services/control_plane_service.py:2828-2834 | no call lets two jobs carry one token |
| JobRuns.RunKeepsInv | src/control_plane/application/services/control_plane_service.py:3454-3645 | over every run of dispatch, fetch, renew, diagnostic, progress, report, cancel and sweep, every job has a permitted life and tokens stay distinct |
| JobRuns.EveryLife | src/control_plane/application/services/control_plane_service.py:3529-3603 | each job is handed out at most once and ends at most once; an accepted report came from the worker it was handed to, with that token, before expiry and before any other end |
| JobRuns.TerminalForever | src/control_plane/application/services/control_plane_service.py:3627-3645 | the record of a finished job never changes again |
| JobRuns.RunsStayLeased | src/control_plane/application/services/control_plane_service.py:2828-2834 | in every run each running job has owner, non-empty token, issue time and expiry |
| JobEffects.FetchEffect | src/control_plane/application/services/control_plane_service.py:2828-2834 | a fetch hands out exactly the worker's pending jobs, with drawn tokens for five minutes, and fails exactly the running jobs that have expired, field by field |
| JobEffects.RenewEffect | src/control_plane/application/services/control_plane_service.py:2846-2874 | a renewal moves the expiry of that one job to five minutes on exactly for the holder of a live lease; refused at once it changes nothing, refused by the second look at the clock it sweeps |
| JobEffects.DiagnosticEffect | src/control_plane/application/services/control_plane_service.py:2876-2903 | a diagnostic of the holder of a live lease touches that one job; of the holder of an expired one it sweeps |
| JobEffects.ProgressEffect | src/control_plane/application/services/control_plane_service.py:3454-3527 | exactly a new highest number from the holder of a live lease is stored: number, progress, and the longest fitting suffix of the old log and the new lines; nothing else changes |
| JobEffects.ReportEffect | src/control_plane/application/services/control_plane_service.py:3529-3603 | exactly the holder of a live lease can end a running job, as succeeded or failed: the log is the longest fitting suffix of the cleaned old lines and then the cleaned new ones, the summary the reported one if any, finish and update times those read, everything else and every other job as before |
| JobEffects.CancelEffect | src/control_plane/application/services/control_plane_service.py:3627-3645 | after expired jobs have lapsed, a pending or running job is canceled: an error, recovery, log and finish time it had stay; any other job is as after the sweep |
| JobEffects.DispatchEffect | src/control_plane/application/services/control_plane_service.py:1246-1274 | a new job is pending, held by nobody, with nothing reported; the others stay |
| JobEffects.SweepEffect | src/control_plane/infrastructure/repositories/in_memory.py:258-291 | a sweep fails exactly the expired running jobs: an error they had stays, the lease is cleared, the interruption line is added once |
| JobLogs.LogsStayWithin | src/control_plane/application/services/control_plane_service.py:3102-3124 | in every legal run each log fits its limits, or the lease ran out and the log is one that fits and the interruption line |
| JobClock.ExpiryNeverMovesBack | src/control_plane/application/services/control_plane_service.py:2846-2874 | with a clock that does not go back, no call moves a running job's expiry back |
| JobClock.ExpiryChangesOnlyBefore | src/control_plane/application/services/control_plane_service.py:2846-2874 | with any clock, the expiry of a running job changes only by a renewal read before it |
| JobClock.NothingExpiredAfter | src/control_plane/application/services/control_plane_service.py:4150-4162 | after a sweep or a fetch, nothing that has expired is running |
| JobClock.RenewalOrderIff | src/control_plane/infrastructure/repositories/in_memory.py:297-329 | a successful renewal leaves issue before expiry exactly when the clock has not gone back by a whole lease |
| JobClock.AlwaysInOrderIff | src/control_plane/infrastructure/repositories/in_memory.py:297-329 | over every legal run each running job is always issued before it expires, exactly when every successful renewal reads a clock that has not gone back by a whole lease since the job was handed out |
| JobClock.BackwardClockBreaksOrder | src/control_plane/infrastructure/repositories/in_memory.py:297-329 | a legal run from the start in which a renewal by a clock set back one lease is accepted and the lease ends when it began |
| JobClock.ExpiryNeverMovesBackOverRuns | src/control_plane/application/services/control_plane_service.py:2846-2874 | over every run with a forward clock, the expiry of a job that is still running has not moved back |
| JobClock.LeaseInvariant | src/control_plane/application/services/control_plane_service.py:79 | over every run with a forward clock, a running job has its own worker as owner, a token unlike any other job's, and issue before expiry, at most one lease ahead |
| LogBound.BoundIsLongest | src/control_plane/infrastructure/repositories/in_memory.py:375-377 | the trimmed log is the longest suffix within the line and character limits |
| LogBound.LongestIsUnique | src/control_plane/application/services/control_plane_service.py:3102-3124 | there is only one such suffix |
| LogBound.BoundComposes | src/control_plane/infrastructure/repositories/sqlite.py:985-989 | trimming before and after appending is trimming once |
| LogBound.FoldIsLongest | src/control_plane/application/services/control_plane_service.py:3121-3124 | after any batches the stored log is the longest fitting suffix of all their lines |
| LogBound.Trim | src/control_plane/infrastructure/repositories/in_memory.py:375-377 | the slice and the loop that drops the oldest lines compute that suffix |
| LineSplitter.LinesAreRunsIff | src/worker_agent/application/services/worker_agent_service.py:252-262 | the lines of a text are its maximal non-empty runs between CR and LF exactly when no other line break stands inside one |
| LineSplitter.ChunkingIsIrrelevant | src/worker_agent/application/services/worker_agent_service.py:249-298 | however the output is cut into chunks, the lines that enter the buffer are the clipped lines of the whole text |
| LineSplitter.FinishedPieces | src/worker_agent/application/services/worker_agent_service.py:252-258 | a chunk cuts into its finished pieces, whose lines are those it adds, and the unfinished rest |
| LineSplitter.ClippedStarts | src/worker_agent/application/services/worker_agent_service.py:261 | of each line its first 16384 characters are kept |
| ProgressReporter.JobProgressReporter.TakeChunk | src/worker_agent/application/services/worker_agent_service.py:249-276 | a chunk's complete lines are clipped and appended, the newest are kept, the unfinished line waits, and phase and progress are those of its lines |
| ProgressReporter.LatestIsLast | src/worker_agent/application/services/worker_agent_service.py:268-276 | the latest progress is that of the last line that has any |
| ProgressReporter.PhaseChangedIff | src/worker_agent/application/services/worker_agent_service.py:263-274 | a chunk changes the phase exactly when one of its lines names another than the one before it |
| ProgressReporter.PhaseIsLast | src/worker_agent/application/services/worker_agent_service.py:263-274 | the phase after a chunk is that of the last line that names one |
| ProgressReporter.NewestAreLast | src/worker_agent/application/services/worker_agent_service.py:262 | the lines kept are the last 32 |
| ProgressReporter.SentIsEnteredIff | src/worker_agent/application/services/worker_agent_service.py:267-291 | over any calls, what was sent and what waits is everything that entered exactly when none took the buffer above its limit; otherwise lines are missing |
| ProgressReporter.JobProgressReporter.Emit | src/worker_agent/application/services/worker_agent_service.py:249-291 | when a message is sent (forced, new phase, full buffer, or a quarter second passed), with which number, progress and lines; fewer than 32 lines are left pending |
| ProgressReporter.JobProgressReporter.Finish | src/worker_agent/application/services/worker_agent_service.py:293-298 | after the end all lines of the whole text have entered, the last unfinished one included, everything left is sent, and all of them have been sent exactly when no call took the buffer above its limit |
| LiveSnapshot.KeyInjective | src/worker_agent/infrastructure/adapters/live_file_runtime.py:492 | no two entries have one key, though every level adds a slash |
| LiveSnapshot.ListingIsWalk | src/worker_agent/infrastructure/adapters/live_file_runtime.py:471-504 | the listing has a path with its data exactly when walking down its names from the root, through directories only, finds a file or directory there |
| LiveSnapshot.ScanDirectory | src/worker_agent/infrastructure/adapters/live_file_runtime.py:475-501 | one directory scan records its files and directories and pushes its directories, or stops at the limit |
| LiveSnapshot.WatchSnapshot | src/worker_agent/live_file_helper.py:131-167 | the traversal ends; it is complete exactly when the entries it can read under non-link directories number at most the limit, has then exactly one key for each file and directory whose data can be had, and is the whole tree exactly when no entry it reached has a file or directory behind an error |
| LiveSnapshot.WholeIffNothingHidden | src/worker_agent/infrastructure/adapters/live_file_runtime.py:471-504 | what was read is the listing of the whole tree exactly when no entry reached has a file or directory behind an error: behind the error of a directory's scan, or the entry itself when asking for its data raises |
| LiveSnapshot.UnstatedIsMissed | src/worker_agent/infrastructure/adapters/live_file_runtime.py:484-489 | a tree whose one file cannot be asked for its data: no scan fails, and the complete snapshot is empty |
| LiveSnapshot.UnreadableIsMissed | src/worker_agent/infrastructure/adapters/live_file_runtime.py:471-504 | a tree whose complete snapshot lacks a file behind an unreadable directory |
| LiveEvents.Sorted | src/worker_agent/infrastructure/adapters/live_file_runtime.py:518 | the paths come strictly ascending, none missing and none added |
| LiveEvents.KindOfDifference | src/worker_agent/infrastructure/adapters/live_file_runtime.py:518-525 | a path has an event exactly when it changed, of the kind its presence before and after calls for |
| LiveEvents.DiffFolds | src/worker_agent/infrastructure/adapters/live_file_runtime.py:518-526 | the events of a round, applied to the previous snapshot, give the current one |
| LiveEvents.ReplayHarmless | src/worker_agent/infrastructure/adapters/live_file_runtime.py:506-526 | replaying events from before a copy was taken gives the same state as replaying only the later ones |
| LiveEvents.EmitRound | src/worker_agent/infrastructure/adapters/live_file_runtime.py:518-525 | a round calls back for each changed path in order until a call is refused |
| LiveEvents.WatchChanges | src/worker_agent/infrastructure/adapters/live_file_runtime.py:506-526 | the calls turn the first look into the last one taken over; an incomplete look is announced once and ends the watch |
| LiveLog.KeptStep | src/control_plane/application/services/live_file_service.py:67-69 | a deque of bounded length holds the last events of the whole history |
| LiveLog.ReplayIsExact | src/control_plane/application/services/live_file_service.py:127-131 | replay from a cursor of this session gives all later events in order, or a resync exactly when the next one was evicted |
| LiveLog.StaleCursorIsSilent | src/control_plane/application/services/live_file_service.py:127-131 | a cursor beyond the last event gets no events and no resync |
| LiveLog.OfferKeepsStream | src/control_plane/application/services/live_file_service.py:31-39 | offering keeps a subscriber's stream ascending, consecutive between marks, and up to date at its end |
| LiveLog.NothingMissing | src/control_plane/application/services/live_file_service.py:31-39 | between two delivered changes with no mark between them no event is missing |
| LiveSession.LiveSubscription.Offer | src/control_plane/application/services/live_file_service.py:31-39 | an event is appended, or replaces a full queue by one mark; a closed subscription ignores it |
| LiveSession.LiveSubscription.Deliver | src/control_plane/main.py:1641-1653 | taking an item and acknowledging it never raises |
| LiveSession.Session.Publish | src/control_plane/application/services/live_file_service.py:94-99 | the session's whole new state: the event has the next id, joins log and history, and is offered to every subscription |
| LiveSession.Session.ReplayFrom | src/control_plane/application/services/live_file_service.py:127-131 | the session's replay is exact against everything it published |
| LiveService.LiveFileService.FindSession | src/control_plane/application/services/live_file_service.py:78-86 | when a session is refused and why, and the state of the whole service afterwards: the session of the key made or touched, all others as they were |
| LiveService.LiveFileService.Attach | src/control_plane/application/services/live_file_service.py:87-93 | when attaching is refused, and the state of the whole service afterwards: one fresh empty subscription under the key, all other keys as they were |
| LiveService.LiveFileService.PublishChange | src/control_plane/application/services/live_file_service.py:94-99 | when a change is refused, and the state of the whole service afterwards: the event in the log, history and queues of its key, all other keys as they were |
| LiveService.LiveFileService.Replay | src/control_plane/application/services/live_file_service.py:127-131 | a cursor of another key is refused; otherwise the replay is exact for cursors of this session; nothing but the time of activity changes |
| LiveService.LiveFileService.Detach | src/control_plane/application/services/live_file_service.py:155-158 | the subscription leaves its session and is closed; a session that has ended is let be; nothing else changes |
| LiveService.LiveFileService.Invalidate | src/control_plane/application/services/live_file_service.py:137-145 | the session ends and all others stay as they were, its subscriptions close, its key is refused from then on, and at most the oldest refusal is forgotten |
| LiveService.LiveFileService.Reap | src/control_plane/application/services/live_file_service.py:150-154 | exactly the expired sessions end, counted, with their subscriptions closed; all other sessions keep their whole state |
| LiveService.UseTwoKeys | src/control_plane/application/services/live_file_service.py:87-131 | a client on two keys of one service: what is published under one neither reaches a subscription of the other nor changes what is replayed there |
| LiveMirror.MoveKeepsFollowing | src/control_plane/main.py:1619-1653 | publishing, dropping the connection, copying, attaching, replaying from a cursor the client got to, sending and handling keep what is on its way enough to bring the copy up to date |
| LiveMirror.MirrorConverges | src/control_plane/main.py:1619-1653 | over every run with any number of reconnections, however small the log and the queue: a client whose copy covers its cursor has exactly what the watcher last published once nothing is on its way |
| LiveMirror.CanConverge | src/control_plane/application/services/live_file_service.py:127-131 | however a run has gone, the client can connect, replay and drain, with nothing published meanwhile, and then holds what the watcher last published |
| LiveMirror.SnapshotCovers | src/control_plane/main.py:1619-1640 | a copy of any moment covers every cursor up to that moment |
| LiveMirror.ConnectionConvergesIff | src/control_plane/main.py:1629-1653 | for any copy and any cursor, of an earlier session too: the copy ends up to date whatever happens on the connection exactly when the answer has a mark or the copy covers what comes before the cursor |
| LiveMirror.AnswerMarksIff | src/control_plane/application/services/live_file_service.py:127-131 | the answer has a mark exactly when the next event after the cursor was evicted or a later one is itself a resync |
| LiveMirror.EveryCopyConvergesIff | src/control_plane/application/services/live_file_service.py:127-131 | every copy ends up to date exactly under that condition, which the server can test before it answers |
| LiveMirror.OldCursorMisses | src/control_plane/main.py:1629-1631 | a cursor of an earlier session within the history: the client gets no mark and stays without the first change |
| LiveMirror.StaleCursorMisses | src/control_plane/application/services/live_file_service.py:127-131 | a cursor beyond the history: nothing is on its way at once, and a copy that is not up to date stays so |
| LiveMirror.FollowWatch | src/worker_agent/infrastructure/adapters/live_file_runtime.py:506-526 | from the watcher's looks to the client: when a watch's calls are published in order, a client that starts from the first look holds the last look taken over whenever nothing is on its way |
| MountFolders.CandidatesDiffer | src/control_plane/main.py:1520-1524 | names made with different numbers differ |
| MountFolders.NextFolder | src/control_plane/main.py:1519-1524 | the renaming loop ends, with the name itself or the first numbered name not in use, 1 to 64 characters of the alphabet |
| MountFolders.MountFolder | src/control_plane/main.py:1444-1468 | a folder made from a destination is 1 to 64 characters of the alphabet and neither starts nor ends with a dash |
| MountNames.FolderIff | src/control_plane/main.py:1444-1465 | a destination has a folder exactly when it is a printable absolute path of at most 4096 characters whose parts are named, are not in a kernel or Docker directory, the last of which is no socket, and which holds a character that can stand in a name |
| MountNames.FolderText | src/control_plane/main.py:1466-1468 | the folder is the path with every run of other characters made one dash, without outer dashes, cut to 64, and without the dashes that then end it |
| MountNames.EveryDestination | src/control_plane/main.py:1444-1465 | every text has such parts, or only slashes and then no folder |
| MountNames.UsableIff | src/control_plane/main.py:1485-1517 | a volume can be shown exactly when its source is a text of 1 to 4096 characters without NUL, it is described, and it is mounted at a browsable destination |
| MountNames.CandidateText | src/control_plane/main.py:1520-1524 | a numbered name is the base, cut to leave room, without ending dashes, a dash and the number |
| MountFolders.ByDestination | src/control_plane/main.py:1485-1496 | a destination maps to its volume exactly when one volume is bound there |
| MountFolders.DistinctIff | src/control_plane/main.py:1478-1482 | counting the set of selected destinations finds exactly the lists without repetition |
| MountFolders.Describe | src/control_plane/main.py:1510-1529 | descriptors are built exactly when all volumes are usable and none repeats; folders are pairwise distinct |
| MountFolders.MountSource | src/control_plane/main.py:1470-1529 | the whole call succeeds exactly when the choice is presentable, with one descriptor a chosen volume, in order |
| MountFolders.ResolveSources | src/worker_agent/application/services/worker_agent_service.py:437-455 | the worker accepts exactly the lists of usable sources and proper folders without repetition |
| MountNames.PatternIff | src/worker_agent/application/services/worker_agent_service.py:437-455 | the folder pattern is 1 to 64 letters, digits, underscores and dashes |
| MountFolders.WorkerAccepts | src/worker_agent/application/services/worker_agent_service.py:437-455 | the worker accepts every list the control plane builds, provided it can use the sources |
| Ownership.ParseCanonical | src/app/domain/restore_ownership.py:25-34 | canonical text parses to its ids and is its own canonical form |
| Ownership.UidGidRead | src/app/domain/restore_ownership.py:25-29 | a text is read exactly when it is two non-empty runs of digits with a colon between, each as its number |
| Ownership.CanonicalIff | src/app/domain/restore_ownership.py:25-34 | two texts have one canonical form exactly when they name the same ids |
| Ownership.MergeScopes | src/app/domain/restore_ownership.py:213-231 | merging succeeds exactly when all entries are scopes and no key names two sources or paths; each result sums up its key; a refusal carries the first fault |
| Ownership.ValidateVolumeScopes | src/app/domain/restore_ownership.py:213-241 | accepted exactly when consistent, known and unambiguous, with the category of the refusal |
| Ownership.OrderIrrelevant | src/app/domain/restore_ownership.py:213-241 | reordering the list changes neither acceptance nor the source, path and identities of any key |
| Ownership.MergesAgree | src/app/domain/restore_ownership.py:213-231 | merges of two orders of a list agree on every key, absent values identified |
| Ownership.FaultIsUnique | src/app/domain/restore_ownership.py:213-231 | a list has one first fault, so a refusal has one category |
| Ownership.OneCategoryIff | src/app/domain/restore_ownership.py:213-231 | all orders of a list are refused with one category exactly when the categories of its entries, with a collision if its scopes do not agree, are at most one |
| Ownership.CategoryDependsOnOrder | src/app/domain/restore_ownership.py:213-231 | a list whose two orders are each refused with exactly one category, and not the same |
| Ownership.NoScopesNoMappings | src/app/domain/restore_ownership.py:232-235 | with no volume in scope a policy is known exactly when it maps nothing explicitly |
| Ownership.SignatureIsAlike | src/app/domain/restore_ownership.py:244-247 | equal signatures mean equal treatment of every volume in scope |
| Ownership.ExpandKeeps | src/app/domain/restore_ownership.py:273-279 | writing out the default mapping changes no volume's mapping |
| Ownership.Resolve | src/app/domain/restore_ownership.py:250-279 | resolution succeeds exactly when scopes, layers, confirmation and agreement hold, and fails with the category of the first check that does not: unasked mapping requires confirmation, a declined request is declined; a resolved request that maps owners was confirmed, and so is the result; the result maps every in-scope volume as every supplied layer does |
| OwnershipLayers.ResolvedMeans | src/app/domain/restore_ownership.py:250-279 | the resolved policy gives each volume in scope the owner every layer gives it, the legacy text's own owner included, and carries the first layer's confirmation: the request's, none from target defaults, a given one from the legacy text; with no layer it preserves |
| CommandPolicy.NormalIsFixed | src/worker_agent/application/policies/runtime_command_policy.py:137-154 | a normalised path is accepted again and unchanged, and brings in no new character but slashes |
| CommandForms.NormalNamesSamePlace | src/worker_agent/application/policies/runtime_command_policy.py:137-154 | a normalised path has the named parts of the given one, in order |
| CommandPolicy.TreeTextIsFixed | src/worker_agent/application/policies/runtime_command_policy.py:157-167 | a rewritten tree target names the same snapshot and path |
| CommandPolicy.CheckRetention | src/worker_agent/application/policies/runtime_command_policy.py:85-98 | the index loop accepts exactly sequences of prune flags and counted keep options |
| CommandPolicy.ValidateCommand | src/worker_agent/application/policies/runtime_command_policy.py:18-102 | the validator computes the specified list, whose items are clean, without lock flag, and accepted unchanged |
| CommandForms.ValidateAccepts | src/worker_agent/application/policies/runtime_command_policy.py:18-102 | a command of one of the eleven allowed forms is accepted as that form with its lock flags dropped and its path written plainly |
| CommandForms.AcceptedHasForm | src/worker_agent/application/policies/runtime_command_policy.py:18-102 | every accepted command is of such a form: harmless items, valid id, path without steps upwards, counted keep options, lock flags on reading commands only |
| CommandForms.CanonicalAllowed | src/worker_agent/application/policies/runtime_command_policy.py:18-102 | writing the path plainly keeps the form allowed |
| CommandForms.LockAdded | src/worker_agent/application/policies/runtime_command_policy.py:112-124 | of any list, the flag is added once, at the end, exactly when asked for and the list starts as a reading command without it |
| CommandForms.LockFlagIff | src/worker_agent/application/policies/runtime_command_policy.py:120-124 | the lock policy adds its flag exactly when asked to and the form only reads |
| CommandPolicy.ValidateIdempotent | src/worker_agent/application/policies/runtime_command_policy.py:18-102 | validating an accepted command again changes nothing |
| CommandPolicy.RevalidateAfterLock | src/worker_agent/application/policies/runtime_command_policy.py:120-124 | with or without the lock flag, validation gives back the same list |
| CommandPolicy.AcceptedScope | src/worker_agent/application/policies/runtime_command_policy.py:219-245 | an accepted snapshot command names a valid id and a normal absolute path; any other names none |
| CommandPolicy.SnapshotScopeIsValid | src/worker_agent/application/policies/runtime_command_policy.py:219-245 | the same for every validated command, with or without the lock flag |
| CommandForms.ScopeIff | src/worker_agent/application/policies/runtime_command_policy.py:219-245 | of any list the scope is what it names without lock flags and cache directory; a tree target that cannot be read raises |
| CommandForms.ScopeOfCommand | src/worker_agent/application/policies/runtime_command_policy.py:219-245 | an accepted command names exactly the snapshot and place of its form, with a lock flag or a cache directory as without |
| Quiesce.MatchingIsListed | src/worker_agent/infrastructure/adapters/kubernetes_runtime.py:203-217 | what matches is exactly what mounts a selected claim, each workload once |
| Quiesce.KubernetesRuntimeAdapter.Resume | src/worker_agent/infrastructure/adapters/kubernetes_runtime.py:223-233 | every changed workload is back at its count or, where its patch failed, at zero; no errors exactly when no patch failed |
| Quiesce.KubernetesRuntimeAdapter.Quiesce | src/worker_agent/infrastructure/adapters/kubernetes_runtime.py:234-254 | either all matching workloads are at zero and remembered, or everything is put back |
| Quiesce.KubernetesRuntimeAdapter.RunRuntimeJob | src/worker_agent/infrastructure/adapters/kubernetes_runtime.py:497-518 | whatever fails, every count is its initial value unless its resume patch failed; success exactly when the job succeeded and no patch failed; canceled exactly when a cancel check said so, before, after scaling down, or while polling |
| WorkerAuth.WorkerAuthState.Current | src/control_plane/infrastructure/security/worker_auth.py:93-99 | the current credential is the active one, if any; raises when its version is no number |
| WorkerAuth.WorkerAuthState.CreateEnrollment | src/control_plane/infrastructure/security/worker_auth.py:118-139 | a new enrollment under its digest, pending ones of the worker removed on demand |
| WorkerAuth.WorkerAuthState.Complete | src/control_plane/infrastructure/security/worker_auth.py:141-152 | completing uses the enrollment up and replaces the worker's credential by its next version, the given one if it had none; raises when the version to follow is no number |
| WorkerAuth.WorkerAuthState.CompleteV2 | src/control_plane/infrastructure/security/worker_auth.py:171-187 | the answer and the new state of a v2 completion, first or repeated |
| WorkerAuth.WorkerAuthState.Rotate | src/control_plane/infrastructure/security/worker_auth.py:265-274 | the current credential makes way for the next version |
| WorkerAuth.WorkerAuthState.Revoke | src/control_plane/infrastructure/security/worker_auth.py:276-282 | the named or current credential is revoked; raises when there is none |
| WorkerAuth.WorkerAuthState.RevokeAll | src/control_plane/infrastructure/security/worker_auth.py:284-296 | no credential of the worker stays active |
| WorkerAuth.WorkerAuthState.DeleteWorker | src/control_plane/infrastructure/security/worker_auth.py:298-316 | the worker's credentials, enrollments and their attempts are gone, nothing else |
| WorkerAuth.StepKeepsOne | src/control_plane/infrastructure/security/worker_auth.py:118-296 | no call gives a worker a second active credential |
| WorkerAuth.RunKeepsOne | src/control_plane/infrastructure/security/worker_auth.py:118-316 | over any calls, with whatever version texts, a state with at most one active credential a worker stays one |
| WorkerAuth.AtMostOneActive | src/control_plane/infrastructure/security/worker_auth.py:118-316 | in every run from the empty state each worker has at most one active credential |
| WorkerAuth.RetryIsStable | src/control_plane/infrastructure/security/worker_auth.py:171-232 | after a v2 completion, until the secret is enrolled again or the worker deleted, the same attempt gets the same grant and changes nothing, and every other attempt is refused |
| WorkerAuth.EnrolledAgain | src/control_plane/infrastructure/security/worker_auth.py:220-232 | enrolling the secret again leaves it bound to its first attempt |
| WorkerAuth.DeletedWorkerStaysBound | src/control_plane/infrastructure/security/worker_auth.py:298-316 | a run from the empty state after which a secret is bound to a worker that was deleted |
| WorkerAuth.DeletionFreesIff | src/control_plane/infrastructure/security/worker_auth.py:311-315 | deleting a worker frees a completed secret exactly when the secret is enrolled for it at the time |
| WorkerAuthEffects.NextVersionIff | src/control_plane/infrastructure/security/worker_auth.py:148 | a version is followed exactly when it is a number and the next can be written and read, and by that next number |
| WorkerAuthEffects.EnrollEffect | src/control_plane/infrastructure/security/worker_auth.py:118-139 | an enrollment is open until its minutes are over; the worker's other open ones go exactly on demand |
| WorkerAuthEffects.CompleteEffect | src/control_plane/infrastructure/security/worker_auth.py:141-152 | completing works exactly on an open enrollment, issues its secret as the only active credential under the next version, revokes the one before, and uses the enrollment up |
| WorkerAuthEffects.CompleteV2Effect | src/control_plane/infrastructure/security/worker_auth.py:171-187 | a first v2 completion does that with the worker's own secret and remembers the attempt; any other changes nothing |
| WorkerAuthEffects.EnrollmentIsUsedOnce | src/control_plane/infrastructure/security/worker_auth.py:141-187 | over every run that does not enroll the secret again, completing it a second time is refused and changes nothing |
| WorkerAuthEffects.RotateEffect | src/control_plane/infrastructure/security/worker_auth.py:265-274 | rotating issues the new secret under the next version and revokes the one before; a short secret or an unreadable version changes nothing |
| WorkerAuthEffects.RevokeEffect | src/control_plane/infrastructure/security/worker_auth.py:276-282 | exactly the named record or the active one is revoked |
| WorkerAuthEffects.RevokeAllEffect | src/control_plane/infrastructure/security/worker_auth.py:284-296 | the worker's active records are revoked at that time, all others stay |
| WorkerAuthEffects.DeleteEffect | src/control_plane/infrastructure/security/worker_auth.py:298-316 | exactly the records, enrollments and attempts of the worker go |

## Left out

- `int` and `str.isdigit` read the digits of Unicode 14.0, as CPython 3.11 does, and at most 4300 of them.
- Times with a zone in lease columns.
- Least-instant results of the cron search in zones that repeat local hours: there the search goes in wall-clock order.
- CronSearch.NextRun: claims the least instant only for fixed-offset zones and bases a horizon away from year 9999.
- The scheduler's thread, settings and target lists: a tick gets its targets, its minute and what its lookups answer.
- JobMemory.InMemoryJobRepository.UpdateProgress: without the fields it merges from `result_summary` (storage and lease context, diagnostics): many fields, no structure.
- JobSqlite.SQLiteJobRepository.UpdateProgress: without the same fields.
- ProgressReporter.JobProgressReporter.Emit: what one line says of phase and progress (JSON of restic, or a phrase in it) is a function given to the reporter; the monotonic clock is a real number.
- Redaction of log lines is a parameter of a report.
- `update_job_status` raising after it assigned the status, on a lease context it cannot read or a snapshot list it cannot store: the in-memory repository's live record then keeps those assignments, though nothing was saved.
- Interleaving inside one service or repository call, such as two threads between the read and the save of `update_job_status`.
- Byte chunks that cut a UTF-8 sequence: output arrives as text.
- Cancellation inside a snapshot traversal and the helper's JSON transport.
- LiveSnapshot.WatchSnapshot: entries come in the order of the given tree, and a tree does not change while it is scanned, but for entries that vanish between being listed and being asked for their data.
- `LiveFileService.invalidate_target`, which calls `invalidate` on each key it selects; raw streams; entry cursors; `_live_file` and HTTP.
- LiveService.LiveFileService.Replay: a cursor is what it was issued for; forging one is outside the model.
- Event kinds other than created, modified, deleted and resync_required.
- The agreement of nested snapshot keys with the control plane's path normaliser, which refuses empty parts.
- Coercing mappings and dictionaries into policies and scopes: a layer or entry arrives coerced, or with the category it raised; the pattern of stable volume keys.
- Kubernetes, Docker, Restic and Redis calls beyond "a patch succeeds or raises and then changes nothing"; payload validation and manifests are parameters that may raise.
- `WorkerAuthState.authenticate` with its nonces, and the SQLite paths of that class.
- HTTP handlers, event streams on the wire, sessions, the web interface, target and settings editing, inventory and secrets.

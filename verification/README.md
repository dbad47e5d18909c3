# Verified model of the traffic pumper

The repository runs download lines against a rotating list of sources. This project models its five stateful
cores and proves what they keep over whole runs.

* **Traffic ledger and fleet scheduler.** Irregular SNMP polls become rows per account and minute
  (`BusinessHours`, `TrafficRows`, `TrafficLedger`, `TrafficLedgerLaws`, `FleetStore`). The scheduler chooses lines
  under a quota, a rotation minimum, cooldowns and a debt order (`LineHealth`, `Ordering`, `FleetScheduler`,
  `FleetSchedulerLaws`, `FleetController`). Counters are those of the IF-MIB (section 6 of RFC 2863).
* **Circuit breaker and worker pool of the helper.** Failures, quarantine levels, half-open probes and epochs shared
  by all workers (`SourceHealth`, `SourceHealthLaws`); slots, tokens and stopping workers under signals
  (`WorkerPool`, `WorkerPoolLaws`).
* **Source list manager.** Rollback protection, a state file and an envelope file written one after the other, a crash
  at any write, and entity tags (section 13.1.2 of RFC 9110) (`SourceManager`, `SourceManagerLaws`).
* **Publisher.** Write-once releases, a mutable `latest.json`, local state and recovery (`Publisher`,
  `PublisherLaws`), and the document both sides must agree on (`Calendar`, `Manifest`).
* **Hot reload.** Stage a pool on every line, read acknowledgements, switch when all have confirmed (`HotReload`,
  `HotReloadLaws`), manager and controller as one process (`SourceUpdates`), and reading the helper's output
  (`OutputStream`).

Code that changes things in place is a class whose methods are proved against functions on values; the laws are then
proved about those functions, and about relations `Step` and `Run` that also let the environment act (the clock,
crashes, late results, lost writes, server answers). Times are whole microseconds and integers are unbounded; a 64-bit
counter that wraps around is one that falls, which the ledger books as a reset, as the source does.

Assumptions that are not proved: an atomic write either happens or does not; signature verification is a fixed
function of the bytes; the object store is linearizable and one publisher runs at a time; clocks do not go back within
a run where a law says so.

Where the code does not do what one might expect, the law says exactly when it does:

* An ordinary download that succeeds while a probe of the same source is running clears the half-open mark, and a
  second probe can then start (`OrderlyIsExact`, `SecondProbe`, `SecondProbeHappens`).
* A response without an entity tag leaves the old tag attached to a new envelope (`MissingTag`,
  `OldTagForNewEnvelope`).
* A revision raised above the previous one need not be an instant any more (`RevisionReadsAsInstant`,
  `SixtiethSecond`); the publisher's own runs never raise one (`RevisionsAreStamps`).
* The pruned window judges like the full history only below 400 samples (`WindowVerdict`, `FullDequeMissesSlowLine`,
  `SlowLineStaysActive`).
* Lines longer than 65,536 characters are treated according to how the stream is cut (`CuttingMattersOnlyForLongLines`).
* Stopping and starting a line forgets the bytes of the stopped process (`StopForgets`, `FiveBytesForgotten`).

## Model

| member | source | states |
|---|---|---|
| BusinessHours.BusinessSeconds | steam_pumper/fleet.py:606-621 | the day-by-day loop returns the length of the part of the interval that lies in the daily window, over any number of days |
| BusinessHours.CountsWindowInstants | steam_pumper/fleet.py:606-621 | that length is the number of instants of the interval whose Shanghai time of day is at or after 18:00, counted one by one |
| BusinessHours.Additive | steam_pumper/fleet.py:606-621 | splitting an interval anywhere changes nothing |
| BusinessHours.WithinInterval | steam_pumper/fleet.py:606-621 | never negative and never more than the interval |
| BusinessHours.Monotone | steam_pumper/fleet.py:606-621 | extending an interval never reduces it |
| BusinessHours.SixHoursADay | steam_pumper/fleet.py:606-621 | whole days hold exactly six hours each, wherever they start |
| TrafficRows.AddIntervalTraffic | steam_pumper/fleet.py:578-604 | the walking loop ends and books exactly the per-minute split of every amount |
| TrafficRows.Allocate | steam_pumper/fleet.py:593-604 | handing out the running remainder books the same rows as the split of each column |
| TrafficRows.SegmentsTile | steam_pumper/fleet.py:587-592 | the segments are the minutes the interval meets, each once, in order, with its exact overlap |
| TrafficRows.SegmentCount | steam_pumper/fleet.py:587-592 | there are as many segments as minutes met |
| TrafficRows.SplitSums | steam_pumper/fleet.py:593-604 | the shares add up to the amount |
| TrafficRows.SplitRoundsDown | steam_pumper/fleet.py:593-604 | every share but the last is its exact proportion rounded down |
| TrafficRows.SplitLast | steam_pumper/fleet.py:593-604 | the last share is over its own proportion by less than one unit for each other segment |
| TrafficRows.IntervalIsFair | steam_pumper/fleet.py:578-604 | shares are non-negative, sum to the amount and are fair, for any interval and amount |
| TrafficRows.AddIntervalTotal | steam_pumper/fleet.py:578-604 | a column's total over any range of minutes holding the interval grows by exactly the amount given |
| TrafficRows.BookedByMinute | steam_pumper/fleet.py:578-604 | minute by minute, without reference to the computation: nothing outside the overlap, proportional inside, the rest in the last minute |
| TrafficRows.ClearTotal | steam_pumper/fleet.py:533-540 | clearing pending unknown time leaves every other column's total alone and empties the cleared minutes' unknown seconds |
| TrafficRows.DropTotal | steam_pumper/fleet.py:726-730 | pruning below the kept minutes leaves their totals alone |
| TrafficLedgerLaws.MeasuredTelescopes | steam_pumper/fleet.py:412-498 | over any run of steady polls, measured upload and download are the difference of the last and the first counters, whatever polls between were missing, offline or ambiguous |
| TrafficLedgerLaws.RunCounts | steam_pumper/fleet.py:412-500 | over every run of polls in order, with any resets, gaps and impossible increments, the measured total is the sum of what each poll counts on the cursor of the events before it |
| TrafficLedgerLaws.PollAddsMeasured | steam_pumper/fleet.py:430-498 | any single poll adds to a measured column its increment if it counts and time has passed, and nothing otherwise |
| TrafficLedgerLaws.SpellTelescopes | steam_pumper/fleet.py:445-498 | between resets measured traffic telescopes: after any run, a spell of steady polls adds the difference of the counters of its last reading and of the reading before it |
| TrafficLedgerLaws.RunMeasures | steam_pumper/fleet.py:412-500 | the measured total after a run is the sum of the increments the events alone determine |
| TrafficLedgerLaws.IncrementsTelescope | steam_pumper/fleet.py:445-498 | the increments of successive readings add up to last minus first |
| TrafficLedgerLaws.CursorMirrors | steam_pumper/fleet.py:502-531 | after any run the stored cursor is what the last reading and the last poll determine |
| TrafficLedgerLaws.RowsContained | steam_pumper/fleet.py:412-498 | no minute outside the span of the polls ever carries anything |
| TrafficLedgerLaws.UnknownNeverDoubleCounted | steam_pumper/fleet.py:430-498 | with non-decreasing poll times the unknown seconds never exceed the whole seconds since the first poll |
| TrafficLedgerLaws.BlindSpellIsItsLength | steam_pumper/fleet.py:432-439 | consecutive missing polls book exactly the seconds they span, however many they are |
| TrafficLedgerLaws.RecoveryLeavesNothingUnknown | steam_pumper/fleet.py:471-498 | a recovery with both directions in range leaves no unknown second from the baseline's minute on |
| TrafficLedgerLaws.CountsWhen | steam_pumper/fleet.py:446-470 | over a run a poll counts exactly if there is a reading before it of the same interface, no counter has fallen since, and neither device nor counters are known to have started anew |
| TrafficLedgerLaws.ResetAdds | steam_pumper/fleet.py:464-470 | a reset measures nothing, estimates both directions from the half hour before for at most half an hour, upload in the evening window alone, counts one interruption, and leaves as unknown what lies beyond half an hour, or the whole gap where there is no rate |
| TrafficLedgerLaws.CountedAdds | steam_pumper/fleet.py:471-498 | a poll that counts measures a gain that fits the line speed with five per cent to spare and estimates one that does not, each in its own column |
| TrafficLedgerLaws.CeilingIsExact | steam_pumper/fleet.py:471-498 | the ceiling is the largest count of bytes that fits that speed |
| TrafficLedgerLaws.MissingAdds | steam_pumper/fleet.py:432-439 | a poll in vain books the time since the last poll as unknown and nothing else |
| TrafficLedgerLaws.ObservedIs | steam_pumper/fleet.py:412-444 | a poll sees an interface exactly if one alone of those that bear the name is up or does not say; otherwise it says ambiguous, offline or missing |
| TrafficLedgerLaws.SeenVerdict | steam_pumper/fleet.py:445-470 | the first poll of an interface is a baseline, and one that does not go on from the last reading is a reset |
| TrafficLedgerLaws.CountedVerdict | steam_pumper/fleet.py:471-498 | one that goes on is recovered after polls in vain, and otherwise an anomaly exactly if a gain does not fit |
| TrafficLedgerLaws.ReportedIsKept | steam_pumper/fleet.py:389-500 | over every run, what a minute says the helper downloaded is the sum of the positive amounts reported in it and not pruned since; no poll adds to it or takes from it |
| TrafficLedgerLaws.MissingMarks | steam_pumper/fleet.py:430-443 | a poll that sees no interface marks exactly the unmarked minutes it meets since the last poll as a pending gap, and no minute loses a mark |
| TrafficLedgerLaws.ReturnMarks | steam_pumper/fleet.py:445-498 | a poll that sees it turns exactly the pending gaps since the baseline into recovered ones and marks exactly the unmarked minutes it meets with its verdict |
| TrafficLedgerLaws.CursorMarked | steam_pumper/fleet.py:502-531 | over any run the cursor is valid exactly after a reading and remembers since when polls are in vain |
| FleetStore.IndexByIdentity | steam_pumper/fleet.py:404-407 | each name or alias finds exactly the interfaces that carry it, in order, none twice |
| FleetStore.FleetStore.AddIntervalTraffic | steam_pumper/fleet.py:578-604 | only the account's own rows change, by the interval booking |
| FleetStore.FleetStore.RecordDownload | steam_pumper/fleet.py:389-394 | only a positive amount is booked, only in its minute |
| FleetStore.FleetStore.SaveCursor | steam_pumper/fleet.py:502-523 | the account's cursor becomes the reading; no row and no other cursor changes |
| FleetStore.FleetStore.SaveMissingCursor | steam_pumper/fleet.py:525-531 | a missing poll moves the poll time on and keeps the baseline of the counters |
| FleetStore.FleetStore.ClearPendingUnknown | steam_pumper/fleet.py:533-540 | only pending unknown time of the account between the two instants is forgotten |
| FleetStore.FleetStore.EstimatedBytes | steam_pumper/fleet.py:560-576 | the computed estimate is the one the laws bound, none without measured time |
| TrafficLedgerLaws.EstimateIsModest | steam_pumper/fleet.py:560-576 | an estimate is never negative, never above the measured rate times the gap or times half an hour, and for upload never above the rate times the evening part of that time |
| FleetStore.FleetStore.RecordEstimatedGap | steam_pumper/fleet.py:542-558 | a reset gap is booked as estimated and unknown time, never as measured traffic |
| FleetStore.FleetStore.RecordCounted | steam_pumper/fleet.py:471-498 | a continuous reading books its increments and the verdict on them |
| FleetStore.FleetStore.RecordAccount | steam_pumper/fleet.py:412-498 | one poll of one account changes that account's ledger as the poll law says, whichever branch it takes |
| FleetStore.FleetStore.PollAccounts | steam_pumper/fleet.py:412-500 | every account is polled once, each on its own ledger |
| FleetStore.FleetStore.RecordSnmp | steam_pumper/fleet.py:396-500 | one walk polls all accounts and prunes; accounts no longer listed are only pruned |
| FleetStore.FleetStore.Prune | steam_pumper/fleet.py:726-730 | every account keeps exactly its rows of the kept minutes |
| LineHealth.Trim | steam_pumper/fleet.py:944-945 | the in-place pruning drops from the front only; whenever it drops, two samples or more remain, the first at or before the cutoff, and a second of three is after it |
| LineHealth.WindowFollows | steam_pumper/fleet.py:911-945 | after any number of polls the window is a true end of the full history that still reaches its newest sample before the cutoff, capacity permitting |
| LineHealth.WindowVerdict | steam_pumper/fleet.py:936-956 | the pruned window calls a line slow exactly when the full history does and fewer than 400 samples lie inside the window |
| LineHealth.FullDequeMissesSlowLine | steam_pumper/fleet.py:911-956 | with any slow window of 400 seconds or more, a line that delivers a byte a second and is polled once a second has a slow full history and is never found slow |
| FleetSchedulerLaws.SelectedFacts | steam_pumper/fleet.py:965-1010 | the selection holds only eligible accounts and is as large as quota and eligibility allow |
| FleetSchedulerLaws.ScheduleFillsQuota | steam_pumper/fleet.py:965-1010 | with downloads enabled exactly min(quota, eligible) eligible accounts are active afterwards |
| FleetSchedulerLaws.NobodyOvertaken | steam_pumper/fleet.py:999-1029 | no eligible account that is left out ranks before a chosen one |
| FleetSchedulerLaws.DebtComesFirst | steam_pumper/fleet.py:1012-1029 | the rank puts those who owe downloads first, the deepest debt before all others |
| FleetSchedulerLaws.RankIs | steam_pumper/fleet.py:1012-1029 | the whole rank: deeper debt, less served, started longer ago, smaller id |
| FleetSchedulerLaws.DebtReachesTarget | steam_pumper/fleet.py:1012-1029 | the debt is the least download that reaches the target share of the upload |
| FleetSchedulerLaws.EligibleWhen | steam_pumper/fleet.py:972-987 | an account is eligible exactly if it is enabled, its cooldown is over, and the last poll did not find it offline, missing or ambiguous |
| FleetSchedulerLaws.EligibleIsListed | steam_pumper/fleet.py:972-987 | only listed accounts are eligible |
| FleetSchedulerLaws.QuotaByTheClock | steam_pumper/fleet.py:1031-1040 | ten lines until one o'clock in Shanghai, twenty until seven, ten until 18:00, none in the evening |
| FleetSchedulerLaws.ProtectedWhen | steam_pumper/fleet.py:988-998 | a running line is protected exactly if it is enabled and eligible, younger than the rotation minimum, and its helper works |
| FleetSchedulerLaws.CooldownsEnd | steam_pumper/fleet.py:972-987 | a scheduling step forgets exactly the cooldowns that are over |
| FleetSchedulerLaws.OtherEventsKeep | steam_pumper/fleet.py:1069-1087 | switching off and importing stop all lines, and nothing but polling and scheduling touches a cooldown |
| FleetSchedulerLaws.ProtectedLinesStay | steam_pumper/fleet.py:988-1004 | if the young healthy lines fit the quota, none of them is stopped |
| FleetSchedulerLaws.OldOrNew | steam_pumper/fleet.py:1002-1010 | a line active after a step was running before, untouched, or starts now |
| FleetSchedulerLaws.SweepCooldowns | steam_pumper/fleet.py:908-934 | a sweep over the engines gives cooldowns to the failed lines only and moves no other |
| FleetSchedulerLaws.SweepSurvivors | steam_pumper/fleet.py:908-934 | nothing but the healthy lines remains after a sweep, one for each account |
| FleetSchedulerLaws.SweepKeepsHealthy | steam_pumper/fleet.py:908-934 | every healthy line remains after a sweep, whatever fails beside it |
| FleetSchedulerLaws.RunsAreSafe | steam_pumper/fleet.py:908-1087 | over every run from the controller's start no active account cools down, at most 20 lines are active, no account has two, and none is active while switched off |
| FleetSchedulerLaws.EveningIsQuiet | steam_pumper/fleet.py:1031-1040 | after a scheduling step from 18:00 to 24:00 nothing is active |
| FleetSchedulerLaws.QuarantineHolds | steam_pumper/fleet.py:958-986 | over every run a quarantined account is not restarted before its deadline, which does not move |
| FleetSchedulerLaws.FailureQuarantines | steam_pumper/fleet.py:908-963 | a failing line is out at once and cools down for the configured time |
| FleetSchedulerLaws.HealthFollowsHistory | steam_pumper/fleet.py:908-956 | a polled line fails exactly when its history shows no progress for the stall limit or is slow over fewer than 400 samples |
| FleetSchedulerLaws.SamplesAreWindow | steam_pumper/fleet.py:908-934 | over every run the samples of an active line are the pruned window of everything it has reported since it started |
| FleetSchedulerLaws.HistoryInTime | steam_pumper/fleet.py:908-934 | over every run in time the history of an active line is in order |
| FleetSchedulerLaws.QuarantineIsExact | steam_pumper/fleet.py:908-963 | over every run in time a polled line is quarantined exactly when everything it has reported since its start shows no progress for the stall limit, or is slow over fewer than 400 samples |
| FleetSchedulerLaws.HistoryIsRemembered | steam_pumper/fleet.py:917-921 | over every run an active line remembers the last count it reported and the instant of the newest report that had more bytes than the one before, its start if there is none |
| FleetSchedulerLaws.StoppedJustLeaves | steam_pumper/fleet.py:922-926 | a line whose helper has stopped leaves without a quarantine |
| FleetSchedulerLaws.SlowLineStaysActive | steam_pumper/fleet.py:908-956 | under settings the program accepts there are runs of any length in which such a line, never stalled, stays active |
| FleetController.FleetController.PollOne | steam_pumper/fleet.py:908-956 | one engine's report is judged on the line as it is after the report |
| FleetController.FleetController.PollEngines | steam_pumper/fleet.py:908-934 | deleting lines while walking a snapshot gives the sweep of the laws |
| FleetController.FleetController.KeepYoung | steam_pumper/fleet.py:988-998 | the kept ids are the protected lines in order of insertion, up to the quota |
| FleetController.FleetController.Select | steam_pumper/fleet.py:972-1001 | kept and chosen accounts make the selection the laws speak of |
| FleetController.FleetController.StopOthers | steam_pumper/fleet.py:1002-1004 | exactly the lines outside the selection are stopped |
| FleetController.FleetController.StartMissing | steam_pumper/fleet.py:1005-1010 | one new line for each selected account that had none, in whatever order |
| FleetController.FleetController.Schedule | steam_pumper/fleet.py:965-1010 | one call is one scheduling step of the laws |
| FleetController.FleetController.SetManualEnabled | steam_pumper/fleet.py:1069-1073 | switching off stops every line; switching on starts none by itself |
| FleetController.FleetController.ImportAccounts | steam_pumper/fleet.py:1081-1087 | importing replaces the accounts and stops every line |
| SourceHealth.SourceHealth.ClaimCurrent | cmd/discarder/main.go:261-287 | a claim is granted, delayed or made a probe as the shared state says; only a probe changes it |
| SourceHealth.SourceHealth.FailedCurrent | cmd/discarder/main.go:295-331 | a failure of the current epoch is recorded, one of any other epoch is not |
| SourceHealth.SourceHealth.SucceededCurrent | cmd/discarder/main.go:341-350 | a success of the current epoch clears the URL's record and tells whether there was one |
| SourceHealth.SourceHealth.ReleaseProbeCurrent | cmd/discarder/main.go:360-369 | an abandoned probe gives back the mark of its own epoch only |
| SourceHealth.SourceHealth.Retain | cmd/discarder/main.go:383-410 | after a reload exactly the listed URLs are tracked; those kept keep state and epoch, new ones get epochs never used before, in any map order |
| SourceHealth.SourceHealth.EnsureTracked | cmd/discarder/main.go:412-423 | the first worker's list is numbered, later calls change nothing |
| SourceHealth.SourceHealth.SelectSource | cmd/discarder/main.go:751-774 | a worker takes the first claimable source after its position, or waits the shortest time any source asks for, a quarter second if none does |
| SourceHealthLaws.NoSourceStuckHalfOpen | cmd/discarder/main.go:261-369 | over every interleaving a half-open source has an outstanding probe of its current epoch |
| SourceHealthLaws.StaleChangesNothing | cmd/discarder/main.go:302-304 | an outcome whose epoch is not the current one leaves the whole health state unchanged |
| SourceHealthLaws.StaleStays | cmd/discarder/main.go:383-410 | an attempt that is stale stays so for ever, since epochs are never used again |
| SourceHealthLaws.RemovalSilences | cmd/discarder/main.go:383-410 | a failure, success or release of an attempt outstanding when its URL was gone changes nothing at any later time, however often the URL returns |
| SourceHealthLaws.OrderlyRunsAreOrdered | cmd/discarder/main.go:261-350 | if no ordinary attempt succeeds while a probe runs: one probe per URL epoch, the mark set exactly while it runs, level min(k+1, 3) after k failed probes and the deadline of that level |
| SourceHealthLaws.FailureMoves | cmd/discarder/main.go:310-331 | in such runs a failed probe raises the level and starts its delay, a late ordinary failure moves neither level nor deadline, and the third failure quarantines |
| SourceHealthLaws.AnyFailure | cmd/discarder/main.go:310-331 | what a failure does to any state, in runs of any kind: levels 1, 2 and 3 with ten, thirty and sixty minutes after failed probes, a second and two seconds before the third failure, which quarantines |
| SourceHealthLaws.NoClaimInQuarantine | cmd/discarder/main.go:275-286 | in such runs no download is granted before the delay since the last counted failure has passed, and in quarantine only one, as a probe |
| SourceHealthLaws.AskIsExact | cmd/discarder/main.go:261-287 | in such runs a request starts a download exactly if the URL is tracked, the pause after its last counted failure (one second, two, then ten, thirty or sixty minutes) is over and, from the third strike on, no probe runs; as a probe exactly from the third strike on; a refusal tells what is left of the pause, or a quarter second |
| SourceHealthLaws.NeverIdleBesideAReadySource | cmd/discarder/main.go:751-774 | a worker never waits while a listed source may be downloaded from |
| SourceHealthLaws.WaitIsShortest | cmd/discarder/main.go:767-769 | a waiting worker waits no longer than any source asks for |
| SourceHealthLaws.WaitIsAsked | cmd/discarder/main.go:767-769 | what it waits is what some source asks for |
| SourceHealthLaws.OutcomesAnswer | cmd/discarder/main.go:295-350 | a failure is recorded exactly in the current epoch, and a recovery reported exactly if it ends a record of that epoch |
| SourceHealthLaws.RetryDelayDoubles | cmd/discarder/main.go:842-852 | the delay between tries doubles from one second up to half a minute |
| SourceHealthLaws.OrderlyIsExact | cmd/discarder/main.go:341-350 | an ordinary success keeps the mark exact if and only if no probe of the URL is outstanding |
| SourceHealthLaws.SecondProbe | cmd/discarder/main.go:341-350 | one success and three failures that outlast a probe always let a second one start beside it |
| SourceHealthLaws.SecondProbeHappens | cmd/discarder/main.go:261-350 | a run from the empty state reaches two outstanding probes of one URL epoch |
| WorkerPool.Connections | cmd/discarder/main.go:507-525 | options that pass, with absent ones filled in, satisfy 1 <= connections <= max <= 12, and only those pass |
| WorkerPool.FreeSlot | cmd/discarder/main.go:611-620 | with fewer workers than slots the search for a free one succeeds, at the smallest |
| WorkerPool.WorkerPool.constructor | cmd/discarder/main.go:585-621 | the pool starts reconciled |
| WorkerPool.WorkerPool.StartWorker | cmd/discarder/main.go:591-610 | a slot gets a fresh token and a goroutine of its own |
| WorkerPool.WorkerPool.Reconcile | cmd/discarder/main.go:611-620 | the nested loops end and fill the smallest free slots up to the target |
| WorkerPool.WorkerPool.Grow | cmd/discarder/main.go:670-672 | one more is asked for, up to the maximum, and started |
| WorkerPool.WorkerPool.Shrink | cmd/discarder/main.go:673-682 | one fewer is asked for, down to one, and the highest worker not yet stopping is told to stop |
| WorkerPool.WorkerPool.Reload | cmd/discarder/main.go:658-662 | every worker is told to stop and keeps its slot and token |
| WorkerPool.WorkerPool.TakeResult | cmd/discarder/main.go:684-697 | a result frees the slot of its own worker, which is then refilled as needed |
| WorkerPoolLaws.ReconciledCounts | cmd/discarder/main.go:611-620 | as many workers are added as the target asks for, none stopping, with the next tokens |
| WorkerPoolLaws.LoopHeadsAreSound | cmd/discarder/main.go:585-709 | at every loop head of every run: non-stopping <= target <= live <= max, slots in 1..max, distinct tokens, and one goroutine, running or reported, for each worker |
| WorkerPoolLaws.SettledMeansTarget | cmd/discarder/main.go:611-697 | whenever no worker is stopping there are exactly target workers |
| WorkerPoolLaws.ResultMeetsItsWorker | cmd/discarder/main.go:684-697 | every result taken is that of the worker in its slot, which leaves; all other workers stay as they are |
| WorkerPoolLaws.ReportsNeverBlock | cmd/discarder/main.go:585 | the channel never holds more than max results, one less than its capacity |
| WorkerPoolLaws.TargetMovesByOne | cmd/discarder/main.go:670-682 | each signal moves the target by one within 1 and the maximum, and nothing else moves it |
| WorkerPoolLaws.StoppedWhen | cmd/discarder/main.go:658-682 | a worker is told to stop exactly by a reload, or by shrinking if no active one has a higher slot; until its result is taken it keeps slot and token |
| Calendar.StampValid | source_publisher/manifest.py:40-41 | up to the year 9999 the clock's revision reads as fourteen digits of a real local date and time |
| Calendar.StampIncreases | source_publisher/manifest.py:40-41 | instants in different seconds have revisions in the same order |
| Calendar.NextRevision | steam_pumper/remote_sources.py:262-273 | the number after a valid revision is valid exactly when its seconds are below 59 |
| Calendar.ValidIsInstant | steam_pumper/remote_sources.py:262-273 | every valid revision from 2 January 1970 on is the stamp of an instant |
| Calendar.DateIsGregorian | steam_pumper/remote_sources.py:262-273 | the date of an instant is the Gregorian one, by the closed count of leap years and months since 1 March of the year 0 |
| Manifest.Parse | steam_pumper/remote_sources.py:245-332 | the validating loop returns the manifest exactly for acceptable documents: all conditions on header, entries and distinctness, stated without the loop |
| Manifest.AcceptedWhen | steam_pumper/remote_sources.py:245-332 | exactly what is accepted, in numbers: first schema, an instant for a revision, at most ten minutes ahead, valid three days, the minimum to a hundred sources, each checked within a day before and ten minutes after generation, no two the same |
| Manifest.MeaningIs | steam_pumper/remote_sources.py:318-332 | an accepted document keeps revision, times and order, with normalized URLs |
| Manifest.AcceptedForGood | steam_pumper/remote_sources.py:275-283 | an accepted document means the same at every later time, and stays current exactly until 72 hours after generation |
| Manifest.AcceptedUntilExpiry | source_publisher/manifest.py:33-68 | the downloader accepts what the publisher builds exactly if the chosen probes are publishable, the revision reads as an instant, and now is from ten minutes before generation until 72 hours after it |
| Manifest.OrderArrives | source_publisher/manifest.py:46-66 | the accepted manifest has the publisher's URLs, normalized, with speeds rounded to thousandths, in descending order, and expires 72 hours after generation |
| Manifest.RoundedFacts | source_publisher/manifest.py:54 | rounding moves a speed by at most half a thousandth, keeps it non-negative and keeps the order |
| Manifest.HalvesToEven | source_publisher/manifest.py:54 | halves are rounded to the even thousandth |
| Manifest.NoneFasterLeftOut | source_publisher/manifest.py:46-59 | no healthy source cut off by the limit is faster than one that was published |
| Manifest.ChosenWhen | source_publisher/manifest.py:44-59 | only probes that succeeded with a speed from 0 on are published, and all of them if there is room |
| Manifest.RevisionReadsAsInstant | source_publisher/manifest.py:41-43 | revisions always grow, and one reads as an instant exactly when it is the clock's or the previous one has room in its seconds |
| Manifest.ClockMovedOn | source_publisher/manifest.py:41-43 | a publisher whose clock has moved on by a second uses the clock's revision |
| Manifest.SixtiethSecond | source_publisher/manifest.py:42-43 | the revision after 20260131235959 is refused by the downloader for good |
| SourceManager.RemoteSourceManager.LoadLastKnownGood | steam_pumper/remote_sources.py:370-449 | a start takes the readable envelope, and tag and failures only from a state of the same revision |
| SourceManager.RemoteSourceManager.SaveState | steam_pumper/remote_sources.py:756-770 | the state file is replaced or left alone |
| SourceManager.RemoteSourceManager.Check | steam_pumper/remote_sources.py:482-503 | rejects unverified, older and same-revision-other-bytes answers, and a 304 without a list |
| SourceManager.RemoteSourceManager.Refresh | steam_pumper/remote_sources.py:464-560 | every answer and every fate of the writes leaves disk and memory as the commit rules say |
| SourceManager.RemoteSourceManager.WriteFiles | steam_pumper/remote_sources.py:522-526 | state before envelope, and the envelope only for a new revision |
| SourceManager.RemoteSourceManager.Fail | steam_pumper/remote_sources.py:540-560 | a failure is counted, saved if possible, and changes nothing else |
| SourceManagerLaws.RunsAreSound | steam_pumper/remote_sources.py:370-560 | in every reachable state the envelope on disk is readable and memory holds exactly that envelope, its manifest and its URLs |
| SourceManagerLaws.RefreshMoves | steam_pumper/remote_sources.py:464-560 | a refresh leaves the envelope on disk and manifest, envelope and URLs in memory alone, or brings a verified one of greater revision that is on disk before it is in memory |
| SourceManagerLaws.NoRollback | steam_pumper/remote_sources.py:482-526 | over every run of answers, failures, crashes and starts the revision on disk never falls, and equal revisions are identical bytes |
| SourceManagerLaws.ReloadBeforeOrAfter | steam_pumper/remote_sources.py:464-538 | a start after an interrupted refresh finds exactly the manifest of before, or the accepted one, the latter exactly when its envelope is on disk |
| SourceManagerLaws.FailureChangesNothing | steam_pumper/remote_sources.py:533-560 | after a refresh that was cancelled or counted a failure, manifest, envelope, URLs, tag and the envelope on disk are as before |
| SourceManagerLaws.RejectedIsFailure | steam_pumper/remote_sources.py:482-503 | an answer that is not accepted counts one failure and never touches the envelope on disk |
| SourceManagerLaws.SuccessIsExact | steam_pumper/remote_sources.py:482-560 | with all writes done, a refresh succeeds exactly with a 304 while a list is held, or an envelope that reads as a current list and is the first, a newer one or the held one; anything else counts one failure, in memory and on disk |
| SourceManagerLaws.NotModifiedKeepsAll | steam_pumper/remote_sources.py:485-532 | a 304 for the held list clears the failures and changes and reports nothing else |
| SourceManagerLaws.WelcomeIsHeld | steam_pumper/remote_sources.py:505-532 | an accepted envelope is in memory and on disk with its tag, or the old one if it has none, and is reported exactly if the URLs are others or none were held |
| SourceManagerLaws.StartRestores | steam_pumper/remote_sources.py:370-449 | after a refresh whose writes are done a start brings back exactly what was in memory |
| SourceManagerLaws.StartIsExact | steam_pumper/remote_sources.py:370-449 | a start holds the list on disk, trusts tag and failures only of a state of the same revision (or of none, without a list), and otherwise begins anew and saves that if it can |
| SourceManagerLaws.UnwelcomeFates | steam_pumper/remote_sources.py:540-560 | an answer that must not be taken only counts a failure, whatever becomes of saving it |
| SourceManagerLaws.StateWriteFates | steam_pumper/remote_sources.py:522 | a refused state write makes the refresh a failure; a death on it leaves the envelope as it was |
| SourceManagerLaws.EnvelopeWriteFates | steam_pumper/remote_sources.py:523-526 | a refused envelope write makes it a failure beside the new state; a death on it leaves the new envelope or the old one |
| SourceManagerLaws.HeldNeedsNoEnvelopeWrite | steam_pumper/remote_sources.py:523-526 | a 304 or the held envelope again needs no envelope write |
| SourceManagerLaws.ResultsAdvance | steam_pumper/remote_sources.py:505-538 | a list reported as changed has a greater revision, and no result a smaller one |
| SourceManagerLaws.TagsStaySound | steam_pumper/remote_sources.py:405-449 | if every envelope comes with a tag, the tag to be sent was issued for the envelope held, also after a crash between the two writes, and is empty when none is held |
| SourceManagerLaws.NotModifiedIsRight | steam_pumper/remote_sources.py:591-592 | with strong tags a 304 then means that the server's envelope is the held one |
| SourceManagerLaws.MissingTag | steam_pumper/remote_sources.py:519 | for every fate of the writes, an accepted envelope without a tag keeps the tags right exactly when no tag was held or the envelope on disk stays the same: equal revision, or the new envelope is not written |
| SourceManagerLaws.OldTagForNewEnvelope | steam_pumper/remote_sources.py:505-526 | a run with lists of three sources, under the least minimum the settings allow, that dies right after writing an envelope without a tag and starts again holds it with the tag of the one before |
| Publisher.PublicationService.RecoverRemoteCommit | source_publisher/service.py:289-340 | a commit counts only if latest.json verifies and has a byte-identical release |
| Publisher.PublicationService.PutRelease | source_publisher/service.py:204-240 | an existing release is never overwritten, and only an identical one lets the run go on |
| Publisher.PublicationService.WriteSuccessState | source_publisher/service.py:272-287 | success sets revision and time and clears the failures |
| Publisher.PublicationService.Run | source_publisher/service.py:112-270 | for every fate of the three effects the store, the state and the result are those of the transaction; a revision without fourteen digits has no object key (source_publisher/oss.py:18) |
| Publisher.PublicationService.Publish | source_publisher/service.py:204-270 | release, latest.json and state in order, each only after the one before is known to be done |
| PublisherLaws.RunsAreSound | source_publisher/service.py:112-340 | over every run and crash point latest.json has a byte-identical release under its revision, and the local revision is not ahead of it |
| PublisherLaws.PublicationMoves | source_publisher/service.py:112-270 | a run leaves latest.json and the local revision alone, or only catches the local revision up, or puts the new envelope there beside its release |
| PublisherLaws.RunsGoOnward | source_publisher/service.py:112-270 | releases are never changed, each replacement of latest.json has a greater revision and a later day, and the local revision never falls |
| PublisherLaws.OncePerDay | source_publisher/service.py:142-152 | two replacements of latest.json are never on the same local day |
| PublisherLaws.NextRunFinishes | source_publisher/service.py:138-152 | after a crash between upload and state write the next run of that day publishes nothing and finishes the commit |
| PublisherLaws.SuccessIsCommitted | source_publisher/service.py:262-270 | a run that reports success has brought the local revision up to today's latest.json |
| PublisherLaws.PublicationIsExact | source_publisher/service.py:112-270 | a run whose effects succeed publishes exactly if nothing was published that day, enough probes reach the least speed, the signed draft verifies, its revision has fourteen digits and no other release stands in its place; on the day of latest.json it catches up with it; otherwise it changes nothing |
| PublisherLaws.PublicationFates | source_publisher/service.py:204-270 | how far a publication comes for every fate of its effects: release, latest.json and state in this order, each only when the one before is known to be there |
| PublisherLaws.TodayFates | source_publisher/service.py:138-152 | on the day of latest.json a run only saves the state, and succeeds with the number of published sources if it knows that it has |
| PublisherLaws.NothingToPublish | source_publisher/service.py:153-184 | a run with nothing to publish changes nothing |
| PublisherLaws.FoundWhen | source_publisher/service.py:289-340 | a commit is found exactly if latest.json verifies, has the first schema, fourteen digits and an identical release |
| PublisherLaws.NotesKeepRevision | source_publisher/scheduler.py:109-116 | the scheduler's notes on success and failure keep the revision |
| PublisherLaws.DownloaderFollows | source_publisher/service.py:180-184 | a downloader holding any earlier latest.json never takes a later one for a rollback |
| PublisherLaws.RevisionsAreStamps | source_publisher/manifest.py:40-43 | over every run and crash point the revision of latest.json is the instant it was generated, never one counted up |
| PublisherLaws.LatestIsAccepted | source_publisher/service.py:112-270 | over every run the downloader accepts the latest.json a run puts there exactly if its probes are publishable and now is from ten minutes before its generation until 72 hours after |
| PublisherLaws.DownloaderAccepts | steam_pumper/remote_sources.py:482-503 | a downloader holding any earlier latest.json accepts the current one exactly if its probes are publishable and it is valid now, and with its revision |
| HotReload.EngineProcess.StageSources | steam_pumper/engine.py:177-207 | staging sets what is awaited first, and the sources only once the file is written; a dead helper confirms at once |
| HotReload.EngineProcess.ConfirmSourceGeneration | steam_pumper/engine.py:212-226 | only the awaited generation is confirmed |
| HotReload.EngineProcess.Start | steam_pumper/engine.py:119-157 | a new helper starts from a file written with the awaited or confirmed generation; a living one is left alone; a failed write or spawn leaves none |
| HotReload.EngineProcess.ConsumeSourceList | steam_pumper/engine.py:347-357 | reading an answer takes it, confirms an acknowledged generation if awaited, and marks a rejected reload |
| HotReload.Controller.StagePending | steam_pumper/controller.py:299-313 | every line is staged, whichever of them fail, and the retry is set five seconds on |
| HotReload.Controller.ConsumeRefreshResult | steam_pumper/controller.py:272-297 | only a changed list replaces what is pending; an unchanged one raises the active revision only when nothing is pending |
| HotReload.Controller.AdvancePending | steam_pumper/controller.py:315-346 | switches exactly when all lines have confirmed, otherwise stages again once the retry is due |
| HotReloadLaws.RunsAreSound | steam_pumper/controller.py:272-346 | over every run from the controller's start a line that has confirmed the pending generation, or whose confirmation is under way, already runs on the pending pool |
| HotReloadLaws.SwitchIsUnanimous | steam_pumper/controller.py:315-336 | at every switch, also to an equal list, every line has confirmed, every line's sources are the new effective pool and every living helper downloads from it |
| HotReloadLaws.OnlySwitchesChangeThePool | steam_pumper/controller.py:195-346 | the effective pool changes only at such a switch, or by local configuration before any remote list was used |
| HotReloadLaws.IdleRunsOnEffective | steam_pumper/controller.py:272-346 | whenever nothing is pending every line has the effective pool and every living helper downloads from it, whatever signals, exits, restarts and rebuilds came before |
| HotReloadLaws.StartIsExact | steam_pumper/engine.py:119-157 | a start leaves a living helper alone; otherwise the file gets the line's sources under the generation awaited or else confirmed, and a helper that comes up runs on them |
| HotReloadLaws.HearingIsExact | steam_pumper/engine.py:347-357 | an answer is heard once, confirms only the awaited generation, and a rejected file shows an error until a confirmation |
| HotReloadLaws.SignalIsHandledOnce | cmd/discarder/main.go:645-669 | a handled signal is gone, and the helper then runs on the line's sources exactly if it could read the file, and otherwise as before |
| HotReloadLaws.ExitIsDeath | steam_pumper/engine.py:259-266 | a helper that exits is dead and handles no signal, and what it said may still be heard |
| HotReloadLaws.RebuiltLines | steam_pumper/controller.py:104-128 | new lines have the effective pool, and the active revision, if any, counts as confirmed |
| HotReloadLaws.ActiveRevisionGrows | steam_pumper/controller.py:272-336 | the active revision never decreases, given honest results |
| HotReloadLaws.RetryIsExact | steam_pumper/controller.py:345-346 | while some line has not confirmed, nothing happens before the retry is due, and from then on every line is staged again and the next retry is five seconds later |
| HotReloadLaws.AdvanceIsExact | steam_pumper/controller.py:315-336 | with nothing pending nothing happens, and with every line confirmed the pending pool, origin and revision become the effective ones |
| HotReloadLaws.ResultIsExact | steam_pumper/controller.py:272-313 | what each kind of result does to the pool and, if the list changed, to every line |
| HotReloadLaws.OtherAcksConfirmNothing | steam_pumper/engine.py:212-214 | an error or an acknowledgement of any other generation confirms nothing |
| HotReloadLaws.RetryConfirms | steam_pumper/controller.py:345-346 | after one staging whose write and signal succeed, a line with a dead helper has confirmed; one with a living helper confirms exactly if the helper can read the file or the generation was confirmed or acknowledged before |
| HotReloadLaws.RetrySwitches | steam_pumper/controller.py:299-336 | after one staging that succeeds on all lines, once each living helper has answered from a readable file and been heard, the controller switches and all lines run on the new pool |
| SourceUpdates.RunsAreJoined | steam_pumper/controller.py:130-141 | over every run of manager and controller together, restarts and crashes included, no revision the controller knows is beyond the one on disk |
| SourceUpdates.ManagerIsHonest | steam_pumper/remote_sources.py:505-538 | every result the controller reads has a revision no smaller than any before, and a changed list a greater one |
| SourceUpdates.ActiveRevisionNeverFalls | steam_pumper/controller.py:272-336 | over every such run the active revision never falls, across restarts too, with nothing assumed of the results |
| SourceUpdates.SwitchesAreUnanimous | steam_pumper/controller.py:315-336 | at every switch in such a run all lines run on the new pool, whose revision has been accepted to disk |
| OutputStream.OutputReader.DrainOutput | steam_pumper/engine.py:318-334 | one read hands on exactly the short lines it completes and keeps the end of the unfinished one |
| OutputStream.OutputReader.ConsumeStatus | steam_pumper/engine.py:358-365 | a report sets the total to the offset and the count; a negative one is ignored |
| OutputStream.OutputReader.ScheduleRestart | steam_pumper/engine.py:307-309 | a crash carries the total over |
| OutputStream.CuttingMattersOnlyForLongLines | steam_pumper/engine.py:318-334 | the lines handed on are independent of how the stream is cut exactly when no line is longer than 65536, and are then the lines of the stream |
| OutputStream.BufferBounded | steam_pumper/engine.py:334 | whatever is read, the buffer stays within 65536 characters |
| OutputStream.TotalIsSumOfLast | steam_pumper/engine.py:307-309 | across any number of crashes the total is the sum of each process's last report |
| OutputStream.TotalNeverFalls | steam_pumper/engine.py:307-364 | in any sequence of reports, crashes and stops the total falls exactly at a report below the latest one since the last crash |
| OutputStream.StopForgets | steam_pumper/engine.py:290-309 | over any sequence of reports, crashes and stops the total is at most the sum of each process's last report, and less exactly if a process reported after another, stopped since the last crash, had downloaded something |
| OutputStream.FiveBytesForgotten | steam_pumper/engine.py:290-309 | a report of five, a stop and a report of three give a total of three where eight were reported |

## Left out

- HTTP, DNS, sockets, redirects, address filtering and probing: answers, probe results and URL normalization are parameters.
- Signing, base64 and JSON: verification is a function from bytes to a structured document; documents of the wrong shape are those it does not read, and size limits belong to it.
- SQLite: the tables are maps by account and minute, one transaction is one step. The legacy upload and snmp_download columns, which are never written, have no counterpart.
- The branch at steam_pumper/fleet.py:441-444 cannot be reached, since the matches it tests were filtered before.
- FleetStore.FleetStore.EstimatedBytes: floating-point rates are exact rationals.
- TrafficLedgerLaws.MeasuredTelescopes: polls are at or after 1970-01-01 00:00:01 UTC, since a stored baseline of zero counts as absent.
- FleetController.FleetController.Schedule: the order in which a Python set is walked is any order; the target ratio is an exact real.
- The tables of runtimes and start times behind the priority are inputs of a scheduling step.
- FleetController.tick (which overwrites force_schedule, steam_pumper/fleet.py:834-837), update_config and set_sources of the fleet: a scheduling step may come at any time.
- SourceHealth.SourceHealth.SelectSource: the whole walk happens at one instant on one state, while the source reads the clock and takes the lock anew for each candidate (cmd/discarder/main.go:758-770); each single claim is one of the events of the runs. The random jitter of an idle worker is left out.
- WorkerPoolLaws.LoopHeadsAreSound: the end of the whole process through its context is left out; goroutines are the set of those not yet taken from the results.
- SourceManager.RemoteSourceManager.Refresh: a write that happens but reports an error (a failing directory sync after the rename) is left out; an atomic write happens or does not.
- The texts and times the state file also keeps for display, the due time of the next refresh and RemoteSourceRefreshWorker, which only moves refreshes to a thread, are left out.
- The publisher's time zone is Asia/Shanghai, its default; other settings of it are left out.
- Manifest.Build: the 512 KiB limit is left out, and speeds are exact reals.
- Publisher.PublicationService.Run: reads that fail end the run, which is one of the fates of the effect before them; the deadline and the validate-only mode, which has no effects, are left out.
- The publisher's next due time, retry delays and health file are easy and left out; its notes in the state file are in.
- HotReload.EngineProcess.Start: error texts, fields of the line's display state and per-source failure counts are left out; connection counts are not compared with the helper's target.
- OutputStream.OutputReader.DrainOutput: text is single-byte; decoding a multi-byte character cut by a read is left out.
- 64-bit limits of Go's epoch and token counters and of byte counts are not modelled.

# Foreman, modelled and proved in Dafny

Foreman supervises recurring agent runs without a daemon. A periodic tick decides which loops are due,
takes a lock, launches a bounded process and reaps it; every run leaves a receipt; receipts drive
staleness, escalations, trend signals and capped remediation through a decision queue. These files model
that logic, one module for each part, and prove what holds over whole runs of it.

| part | modules |
|---|---|
| scheduling time | `Calendar`, `Recurrence`, `Cron`, `CronDays`, `Schedules`, `ScheduleMeanings`, `Ticks`, `Cloud`, `Lexical`, `StampFormat` |
| launch protocol | `Locks`, `LockProgress`, `Reaping`, `StoppedRuns`, `LaunchRuns`, `Receipts` |
| queue, remediation, escalations | `Decisions`, `DecisionRuns`, `DecisionOutcomes`, `QueueRaces`, `Remediation`, `RemediationMeanings`, `RemediationRuns`, `RemediationListings`, `Brief`, `Escalations`, `EscalationRuns`, `EscalationLinks` |
| incremental and graph algorithms | `Transcripts`, `PromptScan`, `PromptRotation`, `MemoryWalk`, `Retention`, `IsoWeeks`, `Insights`, `InsightSignals` |
| languages and text | `Verdicts`, `VerdictMeanings`, `VerdictNames`, `RegistryEdit`, `RegistryFile`, `RegistrySlugs`, `CadenceList`, `DotEnv`, `DotEnvValues`, `PromptText`, `PromptReading`, `Text`, `LineBreaks`, `Alphabets` |

Where the source changes things step by step the model has a class or a method with a loop, proved against
a function or a predicate; lemmas say what that function or predicate comes to. `Results` holds the
option and result types; its error constructors are the exceptions the source raises.

Check everything with `dafny verify dfyconfig.toml`.

## How to read the model

- Time is a number: a minute counted from 0001-01-01 in schedules, microseconds in ticks, seconds in
  receipts and locks. Local time is naive in the source, so it is a plain clock here, without zone jumps.
  `HorizonFits` says that looking back does not pass the first day `datetime` can name; past the last one,
  the end of the year 9999, intervals and searches raise `OverflowError`.
- A run of a protocol is a sequence of events; `After`, `Run` and `Reached` give the state it leads to.
  An event is atomic, and external calls enter as its outcome.
- `Locks.Timely` is the assumption behind the alarm around each run: no process outlives its alarm, which is set
  for its timeout when it is spawned, and none is spawned more than five minutes after its lock was claimed.
  `OverstayingBreaksExclusion` shows that it is needed.
  Likewise a process that the reaper signals is over when it gives back the lock, which the source does not
  wait for; `LaunchRuns.SurvivorBreaksExclusion` shows what follows otherwise.
- Registry lines, memory files and snapshot rows carry what the source reads off them (a line's key, a
  path's imports, a date's week key) as fields.

## Where the code and its documentation differ

The model follows the code.

- The header of `collectors/escalations.py` (lines 3-7) says that escalations resolve only through `/close` or a green run.
  `reconcile` resolves the row of every pair it does not judge red, amber and stale included
  (`Escalations.Index.ClearResolved`), and an operator's close lasts only until the next pass
  (`EscalationRuns.CloseDoesNotLast`). A green run that a pass misses, because a red one has come after it,
  resolves nothing (`EscalationRuns.OneRowAlwaysIffNoneMissed`), and an issue closed on GitHub stays closed while
  its pair stays red (`EscalationLinks.LinkedIssueIsOpen`).
- The header of `collectors/remediate.py` (lines 14-16) says that at most `max_attempts` fixes are dispatched
  per red streak. The cap bounds the attempts that
  still count: a dismissed, failed, expired or pruned one is replaced
  (`RemediationRuns.DispatchesAreLiveOrRemoved`, `DismissedFixIsReplaced`), a clock behind the last green
  hides one (`RescanSkipsUnlessClockIsBehind`), and the note at the cap is one per red run, not one per
  streak (`EachRedRunFilesItsNote`).
- `every-0d` passes the preset pattern and then raises an uncaught `ZeroDivisionError`, and `every-3000000d`,
  like every interval whose next step leaves `datetime`'s range, an uncaught `OverflowError`
  (`Schedules.OverrideAlwaysHasLast`, `IntervalsThatAlwaysRaise`). So does an unknown preset in the registry
  with its `ValueError`, which is raised before the `try`. One such job fails every tick (`Ticks.DueFails`).
- The validator promises to catch every name that would crash a run. It scans the text for ASCII words:
  `true` and `false` pass and are then taken for metric names, a name without an ASCII letter is not seen, and
  `1e3` is rejected for want of a metric `e3` (`VerdictNames.LowerCaseTruePassesAndFails`,
  `UnseenNamePassesAndFails`, `ExponentIsRejected`).
- `launches.json` is said to hold exactly the runs the reaper needs to watch. A launch recorded between the read
  and the write of another process is not in it (`LaunchRuns.WriteForgetsTheRest`, `RecordDuringReapIsLost`).
- Pruning promises a snapshot for each ISO week. Its key joins the ISO week number to the calendar year, so
  that weeks around New Year share keys (`Retention.LastWeekOf2023IsLost`); `IsoWeeksStay` says when a week
  keeps one.
- A transcript line broken by anything but a line feed stops the tail for good
  (`Transcripts.StrayBreakStallsForever`); a rotated prompt file is read from its top iff some pass finds it
  shorter than the old offset and a line end within the cap (`PromptRotation.TopIsReadIffSeenShort`).
- Setting an override is said to insert a line. Behind a last line without a line break the entry is joined to
  that line instead, and no removal takes it back (`RegistryFile.NewEntryIsReversible`).
- Removing the last entry of an override map is said to drop the block's header. A comment at the entries'
  indentation counts as an entry and keeps it; and a loop named `slug` cannot be removed again
  (`RegistrySlugs.SlugCannotBeRemoved`).

## Model

| member | source | states |
|---|---|---|
| Calendar.OrdinalOfDate | collectors/validate.py:108-124 | walking day by day and the closed form of the ordinal agree on every day |
| Calendar.DateOfOrdinal | collectors/validate.py:108-124 | and back: every valid date is the date of its ordinal |
| Calendar.DayOfMonthComesRound | collectors/scheduler.py:119-121 | any 31 consecutive days hold every day of the month from 1 to 28 |
| Recurrence.WindowIsExact | collectors/validate.py:126-143 | for a periodic schedule, a window of two periods shows exactly the gaps of all time |
| Recurrence.GapsInMembers | collectors/validate.py:126-143 | the minute-by-minute scan lists a number exactly when it separates two consecutive fires within the window |
| Recurrence.SmallestGapHoldsForever | collectors/validate.py:145-148 | a floor is met by the window's smallest gap iff any two fires, ever, are that far apart |
| Recurrence.NextWithinLargestGap | collectors/validate.py:193-203 | after any fire the next one comes within the window's largest gap |
| Cron.ExpandField | collectors/validate.py:57-79 | the loop over a field's parts gives exactly the union of what they denote, or the first bad part's error |
| Cron.ParsedIsProper | collectors/validate.py:91-106 | every parsed schedule has non-empty fields with values in range, Sunday folded to 0 |
| Cron.PreviousFire | collectors/validate.py:164-179 | the greatest matching minute not after now within the horizon, or None only if there is none |
| Cron.NextFire | collectors/validate.py:181-191 | the least matching minute after now within the horizon, or None only if there is none; or the error of looking past the last minute that can be named |
| Cron.FiresBetween | collectors/validate.py:150-162 | true iff some minute after since (or two days back, if later) up to now matches; or the error of looking past the last minute |
| Cron.FiresBetweenIsPreviousFire | collectors/validate.py:150-179 | having fired since then and the last fire being later than then are the same thing |
| Cron.EpochIsWednesday | collectors/validate.py:126-131 | the fixed start of the gap scan is Wednesday 1 January 2025 in the calendar |
| Cron.Gaps | collectors/validate.py:126-143 | the scan's list is the list of gaps of the window, in order |
| Cron.MinInterval | collectors/validate.py:145-148 | the smallest gap found, or the whole window if none was |
| Cron.MaxInterval | collectors/validate.py:193-203 | the largest gap found, or the whole window if none was |
| Cron.RepeatsEveryWeek | collectors/validate.py:108-124 | a schedule restricted neither by day of month nor by month repeats every 10080 minutes |
| Cron.FiresEveryWeek | collectors/validate.py:108-124 | and fires in every seven days |
| Cron.FortyDaysAreExact | collectors/validate.py:126-148 | for it the forty-day window shows a gap, and exactly the gaps of all time |
| Cron.TierFloorHoldsForever | collectors/validate.py:145-148 | so the interval the tier check sees bounds the distance of any two fires, iff |
| Cron.MaxIntervalBoundsEveryWait | collectors/validate.py:193-203 | and no wait is longer than the largest interval |
| CronDays.FieldLists | collectors/validate.py:57-79 | a field expands to the numbers its parts count out, or raises iff a part has a bad step, a number out of range or a range backwards |
| CronDays.MatchesInWords | collectors/validate.py:108-124 | a schedule matches a minute iff its fields list the minute, the hour and the month, and either day field that is restricted picks the day, or neither is |
| CronDays.OneWeekday | collectors/validate.py:115-123 | a schedule for one weekday matches on that day of the week only |
| CronDays.FirstOf2025IsWednesday | collectors/validate.py:115-116 | cron's numbers of the days fit the calendar: 1 January 2025 is number 3 |
| Schedules.WindowFor | collectors/scheduler.py:85-101 | any numbers give a valid window, sensible ones themselves, and without a start the default one |
| Schedules.SlotAvoidsJitter | collectors/scheduler.py:104-120 | unless pinned no loop lands on minute 0 or 30, and its hour stays in the window, past midnight too |
| Schedules.PresetFiresInEachMonth | collectors/scheduler.py:123-133 | every preset's cron parses and fires in each 31-day stretch |
| CronDays.PresetFiresExactly | collectors/scheduler.py:123-136 | a preset fires at its slot's hour and minute on every day, from Monday to Friday, on one weekday or on one day of the month, and at no other minute |
| Schedules.AnchorIsFirstOf2020 | collectors/scheduler.py:144 | the anchor minute is midnight of 1 January 2020 in the calendar |
| Schedules.LastInstantEndsYear9999 | collectors/scheduler.py:156-166 | the last instant that can be named ends 31 December 9999 in the calendar |
| Schedules.CorrectEstimate | collectors/scheduler.py:156-166 | from any estimate that can be named the two correction loops end at the right step, iff it and the next one can be named too; else they overflow |
| Schedules.IntervalIsUnique | collectors/scheduler.py:156-166 | exactly one occurrence in phase with the anchor satisfies prev <= now < prev + n days |
| Schedules.IntervalBounds | collectors/scheduler.py:156-166 | the pair returned is that occurrence and the next iff both can be named; impossible times, zero days and steps out of range each raise their own error |
| Schedules.LongStepsNeverFit | collectors/scheduler.py:156-166 | an interval has an answer at some time iff its first step after the anchor can be named |
| Schedules.FitsWhileNextIsNameable | collectors/scheduler.py:156-166 | from the anchor on it has one for as long as one more interval can be named |
| Schedules.PreviousFireOf | collectors/scheduler.py:169-176 | the latest occurrence of a cron or interval token not after now, or the token's error, overflow included |
| ScheduleMeanings.LastOfCron | collectors/scheduler.py:169-176 | a cron's last occurrence is the last minute it matched no more than 45 days ago, and there is none iff it matched none |
| ScheduleMeanings.LastOfInterval | collectors/scheduler.py:144-176 | an interval's last occurrence is the minute a whole number of its days from its time of day on 1 January 2020, from which less than one interval has passed |
| Schedules.OverrideAlwaysHasLast | collectors/scheduler.py:207-222 | an override raises nothing iff it is a named preset or an interval of at least a day whose last and next steps can be named, and then it has a last occurrence within the horizon |
| Schedules.IntervalsThatAlwaysRaise | collectors/scheduler.py:145-166 | `every-0d` and `every-3000000d` raise at every time |
| Ticks.Due | collectors/scheduler.py:396-424 | the loop over projects and loops gives the jobs whose last occurrence is later than the last tick, or the first uncaught error |
| Ticks.DueMembers | collectors/scheduler.py:396-424 | a firing is due iff some eligible job's latest occurrence is it and lies in (since, now] |
| Ticks.DueFails | collectors/scheduler.py:396-424 | the whole list fails iff some eligible job raises what is not caught, with the error of the first |
| Ticks.FiresLatestOccurrenceOnly | collectors/scheduler.py:396-424 | a job fires iff it is not the cloud's, is pinned to no other hosts and its schedule occurred since the last tick, a cron within the horizon; and then only the latest occurrence |
| Ticks.Scheduler.Tick | collectors/scheduler.py:568-597 | a tick fires what is due in order and saves its time only if it completes |
| Ticks.OccurrencesFireOnce | collectors/scheduler.py:568-597 | over any increasing run of completed ticks each occurrence fires at most once, and a loop's occurrences strictly increase, even if schedules change |
| Ticks.CutShortFiresAgain | collectors/scheduler.py:568-597 | a tick cut short fires the same occurrence again iff no later one has come up and a cron has it still within the horizon |
| Ticks.ListedTwiceFiresTwice | collectors/scheduler.py:396-424 | a loop listed twice fires the same occurrence twice in one tick |
| Lexical.NumeralOrder | collectors/decisions.py:75-80 | numerals of one width compare as their numbers do, and are equal only if those are |
| Lexical.B32 | collectors/decisions.py:75-80 | the shift loop gives the fixed-width numeral |
| Lexical.UlidWidths | collectors/decisions.py:83-88 | ten and sixteen digits hold exactly 50 bits of time and 80 random bits |
| Lexical.UlidOrder | collectors/decisions.py:83-88 | identifiers sort by millisecond of creation, then by random bits |
| Lexical.CompactOrder | collectors/build_receipt.py:218-220 | compact time stamps sort as the instants they name, whatever follows them |
| StampFormat.CompactReads | collectors/build_receipt.py:218-220 | a compact stamp is its four-digit year, month, day, a T, hour, minute and second, and a Z, read back as numbers |
| StampFormat.CrockfordDigits | collectors/decisions.py:72-80 | the 32 digits ascend and leave out I, L, O and U |
| StampFormat.GlobIsSuffix | collectors/build_receipt.py:346-351 | the look-up matches every name that ends in a hyphen, the run and the extension |
| Receipts.GlobFindsOwnRun | collectors/build_receipt.py:346-351 | the look-up of a run's receipt finds that run's file and no other |
| Receipts.HyphenConfusesGlob | collectors/build_receipt.py:346-351 | a run identifier with a hyphen would let one run's file pass for another's |
| Receipts.ReceiptStore.ExistingReceipt | collectors/build_receipt.py:346-351 | finds a file iff one matches |
| Receipts.ReceiptStore.Write | collectors/build_receipt.py:354-369 | adds the receipt unless its run has one, and touches nothing else |
| Receipts.WriteKeepsOnePerRun | collectors/build_receipt.py:354-369 | no run ever has two files, and no file there is changes |
| Receipts.FirstWriterWins | collectors/build_receipt.py:354-369 | over any sequence of writes a run keeps the receipt of its first writer |
| Cloud.LatestReceiptEnded | collectors/cloud.py:53-67 | reads the file whose name sorts last |
| Cloud.LastNameHasLatestEnded | collectors/cloud.py:53-67 | that file holds the latest end of all |
| Cloud.DueCloud | collectors/cloud.py:70-103 | due iff the last occurrence is later than the newest receipt's end; fails iff the schedule raises what is not caught |
| ScheduleMeanings.CloudDueInWords | collectors/cloud.py:70-103 | in microseconds: the occurrence is due iff it is later than the newest receipt's end, or there is none |
| Cloud.CloudOccurrencesRunOnce | collectors/cloud.py:193-210 | over any sequence of ticks and commits each occurrence runs at most once, in increasing order |
| Cloud.RepeatRunsNothing | collectors/cloud.py:193-210 | a second tick at the same instant runs nothing iff the first left its receipt |
| Cloud.UnreadableNewestRunsAgain | collectors/cloud.py:53-67 | an unreadable last file hides all receipts and the occurrence runs again |
| Locks.LockTable.Acquire | collectors/lock.py:30-56 | granted iff the key is free, expired or already the run's own; a new row expires five minutes after its timeout, and a row not expired is left alone |
| Locks.LockTable.Release | collectors/lock.py:59-63 | deletes the row only if the run holds it; every other run's row stays |
| Locks.ReachableIsConsistent | collectors/lock.py:30-63 | what every step of the protocol keeps: rows belong to their runs, a granted run keeps its row until its deadline |
| Locks.MutualExclusion | collectors/scheduler.py:486-566 | under any interleaving in which no process outlives its alarm or starts later than five minutes after its claim, a lock key has at most one live process, and its run holds the lock |
| Locks.LateReleaseFreesNoOther | collectors/lock.py:59-63 | a stale holder's release never frees a later holder's lock |
| Locks.DeadHolderBlocksUntilDeadline | collectors/lock.py:30-56 | a dead holder blocks its key for its timeout and five minutes after its claim and no longer, iff |
| Locks.OverstayingBreaksExclusion | collectors/lock.py:30-56 | a process that outlives its timeout and five minutes shares its key with the next |
| LockProgress.AnyKeyCanBeHad | collectors/lock.py:30-63 | from every reachable state some further steps let a new run live on any key, and leave all other rows alone |
| LockProgress.FreeKeyIsHad | collectors/lock.py:30-56 | on a free or expired key a new run is granted its lock and lives, and the row is its own |
| Reaping.Registry.Record | collectors/budget.py:111-118 | replaces the run's entry by the new one, at the end |
| Reaping.RecordKeepsUnique | collectors/budget.py:111-118 | run identifiers stay unique and no other run's entry is lost |
| Reaping.Registry.Reap | collectors/budget.py:212-245 | keeps, stops and reports exactly the launches it should, in order and each with its reason, with locks and receipts to match |
| Reaping.ReapConserves | collectors/budget.py:212-245 | a reap splits the registry into kept, stopped and finished, nothing lost or duplicated |
| Reaping.FateIsDeserved | collectors/budget.py:66-87 | kept iff alive and within every observed limit, stopped iff alive and beyond one, which the reason names |
| StoppedRuns.ReasonIsFirstBreached | collectors/budget.py:66-87 | of several breached limits the reason is the clock's, then tokens', then cost's, then iterations' |
| LaunchRuns.EventKeepsOrderly | collectors/budget.py:111-245 | what every step, read and write keeps: the file, and all that is about to be written, names spawned runs, each once |
| LaunchRuns.WriteForgetsTheRest | collectors/budget.py:111-245 | whatever other processes do between a read and the write that rests on it, a live run is watched after the write iff it was at the read or is the one recorded |
| Reaping.StoppedRunsHoldNothing | collectors/budget.py:227-241 | no stopped run still holds its lock, and all other rows stay |
| Reaping.StoppedRunsAreWrittenUp | collectors/budget.py:151-177 | each stopped run has exactly one receipt, and earlier receipts are unchanged |
| StoppedRuns.StoppedRunIsAmber | collectors/budget.py:151-177 | a stopped run's receipt is judged amber, or red once it has been amber too long, and never green; it ends no streak and is no reason to remediate |
| LaunchRuns.LiveRunsStayWatched | collectors/budget.py:111-245 | however launches, processes and reaps interleave, run identifiers in the registry stay unique and watched live runs hold their locks, one to a key; and no live recorded run is forgotten as long as no write rests on an outdated read |
| LaunchRuns.RecordDuringReapIsLost | collectors/budget.py:212-245 | a run recorded between the read and the write of a reap goes unwatched, however long it lives |
| LaunchRuns.ReapFreesStoppedKeys | collectors/budget.py:212-245 | what a reap keeps are the live runs within their limits, and every stopped run has freed its key |
| LaunchRuns.StoppedLocks | collectors/budget.py:227-241 | the reaper's own releases are those of the lock protocol |
| LaunchRuns.SurvivorBreaksExclusion | collectors/budget.py:135-241 | a process that survives its signal runs beside the next holder of its key |
| Decisions.InsertKeepsSorted | collectors/decisions.py:138-157 | listing by file name keeps identifiers in ascending order |
| Decisions.DecisionQueue.Enqueue | collectors/decisions.py:160-185 | adds a pending decision with its side set by its kind, or rejects an unknown kind or a malformed one and changes nothing |
| Decisions.DecisionQueue.LoadPending | collectors/decisions.py:138-157 | the pending decisions of the scope, each once, in ascending order |
| Decisions.DecisionQueue.DrainSession | collectors/decisions.py:263-288 | takes the project's session side in order, marks each applied if its effect worked and failed if it raised, and changes nothing else |
| Decisions.DecisionQueue.DrainSupervisor | collectors/decisions.py:406-418 | takes all supervisor-side decisions but pushes to approve, in order, marks each applied or failed likewise, and changes nothing else |
| Decisions.DecisionQueue.ApplyDecision | collectors/decisions.py:441-464 | applies one pending decision if it needs no session: the reply is done iff it became applied and failed iff its effect raised; else nothing changes |
| Decisions.DecisionQueue.Dismiss | collectors/decisions.py:467-477 | supersedes iff pending |
| Decisions.DecisionQueue.Gc | collectors/decisions.py:539-569 | expires exactly the lapsed and deletes exactly the settled past retention |
| Decisions.CollectionInDays | collectors/decisions.py:539-569 | a pending decision is kept and marked expired from the second it lapses; a settled one is kept for the retention days from when it was settled and no longer |
| DecisionRuns.DrainTakesListing | collectors/decisions.py:263-418 | what the drains return is the one sorted listing of what they may take |
| DecisionOutcomes.TakenInWords | collectors/decisions.py:263-464 | a drain or an approval takes what is pending on its side and in its project, or what the operator names if it needs no session |
| DecisionRuns.RunsAreConsistent | collectors/decisions.py:160-569 | what every operation keeps over any run of the queue |
| DecisionRuns.SettledForever | collectors/decisions.py:188-200 | a decision that is not pending never becomes pending again |
| DecisionRuns.AppliedAtMostOnce | collectors/decisions.py:188-200 | over any run each decision is applied at most once, and is settled from then on |
| DecisionOutcomes.AppliedIffItWorked | collectors/decisions.py:188-464 | over any run a decision still there is applied iff it was taken and its effect worked, and failed iff it was taken and its effect raised |
| DecisionRuns.PushNeedsApproval | collectors/decisions.py:406-464 | a branch is pushed only if the operator applied that decision |
| DecisionRuns.DrainLeavesManualOnly | collectors/decisions.py:406-418 | after a drain only manual-only kinds are pending in its scope |
| DecisionRuns.CollectionKeepsPending | collectors/decisions.py:539-569 | collection never deletes a pending decision |
| DecisionRuns.DrainsInCreationOrder | collectors/decisions.py:138-157 | drains act in order of creation |
| QueueRaces.SafeIffNoRepeatIsNext | collectors/decisions.py:263-288 | a state is safe iff no drain can repeat an effect next |
| QueueRaces.NoRepeatIffInTurn | collectors/decisions.py:263-418 | with effect and mark apart: over any run, crashes and overlapping drains included, no drain ever comes to where it may repeat an effect iff drains load nothing acted on and unmarked and act on nothing another has loaded; and until then none is repeated |
| QueueRaces.CrashRepeatsEffect | collectors/decisions.py:263-288 | a drain that crashes between effect and mark leaves the effect to be repeated |
| Remediation.TargetsAreOptedIn | collectors/remediate.py:47-68 | a loop is a target iff its project opts it in, by its own setting or the default, and its cadence enables a plan |
| RemediationMeanings.TargetsInWords | collectors/remediate.py:40-68 | a loop is a target iff its cadence enables a plan and its project, or failing that the default, opts in all loops or this one |
| Remediation.LastGreenIsLatest | collectors/remediate.py:87-93 | the backward scan finds the latest green end, or none exists |
| Remediation.ReceiptNeverMovesGreenBack | collectors/remediate.py:87-93 | no receipt filed in order moves the last green back |
| Remediation.MakePlan | collectors/remediate.py:129-175 | for each red target one action: skip while one is pending, note at the cap, else dispatch |
| RemediationMeanings.ActionInWords | collectors/remediate.py:79-175 | remediation acts iff the last receipt is red, failed or timed out: skips while a fix that counts is pending, files a note when as many as allowed count, else dispatches the next |
| Remediation.Scan | collectors/remediate.py:178-206 | the queue after enqueuing what the plan asks for, no note filed twice for a run |
| RemediationMeanings.DispatchIsLiveFix | collectors/remediate.py:178-206 | what a dispatch enqueues counts as one more fix of the target, with its cadence, attempt and source; a note counts as none |
| RemediationRuns.CapIsNeverExceeded | collectors/remediate.py:119-206 | over any run live attempts since the last green stay within the cap, at most one is pending, and no run has two notes |
| RemediationRuns.DispatchesAreLiveOrRemoved | collectors/remediate.py:119-126 | a streak's dispatches are its live attempts plus those removed, which are neither pending nor applied |
| RemediationRuns.RescanSkipsUnlessClockIsBehind | collectors/remediate.py:155-158 | the next scan skips iff the clock that stamped the fix is not behind the last green |
| RemediationRuns.DismissedFixIsReplaced | collectors/remediate.py:119-126 | a dismissed fix is dispatched again, cap or no cap |
| RemediationRuns.EachRedRunFilesItsNote | collectors/remediate.py:209-224 | the note at the cap is withheld iff this very run has one |
| RemediationListings.ScanAddsOnePerListing | collectors/remediate.py:129-206 | one scan adds as many attempts to a red pair below its cap as the pair is listed, so stays within the cap iff that many fit |
| RemediationListings.ListedTwiceBreaksCap | collectors/remediate.py:129-206 | a loop listed twice with one attempt left gets one fix more than its cap |
| Brief.StaleAfterMinutes | collectors/brief.py:89-96 | twice the longest interval of the forty-day window, or None without a readable schedule |
| Brief.AmberRunStart | collectors/brief.py:99-109 | the first receipt of the amber run that reaches the tip, or None |
| Brief.StreakStart | collectors/escalations.py:38-46 | the first receipt of the unbroken non-green run |
| Brief.RunStartOfMore | collectors/escalations.py:38-46 | a further receipt continues the streak or starts the next |
| Brief.RunStartOfMany | collectors/escalations.py:38-46 | further receipts continue the streak iff all of them but the last are in it; else it starts among them |
| Brief.JudgedFromReceipts | collectors/brief.py:112-160 | stale iff the last receipt is later than the schedule allows; else red iff it is red, failed or timed out or an amber run has lasted too long, green iff it is green and neither, else amber |
| Brief.NeedsOperatorIff | collectors/brief.py:112-160 | the operator is called for iff a pair is stale or red or turns red within the day; without runs iff it has a schedule |
| Brief.AmberAgesFromFirst | collectors/brief.py:112-160 | an amber pair that neither failed nor timed out counts as red iff the whole days since its first amber exceed the limit |
| Brief.NeverStaleWhileAnswered | collectors/brief.py:89-133 | a pair whose receipts land within one longest gap of each fire, from its first fire on, is never called stale |
| Escalations.Index.ClearResolved | collectors/escalations.py:139-152 | resolves exactly the rows of pairs not red, whatever they are instead, and closes exactly their issues, where GitHub answers |
| Escalations.Index.Open | collectors/escalations.py:154-200 | opens or refreshes one red episode: its row and its issue, kept, found, created, or none for want of an answer |
| Escalations.Index.Reconcile | collectors/escalations.py:126-200 | the whole pass, over any answers of the look-ups |
| Escalations.Index.Close | collectors/escalations.py:203-218 | closes iff the row was open, and then its issue and no other |
| EscalationRuns.ReconcileLeaves | collectors/escalations.py:126-200 | after a pass the pairs with an unresolved row are exactly the red ones, and each title has at most one open issue |
| EscalationRuns.EpisodesAreRedPairs | collectors/escalations.py:104-116 | an episode exists iff the pair is judged red, and starts at its streak's start |
| EscalationRuns.OpenRowIffGoneRed | collectors/escalations.py:126-200 | from receipts alone: after a pass a pair has an open row iff its last receipt is not late and it has gone red by it, so always after a red one and never after a green one |
| EscalationLinks.EpisodeInWords | collectors/escalations.py:104-116 | an episode exists iff the last receipt is not late and the pair has gone red by it; it is named after the end of the first receipt of the non-green run, and the last run |
| EscalationLinks.RowNamesEpisode | collectors/escalations.py:154-200 | after a pass the row of every episode is open and names its pair and its last run |
| EscalationRuns.OneRowIffNoGreenMissed | collectors/escalations.py:126-200 | after any batch a pass leaves one open row to a pair iff no pair with an open row that is red again had a green receipt before its last |
| EscalationRuns.EscalationsFollowStreaks | collectors/escalations.py:126-218 | whatever receipts arrive between passes: as long as no pass misses a green one, each pair has at most one unresolved row, opened at its streak's start, and issues stay unique in each repository, even if the table is dropped, rows or issues are closed by hand, or GitHub is down |
| EscalationRuns.OneRowAlwaysIffNoneMissed | collectors/escalations.py:126-218 | over any run pairs have one open row at all times iff no pass missed a green receipt |
| EscalationRuns.SkippedReconcileLeavesTwo | collectors/escalations.py:126-200 | for one, a green and a new red between two passes leave two unresolved rows |
| EscalationRuns.CloseDoesNotLast | collectors/escalations.py:203-218 | a pair still red gets its closed row back at the next pass |
| EscalationRuns.BlindSearchDuplicates | collectors/escalations.py:74-83 | a search that misses an open issue opens a second with its title |
| EscalationLinks.RedPairsAreLinked | collectors/escalations.py:154-200 | after a pass every red pair whose project wants issues has one on its row, if its repository answers |
| EscalationLinks.LinkedIssueIsOpen | collectors/escalations.py:154-200 | the issue on the row is open if the pair had none before; else it is the same one, open iff it was when the pass had closed the issues of pairs no longer red |
| EscalationLinks.TitlesDiffer | collectors/escalations.py:52-53 | pairs whose names hold no spaces have distinct issue titles |
| EscalationLinks.NewIssuesAreCalledFor | collectors/escalations.py:119-200 | a pass opens an issue only for a red pair whose project wants issues, in its repository and under its title, and deletes and renames none |
| Transcripts.ParseWindow | collectors/transcripts.py:93-113 | rows and length of the complete lines, or the first line's shape error |
| Transcripts.Session.Tail | collectors/transcripts.py:116-159 | one pass: skipped when over the cap, nothing changed on an error, else rows and offset move together |
| Transcripts.ParsedOfMore | collectors/transcripts.py:93-113 | a wholly consumed text followed by more parses as the one followed by the other |
| Transcripts.PassKeepsInStep | collectors/transcripts.py:116-159 | a pass over a grown file leaves the state of one parse of it |
| Transcripts.TailingIsOneParse | collectors/transcripts.py:116-159 | over any passes on an append-only file, rows and offset equal one parse of the part consumed, and of the whole file once it is read |
| Transcripts.ReachesLastNewline | collectors/transcripts.py:93-113 | the parse reaches the last line feed iff no other line break lies before it |
| Transcripts.StrayBreakStallsForever | collectors/transcripts.py:93-113 | past a line ended by another break nothing is ever consumed |
| PromptScan.Store.Scan | collectors/prompts.py:65-111 | one capped pass: the new offset, the rows and the count added |
| PromptScan.RowsOfMore | collectors/prompts.py:90-107 | whole lines followed by more yield the rows of both |
| PromptScan.PassKeepsInStep | collectors/prompts.py:65-111 | a pass stores of each line it consumes the row under its own stamp and nothing more of earlier lines, and advances iff a line ends in its window |
| PromptScan.CatchesUpIffLinesFit | collectors/prompts.py:65-111 | repeated passes reach the last line feed iff every line fits the cap |
| PromptScan.ShortFileIsReadAgain | collectors/prompts.py:74-75 | a file shorter than the offset is read again from its top |
| PromptScan.StampsAreIdle | collectors/prompts.py:86-101 | prompts with timestamps have the same rows under all stamps |
| PromptScan.RereadDuplicatesIff | collectors/prompts.py:74-101 | a file read again from its top stores rows a second time iff one of the lines has an undated prompt not yet stored under the stamp of that pass |
| PromptScan.UndatedPromptIsStoredTwice | collectors/prompts.py:86-101 | a prompt without a timestamp is stored once for each fallback it is read under |
| PromptRotation.EachLineIsStoredOnce | collectors/prompts.py:65-111 | while a file only grows, any passes store of each line they consume one row, under the stamp of one of them |
| PromptRotation.TopIsReadIffSeenShort | collectors/prompts.py:74-84 | over any passes after a rotation, the new file's top is read iff some pass finds it shorter than the old offset with a line end within the cap |
| PromptRotation.RegrownFileLosesItsHead | collectors/prompts.py:65-111 | and then of every line before the offset one row is stored, else only of those from the old offset on |
| MemoryWalk.Walk.Visit | collectors/config_resolve.py:153-168 | adds nothing, or a tree of entries hanging from this one and followed to the end; ends on any cycle |
| MemoryWalk.WalkMemory | collectors/config_resolve.py:148-172 | the result is an outline: each file once, every import listed, every entry placed in depth-first order |
| MemoryWalk.ListsExactlyTheReached | collectors/config_resolve.py:148-172 | a file is listed iff some chain of imports reaches it |
| MemoryWalk.DepthIsAChain | collectors/config_resolve.py:148-172 | every depth is the length of a real chain of imports from an entry |
| MemoryWalk.OutlineIsUnique | collectors/config_resolve.py:148-172 | the outline fixes the listing, its order and its depths |
| MemoryWalk.AliasHidesImports | collectors/config_resolve.py:153-168 | a file named by two paths is read under the first, and what only the other leads to is missed |
| MemoryWalk.DepthIsNotShortest | collectors/config_resolve.py:153-168 | the recorded depth need not be the shortest |
| Retention.PruneConfigSnapshots | collectors/retention.py:24-51 | deletes exactly the rows that do not survive |
| Retention.DeletionLeavesSurvivors | collectors/retention.py:44-50 | deleting what is answered leaves exactly the surviving rows, in order |
| Retention.HistoryStays | collectors/retention.py:24-51 | each group's succession of distinct hashes is unchanged |
| Retention.WholeHistoryStays | collectors/retention.py:24-51 | also together with the younger snapshots after them |
| Retention.WeeksStay | collectors/retention.py:40-43 | every week key of every group keeps a snapshot |
| Retention.PruningTwiceIsOnce | collectors/retention.py:24-51 | a second run with the same cutoff deletes nothing |
| Retention.IsoWeeksStay | collectors/retention.py:24-51 | an ISO week of a group keeps a snapshot iff one taken in it opens its group, or has a new hash or a new key |
| Retention.OwnKeysStay | collectors/retention.py:40-43 | so it keeps one if one of its rows has a key that no earlier row from another week has |
| Retention.LastWeekOf2023IsLost | collectors/retention.py:40-41 | a New Year's Day snapshot takes the key of the year's last week, which then keeps none |
| IsoWeeks.WeekIsMondayToSunday | collectors/retention.py:40-41 | the ISO week used runs from Monday to Sunday |
| IsoWeeks.WeeksCountUp | collectors/retention.py:40-41 | it belongs to the year of its Thursday and counts up by one a week |
| IsoWeeks.FourthOfJanuaryIsInWeekOne | collectors/retention.py:40-41 | the week of 4 January is the first |
| Insights.Transitions | collectors/insights.py:60-69 | the loop gives the changes of verdict, oldest first |
| Insights.CurrentStreak | collectors/insights.py:72-84 | the tip's verdict, how many last runs share it unbroken, and since when |
| Insights.LastChangeStartsStreak | collectors/insights.py:60-84 | the last change is the start of the current streak; without one the streak is the whole window |
| Insights.SlopeFollowsOrder | collectors/insights.py:87-101 | values that never fall over time have a slope of at least zero, those that never rise at most zero |
| Insights.SlopeIsLeastSquares | collectors/insights.py:87-101 | no line has a smaller sum of squared errors than the one with this slope through the means |
| Insights.AnalyzeHistory | collectors/insights.py:118-172 | the signals of the window, in order |
| Insights.NeverImprovingNeverRecovers | collectors/insights.py:166-170 | a window that never improves is never recovering or flapping |
| Insights.NeverWorseningNeverAlarms | collectors/insights.py:128-164 | a window that never worsens is never regressed, degrading, projected or flapping |
| Insights.RegressedIffWorse | collectors/insights.py:128-135 | a regression is signalled iff the run before the current streak was better |
| InsightSignals.VerdictsAscend | collectors/insights.py:41-54 | green, amber and red are worse and worse, and a failed or timed-out run without a verdict is as bad as red |
| InsightSignals.WindowHolds | collectors/insights.py:104-113 | the window holds the runs with a readable end at the cutoff or later, and no others |
| InsightSignals.SignalIffCalledFor | collectors/insights.py:118-172 | each signal is given iff the runs call for it: the current streak is worse than what was before it, or long and bad; the slope and the tip; the number of runs that differ from the one before |
| Verdicts.AnswersAsPython | collectors/build_receipt.py:51-78 | whenever the eager interpreter answers, Python's short-circuit reading has the same truth |
| Verdicts.NestedOperandsDiffer | collectors/build_receipt.py:55-71 | and or or compared with something would differ from Python |
| Verdicts.ChainIsConjunction | collectors/build_receipt.py:62-71 | a chain of comparisons is the conjunction of its single ones |
| Verdicts.WellFormedAnswers | collectors/build_receipt.py:51-78 | on numbers, known nodes with declared names always have an answer |
| Verdicts.AnswersIffWellFormed | collectors/build_receipt.py:51-78 | without longer chains, an answer exists iff every node and name is in order, also where Python would not look |
| Verdicts.EagerOperandFails | collectors/build_receipt.py:55-59 | an operand Python would not look at still fails |
| Verdicts.ChainStopsEarly | collectors/build_receipt.py:62-71 | what follows a failed comparison may name no metric |
| Verdicts.VerdictIsFirstThatHolds | collectors/build_receipt.py:100-109 | sound green and amber rules give every run the first level that holds, else red |
| VerdictMeanings.InterpMeans | collectors/build_receipt.py:51-92 | on numbers every well-formed expression gives the number it stands for: six relations, chains of them, and, or, not |
| VerdictMeanings.VerdictOfNumbers | collectors/build_receipt.py:100-109 | the verdict is green if the green rule is true of the numbers, else amber if the amber rule is, else red |
| VerdictMeanings.GreenIffAllClausesHold | collectors/build_receipt.py:51-109 | under a conjunction of clauses a run is green iff each metric is in its relation with its number |
| VerdictMeanings.TextComparisons | collectors/build_receipt.py:81-92 | text is compared by the first difference, and equal only to the same text |
| VerdictMeanings.TextByItself | collectors/build_receipt.py:81-97 | a text by itself is true unless empty, a missing value never |
| VerdictMeanings.ComparisonFails | collectors/build_receipt.py:66-92 | a comparison raises a value error iff its name was not measured or its operator is not listed, a type error iff two values without an order are to be ordered; values of different kinds are unequal |
| VerdictNames.ScanOfPlain | collectors/validate.py:345-352 | the scan of a plainly spelled text finds exactly its words |
| VerdictNames.PassedIsWellFormed | collectors/validate.py:345-359 | spelled plainly, known nodes are well formed iff their text passes and no undeclared `true` or `false` is used as a name |
| VerdictNames.LowerCaseTruePassesAndFails | collectors/validate.py:356-359 | a lower-case true passes and then fails in every run |
| VerdictNames.UnseenNamePassesAndFails | collectors/validate.py:352 | a name without an ASCII letter passes undeclared and then fails in every run |
| VerdictNames.ExponentIsRejected | collectors/validate.py:352-359 | a well-formed expression whose numeral has an exponent is rejected for an undeclared metric |
| VerdictNames.TextComparedWithNumberFails | collectors/build_receipt.py:81-92 | text compared with a number passes and then raises |
| RegistryEdit.ProjectSpan | collectors/scheduler.py:225-240 | the project's first block, or an error iff the project is unknown |
| RegistrySlugs.PlainSlugIsRead | collectors/scheduler.py:229-233 | a plain project line is read as that project, whatever remark follows |
| RegistryEdit.Locate | collectors/scheduler.py:253-280 | the header, the end, the entry and whether it is alone |
| RegistryEdit.NewBlockTakenBack | collectors/scheduler.py:260-286 | a new block and entry, removed again, restore every line iff no stray entries follow the project's first line |
| RegistryEdit.NewEntryTakenBack | collectors/scheduler.py:282-290 | a new entry, removed again, restores every line iff the block held an entry before |
| RegistryEdit.SpanFound | collectors/scheduler.py:225-240 | after a set the next call finds the project's span where it was |
| RegistryEdit.SetThenFind | collectors/scheduler.py:243-291 | after a set the override is found with the line that was printed |
| RegistryEdit.ValueIsRead | collectors/scheduler.py:288-290 | the value on a printed line is the value that was set |
| RegistryEdit.EditIsPrinted | collectors/scheduler.py:263-264 | lines printed with plain names are read back as what they stand for |
| RegistryEdit.OutsideStays | collectors/scheduler.py:243-291 | no line outside the project's span changes, nor its first |
| RegistryFile.Registry.SetEntry | collectors/scheduler.py:243-291 | the file after setting or removing an override, whole, a last line without a break included |
| RegistryFile.UngluedIsEdited | collectors/scheduler.py:282-291 | unless lines are put in behind such a last line, the lines are exactly those of the edit |
| RegistryFile.NewBlockIsReversible | collectors/scheduler.py:243-291 | a new override, removed by the next call, leaves the file as it was iff no stray entries follow the project's first line and nothing was joined to the last line |
| RegistryFile.NewEntryIsReversible | collectors/scheduler.py:243-291 | the same for a new entry in a block: iff the block held an entry and nothing was joined to the last line |
| RegistrySlugs.SlugIsRead | collectors/scheduler.py:230-232 | an entry for a loop named `slug` is read as the start of a project |
| RegistrySlugs.SlugCannotBeRemoved | collectors/scheduler.py:229-237 | an entry read as a project cannot be removed again, be its block new or old |
| CadenceList.ItemsOfJoined | collectors/loops.py:228-232 | a printed list reads back as the same items |
| CadenceList.FoundInBlock | collectors/loops.py:217-235 | the list found stands in a block of the project |
| CadenceList.AddToProjectCadences | collectors/loops.py:212-236 | appends the loop unless it is there, and changes nothing else but the break that ends the line |
| CadenceList.RemoveFromProjectCadences | collectors/loops.py:250-273 | drops the loop wherever it stands in the list, and changes nothing else but the break that ends the line |
| CadenceList.AddedIsListed | collectors/loops.py:212-236 | after adding, the same line lists the loop besides what it held |
| CadenceList.AddThenRemove | collectors/loops.py:212-273 | adding a new loop and removing it restores every line iff the list was spaced as the editor prints and its line ended with a line feed |
| DotEnv.ParseEnv | collectors/secrets.py:165-179 | the loop gives each name its first assignment's value |
| DotEnv.AssignmentIsRead | collectors/secrets.py:120-178 | an assignment is read as one whatever follows the equals sign |
| DotEnv.RoundTrip | collectors/secrets.py:91-179 | the reader gets back the map that was written iff no value holds a quote or a line break |
| DotEnvValues.LineInWords | collectors/secrets.py:120-179 | a line gives a variable a value iff it is an assignment, exported or not, with white space where it may be, and holds that value |
| DotEnvValues.ValueInWords | collectors/secrets.py:172-177 | a quoted value is what the quotes hold, any other ends before its first remark and the white space there |
| Alphabets.NameCharacters | collectors/secrets.py:120-178 | names begin with a letter or an underscore and go on with these or digits, by their codes |
| PromptText.BodyIsRecovered | collectors/loops.py:349-381 | instructions are recovered, trimmed, iff they hold no report marker and no line break but the line feed |
| PromptText.MarkerFound | collectors/loops.py:377 | what comes before the marker is the text up to its first occurrence |
| PromptReading.BodyInWords | collectors/loops.py:370-381 | of what stands before the marker the first line goes iff it is a title, and the rest is kept, trimmed |
| PromptReading.NothingIsCut | collectors/loops.py:377 | without a marker nothing is cut off |
| Text.SplitAfterFirst | collectors/loops.py:228 | a separator cuts a text in two that are split apart |
| LineBreaks.JoinUndoes | collectors/loops.py:378-381 | text whose only breaks are line feeds is what its lines join to |
| LineBreaks.JoinedLines | collectors/loops.py:378-381 | joined lines hold no other break, and are no longer than the text |

## Left out

- Processes, git, GitHub, sops, HTTP and the file system as such: their outcomes are parameters of the events.
- Parsing of JSON and YAML, JSON Schema validation, regular expressions in general: records come parsed.
- Races inside one step: `write_receipt`'s look-up and write are one step, and so are a reap's read of the registry and all it stops.
- DecisionRuns.AppliedAtMostOnce: a drain's effect and mark are one step; `QueueRaces.NoRepeatIffInTurn` takes them apart.
- Time zones and daylight saving: the source takes local time as naive, and so does the model.
- SHA-1 and CRC-32: escalation identifiers are the pair and the start time themselves, slots take any checksum.
- Random bits of identifiers: identifiers are fresh, as in `FreshIds`.
- RemediationRuns.CapIsNeverExceeded: assumes that receipts are kept in order of `ended` and that no loop is listed twice for a project.
- EscalationRuns.OneRowIffNoGreenMissed: assumes that no receipt of a batch ended in the very second in which its pair's open streak began; identifiers hold seconds.
- EscalationRuns.EscalationsFollowStreaks: assumes that a failed or timed-out receipt is not green, that the issue search is accurate, that a repository answers all calls of a pass or none (`BlindSearchDuplicates` shows why), and that nobody else opens, renames or reopens issues of these titles.
- MemoryWalk.ListsExactlyTheReached: assumes that paths to the same file import the same files; `AliasHidesImports` shows why.
- CadenceList.AddedIsListed: which lines are an inline list, and that a printed one still is, comes with the line's kind; loop names hold no bracket.
- Decisions.DecisionQueue.Enqueue: fields of a wrong JSON type, which the schema rejects, cannot be written in the model.
- RegistryFile.Registry.SetEntry: `File` is the text as `read_text` gives it; a file with CRLF line ends is written back with line feeds, so it is never left as it was.
- VerdictNames.PassedIsWellFormed: which words of the text are names is the parser's to say (`Spells`); it is not modelled.
- Insights.SlopeFollowsOrder: exact real arithmetic, no rounding.
- Gap claims for schedules restricted by day of month or by month: the forty-day window may hold none of their fires.
- Text that is not ASCII in the tailers, the `.env` reader and the prompt editor: lengths and line breaks differ there.
- Telemetry aggregation, session pruning, metric movers, settings layers, skills, the web and command-line surfaces.

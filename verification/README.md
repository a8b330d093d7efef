# A verified model of dmn-status

dmn-status checks HTTP, TCP and FiveM targets at an interval, opens an incident after a number of
failures in a row, mails about it, rolls checks up into hours for uptime figures and charts, and
serves a public status page with an admin area. This project models the parts that carry state and
concurrency, and proves what they promise over all inputs, all runs and all interleavings.

`dafny verify dfyconfig.toml` checks everything:

| file | models | main results |
|---|---|---|
| `Base`, `Lifecycle` | the incident state machine `next` | its events, read off the whole history of checks; incidents are the maximal long runs of failures, disjoint and in order |
| `Tables`, `TimeOrder` | the tables checks and incidents and their statements | the newest rows are the newest, ties included |
| `Monitor` | `round` and `restore` with every database call failing at will | the runner's state and the incidents table agree after every round of every run |
| `Restart`, `PrunedRestart`, `PrunedRuns` | a restart after any run of checks and prunes | exactly when it cannot be told from never having stopped |
| `Manager` | `Manager.restore`, `round`, `notify` as methods on the store object | they compute the functions of `Monitor` |
| `RunnerProtocol`, `RunnerSafety`, `RunnerTheorems`, `RunnerProgress`, `RunnerRounds` | `Start`, `Reload`, `Delete`, `CheckNow`, `Wait` and one goroutine per target as a transition system | one runner per target where there should be one and none elsewhere, no leaked slot, pausing is final, deleting is complete, `stop` returns |
| `Retry`, `MailTable` | `retry` and its `pending` map, over a table changed by statements | over all passes of one process at most one attempt per incident and direction is not turned away by the limit; a lost mail that two passes in a row find is tried |
| `Stats` | `stats.add`, `stats.latency` | the percentile is the nearest rank, whatever the order of the samples |
| `Rollup`, `UptimeIndex` | the hourly table and any sequence of inserts, roll-ups and prunings | uptime equals a plain count over all checks ever inserted, if and only if every finished hour was covered |
| `Charts`, `LatencyLine`, `HourlyLine`, `Detail` | bars, cells and the latency lines | bars add up to the percentages; each slot of the line is the mean of exactly its ten minutes |
| `Store` | the store as an object whose methods change its tables | every method computes the functions above |
| `LoginLimiter`, `LoginBounds`, `LoginBursts` | `limiter.take`, `limiter.forgive` | sweeping is invisible; exact bounds on attempts in any quarter of an hour |
| `MailLimit` | `Mailer.reserve` | no hour, wherever it begins, is overfull; what late clock readings do |
| `PageCache`, `PageSteps`, `PageShare` | `cached.get`, `fromCache`, `clearCache` | nothing older than five seconds at the reading that decides, nothing from before a clear, and nothing built twice within those five seconds |

Loops and objects of the program are methods and classes here, proved against functions on values;
lemmas about runs are stated on those functions. Protocols whose goroutines interleave are
transition systems: one label is one atomic step, and a run is any sequence of enabled labels.
Times are Unix seconds, as in the tables. The clock, check results, answers of the mailer, new row
ids and the failure of each database call are parameters.

Five properties that one might expect do not hold of the code, or not always. Each has a lemma with
a concrete run, and one that says exactly when it holds:

* Pruning can change what a restart rebuilds (`PruningCanBeSeen`; exactly when: `PruneBeforeRestart`,
  and over whole runs `PrunedRuns.RestartIsInvisible`).
* After a downtime of more than two hours, the hour before it is missing from the uptime figures
  (`DowntimeLosesAnHour`; exactly when, for the pairs of successes and total:
  `IndexAgreesWithHistory`, `UptimeIsExact`).
* A mail can be tried on the first sight of its incident (`ReusedIdIsTriedAtOnce`; exactly when its
  id was inserted since the pass before: `FirstSightIsReuse`; over whole runs: `NeverOnFirstSight`).
* More than five login attempts of one address can get through within a quarter of an hour
  (`NineGetThrough`; exactly when: `MoreThanFive`; never more than nine: `AttemptsAreFew`).
* A mail whose clock reading is overtaken by another one can overfill an hour
  (`LateReadingOverfills`; exactly when, for any order of readings: `RunOverfills`, and for
  one call `LateOverfills`; with readings in order, never: `NoHourIsOverfull`).

## Model

| member | source | states |
|---|---|---|
| Lifecycle.FailRunIsMaximal | internal/monitor/state.go:33-36 | the run of failures counted at the end of a history stops at a success or at the start of the history, and holds only failures |
| Lifecycle.StateIsFailRun | internal/monitor/state.go:23-44 | over any history the machine's fields are those of the current run of failures: its length, its first time, its last cause, and open exactly when it is long enough |
| Lifecycle.EventsMeanRuns | internal/monitor/state.go:23-44 | down exactly at the check where the current run of failures reaches the threshold, up exactly at the success that ends a run of at least that length; the start is the first failure of that run |
| Lifecycle.AlertsAlternate | internal/monitor/state.go:23-44 | over any history the announcements alternate, beginning with down, and the machine is open exactly after a down |
| Lifecycle.OutagesAreLongRuns | internal/monitor/state.go:23-44 | the announced incidents are exactly the ended maximal runs of enough failures, found without the machine |
| Lifecycle.OutagesAreOrdered | internal/monitor/state.go:23-44 | with increasing times incidents have a positive length, are disjoint and in order |
| Tables.NewestAfterInsert | internal/store/checks.go:28-31 | a row that is not older than the others of its target moves to the front of the newest rows and pushes the last of them out |
| TimeOrder.NewestIsNewest | internal/store/checks.go:28-31 | the rows selected are the target's, n of them or all if there are fewer; times fall, among equal times the later inserted comes first, and every row left out comes before all of them |
| Tables.OpenedRows | internal/store/incidents.go:43-59 | opening adds exactly one open row, changes no other, and keeps at most one open row per target |
| Tables.ClosedRows | internal/store/incidents.go:61-64 | closing ends only the given row if it was open, and opens none |
| Tables.MarkedRows | internal/store/incidents.go:102-108 | marking opens and ends no row and changes no start |
| Monitor.AnnounceKeepsCoupling | internal/monitor/scheduler.go:271-287 | whatever fails while an incident is announced, the runner never claims a row that is not open, other targets' rows stay, and it is coupled if no row was open or the calls work |
| Monitor.ConcludeKeepsCoupling | internal/monitor/scheduler.go:289-297 | whatever fails while an incident ends, the runner is coupled to the table afterwards |
| Monitor.RoundKeepsCoupling | internal/monitor/scheduler.go:250-299 | after a round with any result and any failing calls the runner is open exactly when its target has an open row, with the same id and start; no target has two |
| Monitor.RoundHeals | internal/monitor/scheduler.go:271-278 | a runner that missed an open row adopts it, unannounced, when it next announces with working calls |
| Monitor.RunKeepsCoupling | internal/monitor/scheduler.go:250-299 | the same coupling over whole runs |
| Monitor.OpeningIsRetried | internal/monitor/scheduler.go:281-285 | an incident that could not be written is tried again at every later failure of the run, announced exactly once, in the first round that can write, with the first failure as its start |
| Monitor.OutageIsTold | internal/monitor/scheduler.go:271-297 | a whole outage from the inputs alone: the first failure that can be written announces it with its new id, the time of the first failure and the cause; the first success that can be written announces the end with the same id, the same start and its own time; no round in between announces anything, and the row holds these times and that cause |
| Monitor.RunStoresChecks | internal/monitor/scheduler.go:265-267 | the checks in the table after a run are those before and one for each round whose insert works, in order, with result, time, latency and text |
| Monitor.RestoredIsCoupled | internal/monitor/scheduler.go:211-223 | after a restart the runner is coupled to the table if the open incident could be read, and claims no wrong row in any case |
| Restart.RestoredMeans | internal/monitor/scheduler.go:211-239 | the rebuilt state read off the tables: open with the target's open row, if there is one; the failures at the front of the newest checks count that came after the last incident's end, up to a success or the threshold; the oldest is the first failure, the newest text that is not empty the cause; a read that fails counts as one that found nothing |
| Restart.PausingForgets | internal/monitor/scheduler.go:103-105 | closing the incident of a target that is paused forgets its failures: a runner started later begins with none |
| Restart.AlikeRun | internal/monitor/scheduler.go:250-299 | states that differ only in what the next down overwrites give the same alerts and the same rows for all futures |
| Restart.RoundIsRestored | internal/monitor/scheduler.go:211-248 | one undisturbed round keeps the runner alike to the one a restart would build from the tables |
| Restart.TellApart | internal/monitor/scheduler.go:250-299 | of two closed runners with different counts one announces earlier or with another start: there is an undisturbed run, possible next, that gives them different alerts |
| PrunedRuns.RestartIsInvisible | internal/monitor/scheduler.go:211-248 | after any undisturbed run of checks and prunes, a runner rebuilt from as many checks as the threshold cannot be told from the uninterrupted one by any later checks, failures and ids (same ids, starts, ends, causes and rows), if and only if an incident is open, no failure counts, or no prune took the first failure that counts; without prunes, always; if it can, then in a run without any trouble |
| PrunedRestart.NewestAfterPrune | internal/store/retention.go:13-15 | pruning cuts the list of newest checks at its old end and nowhere else |
| PrunedRestart.PruneBeforeRestart | internal/store/retention.go:10-22 | a prune just before a restart stays invisible in every future if and only if an incident is open, no failure counts, or the first failure that counts is within the retention; otherwise an undisturbed run shows it |
| PrunedRestart.PruningCanBeSeen | internal/store/retention.go:12-15 | a run in which the incident that the uninterrupted runner announces is missed after a prune and a restart |
| Manager.Manager.Restore | internal/monitor/scheduler.go:211-248 | the loop over the last checks computes the rebuilt state, for any failing reads; a target without statistics gets those of its newest check |
| Manager.Manager.Record | internal/monitor/scheduler.go:301-315 | the entry of the target shows this check and counts it; no other entry changes |
| Manager.CountersCountRounds | internal/monitor/scheduler.go:301-315 | after any rounds the two counters are up by the successes and the failures among them |
| Manager.Manager.Round | internal/monitor/scheduler.go:262-298 | the method records the check, changes the tables and returns the state and the alert that the round function says, for any failing calls and any answer of the mailer |
| Manager.Manager.Notify | internal/monitor/scheduler.go:317-329 | the answer of the mailer is returned; the row is marked if and only if mails are configured, this one was sent and the mark could be written; nothing else changes |
| RunnerSafety.StepKeepsInv | internal/monitor/scheduler.go:76-209 | the invariant of the runner protocol holds after every step of every goroutine |
| RunnerSafety.OneRunnerPerTarget | internal/monitor/scheduler.go:169-191 | under the invariant two unfinished runners of one target are the same |
| RunnerTheorems.AtMostOneRunner | internal/monitor/scheduler.go:76-191 | in every reachable state an unfinished runner is the one in runners for its target or the one the holder of ops is stopping, and no target has two |
| RunnerTheorems.SlotsNeverLeak | internal/monitor/scheduler.go:250-261 | in every reachable state the slots taken are the checks in flight, at most eight |
| RunnerTheorems.SoundInEveryInterleaving | internal/monitor/scheduler.go:193-299 | in every reachable state no runner claims an incident that is not its target's open one, and no target has two open |
| RunnerTheorems.CoupledInEveryInterleaving | internal/monitor/scheduler.go:193-299 | a runner whose first read of restore worked is open exactly when its target has an open row, with the same id and start, in every later state of every interleaving with reloads, deletions, pauses, stragglers, pruning and mail retries, until it is done |
| RunnerTheorems.PausingIsFinal | internal/monitor/scheduler.go:93-110 | after a Reload that read Paused returns nil the target has no unfinished runner and no open incident, until the next Reload or Delete of it |
| RunnerTheorems.DeletingIsComplete | internal/monitor/scheduler.go:112-132 | after Delete returns nil there is no runner, no statistics and no check of the target, until its row is found again |
| RunnerProgress.StartStartsAll | internal/monitor/scheduler.go:76-91 | in every interleaving Start returns after one step for each target it has read and one more, and not before; then each of them has a runner in runners, with its threshold, that ends only with the manager |
| RunnerProgress.StopStops | internal/monitor/scheduler.go:182-191 | Reload and Delete first take the runner of their target out of runners, and go on once it is cancelled and done, whatever others do; without a runner at once |
| RunnerProgress.ReloadStarts | internal/monitor/scheduler.go:93-110 | over any run in which the row is read, is not paused and the manager is not shut down when that is asked, with any steps of others: Reload does not return before it has started a runner, and then the target has an unfinished one in runners, with the threshold of its row |
| RunnerProgress.ReloadPauses | internal/monitor/scheduler.go:103-105 | over any run in which the row read is paused, Reload does not return before it has closed what is open for the target |
| RunnerProgress.ReloadGivesUp | internal/monitor/scheduler.go:99-125 | when the row cannot be read, is not there, or the manager is shut down, the call returns and changes nothing more; so does a failed Delete of a paused target |
| RunnerProgress.DeletesRow | internal/monitor/scheduler.go:118-118 | deleting the row takes the target, its checks and its incidents, and no incident of another target |
| RunnerProgress.DeleteDrops | internal/monitor/scheduler.go:112-132 | Delete does not return before it has deleted the row and, one step later, dropped the statistics |
| RunnerProgress.FailedDeleteRestarts | internal/monitor/scheduler.go:118-127 | over any run in which the row cannot be deleted, can be read, is not paused and the manager is not shut down, with any steps of others: Delete does not return before it has started a runner, and then the target has an unfinished one in runners, with the threshold of its row |
| RunnerProgress.NudgeCalls | internal/monitor/scheduler.go:145-150 | a nudge to an idle runner is taken: it wants a slot for a check, and its timer no longer counts |
| RunnerProgress.CalledRunnerChecks | internal/monitor/scheduler.go:250-255 | whatever others do, a runner that wants a slot goes on wanting it; its next step is the one into the check, possible whenever fewer than eight slots are taken, or, once its context has ended, back to its select |
| RunnerProgress.NobodySleepsForever | internal/monitor/scheduler.go:193-209 | in every reachable state an idle runner can exit, can take its tick, or gets one when its timer fires, and CheckNow can reach it |
| RunnerProgress.TimersRunInSelect | internal/monitor/scheduler.go:197-207 | in every interleaving the timer of a runner is off while it restores, waits for a slot, checks or decides |
| RunnerProgress.CallersGetIn | internal/monitor/scheduler.go:153-157 | when nobody holds ops any call gets in; Wait returns exactly when every runner is done, and changes nothing |
| RunnerProgress.ShutdownStopsStarting | internal/monitor/scheduler.go:76-110 | after a shutdown every runner is to end and none is started but those whose start was under way |
| RunnerProgress.WrittenIsRead | internal/monitor/scheduler.go:100-100 | what an admin writes of a target is what the next Reload of it reads, however many steps later, unless it is written again or a row is deleted |
| RunnerProgress.MaintenanceTouches | internal/store/retention.go:19-21 | pruning and the mail retry may come at any time, in any state of the protocol; pruning takes exactly the incidents that ended before its cut |
| RunnerTheorems.HolderCanMove | internal/monitor/scheduler.go:93-132 | whoever holds ops has a step, unless it waits for a runner that is not done or, in Wait, for all of them |
| RunnerTheorems.EndedCanAct | internal/monitor/scheduler.go:193-209 | a cancelled runner that is not done always has a step of its own |
| RunnerTheorems.NobodyIsStuck | internal/monitor/scheduler.go:76-191 | in every reachable state in which a caller holds ops, it or a runner has a step; in Wait once the manager is shut down |
| RunnerTheorems.ActUsesUp | internal/monitor/scheduler.go:193-299 | each step of a cancelled runner lowers the number of steps it has left |
| RunnerTheorems.StopReturns | internal/monitor/scheduler.go:182-191 | while a caller waits in stop the cancelled runner makes at most 5 steps, whatever others do |
| RunnerTheorems.WaitReturns | internal/monitor/scheduler.go:153-157 | while a caller waits in Wait on a cancelled manager the runners make at most 5 steps each, and three more for each nudge that still gets through |
| RunnerTheorems.ShutdownIsFinal | internal/monitor/scheduler.go:153-157 | after Wait returned on a cancelled manager no runner runs, and none ever will |
| RunnerRounds.StepsMakeTheRound | internal/monitor/scheduler.go:269-298 | the steps of the protocol from next on, undisturbed, lead to the state and the incidents of the round function |
| RunnerRounds.StepsMakeTheRoundAmongOthers | internal/monitor/scheduler.go:269-298 | with any steps of other targets' runners in between they lead to the state of the round and, but for mail marks, to its rows of the target |
| RunnerRounds.StepsMakeTheCheck | internal/monitor/scheduler.go:250-269 | undisturbed, a runner that wants a free slot takes it, checks, gives it back, makes its statistics entry and inserts its row unless that fails, and comes to next with the result of the check and its state as before |
| RunnerRounds.EndedCheckIsDropped | internal/monitor/scheduler.go:250-264 | the result of a check whose context has ended is dropped: the runner goes back to its select without recording it, and from there to its end |
| RunnerRounds.TimerIsSet | internal/monitor/scheduler.go:193-209 | after a round the timer is set anew and an old tick is gone, unless the context has ended |
| RunnerRounds.StepsMakeTheRestore | internal/monitor/scheduler.go:211-248 | the two steps of a new runner lead to the state that restore builds, for any failing reads, and to the select |
| Retry.Retrier.Pass | internal/monitor/maintenance.go:64-89 | the loop rebuilds pending for exactly the listed keys and tries exactly the keys seen before and not yet tried, each once |
| Retry.ListedMeans | internal/store/incidents.go:110-115 | what a pass looks after, in the columns of the row: an end that is not marked within the day, or whose start within the day is not marked either; an open incident that is not marked and started within the day |
| Retry.LeavesForGood | internal/monitor/maintenance.go:76-88 | a key that leaves the unmailed list is out of reach from then on, although pending is rebuilt |
| Retry.NeverBack | internal/store/incidents.go:110-115 | a key listed in one pass and not in a later one is in no pass after that |
| Retry.AtMostOneAttempt | internal/monitor/maintenance.go:76-88 | when ids are not reused, over all passes of a process at most one attempt per id and direction is not answered by the limit |
| Retry.NotOnFirstSight | internal/monitor/maintenance.go:82-86 | a mail is only tried if the pass before saw it too |
| MailTable.StatementsKeep | internal/store/incidents.go:43-108 | what any statements leave under an id is an incident inserted by them, or the one that was there before: same target and start, ended once, no mark taken back |
| MailTable.StatementDoes | internal/store/incidents.go:43-108 | what each statement makes of the row under an id, column by column; every other row stays |
| MailTable.NoReuseIsOrderly | internal/store/incidents.go:43-108 | runs of such statements and passes in which no id is inserted again change the table as the lemmas on `Retry` ask |
| MailTable.AtMostOneAttemptPerIncident | internal/monitor/maintenance.go:76-88 | whether ids are reused or not, over all passes of a process at most one attempt per incident, the one of an insert, and direction is not answered by the limit |
| MailTable.TriedIsKnown | internal/monitor/maintenance.go:81-84 | when no id is inserted again, every attempt is about the incident that the pass before saw, with its target and start |
| MailTable.FirstSightIsReuse | internal/monitor/maintenance.go:81-84 | a mail is tried although the pass before saw the incident of another insert under its id if and only if one of the statements in between inserted that id; otherwise target and start are the same |
| MailTable.PendingRemembers | internal/monitor/maintenance.go:76-88 | pending holds exactly the keys the last pass listed, and says of each whether an attempt was spent on it since it has been listed without a gap |
| MailTable.TriedExactly | internal/monitor/maintenance.go:76-88 | a pass tries a mail if and only if it and the pass before list it and no attempt was spent on it since it has been listed without a gap |
| MailTable.LostEndIsTold | internal/monitor/maintenance.go:76-84 | if two passes in a row find the same incident, ended within the day and not marked, and no attempt was spent on that mail, the second one tries it |
| MailTable.LostStartIsTold | internal/monitor/maintenance.go:76-84 | the same for an open incident that started within the day and is not marked |
| MailTable.OnlyLostIsTried | internal/store/incidents.go:110-115 | whatever is tried is the mail about such a row |
| MailTable.NeverOnFirstSight | internal/monitor/maintenance.go:76-88 | over a whole run every attempt is about the incident the pass before saw, if and only if between two passes that list the same mail, with no attempt spent on it since it has been listed without a gap, its id is never inserted |
| Retry.MarkedIsNotTried | internal/monitor/maintenance.go:77-81 | no pass after a mail was marked tries it |
| MailTable.ReusedIdIsTriedAtOnce | internal/monitor/maintenance.go:81-84 | a run of an insert, a pass, the deletion of the target, an insert with the same id and a pass, which tries the new incident's mail on first sight |
| Stats.Rank95 | internal/store/rollup.go:39 | the index is in range and is the first with at least 95 percent of the samples up to it |
| Stats.Stats.Add | internal/store/rollup.go:21-27 | the counters and the list of latencies after one more check |
| Stats.Stats.Latency | internal/store/rollup.go:29-40 | sorting in place and summing in a loop give the summary of the samples |
| Stats.SummaryIgnoresOrder | internal/store/rollup.go:29-40 | mean, percentile and maximum depend only on the multiset of samples |
| Stats.NearestRank | internal/store/rollup.go:39 | the percentile is a sample, at least 95 percent of the samples are at or below it, and no smaller value has that |
| Stats.SummaryBounds | internal/store/rollup.go:29-40 | the maximum is the largest sample, the percentile is at most that, the mean lies between the smallest and the largest |
| Stats.SummaryTells | internal/store/rollup.go:29-40 | the three numbers from the samples alone: 0 without any, otherwise the mean towards zero, the nearest rank and the largest |
| Rollup.HourStart | internal/store/rollup.go:11-14 | a multiple of an hour, and for times since 1970 the start of the hour the time lies in |
| Rollup.RollupGroups | internal/store/rollup.go:42-91 | after Rollup each target and hour with checks in the last two full hours has the row of exactly those checks; every other row is as before |
| Rollup.RollupTwice | internal/store/rollup.go:80-89 | a second run within the hour changes nothing |
| Rollup.RowMeans | internal/store/rollup.go:80-89 | a row holds the number of its checks, of the successes among them, and mean, nearest rank and maximum of exactly the latencies of those |
| Rollup.BucketsPartition | internal/store/rollup.go:57-74 | the bucket sizes add up to the rows scanned |
| UptimeIndex.TableKeepsRecent | internal/store/retention.go:10-15 | with a retention of a day or more, pruning never removes a check that a later Rollup or current-hour count reads |
| UptimeIndex.DoLeaves | internal/store/retention.go:10-22 | what each action leaves of both tables: an insert adds its row, a roll-up takes none away, a prune leaves exactly the checks of the retention and the hours of 400 days |
| UptimeIndex.RowHoldsSeen | internal/store/rollup.go:42-91 | after any run of inserts, roll-ups and prunings a row is computed from exactly the checks inserted before the last Rollup that covers its hour |
| UptimeIndex.IndexAgreesWithHistory | internal/store/rollup.go:97-129 | the count for a window never exceeds that of all checks ever inserted, and equals it if and only if every check of its finished hours was inserted before a Rollup covering its hour; then the successes agree too |
| UptimeIndex.UptimeIsExact | internal/store/rollup.go:97-123 | the pairs of successes and total for day, week and month are those of all checks ever inserted, pruned or not, if and only if every finished hour of the month is covered |
| UptimeIndex.DowntimeLosesAnHour | internal/store/rollup.go:43-44 | a run without a Rollup for three hours whose stored check is missing from the day |
| Charts.BarsAgreeWithUptime | internal/store/rollup.go:143-173 | the bars of n hours add up to the numerator and denominator of the uptime over the same hours |
| Charts.Cells | internal/web/public.go:58-77 | the loops give one cell for every full group of n hours |
| Charts.CellAt | internal/web/public.go:60-65 | cell k is that of the hours from k times n on |
| Charts.BarsAreSane | internal/store/rollup.go:143-173 | no bar claims more successes than checks |
| Charts.CellMeaning | internal/web/public.go:67-73 | a cell is down exactly if one of its hours has a failure, unknown exactly if none has a check, and then it has no percentage; otherwise that is the successes out of the checks of its hours |
| Charts.Slots | internal/web/public.go:285-298 | each slot holds the mean of the last point within it, or -1 |
| Charts.PointTells | internal/store/rollup.go:197-213 | a point stands at the start of its ten minutes and holds mean, nearest rank and maximum of their latencies |
| LatencyLine.PointsDoNotShare | internal/web/public.go:292-296 | no two points of the answer of Latency fall into one slot |
| LatencyLine.SlotStart | internal/web/public.go:286-287 | slots start at multiples of ten minutes, and the first one starts within the span, so it is not cut short |
| LatencyLine.LineShowsMeans | internal/store/rollup.go:180-223 | slot i of the 24-hour line is the integer mean of exactly the successful checks in its ten minutes, or -1 |
| LatencyLine.StreamFlush | internal/store/rollup.go:197-213 | flushing at a change of bucket keeps the points so far equal to the finished groups |
| LatencyLine.StreamEnds | internal/store/rollup.go:219-221 | the last flush completes the grouping by ten minutes |
| HourlyLine.LineShowsRows | internal/store/rollup.go:225-244 | slot i of the line over n hours is the stored mean of its hour, or -1 if that hour has no row with a success; the first slot is never cut short |
| HourlyLine.RowShowsMean | internal/store/rollup.go:80-89 | that stored mean is the integer mean of the successful checks its row was computed from, after any run |
| Detail.Line | internal/web/public.go:222-280 | from the tables to the slots: each slot of the day line is the mean of exactly its ten minutes, each slot of the week and month lines that of its hour's row, or -1 |
| Detail.SlotsEndNow | internal/web/public.go:286-287 | the 144, 168 or 720 slots in numbers: the last begins at a full ten minutes or hour and contains the time of drawing, the others lie before it without a gap |
| Detail.CheckCountsOnce | internal/web/public.go:285-298 | a success on the line of a day counts in the slot that contains it and in no other, and is what that slot shows if it is alone there; a failure counts nowhere |
| Detail.CheckIsInItsHour | internal/web/public.go:285-298 | on the lines of a week and a month the slot that contains a check is that of the hour whose row it belongs to |
| Store.Store.InsertCheck | internal/store/checks.go:16-26 | one row more, or none if the write fails |
| Store.Store.LastChecks | internal/store/checks.go:28-31 | n rows of the target, or all if there are fewer, newest first, later inserted first among equals, and no newer row left out |
| Store.Store.OpenIncident | internal/store/incidents.go:43-59 | a new open row with this start and cause and no marks if none of the target is open, otherwise a refusal; every other row stays; no effect on failure |
| Store.Store.CloseIncident | internal/store/incidents.go:61-64 | the row ends at the given time if it is there and open, and whether it was is reported; every other row and column stays |
| Store.Store.ClosePausedIncident | internal/store/incidents.go:66-70 | no open row of the target is left, those closed are marked mailed, every other row is untouched |
| Store.Store.MarkMailed | internal/store/incidents.go:102-108 | sets one mark of the row, that of the end only once it has ended; every other row and column is untouched; whether there was such a row is reported |
| Store.Store.UnmailedIncidents | internal/store/incidents.go:110-115 | exactly the incidents that started at the given time or later and are not marked, or ended then or later with the end not marked, by start and id |
| Store.Store.OpenIncidentFor | internal/store/incidents.go:81-88 | the open row of the target, if there is one |
| Store.Store.LastIncidentEnd | internal/store/incidents.go:72-79 | the latest end among the target's incidents, the zero time if there is none |
| Store.Store.Rollup | internal/store/rollup.go:42-91 | the two loops over maps and in-place statistics leave the rolled-up table; no effect on failure |
| Store.Store.Uptime | internal/store/rollup.go:97-136 | day, week and month have no value exactly if no check is counted, otherwise the number of successes out of the number of checks, of the 23, 167 or 719 finished hours and the current one; never more successes than checks |
| Rollup.RatioCounts | internal/store/rollup.go:131-136 | the ratio has no value if and only if no check is counted; otherwise its two numbers are the sums over the rows of the window and the checks of the current hour |
| Rollup.SinceCounts | internal/store/rollup.go:125-129 | what rawHour counts are the checks of the target since the hour began, and the successes among them |
| Rollup.SharesAreSane | internal/store/rollup.go:131-136 | no percentage has more successes than checks |
| Store.Store.Hours | internal/store/rollup.go:143-173 | every row lands in its hour's place, in range; missing hours are zero; the last is the current hour |
| Store.Store.Latency | internal/store/rollup.go:180-223 | up to a day one point per ten minutes with successful checks, computed from exactly those; for longer spans one point per hourly row with a success, from the hour on in which the span begins |
| Store.Store.HourlyLatency | internal/store/rollup.go:225-244 | one point for each selected row, by hour, with its three numbers |
| Store.Store.Prune | internal/store/retention.go:10-22 | exactly the checks within the retention, and the hours and ended incidents of the last 400 days, are left, and every open incident; what is left for each statement that may fail |
| LoginLimiter.Limiter.Take | internal/web/limit.go:36-71 | the method with its deleting loop computes the verdict and the memory of the limiter function |
| LoginLimiter.Limiter.Forgive | internal/web/limit.go:79-86 | the address is forgotten and one attempt is taken off the global count, never below zero |
| LoginLimiter.SweepingIsInvisible | internal/web/limit.go:40-63 | after any run with a clock that does not go back, an attempt hears exactly what a limiter would say that never sweeps, ignores expired windows and counts only unexpired ones against the cap |
| LoginLimiter.CapHolds | internal/web/limit.go:61-63 | the map never holds more than 10000 addresses, after any run |
| LoginLimiter.SweepsNowAndThen | internal/web/limit.go:40-47 | the map is swept when a quarter of an hour has passed since the last time or when it is full, and then only open windows stay; otherwise no address goes |
| LoginBounds.RefusalWaits | internal/web/limit.go:56-63 | an attempt is counted exactly if its wait is 0; a refusal counts nothing, and its wait is positive and at most a quarter of an hour |
| LoginBounds.RefusalCountsDown | internal/web/limit.go:56-63 | an attempt refused by a full window hears the same end of the wait until it comes, and is reported as first only once; at that end it is let through exactly if no other limit stands in its way |
| LoginBounds.AnswerIs | internal/web/limit.go:36-71 | after any run the answer to an attempt in numbers: five attempts for an open window of the address, thirty of unknown devices for that of all, ten thousand addresses; whoever refuses first tells when its window ends, and the first time it does |
| LoginBounds.CountersMeanAttempts | internal/web/limit.go:64-69 | an address's counter is the number of its attempts let through since the one that opened its window, with no successful login in between, and lies between 1 and 5 |
| LoginBounds.AttemptsAreFew | internal/web/limit.go:57-58 | at most nine attempts of one address get through in any quarter of an hour without a successful login |
| LoginBounds.MoreThanFive | internal/web/limit.go:52-68 | more than five do if and only if the address's window opened within it, and the attempts let through within it before that, together with those of the window, are more than five |
| LoginBursts.NineGetThrough | internal/web/limit.go:57-58 | a run in which nine do |
| LoginBounds.StrangersAreFew | internal/web/limit.go:59-60 | in any quarter of an hour at most sixty attempts from unknown devices get through, plus one per successful login |
| LoginBursts.SixtyGetThrough | internal/web/limit.go:48-50 | a run in which sixty do, without a login |
| MailLimit.Mailer.Reserve | internal/alert/smtp.go:55-74 | the cut and the append of the right queue; the other queue is untouched; refused exactly if the cut queue is full |
| MailLimit.RefusedIfFull | internal/alert/smtp.go:69-71 | after any run with readings in order, a call is refused if and only if the last hour holds as many granted reservations as the limit allows |
| MailLimit.StoredIsLastHour | internal/alert/smtp.go:64-72 | the stored queue is exactly the granted reservations of the last hour |
| MailLimit.NoHourIsOverfull | internal/alert/smtp.go:18-23 | every hour, wherever it begins, holds at most 20 granted mails, or 3 test mails |
| MailLimit.LateReading | internal/alert/smtp.go:56-57 | a call whose reading is older than the latest one of its kind is judged by the hour before the latest |
| MailLimit.LateOverfills | internal/alert/smtp.go:64-72 | after any calls with readings in any order, granting a call puts more than the limit into some hour if and only if that hour begins with a reservation, or the call itself, an hour or more before the newest reading and less than an hour before the call's own, and is full |
| MailLimit.FullIsDropped | internal/alert/smtp.go:64-72 | only late calls can: a granted call falls into a full hour only if its reading is older than the newest one |
| MailLimit.RunOverfills | internal/alert/smtp.go:55-74 | over any run of calls, whatever the order of their readings, some hour gets more than the limit if and only if the newest reading before some granted call had made the limiter drop a reservation that begins a full hour and is within an hour of that call |
| MailLimit.LateReadingOverfills | internal/alert/smtp.go:56-57 | five calls of which the last is late, and four of them within one hour are granted |
| PageCache.Cached.Get | internal/web/public.go:144-155 | the stored page if and only if it is under five seconds old, and then nothing changes; otherwise what build returns, stored unless it failed |
| PageCache.Server.FromCache | internal/web/public.go:157-168 | the stored page of the key if it is usable, otherwise what build returns, stored unless it failed; no other key's page changes |
| PageCache.StepKeepsInv | internal/web/public.go:144-181 | the invariant of the cache holds after every step of every request, write and clear |
| PageCache.NeverStale | internal/web/public.go:136-155 | in every interleaving an answer is under five seconds old at the reading taken in get, and shows every write committed five seconds before or earlier |
| PageCache.OneBuilderAtATime | internal/web/public.go:144-155 | at most one request builds for an object, and a waiting request can go on or waits for one that can |
| PageCache.ClearIsSeen | internal/web/public.go:157-181 | a request that looks up its object after a clear gets a page whose build began after it, shows every write committed before it, and is none of the builds under way at the clear |
| PageShare.FreshIsShared | internal/web/public.go:144-155 | in every interleaving, as long as a stored page is under five seconds old it stays, nobody builds for its object, and every request answered in that time is answered with it |
| PageShare.OneObjectEach | internal/web/public.go:157-164 | two requests share an object if and only if they ask for the same key, when no clear came between their lookups |
| PageSteps.StepsMakeTheAnswer | internal/web/public.go:144-168 | in the transition system a request that nobody disturbs takes the steps to exactly the answer and the stored pages of FromCache, with any number of queries, whether build works or fails |

## Left out

- HTTP, TCP and FiveM checks, SMTP, TLS and address classification: a check is an arbitrary result, a mail an arbitrary answer.
- SQL text, migrations, the driver and backups: a statement is one atomic step on a table that works or has no effect.
- Templates, translations, charts as SVG, metrics text, the preview, sessions, passwords and CSRF: formatting or library calls.
- Fractions of a second: times are whole seconds; the tables store no more, and the limiters only compare and subtract.
- Floating point: an uptime is the pair of successes and total, or NoData for -1; two pairs may have the same quotient.
- Times before 1970, except where a lemma has no condition on them: `Rollup`, `UptimeIndex` and the latency line ask for a later clock.
- Row ids: a new id is any id not in use; where a lemma asks that ids are not used again, another one says what happens otherwise.
- The pending map lives as long as the process; what is proved of passes is about those of one process.
- CheckNow: the ten-second gap between two nudges is not modelled, so any number of nudges is allowed.
- Timer jitter: a timer fires at any time once armed; one that a cancelled runner sets anew is taken not to fire before its select sees the cancellation.
- The numbers in the statistics and the rows of checks in `RunnerProtocol`: only whether a target has any; the numbers are in `Manager`.
- RunnerTheorems.StopReturns: says how many steps are left and that one is always possible, not that a check or a store call returns.
- Target deletion in the runs of `UptimeIndex`: a history is that of targets that are not deleted.
- The order by target_id in the statement of Rollup: the result does not depend on it.
- LoginLimiter.SweepingIsInvisible: asks for clock readings in the order of the lock; the clock is read just before it is taken.
- LoginLimiter.Limiter.Take: windows are values in the map, not pointers; none is shared outside the lock.
- PageCache.StepKeepsInv: a page is what its queries saw of the admin writes, not its text; checks and incidents written by the monitor are only bounded by the page's age.
- The maintenance loop itself, sessions and devices: it calls Rollup, Prune and retry, each of which may come at any time here.
- The cause text that restore builds is modelled, but overwritten before a down event uses it, so `Alike` does not compare it.

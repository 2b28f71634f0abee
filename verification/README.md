# Protocols over PostgreSQL rows, modelled and verified

The service keeps its long-lived work in PostgreSQL rows that many processes change at once: scheduled runs and
their reports, tasks of the A2A protocol, account deletions, workstream records, memory operations. What makes
it correct is not one function but every interleaving of small conditional statements. This project models
those statements and proves what all their interleavings keep.

Each stateful area has two layers.

- A **class** (`RunTable`, `JobTable`, `TaskTable`, `AccountStore`, `ErasureJournal`, `ChannelAccounts`,
  `WorkstreamStore`, `MemoryService`, `BackgroundReplyTargets`) holds the rows in fields. Its methods are the
  exported functions, statement by statement, and each is proved to have exactly the effect of a specification
  function on the old rows.
- A **history** is a sequence of states in which each follows from the one before by some statement that can
  happen there: any caller, any clock, any order, with crashes where the code can crash. Invariants are proved
  over all histories, and the theorems follow from them.

The remaining areas are algorithms: schedule timing with its day-by-day search, keyset pages, the LIKE pattern,
canonical JSON, consent validation, the recall projection and the reply-target table.

`dafny verify dfyconfig.toml` checks everything.

| module | about |
|---|---|
| `ScheduledRuns`, `ScheduledRunHistories`, `ScheduledRunProgress`, `ScheduledRunReports` | one run's row: worker leases, questions, releases, retries and the leased reports |
| `ScheduleTiming`, `ScheduledJobs` | occurrences of a schedule, materialising them, editing a job while ticks run |
| `ProtocolTasks` | A2A protocol 1.0, section 4.1.3: acceptance, quotas, session binding, ends of a task |
| `ProtocolCancellation` | the race between delivering a task and canceling it, with the cancellation outbox |
| `ProtocolListing` | A2A protocol 1.0, section 3.1.4: keyset pages and page tokens |
| `AccountErasure`, `AccountRestore`, `OrganizationAdmins` | deletion, the erasure journal across restores, the last-admin guard |
| `AccountArchive` | archiving one channel account into another |
| `Workstreams`, `LikePattern` | optimistic saves with tombstones, literal search through LIKE |
| `MemoryLedger` | receipts around memory effects, per-namespace serialisation |
| `Sequences` | insertion sort and other facts that several modules use |
| `JsObjects`, `IndexKeys`, `Utf8`, `CanonicalJson`, `ChannelConsent` | property order, text encoding, canonical serialisation, consent validation |
| `RecallProjection`, `ReplyTargets` | the refreshed recall projection, the bounded reply-target table |

## What the proofs found

- **A release can bring a report status back.** A release reads the row and later writes it, checking only the
  lease token. If the report is delivered in between, the late write restores `pending`
  (`LateReleaseRevivesStatus`). Up to any moment the status of every finalised sequence tells the truth exactly
  when no release that requeues the run wrote back a pending or queued status read before the verdict
  (`StatusTellsExactly`). No sequence is finalised twice all the same, but only because a question is put back
  or closed by nobody except the caller to whom it was handed out; the statements' own guards do not suffice
  (`GuardsAloneFinaliseTwice`).
- **A run with nothing to report can be reported.** A completion keeps the report lease of an earlier question. If
  its holder gives that lease back afterwards, the finished run becomes due for a report although it has nothing to
  tell (`EmptyResultCanBeReported`). It stays marked as needing none exactly until that happens
  (`EmptyResultsExactly`); if the completion found no report lease, no report statement ever selects the run
  (`EmptyResultsAreNeverReported`). Results and questions that are to be told are due, under report or reported at
  every moment (`ResultsAreDue`, `QuestionsAreDue`).
- **A released run can strand.** A silent worker's run is claimed again exactly as long as no session was ever
  stored in it (`SilentWorkerIsReplacedExactly`). A release keeps the session, so a run that failed once and whose
  next claimer dies before dispatching stays running with attempts left (`ReleasedRunCanStrand`,
  `StrandedRunStays`).
- **A cancellation can be lost in one way.** The session of a task that was canceled, or deleted unfinished, has
  been canceled or is queued exactly if some delivery got as far as its binding (`NoLostCancellation`). Every
  delivery that does not die gets that far (`NoneLostWithoutCrash`). One that dies between the acceptance and the
  binding can lose the session, and then nothing ever cancels it (`CrashCanLoseCancellation`, `LostForGood`). A
  later delivery of a task that is not yet canceled mends it (`RedeliveryRecovers`). Conversely nothing else is
  canceled: a session is canceled or queued exactly if its task must stop and was bound, or a delivery failed
  (`CanceledExactly`). The trigger of migration 0052
  is essential: it queues the session when a canceled row gets one, or when an unfinished row goes away.
- **An edit of a job is an unlocked read and a write, on a clock read before both.** It can put the next run back
  on an occurrence that a tick has stored: when it was planned before the tick (`StaleEditRepeatsOccurrence`), and,
  if it computes the next run anew, also when only its clock was read before the tick
  (`EarlyClockRepeatsOccurrence`). A job is in order up to any moment of its life, whatever overlaps, exactly if
  every edit that left it active fitted in: it was planned for an active job, and either no occurrence of the
  schedule between its clock and a stored one was left to compute, or nothing was stored since its read from the
  next run on that it had read (`LivesAreOrderlyExactly`). With an unchanged schedule that means that no tick
  stored an occurrence after the edit's clock (`EditOfSameTimingKeepsOrderExactly`). The unique index keeps every
  pair of job and occurrence from being stored twice in any case (`LivesStoreNothingTwice`).
- **A change of the prompt can unschedule a resumed job.** Planned while the job was paused and written after the
  resume, it leaves the job active without a next run, and no tick finds it due (`EditAcrossResumeUnschedules`;
  the exact condition is `DisturbedEditKeepsScheduleExactly`).
- **A calendar schedule needs a clock that is not turned back across midnight.** The search starts at the local
  day, so a scheduled time of the day before that is still ahead is passed over (`TurnedBackClockMissesRun`); the
  next run is always the earliest exactly if there is none (`NextRunIsEarliestExactly`). Zones with the common
  summer time have none (`CommonZonesAreRegular`).
- **The erasure journal protects only starts at which it is configured.** Nobody in the journal is present when
  serving begins exactly if the bucket is configured at that start or nobody was present before
  (`ServingIsCleanExactly`); with the variable unset a restored installation serves with deleted people present
  (`UnsetBucketServesErased`). A deletion that fails after its append, or whose append got no answer although it
  was stored, answers `unavailable` and is carried out by the next configured start.
- **The last-admin guard needs the row locks** (`LocksAreNeeded`).
- **An object lists its array-index keys first.** Canonical JSON is unaffected, and since lone surrogates are
  escaped its UTF-8 bytes determine the value as well (`DigestedBytesAreCanonical`). The reply-target table keeps the
  hundred newest in order exactly when no array-index task id stands behind a name or a larger index
  (`TableHoldsLatest`). In a table full of names the target of such an id is evicted by the very next new task
  (`IndexIsEvictedNext`).

## Model

| member | source | states |
|---|---|---|
| ScheduledRuns.RunTable.ClaimReady | db/services/scheduled-agent-jobs.ts:233-319 | every selected row is leased with one more attempt, or dead-lettered at three, no other row changes, and the copies handed to the dispatcher keep the old deferral and timestamp |
| ScheduledRuns.RunTable.SetSession | db/services/scheduled-agent-jobs.ts:321-343 | only the current lease stores the session, and the answer is also true for a session that is already stored |
| ScheduledRuns.RunTable.MarkStarted | db/services/scheduled-agent-jobs.ts:345-369 | the lease is extended, the first start time kept, and the answer says whether the row was the caller's |
| ScheduledRuns.RunTable.WaitForInput | db/services/scheduled-agent-jobs.ts:371-400 | the run parks with its questions and a new report sequence, and an empty question list changes nothing |
| ScheduledRuns.RunTable.DeferCompletion | db/services/scheduled-agent-jobs.ts:402-423 | the deferring turn is recorded under the current lease only |
| ScheduledRuns.RunTable.ClaimInput | db/services/scheduled-agent-jobs.ts:481-511 | the waiting row goes back to running even when the answer is empty because requests or session are missing |
| ScheduledRuns.RunTable.RestoreInput | db/services/scheduled-agent-jobs.ts:513-535 | the question is put back under the same lease without a new report sequence |
| ScheduledRuns.RunTable.FinishInput | db/services/scheduled-agent-jobs.ts:537-560 | the question is closed and its report withdrawn |
| ScheduledRuns.RunTable.Complete | db/services/scheduled-agent-jobs.ts:562-617 | completes unless a deferral stands against it, and tells completion, deferral and a lost lease apart; what the completion makes due is ResultsAreDue and EmptyResultsExactly |
| ScheduledRuns.RunTable.ReadForRelease | db/services/scheduled-agent-jobs.ts:619-631 | the observation on which a release decides |
| ScheduledRuns.RunTable.WriteRelease | db/services/scheduled-agent-jobs.ts:632-657 | requeues or dead-letters by the observation, checking only that the lease token is still current |
| ScheduledRuns.RunTable.ClaimReport | db/services/scheduled-agent-jobs.ts:668-707 | a pending report of a finished or waiting run is leased, and nothing else is |
| ScheduledRuns.RunTable.RecoverReports | db/services/scheduled-agent-jobs.ts:709-781 | exactly the stale report leases among the selected rows go back to pending |
| ScheduledRuns.RunTable.ReleaseReport | db/services/scheduled-agent-jobs.ts:783-805 | the token's holder gives the report back |
| ScheduledRuns.RunTable.FinalizeReport | db/services/scheduled-agent-jobs.ts:807-838 | the token's holder delivers or suppresses it, and an open question is not suppressed |
| ScheduledRunHistories.InvHolds | db/services/scheduled-agent-jobs.ts:233-838 | the inductive invariant of both leases, the observations of pending releases and the log of verdicts holds in every history |
| ScheduledRunHistories.ReportsFinaliseOnce | db/services/scheduled-agent-jobs.ts:668-838 | in every history each report sequence is finalised at most once, a token only finalises the sequence it was drawn for, and a report drawn on an open question is never suppressed |
| ScheduledRunHistories.FinalisedReportIsClosed | db/services/scheduled-agent-jobs.ts:807-838 | after its verdict the current sequence has no token and no report statement selects the row |
| ScheduledRunHistories.StatusTellsExactly | db/services/scheduled-agent-jobs.ts:619-657 | up to any moment a finalised sequence is neither pending nor queued exactly when no requeuing release wrote back such a status after the verdict |
| ScheduledRunHistories.AtomicReleasesKeepStatus | db/services/scheduled-agent-jobs.ts:619-657 | in particular when every release writes what is still true |
| ScheduledRunHistories.LateReleaseRevivesStatus | db/services/scheduled-agent-jobs.ts:619-657 | a history in which a late release makes a delivered sequence pending again |
| ScheduledRunHistories.GuardsAloneFinaliseTwice | agent/channels/scheduled-run.ts:132-205 | without the hand-out of the question to its caller, the statements' guards allow the same sequence to be delivered twice |
| ScheduledRunHistories.LeaseColumnsAgree | db/services/scheduled-agent-jobs.ts:233-657 | lease token, expiry, outcome and attempts agree with the status at every moment, attempts count the claims and stay within three |
| ScheduledRunHistories.TerminalRunsStay | db/services/scheduled-agent-jobs.ts:562-657 | a completed or dead-lettered run keeps its status, outcome and attempts for ever |
| ScheduledRunHistories.LostLeaseNeverReturns | db/services/scheduled-agent-jobs.ts:321-657 | a token that is no longer current never becomes current again, so none of its bearer's statements changes the run |
| ScheduledRunHistories.LeaseIsExclusive | db/services/scheduled-agent-run-leases.ts:4-19 | while a lease is active and its holder silent, no claim on the same clock succeeds, whatever else happens |
| ScheduledRunProgress.SilentWorkerIsReplacedExactly | db/services/scheduled-agent-jobs.ts:248-261 | a running run can ever be claimed again exactly as long as no session is stored in it |
| ScheduledRunProgress.StrandedRunStays | db/services/scheduled-agent-jobs.ts:248-261 | a run with a stored session and a silent lease holder keeps its status, lease, attempts and outcome at every later time on any clock |
| ScheduledRunProgress.ReleasedRunCanStrand | db/services/scheduled-agent-jobs.ts:633-657 | a history in which a released run, claimed again by a process that dies, has attempts left and is never claimable |
| ScheduledRunProgress.RetryWaits | db/services/scheduled-agent-jobs.ts:632-657 | a released run is not claimed within five minutes of its release |
| ScheduledRunProgress.ReportLeaseLasts | db/services/scheduled-agent-jobs.ts:709-781 | a dispatched report is not recovered within five minutes of its claim |
| ScheduledRunProgress.DeferringTurnWaits | db/services/scheduled-agent-jobs.ts:562-617 | after a deferral only another turn with something to report completes the run |
| ScheduledRunProgress.QuestionIsHandedOut | db/services/scheduled-agent-jobs.ts:481-535 | however often a question is claimed and put back, its claimer gets the requests that were asked |
| ScheduledRunProgress.OutcomeHasAuthor | db/services/scheduled-agent-jobs.ts:562-617 | a completed run's outcome is the one sent under the lease that was current at completion |
| ScheduledRunProgress.DeadLettersAreExhausted | db/services/scheduled-agent-jobs.ts:29-33 | a dead-lettered run always reports that its attempts are used up |
| ScheduledRunProgress.SequenceCountsAnnouncements | db/services/scheduled-agent-jobs.ts:371-657 | the report sequence counts the questions, non-empty results and exhausted runs, and nothing else advances it |
| ScheduledRunProgress.SessionHasAuthor | db/services/scheduled-agent-jobs.ts:321-369 | the stored session is the last one sent under a lease that was then current |
| ScheduledRunProgress.StartHasAuthor | db/services/scheduled-agent-jobs.ts:345-369 | the start time is that of the first start since the last claim that leased the run |
| ScheduledRunProgress.DeferralHasAuthor | db/services/scheduled-agent-jobs.ts:402-423 | a standing deferral is that of a turn that deferred and was neither answered nor put back since, nor leased anew |
| ScheduledRunProgress.CompletionFailsForDeferral | db/services/scheduled-agent-jobs.ts:562-617 | a completion under the current lease fails only because of such a deferral, by the same turn or with nothing to report |
| ScheduledRunProgress.ErrorsAreBounded | db/services/scheduled-agent-jobs.ts:513-535 | no stored error is longer than 2,000 characters |
| ScheduledRunProgress.ErrorIsKept | db/services/scheduled-agent-jobs.ts:513-657 | a failure stores its message, cut to a prefix of 2,000 characters if it is longer, and an answer or a completion clears it |
| ScheduledRunProgress.QuestionsAreNotEmpty | db/services/scheduled-agent-jobs.ts:371-400 | at no moment does a run wait for the answers to no questions |
| ScheduledRunReports.ResultsAreDue | db/services/scheduled-agent-jobs.ts:562-617 | in every history a finished run that has something to report is pending, under report, or its sequence is finalised |
| ScheduledRunReports.QuestionsAreDue | db/services/scheduled-agent-jobs.ts:371-400 | so is a question, until it is answered, asked anew, or its lease ends |
| ScheduledRunReports.EmptyResultsExactly | db/services/scheduled-agent-jobs.ts:562-617 | a run completed with nothing to report needs no report exactly until the holder of an earlier report lease gives it back |
| ScheduledRunReports.EmptyResultsAreNeverReported | db/services/scheduled-agent-jobs.ts:562-617 | if the completion found no report lease, no report statement ever selects the run |
| ScheduledRunReports.EmptyResultCanBeReported | db/services/scheduled-agent-jobs.ts:783-805 | a history in which a late release of a report makes a run with nothing to report claimable for one |
| ScheduledRunReports.NoReportGetsStuck | db/services/scheduled-agent-jobs.ts:668-781 | of a finished or waiting run every pending report can be claimed, and every one under way can be taken back from the expiry of its lease on |
| ScheduledRunReports.ClaimedReportCanBeFinalised | db/services/scheduled-agent-jobs.ts:807-838 | whoever claimed a report may deliver it, and suppress it exactly if the run is finished |
| ScheduledRunReports.StatusHasVerdict | db/services/scheduled-agent-jobs.ts:807-838 | a run is marked delivered or suppressed only if somebody delivered or suppressed a report of it |
| ScheduledRunReports.AnsweringExactly | agent/channels/scheduled-run.ts:132-205 | a caller may put a question back or close it exactly if a claim handed out requests and a session for its token before |
| ScheduledRunReports.HandedOutQuestionCanBeClosed | db/services/scheduled-agent-jobs.ts:481-560 | putting it back makes the run wait under the same lease and report, closing it leaves the run running for six hours from the claim with question and report withdrawn |
| ScheduledRunReports.AnsweredQuestionIsWithdrawn | db/services/scheduled-agent-jobs.ts:537-560 | after an answer no report statement selects the run until it has something new to announce |
| ScheduleTiming.ComputeNextRun | shared/schedules/timing.ts:134-176 | the three branches and the fifteen-day search compute the next run, in any zone |
| ScheduleTiming.NextRunIsEarliest | shared/schedules/timing.ts:134-176 | the next run of a single, interval, daily, weekday or weekly schedule, the latter in any zone regular for it, is its earliest occurrence after the given time, and absent exactly when there is none |
| ScheduleTiming.ComputeLatestRun | shared/schedules/timing.ts:178-221 | likewise for the latest run |
| ScheduleTiming.LatestRunIsLatest | shared/schedules/timing.ts:178-221 | the latest run is the latest occurrence up to the given time, likewise, and absent exactly when there is none |
| ScheduleTiming.CommonZonesAreRegular | shared/schedules/timing.ts:114-132 | zones with summer time of an hour that is not turned back across midnight are regular for schedules before ten in the evening, zones without changes for all: the two-pass conversion lands on the day it is for |
| ScheduleTiming.NextRunIsEarliestExactly | shared/schedules/timing.ts:154-175 | in any zone whose scheduled times fall on their days and whose search finds something, the next run is always the earliest scheduled time exactly if none of an earlier local day is ever still ahead |
| ScheduleTiming.TurnedBackClockMissesRun | shared/schedules/timing.ts:154-175 | a zone turned back across midnight in which the next run passes over the one that comes first |
| ScheduleTiming.OneDayAWeek | shared/schedules/timing.ts:155-174 | seven days in a row hold a day of every frequency, so the search never runs out |
| ScheduleTiming.WeekdayCountsFromSunday | shared/schedules/timing.ts:154-175 | weekdays count from Sunday, and the fourth of January 1970 was one |
| ScheduledJobs.JobTable.Create | db/services/scheduled-agent-jobs.ts:64-90 | a job is created exactly when its schedule has a future occurrence, due at the earliest one |
| ScheduledJobs.JobTable.Update | db/services/scheduled-agent-jobs.ts:127-177 | what an edit answers and writes, keeping every active job scheduled |
| ScheduledJobs.JobTable.MaterializeOne | db/services/scheduled-agent-jobs.ts:193-227 | stores one due job's occurrence unless the index holds it, moves the job on, and answers whether the run was new |
| ScheduledJobs.JobTable.Materialize | db/services/scheduled-agent-jobs.ts:179-231 | each due job advances by one occurrence, the others stay, and the answer names exactly the jobs whose run was new |
| ScheduledJobs.UndisturbedEditKeepsSchedule | db/services/scheduled-agent-jobs.ts:151-174 | an edit of an unchanged row leaves an active job with a next run |
| ScheduledJobs.DisturbedEditKeepsScheduleExactly | db/services/scheduled-agent-jobs.ts:137-177 | the exact condition under which an edit whose row changed after it was read leaves an active job with a next run |
| ScheduledJobs.EditAcrossResumeUnschedules | db/services/scheduled-agent-jobs.ts:137-177 | a prompt-only edit planned for the paused job and written after its resume leaves it active without a next run |
| ScheduledJobs.UndisturbedEditKeepsOrderExactly | db/services/scheduled-agent-jobs.ts:127-177 | with nothing between read and write, on any clock, the next run lies behind every stored occurrence exactly if it was not computed anew or the schedule has no occurrence between the clock and a stored one |
| ScheduledJobs.DisturbedEditKeepsOrderExactly | db/services/scheduled-agent-jobs.ts:127-177 | the exact condition, on any clock and across any statements, under which an edit leaves the next run behind every stored occurrence |
| ScheduledJobs.EditAcrossTicksKeepsOrderExactly | db/services/scheduled-agent-jobs.ts:127-231 | for ticks in between, on any clocks: it ends active and computed a next run behind all stored ones, or kept its own and no tick stored anything |
| ScheduledJobs.EditOfSameTimingKeepsOrderExactly | db/services/scheduled-agent-jobs.ts:127-231 | for an unchanged schedule computed anew: no stored occurrence lies after the edit's clock |
| ScheduledJobs.StaleEditRepeatsOccurrence | db/services/scheduled-agent-jobs.ts:137-177 | a change of the prompt alone can put the next run back on a stored occurrence, whose next tick stores nothing |
| ScheduledJobs.EarlyClockRepeatsOccurrence | db/services/scheduled-agent-jobs.ts:127-177 | so can a change of the schedule whose clock was read before the tick, whether it read the row before or after |
| ScheduledJobs.LivesAreOrderlyExactly | db/services/scheduled-agent-jobs.ts:64-231 | from creation on, with ticks and edits overlapping in any way on any clocks, stored occurrences increase and an active job's next one lies behind them exactly as long as every edit that left it active fitted in |
| ScheduledJobs.DueTicksStoreAnew | db/services/scheduled-agent-jobs.ts:193-227 | as long as that holds every due tick stores an occurrence that was never stored |
| ScheduledJobs.SequentialLivesAreOrderly | db/services/scheduled-agent-jobs.ts:64-231 | it always holds when edits do not overlap with other statements and the clock never runs back |
| ScheduledJobs.LivesStoreNothingTwice | db/schema/schedules.ts:198-201 | in any life whatsoever no pair of job and occurrence is stored twice |
| ScheduledJobs.TickAdvances | db/services/scheduled-agent-jobs.ts:193-227 | a tick takes a due occurrence the job has not reached, under run_latest the latest one, after which the job is not due |
| ScheduledJobs.TickedExactly | db/services/scheduled-agent-jobs.ts:193-227 | a tick stores the waiting occurrence under catch_up and the latest one under run_latest, moves the job to the one after it or completes it, and changes no other column |
| ScheduledJobs.TicksOnlyAdvance | db/services/scheduled-agent-jobs.ts:179-231 | from any such job on, at whatever times the ticks come, stored occurrences strictly increase, and run_latest stores the latest and leaves the job not due |
| ScheduledJobs.CatchUpSkipsNothing | db/services/scheduled-agent-jobs.ts:193-227 | under catch_up the stored occurrences are exactly all occurrences from the first next run up to the current one |
| ProtocolTasks.TaskTable.Accept | server/a2a/tasks.ts:72-146 | the answer and the new table for every submission: reopened task, no access, resend, resend with other content, each quota, acceptance |
| ProtocolTasks.RefusedExactly | server/a2a/tasks.ts:72-146 | a submission that was not seen before is refused exactly for five active tasks, sixty in the hour, an unknown or busy context, or a round outside one to eight |
| ProtocolTasks.JoinedParts | server/a2a/tasks.ts:142 | the parts of a message are joined by empty lines, however they are grouped |
| ProtocolTasks.TaskTable.ReadTask | server/a2a/tasks.ts:57-70 | a task is found only under its own grant |
| ProtocolTasks.TaskTable.BindSession | server/a2a/tasks.ts:148-160 | binds once, agrees to the same session again, refuses another, and fires the outbox trigger |
| ProtocolTasks.TaskTable.CancelTask | server/a2a/tasks.ts:162-184 | cancels what is open or already canceled, refuses the rest, answers the row as written |
| ProtocolTasks.TaskTable.FinishTask | server/a2a/tasks.ts:201-211 | writes a final state and the output, whole up to 32,000 characters and cut there, into an open task and leaves any other as it is |
| ProtocolTasks.TaskTable.FailSession | server/a2a/tasks.ts:243-260 | fails the task named by the continuation if it is active and has no other session |
| ProtocolTasks.SubmitKeepsWindow | server/a2a/tasks.ts:109-133 | an accepted task leaves every one-hour window of the grant within 60, even with creation times out of order |
| ProtocolTasks.InvHolds | server/a2a/tasks.ts:72-260 | quotas, unique message ids and the agreement of state and session hold in every history |
| ProtocolTasks.QuotasAlwaysHold | server/a2a/tasks.ts:109-133 | at every moment 60 created tasks an hour, 5 active tasks and one per context are not exceeded |
| ProtocolTasks.SessionsMatchStates | server/a2a/tasks.ts:148-160 | a submitted task has no session and a working one has one |
| ProtocolTasks.OutputsAreFinalAndBounded | server/a2a/tasks.ts:201-260 | only a finished task has an output, of at most 32,000 characters |
| ProtocolTasks.NextMovesForward | server/a2a/tasks.ts:148-260 | no statement of any writer, account deletion and revocation included, moves a task back |
| ProtocolTasks.StoppingCancels | server/accounts/deletion.ts:323-326 | account deletion and the retirement of a room cancel exactly the unfinished tasks |
| ProtocolTasks.TasksOnlyMoveForward | server/accounts/deletion.ts:323-326 | over every history a task keeps its origin, a written session, and a final state with its output |
| ProtocolTasks.ResendsAgree | server/a2a/tasks.ts:97-108 | two answered submissions with one message id under one grant have equal content and the same task, which stores that content |
| ProtocolCancellation.NoLostCancellation | server/a2a/delivery.ts:61-77 | the session of a task that was canceled, or deleted unfinished, was canceled or is queued exactly if some delivery reached its binding |
| ProtocolCancellation.CanceledExactly | server/a2a/delivery.ts:61-77 | in every history a session was canceled or is queued exactly if some delivery failed to bind or read back, or its task must stop and some delivery reached its binding |
| ProtocolCancellation.CancelsHaveReason | server/a2a/delivery.ts:61-77 | as long as no delivery fails, only a task that was canceled or deleted unfinished has its session canceled or queued |
| ProtocolCancellation.DeliveryCancelsExactly | server/a2a/delivery.ts:74-75 | a delivery cancels its session exactly if it read the task back as canceled |
| ProtocolCancellation.RequestCancelsExactly | agent/channels/a2a.ts:174-192 | a request cancels the session that the row had when it was canceled, and none if it had none |
| ProtocolCancellation.DrainDelivers | server/a2a/cancellation.ts:17-33 | a drain delivers the cancel before the row goes, and a failed cancel leaves the row |
| ProtocolCancellation.NoneLostWithoutCrash | server/a2a/delivery.ts:11-77 | if no delivery dies, every accepted session of a stopped task is canceled or queued once nobody is between acceptance and binding |
| ProtocolCancellation.OutboxKeepsUntilDelivered | server/a2a/cancellation.ts:17-33 | an outbox row goes only after a cancel was delivered |
| ProtocolCancellation.CrashCanLoseCancellation | agent/channels/a2a.ts:174-192 | a history in which a crash loses the cancellation, in every continuation |
| ProtocolCancellation.LostForGood | server/a2a/cancellation.ts:17-33 | a stopped task's session that is neither canceled nor queued, with no delivery under way, stays so whatever is requested, retried or drained |
| ProtocolCancellation.RedeliveryRecovers | server/a2a/delivery.ts:11-77 | delivering a still submitted task again binds the accepted session that nobody knew |
| ProtocolCancellation.UpdateKeepsRow | db/migrations/0052_network-retirement-outboxes.sql:16-34 | with the trigger no statement against the row leaves it stopped with a bound session that is neither canceled nor queued |
| ProtocolListing.SortedIsListing | server/a2a/list.ts:54-100 | the query's order lists every matching task exactly once, by descending time and id |
| ProtocolListing.SelectedBelow | server/a2a/list.ts:54-100 | the rows below a row of the listing are exactly the rest of the listing |
| ProtocolListing.PagesArePrefix | server/a2a/list.ts:100-118 | pages that continue one another hold a prefix of the listing, and all of it once there is no token |
| ProtocolListing.WalkYieldsListing | server/a2a/list.ts:43-118 | following the tokens with any page sizes yields the whole listing - exactly the rows of the asking grant, context, state and time, newest first - every page announces its length, and the walk ends |
| ProtocolListing.PageShowsAsked | server/a2a/list.ts:84-115 | a page shows rows of the asking grant, context, state and time only |
| ProtocolListing.LastFirstPageShowsAll | server/a2a/list.ts:84-115 | a first page without a token shows every such row, and its total counts them |
| ProtocolListing.OtherGrantsDoNotShow | server/a2a/list.ts:85 | the rows of other grants make no difference to any answer |
| ProtocolListing.RefusedExactly | server/a2a/list.ts:47-84 | an answer is refused exactly for a page size outside 1 to 100 or a token of another query, and the size is fifty by default |
| ProtocolListing.NoTaskTwice | server/a2a/list.ts:43-118 | if tasks only move to later times meanwhile, no task is listed twice |
| ProtocolListing.FollowingIsWalk | server/a2a/list.ts:54-80 | tokens are bound to their query, so whoever follows them keeps the first filter, and the theorems about walks apply to every answered sequence of requests |
| AccountErasure.AccountStore.IsSoleOwner | server/accounts/deletion.ts:247-267 | blocked exactly when some organization has the user as its only admin and other members or workspaces |
| AccountErasure.AccountStore.EraseUser | server/accounts/deletion.ts:289-351 | the ordered statements and the workspace loop amount to the erasure of that user |
| AccountErasure.AccountStore.PersistCompleted | server/accounts/deletion.ts:365-415 | the completed request and the tombstone |
| AccountErasure.AccountStore.RequestDeletion | server/accounts/deletion.ts:61-104 | every outcome: no session, blocked owner, journal not written, journaled but not erased, erased, erased but answered unavailable |
| AccountErasure.AccountStore.ApplyTombstones | server/accounts/deletion.ts:195-231 | the loop over the journal amounts to the replay of its records |
| AccountErasure.ErasureJournal.Append | server/accounts/erasure-journal.ts:51-90 | a record is added once, only when configured, possibly without an acknowledgement |
| AccountErasure.ErasureIsExact | server/accounts/deletion.ts:289-351 | an erased person leaves no account, session, membership, open task or active grant; every row of everybody else is as before; a second erasure changes nothing |
| AccountErasure.ErasuresCommute | server/accounts/deletion.ts:289-351 | two erasures have the same result in either order |
| AccountErasure.ReplayErases | server/accounts/deletion.ts:195-231 | after a replay nobody in the journal is present |
| AccountErasure.ReplayRemovesExactly | server/accounts/deletion.ts:195-231 | a replay removes exactly the people it lists and records those it removed |
| AccountErasure.ReplayIsIdempotent | server/accounts/deletion.ts:195-231 | replaying the journal again changes nothing |
| AccountErasure.ReplayIgnoresOrder | server/accounts/erasure-journal.ts:91-136 | the order and the repetition of the listing do not matter |
| AccountRestore.CommittedDeletionsAreJournaled | server/accounts/deletion.ts:65-89 | every deletion that committed, in the database or any backup, is in the journal |
| AccountRestore.ServingIsCleanExactly | scripts/start.ts:77-97 | when serving begins nobody in the journal is present exactly if the journal is configured at that start or nobody was present before it |
| AccountRestore.ServesExactly | scripts/start.ts:77-97 | serving begins only with a start that got through, when configured through the whole journal, and ends with a crash, a stop or a restore |
| AccountRestore.UnsetBucketServesErased | scripts/start.ts:77-97 | with the bucket unset a restored installation serves with any deleted person present |
| AccountRestore.ErasureSurvivesRestore | scripts/start.ts:77-97 | whoever asked for deletion, committed, rolled back, crashed or unacknowledged, is absent whenever serving begins with the journal configured, whatever was restored |
| OrganizationAdmins.EffectKeepsHealthy | server/accounts/deletion.ts:124-193 | a permitted deletion, transfer or close leaves every organization that has a member or workspace an admin |
| OrganizationAdmins.DeletionOrphansExactly | server/accounts/deletion.ts:247-267 | a deletion is blocked by exactly those organizations that it would leave without an admin although they have another member or a workspace |
| OrganizationAdmins.OnlyAdminsAct | server/accounts/deletion.ts:124-193 | only an admin transfers the role, to another plain member, or closes the organization, being alone in it |
| OrganizationAdmins.TransferIsExact | server/accounts/deletion.ts:124-155 | a transfer exchanges the two roles in the organization and changes no other row of the modelled tables |
| OrganizationAdmins.CloseIsExact | server/accounts/deletion.ts:157-193 | a close removes the organization's workspaces with their memberships, and personal workspaces stay |
| OrganizationAdmins.DeletionIsExact | server/accounts/deletion.ts:289-415 | a deletion is the erasure with its tombstone and pending request |
| OrganizationAdmins.AllowedCarriesOver | server/accounts/deletion.ts:269-276 | what one transaction decided stays permitted while others with disjoint locks commit |
| OrganizationAdmins.OrganizationsKeepAdmins | server/accounts/deletion.ts:65-69 | in every interleaving that the row locks allow, an organization with a member or a workspace has an admin |
| OrganizationAdmins.TransferAndCloseUnblock | server/accounts/deletion.ts:124-193 | after a transfer or a close that organization does not block the actor |
| OrganizationAdmins.LocksAreNeeded | server/accounts/deletion.ts:269-276 | two last admins who decide before either commits would leave members without an admin |
| AccountArchive.ChannelAccounts.InsertIdentity | db/schema/channels.ts:39-41 | an insertion is refused exactly when an unrevoked identity has the address |
| AccountArchive.ChannelAccounts.LinkIdentity | server/accounts/index.ts:212-232 | an address is linked only under a session and only if it never was: otherwise it is the caller's own, somebody else's, or retired |
| AccountArchive.ChannelAccounts.MoveIdentities | server/accounts/archive-transfer.ts:89-93 | the loop gives the target one new identity for each of the source's addresses and never meets the index |
| AccountArchive.ChannelAccounts.ArchiveAccount | server/accounts/archive-transfer.ts:9-111 | the order of the refusals, each with its condition, the refusal of a challenge that was not proven among them, and the whole effect of an archive that passes them |
| AccountArchive.ArchiveMovesIdentities | server/accounts/archive-transfer.ts:55-94 | the source keeps nothing active, the target gets each active address through one fresh identity, others keep theirs |
| AccountArchive.NothingWaits | server/accounts/archive-transfer.ts:45-111 | no message of the source is left queued or being sent |
| AccountArchive.ArchiveTouchesOnlySource | server/accounts/archive-transfer.ts:45-111 | only the source's queued messages and its sessions are touched, and the archive is recorded |
| AccountArchive.ArchiveConservesAddresses | server/accounts/archive-transfer.ts:55-94 | the set of active addresses is unchanged and each still has one active identity |
| AccountArchive.ArchivedSenderIsLinked | server/accounts/index.ts:470-477 | linking the confirmed sender after an archive finds the target's fresh identity and changes nothing |
| AccountArchive.ErasureFreesAddresses | db/schema/channels.ts:24-26 | deleting a user deletes the identities, so an address that was only theirs can be linked again |
| AccountArchive.ArchivesNeverChain | server/accounts/archive-transfer.ts:17-27 | over all archives, links, logins and erasures sources and targets are disjoint, so every chain has length one, and an archived account has no active address and no session |
| Workstreams.WorkstreamStore.SaveWorkstream | db/services/workstreams.ts:84-162 | the answer and the row for a resend, a changed revision, a tombstone, a full scope and a save |
| Workstreams.WorkstreamStore.ForgetWorkstream | db/services/workstreams.ts:164-212 | the tombstone one revision on, also for an id never seen, and the refusal of a changed revision, which leaves the table as it is |
| Workstreams.RevisionCountsWrites | db/services/workstreams.ts:84-212 | an id's revision is the number of its effective writes |
| Workstreams.NoLostUpdate | db/services/workstreams.ts:84-162 | of two effective commands of an id, saves or forgets, the later starts from a higher revision, and each from the one that was current |
| Workstreams.WritesStartFromCurrent | db/services/workstreams.ts:84-212 | every effective write of an id that has a row, save or forget, starts from that row's revision |
| Workstreams.ForgottenForEver | db/services/workstreams.ts:164-212 | a forgotten id keeps its tombstone for ever, also against a create that arrives late |
| Workstreams.ResendWritesOnce | db/services/workstreams.ts:84-212 | sending a command again has no further effect |
| Workstreams.CapacityHolds | db/services/workstreams.ts:84-162 | a scope never has more than 100 live records |
| Workstreams.AcknowledgedSaveIsStoredExactly | db/services/workstreams.ts:84-162 | an acknowledged save is stored exactly unless the record's last writer used the same operation id for something else |
| Workstreams.AcknowledgedSaveIsStored | server/executor/memory/workstreams.ts:86-112 | with the ids its callers make, one per tool call of a session, an acknowledged save is always what the record holds |
| Workstreams.ReusedOperationMisleads | db/services/workstreams.ts:84-162 | why ids must not be reused, which no caller does: a save with the id of a forget is acknowledged although the record is gone |
| LikePattern.PatternFindsLiteral | db/services/workstreams.ts:17-33 | the search pattern matches exactly the texts in which the query occurs literally, for any backslash, percent sign and underscore in it |
| LikePattern.LikeReads | db/services/workstreams.ts:17-33 | the matcher reads percent sign, underscore, escape and every other character as LIKE does |
| LikePattern.SearchFindsLiteralUpToCase | db/services/workstreams.ts:12-43 | the same up to letter case |
| MemoryLedger.MemoryService.MemoryOperation | infrastructure/memory/app.py:140-181 | the receipt before and after, the effect and the answer of one call, for every state of the receipt |
| MemoryLedger.LookupExactly | infrastructure/memory/app.py:140-158 | the first look at the receipt answers what is recorded, in conflict or open, and the limit stops only what would be remembered |
| MemoryLedger.UndisturbedIsOneCall | infrastructure/memory/app.py:146-181 | the statement-by-statement process, left alone, has exactly that effect and leaves no lock |
| MemoryLedger.EffectsHappenAtMostOnce | infrastructure/memory/app.py:148-173 | whatever crashes and whoever retries, an operation changes the memory at most once |
| MemoryLedger.NamespacesAreSerialised | infrastructure/memory/ledger.py:22-30 | two connected processes are never inside the same namespace |
| MemoryLedger.ReceiptsStay | infrastructure/memory/app.py:157-172 | a receipt keeps its digest, and its result once recorded |
| MemoryLedger.ClosedForEver | infrastructure/memory/app.py:160-166 | once an operation's process is gone no retry has an effect |
| MemoryLedger.RecordedResultIsReplayed | infrastructure/memory/app.py:158-166 | every later identical request is answered with the recorded result, a different one with a conflict, both without an effect |
| MemoryLedger.OnlyTheReceiptsRequestActs | infrastructure/memory/app.py:160-170 | only the request whose digest the open receipt holds ever changes the memory |
| MemoryLedger.SuccessMeansOneEffect | infrastructure/memory/app.py:169-173 | every success that was answered is on record and changed the memory exactly once |
| JsObjects.SortForgetsOrder | agent/lib/channel-consent.ts:110-123 | sorting by code units yields the same for every order of the same members |
| IndexKeys.IndexExactly | agent/lib/reply-targets.ts:27-34 | an array index is a decimal number below 2^32 - 1 without leading zeros |
| IndexKeys.IndexOrderIsNumeric | agent/lib/reply-targets.ts:27-34 | array indices are listed in the order of their numbers |
| CanonicalJson.CanonicalKeepsMeaning | agent/lib/channel-consent.ts:110-123 | the key-sorting replacer changes no value's meaning |
| CanonicalJson.MeaningDeterminesCanonical | agent/lib/channel-consent.ts:110-123 | values that are equal up to key order have one canonical form |
| CanonicalJson.QuotedCancels | agent/lib/channel-consent.ts:110-123 | string texts of RFC 8259 section 7, with escapes and surrogate pairs, decode uniquely in any context |
| CanonicalJson.TextCancels | agent/lib/channel-consent.ts:110-123 | value texts of RFC 8259 sections 3 to 7 decode uniquely before any delimiter |
| CanonicalJson.UnescapeInverts | agent/lib/channel-consent.ts:110-123 | reading an escaped string by RFC 8259 section 7 gives the string back |
| CanonicalJson.TextIsJson | agent/lib/channel-consent.ts:110-123 | arrays, objects, strings and the literal names have the texts of RFC 8259 sections 3 to 7 |
| CanonicalJson.SerialisationIsCanonical | agent/lib/channel-consent.ts:110-123 | two values have the same serialisation exactly when they are equal up to object key order at every depth |
| CanonicalJson.TextIsPaired | agent/lib/channel-consent.ts:110-123 | the serialisation has no surrogate outside a pair, whatever strings the value holds |
| CanonicalJson.DigestedBytesAreCanonical | agent/lib/channel-consent.ts:122 | the UTF-8 bytes that are digested are the same exactly when the values are equal up to object key order |
| Utf8.EncodingDetermines | agent/lib/channel-consent.ts:122 | UTF-8 is one-to-one on texts without lone surrogates |
| ChannelConsent.ValidatedExactly | agent/lib/channel-consent.ts:130-250 | a decision is validated exactly when the answer is about one pending request and one earlier complete delivery of its revision, and then binds that request, revision, receipt and message ids and takes the option "approve" or "cancel" by the intent |
| ChannelConsent.DecidedOption | agent/lib/channel-consent.ts:164-190 | a validated decision takes "approve" exactly when the intent was to approve, and "cancel" exactly when it was to cancel or correct |
| ChannelConsent.NonActionExactly | agent/lib/channel-consent.ts:141-149 | an answer decides nothing exactly if its source holds and it asks back or converses without a reference |
| ChannelConsent.SourceRejectionsExactly | agent/lib/channel-consent.ts:193-217 | the exact ground of each rejection of the message itself |
| ChannelConsent.RequestRejectionsHaveGround | agent/lib/channel-consent.ts:150-250 | the ground of every other rejection, in the order in which they exclude one another |
| ChannelConsent.ValidatedContentWasShown | agent/lib/channel-consent.ts:130-250 | the content a validated decision approves is the content that was delivered |
| RecallProjection.ProjectNotes | agent/lib/personal-memory-recall-refresh.ts:73-100 | the two loops over an insertion-ordered map compute the projection |
| RecallProjection.ProjectionHoldsRefreshed | agent/lib/personal-memory-recall-refresh.ts:73-100 | as a multiset the projection is the last refreshed note of each id and every unkeyed refreshed note, so no forgotten note survives |
| RecallProjection.ProjectionFollowsPrior | agent/lib/personal-memory-recall-refresh.ts:73-100 | keyed notes stand where the prior projection first had their ids, then where the refreshed one has the others, and unkeyed ones follow |
| RecallProjection.RefreshIsIdempotent | agent/lib/personal-memory-recall-refresh.ts:73-100 | the same refresh again changes nothing, order included |
| ReplyTargets.BackgroundReplyTargets.Register | agent/lib/reply-targets.ts:20-35 | a registration with a target extends the history whose table is kept, one without changes nothing |
| ReplyTargets.BackgroundReplyTargets.Resolve | agent/lib/reply-targets.ts:37-63 | a reference resolves only to a message of the caller's own conversation, with the exact condition for each kind |
| ReplyTargets.CurrentTargetExactly | agent/lib/reply-targets.ts:75-83 | a current target is the message the present caller sent from a Linq conversation |
| ReplyTargets.CurrentConversationExactly | agent/lib/reply-targets.ts:65-73 | the conversation is that of the present caller, or of the initiator when there is none |
| ReplyTargets.LookupExactly | agent/lib/reply-targets.ts:50-53 | looking up a task finds its own target, and none exactly if it has none |
| ReplyTargets.LatestPlaces | agent/lib/reply-targets.ts:20-35 | the latest registrations are those whose task is not registered again, all of them in order |
| ReplyTargets.TableHoldsLatest | agent/lib/reply-targets.ts:18-35 | the table always is the newest hundred of the latest registrations exactly when no array-index id stands behind a name or a larger index |
| ReplyTargets.NamesAreKeptInOrder | agent/lib/reply-targets.ts:18-35 | with ids that are no array indices it always is |
| ReplyTargets.TableIsBounded | agent/lib/reply-targets.ts:18-35 | whatever the ids, at most a hundred targets, one a task, the newest registration among them, and the others were there before |
| ReplyTargets.IndexJumpsTheQueue | agent/lib/reply-targets.ts:27-34 | a history of a name and then an index in which the order is lost |
| ReplyTargets.IndexIsEvictedNext | agent/lib/reply-targets.ts:18-35 | in a table full of names the newest target, if its id is an array index, is evicted by the next new task while older ones stay |

## Left out

- ScheduledRuns.RunTable.ClaimReady: the order by scheduled time and the choice of rows under the limit are the query's; the batch it answered is a parameter, and so is the set of rows others hold locked.
- ScheduledRuns.RunTable.RecoverReports: likewise for the batch; the listing's joined job columns are not modelled.
- ScheduledRuns.RunTable.ClaimReport: reports of the telegram and kapso channels, which native outboxes deliver, and their further report states.
- ScheduledJobs.JobTable.Materialize: which due jobs a tick locks, and in what order, is the query's answer and a parameter.
- ScheduleTiming.NextRunIsEarliest: calendar schedules in a zone that turns its clock back across midnight, for which NextRunIsEarliestExactly has the condition, or that skips the scheduled time of the last hours of a day; the search itself is modelled for every zone.
- ScheduleTiming.LatestRunIsLatest: likewise.
- ScheduleTiming.ComputeNextRun: time-zone names and their database; a zone is its list of changes.
- ProtocolTasks.TaskTable.Accept: access to the workspace is one allowed-or-denied parameter, and the advisory lock is the atomicity of the method.
- ProtocolTasks.TasksOnlyMoveForward: the triggers on matrix rooms and grants appear only as the task update they make.
- ProtocolListing.WalkYieldsListing: page tokens are values; their base64 and JSON text and the digest of the filter are not modelled, equal digests meaning equal filters.
- AccountErasure.AccountStore.EraseUser: tables that repeat the same pattern (chats, browser records, channel identities, billing), external wipes and their ledger, telemetry.
- AccountErasure.ErasureJournal.Append: the object store is a set of records; the client's own retries are part of a request's outcome.
- OrganizationAdmins.OrganizationsKeepAdmins: role changes and invitations of other services, and the journal's replay, carry no last-admin guard and are not among the operations.
- OrganizationAdmins.TransferAndCloseUnblock: workspace membership roles that a transfer also rewrites.
- OrganizationAdmins.TransferIsExact: likewise.
- AccountArchive.ChannelAccounts.ArchiveAccount: the queries on other tables, challenges and scheduled runs behind three of its guards are parameters.
- AccountArchive.ArchivesNeverChain: that nobody registers an archived account for another way to sign in is a condition on registrations, which belong to the authentication library.
- CanonicalJson.SerialisationIsCanonical: a number is its ECMAScript decimal text, so both zeros are one number; arrays that contain undefined are excluded.
- ChannelConsent.ValidatedExactly: the schemas of candidate, source and delivery are flags that say whether the record decodes and whether its text is blank.
- MemoryLedger.MemoryService.MemoryOperation: what an action does inside the memory store is a parameter, its effect; listing and searching, which write nothing, and the refusal of a request without an operation id.
- Workstreams.WorkstreamStore.SaveWorkstream: finding, recalling and reading records, and the size of their content.
- RecallProjection.ProjectNotes: the phases that guard the next model step.
- SHA-256 is a free constructor: equal digests mean equal inputs. Random tokens and ids are new values. Clocks are parameters.
- Waiting for a task, rendering it for the protocol, HTTP routes, providers, provisioning and the user interface.

/** Rows of `scheduled_agent_runs` and the statements that update them.

  * Each row function is what one conditional UPDATE writes into a row that its WHERE clause selected; each
  * method of `RunTable` is one exported function of the service, applied to the table in place. Times are
  * milliseconds, tokens are random UUIDs. Reports are those of the `eve` and `linq` channels.
  */
module ScheduledRuns {
  import opened Options

  type Time = int
  type Token = nat
  type RunId = nat

  datatype RunStatus = Queued | Running | WaitingForInput | Completed | DeadLetter

  datatype ReportStatus = NotReady | NotNeeded | Pending | Dispatched | Delivered | Suppressed

  datatype Outcome =
    | NothingToReport(reason: string)
    | Reported(summary: string)
    | Blocked(summary: string, userActionNeeded: string)

  datatype Verdict = Deliver | Suppress

  datatype Run = Run(
    scheduledFor: Time,
    status: RunStatus,
    workerSessionId: Option<string>,
    deferredCompletionTurnId: Option<string>,
    pendingInputRequests: Option<seq<string>>,
    outcome: Option<Outcome>,
    reportStatus: ReportStatus,
    reportSequence: nat,
    attempts: nat,
    retryAt: Option<Time>,
    leaseToken: Option<Token>,
    leaseExpiresAt: Option<Time>,
    reportLeaseToken: Option<Token>,
    reportLeaseExpiresAt: Option<Time>,
    lastError: Option<string>,
    startedAt: Option<Time>,
    completedAt: Option<Time>,
    updatedAt: Time)

  const MAX_ATTEMPTS: nat := 3
  const MINUTE: nat := 60_000
  const EXHAUSTED := Blocked("The scheduled task could not complete after three attempts.",
                             "Try the task again or update the schedule.")

  /** A row as the materialiser inserts it. */
  function Fresh(scheduledFor: Time, now: Time): Run {
    Run(scheduledFor, Queued, None, None, None, None, NotReady, 0, 0, None, None, None, None, None, None, None, None,
        now)
  }

  function Truncated(message: string): string {
    if |message| <= 2_000 then message else message[..2_000]
  }

  /** The lease predicate consulted by every model step of a worker. */
  predicate LeaseActive(run: Run, token: Token, now: Time) {
    run.status == Running && run.leaseToken == Some(token) && run.leaseExpiresAt.Some? && now < run.leaseExpiresAt.value
  }

  /** The WHERE clause shared by the worker's statements. */
  predicate HoldsLease(run: Run, token: Token) {
    run.status == Running && run.leaseToken == Some(token)
  }

  predicate AwaitsInput(run: Run, token: Token) {
    run.status == WaitingForInput && run.leaseToken == Some(token)
  }

  predicate Terminal(run: Run) {
    run.status == Completed || run.status == DeadLetter
  }

  predicate Reportable(run: Run) {
    Terminal(run) || run.status == WaitingForInput
  }

  // ---- worker statements ----

  predicate Ready(run: Run, now: Time) {
    && (|| run.status == Queued
        || (run.status == Running && run.workerSessionId.None? && run.leaseExpiresAt.Some?
           && run.leaseExpiresAt.value <= now))
    && (run.retryAt.None? || run.retryAt.value <= now)
  }

  function Leased(run: Run, token: Token, leaseFor: nat, now: Time): Run {
    run.(attempts := run.attempts + 1, deferredCompletionTurnId := None, leaseExpiresAt := Some(now + leaseFor),
         leaseToken := Some(token), retryAt := None, startedAt := None, status := Running, updatedAt := now)
  }

  function Exhausted(run: Run, now: Time): Run {
    run.(lastError := Some("Scheduled worker dispatch did not complete."), leaseExpiresAt := None, leaseToken := None,
         outcome := Some(EXHAUSTED), reportSequence := run.reportSequence + 1, reportStatus := Pending, retryAt := None,
         status := DeadLetter, updatedAt := now)
  }

  function DispatchCopy(run: Run, token: Token, leaseFor: nat, now: Time): Run {
    run.(attempts := run.attempts + 1, leaseExpiresAt := Some(now + leaseFor), leaseToken := Some(token),
         retryAt := None, startedAt := None, status := Running)
  }

  /** What the claiming transaction does to a row that it selected and locked. */
  function ClaimedOrExhausted(run: Run, token: Token, leaseFor: nat, now: Time): Run {
    if run.attempts >= MAX_ATTEMPTS then Exhausted(run, now) else Leased(run, token, leaseFor, now)
  }

  function WithSession(run: Run, session: string, now: Time): Run {
    run.(workerSessionId := Some(session), updatedAt := now)
  }

  function Started(run: Run, session: string, leaseFor: nat, now: Time): Run {
    run.(leaseExpiresAt := Some(now + leaseFor), startedAt := if run.startedAt.Some? then run.startedAt else Some(now),
         updatedAt := now, workerSessionId := Some(session))
  }

  function Waiting(run: Run, requests: seq<string>, now: Time): Run {
    run.(pendingInputRequests := Some(requests), leaseExpiresAt := None, reportSequence := run.reportSequence + 1,
         reportStatus := Pending, status := WaitingForInput, updatedAt := now)
  }

  function Deferred(run: Run, turn: string, now: Time): Run {
    run.(deferredCompletionTurnId := Some(turn), updatedAt := now)
  }

  function Answering(run: Run, now: Time): Run {
    run.(leaseExpiresAt := Some(now + 6 * 60 * MINUTE), status := Running, updatedAt := now)
  }

  /** A claimed question is handed out only with its requests and the session that asked. */
  predicate Answerable(run: Run) {
    run.pendingInputRequests.Some? && run.workerSessionId.Some?
  }

  function Restored(run: Run, message: string, now: Time): Run {
    run.(deferredCompletionTurnId := None, lastError := Some(Truncated(message)), leaseExpiresAt := None,
         status := WaitingForInput, updatedAt := now)
  }

  function Answered(run: Run, now: Time): Run {
    run.(deferredCompletionTurnId := None, pendingInputRequests := None, lastError := None,
         reportLeaseExpiresAt := None, reportLeaseToken := None, reportStatus := NotReady, updatedAt := now)
  }

  /** The turn that defers a completion may not complete the run itself; an empty result waits for every deferral. */
  predicate MayComplete(run: Run, turn: string, outcome: Outcome) {
    run.deferredCompletionTurnId.None? || (!outcome.NothingToReport? && run.deferredCompletionTurnId.value != turn)
  }

  function Finished(run: Run, outcome: Outcome, now: Time): Run {
    run.(completedAt := Some(now), deferredCompletionTurnId := None, pendingInputRequests := None, lastError := None,
         leaseExpiresAt := None, leaseToken := None, outcome := Some(outcome),
         reportSequence := if outcome.NothingToReport? then run.reportSequence else run.reportSequence + 1,
         reportStatus := if outcome.NothingToReport? then NotNeeded else Pending,
         status := Completed, updatedAt := now)
  }

  /** The columns that the first statement of a release reads and its second statement writes back. */
  datatype Observation = Observation(token: Token, attempts: nat, outcome: Option<Outcome>, reportStatus: ReportStatus)

  function Observed(run: Run, token: Token): Observation {
    Observation(token, run.attempts, run.outcome, run.reportStatus)
  }

  function Released(run: Run, seen: Observation, message: string, now: Time): Run {
    var dead := seen.attempts >= MAX_ATTEMPTS;
    run.(deferredCompletionTurnId := None, lastError := Some(Truncated(message)), leaseExpiresAt := None,
         leaseToken := None, outcome := if dead then Some(EXHAUSTED) else seen.outcome,
         reportSequence := if dead then run.reportSequence + 1 else run.reportSequence,
         reportStatus := if dead then Pending else seen.reportStatus,
         retryAt := if dead then None else Some(now + 5 * MINUTE),
         status := if dead then DeadLetter else Queued, updatedAt := now)
  }

  // ---- report statements ----

  function ReportClaimed(run: Run, token: Token, now: Time): Run {
    run.(reportLeaseExpiresAt := Some(now + 5 * MINUTE), reportLeaseToken := Some(token), reportStatus := Dispatched,
         updatedAt := now)
  }

  predicate ReportStale(run: Run, now: Time) {
    Reportable(run) && run.reportStatus == Dispatched && run.reportLeaseExpiresAt.Some?
        && run.reportLeaseExpiresAt.value <= now
  }

  function ReportRecovered(run: Run, now: Time): Run {
    run.(reportLeaseExpiresAt := None, reportLeaseToken := None, reportStatus := Pending, updatedAt := now)
  }

  function ReportReleased(run: Run, message: string, now: Time): Run {
    run.(lastError := Some(Truncated(message)), reportLeaseExpiresAt := None, reportLeaseToken := None,
         reportStatus := Pending, updatedAt := now)
  }

  /** A verdict counts only from the holder of the report lease, and an open question is never suppressed. */
  predicate MayFinalize(run: Run, token: Token, verdict: Verdict) {
    && run.reportLeaseToken == Some(token)
    && run.reportStatus == Dispatched
    && (if verdict == Suppress then Terminal(run) else Reportable(run))
  }

  function Finalized(run: Run, verdict: Verdict, now: Time): Run {
    run.(reportLeaseExpiresAt := None, reportLeaseToken := None,
         reportStatus := if verdict == Deliver then Delivered else Suppressed, updatedAt := now)
  }

  // ---- the statements as values ----

  /** One SQL statement against one run, with its parameters. A `Claim` names a row that the claiming query locked. */
  datatype Statement =
    | Claim(token: Token, leaseFor: nat, now: Time)
    | SetSession(token: Token, session: string, now: Time)
    | MarkStarted(token: Token, session: string, leaseFor: nat, now: Time)
    | WaitForInput(token: Token, requests: seq<string>, now: Time)
    | DeferCompletion(token: Token, turn: string, now: Time)
    | ClaimInput(token: Token, now: Time)
    | RestoreInput(token: Token, message: string, now: Time)
    | FinishInput(token: Token, now: Time)
    | Complete(token: Token, turn: string, outcome: Outcome, now: Time)
    | ReadForRelease(token: Token)
    | WriteRelease(seen: Observation, message: string, now: Time)
    | ClaimReport(token: Token, now: Time)
    | RecoverReport(now: Time)
    | ReleaseReport(token: Token, message: string, now: Time)
    | FinalizeReport(token: Token, verdict: Verdict, now: Time)

  /** The WHERE clause of a statement. */
  predicate Selects(s: Statement, run: Run) {
    match s
    case Claim(_, _, now) => Ready(run, now)
    case SetSession(token, _, _) => HoldsLease(run, token)
    case MarkStarted(token, _, _, _) => HoldsLease(run, token)
    case WaitForInput(token, requests, _) => requests != [] && HoldsLease(run, token)
    case DeferCompletion(token, _, _) => HoldsLease(run, token)
    case ClaimInput(token, _) => AwaitsInput(run, token)
    case RestoreInput(token, _, _) => HoldsLease(run, token)
    case FinishInput(token, _) => HoldsLease(run, token)
    case Complete(token, turn, outcome, _) => HoldsLease(run, token) && MayComplete(run, turn, outcome)
    case ReadForRelease(token) => run.leaseToken == Some(token)
    case WriteRelease(seen, _, _) => run.leaseToken == Some(seen.token)
    case ClaimReport(_, _) => Reportable(run) && run.reportStatus == Pending
    case RecoverReport(now) => ReportStale(run, now)
    case ReleaseReport(token, _, _) => run.reportLeaseToken == Some(token)
    case FinalizeReport(token, verdict, _) => MayFinalize(run, token, verdict)
  }

  function Written(s: Statement, run: Run): Run {
    match s
    case Claim(token, leaseFor, now) => ClaimedOrExhausted(run, token, leaseFor, now)
    case SetSession(_, session, now) => WithSession(run, session, now)
    case MarkStarted(_, session, leaseFor, now) => Started(run, session, leaseFor, now)
    case WaitForInput(_, requests, now) => Waiting(run, requests, now)
    case DeferCompletion(_, turn, now) => Deferred(run, turn, now)
    case ClaimInput(_, now) => Answering(run, now)
    case RestoreInput(_, message, now) => Restored(run, message, now)
    case FinishInput(_, now) => Answered(run, now)
    case Complete(_, _, outcome, now) => Finished(run, outcome, now)
    case ReadForRelease(_) => run
    case WriteRelease(seen, message, now) => Released(run, seen, message, now)
    case ClaimReport(token, now) => ReportClaimed(run, token, now)
    case RecoverReport(now) => ReportRecovered(run, now)
    case ReleaseReport(_, message, now) => ReportReleased(run, message, now)
    case FinalizeReport(_, verdict, now) => Finalized(run, verdict, now)
  }

  function Execute(s: Statement, run: Run): Run {
    if Selects(s, run) then Written(s, run) else run
  }

  predicate Hits(runs: map<RunId, Run>, id: RunId, s: Statement) {
    id in runs && Selects(s, runs[id])
  }

  function After(runs: map<RunId, Run>, id: RunId, s: Statement): map<RunId, Run> {
    if id in runs then runs[id := Execute(s, runs[id])] else runs
  }

  /** The table. An id that is not a key has no row; `now` is the caller's clock. */
  class RunTable {
    var runs: map<RunId, Run>

    constructor ()
      ensures runs == map[]
    {
      runs := map[];
    }

    /** `batch` is what the locking query answered: some of the ready rows.
      * The copies handed to the dispatcher keep the old deferral and timestamp, as the service builds them.
      */
    method ClaimReady(batch: set<RunId>, token: Token, leaseFor: nat, now: Time)
      returns (claimed: map<RunId, Run>)
      requires forall id <- batch :: id in runs && Ready(runs[id], now)
      modifies this
      ensures runs.Keys == old(runs).Keys
      ensures forall id <- runs :: runs[id] == if id in batch then Execute(Claim(token, leaseFor, now), old(runs)[id])
                                               else old(runs)[id]
      ensures claimed.Keys == set id | id in batch && old(runs)[id].attempts < MAX_ATTEMPTS
      ensures forall id <- claimed :: claimed[id] == DispatchCopy(old(runs)[id], token, leaseFor, now)
      ensures forall id <- claimed ::
          runs[id].(deferredCompletionTurnId := old(runs)[id].deferredCompletionTurnId,
              updatedAt := old(runs)[id].updatedAt)
          == claimed[id]
    {
      var exhausted := set id | id in batch && runs[id].attempts >= MAX_ATTEMPTS;
      var claimable := set id | id in batch && runs[id].attempts < MAX_ATTEMPTS;
      claimed := map id | id in claimable :: DispatchCopy(runs[id], token, leaseFor, now);
      runs := map id | id in runs :: if id in exhausted then Exhausted(runs[id], now) else runs[id];
      runs := map id | id in runs :: if id in claimable then Leased(runs[id], token, leaseFor, now) else runs[id];
    }

    /** Also true when an earlier call already stored this session. */
    method SetSession(id: RunId, token: Token, session: string, now: Time) returns (ok: bool)
      modifies this
      ensures runs == After(old(runs), id, Statement.SetSession(token, session, now))
      ensures ok <==> id in runs && runs[id].workerSessionId == Some(session)
    {
      if id in runs && HoldsLease(runs[id], token) {
        runs := runs[id := WithSession(runs[id], session, now)];
        return true;
      }
      ok := id in runs && runs[id].workerSessionId == Some(session);
    }

    method MarkStarted(id: RunId, token: Token, session: string, leaseFor: nat, now: Time) returns (ok: bool)
      modifies this
      ensures runs == After(old(runs), id, Statement.MarkStarted(token, session, leaseFor, now))
      ensures ok <==> Hits(old(runs), id, Statement.MarkStarted(token, session, leaseFor, now))
    {
      ok := id in runs && HoldsLease(runs[id], token);
      if ok {
        runs := runs[id := Started(runs[id], session, leaseFor, now)];
      }
    }

    /** An empty request list is refused before the statement is sent. */
    method WaitForInput(id: RunId, token: Token, requests: seq<string>, now: Time) returns (run: Option<Run>)
      modifies this
      ensures runs == After(old(runs), id, Statement.WaitForInput(token, requests, now))
      ensures run == if Hits(old(runs), id, Statement.WaitForInput(token, requests, now)) then Some(runs[id]) else None
    {
      if requests == [] || id !in runs || !HoldsLease(runs[id], token) {
        return None;
      }
      runs := runs[id := Waiting(runs[id], requests, now)];
      run := Some(runs[id]);
    }

    method DeferCompletion(id: RunId, token: Token, turn: string, now: Time) returns (ok: bool)
      modifies this
      ensures runs == After(old(runs), id, Statement.DeferCompletion(token, turn, now))
      ensures ok <==> Hits(old(runs), id, Statement.DeferCompletion(token, turn, now))
    {
      ok := id in runs && HoldsLease(runs[id], token);
      if ok {
        runs := runs[id := Deferred(runs[id], turn, now)];
      }
    }

    /** The row is taken even when the answer is `None` because it lost its requests or its session. */
    method ClaimInput(id: RunId, token: Token, now: Time) returns (run: Option<Run>)
      modifies this
      ensures runs == After(old(runs), id, Statement.ClaimInput(token, now))
      ensures run == if Hits(old(runs), id, Statement.ClaimInput(token, now)) && Answerable(runs[id]) then
          Some(runs[id]) else None
    {
      if id !in runs || !AwaitsInput(runs[id], token) {
        return None;
      }
      runs := runs[id := Answering(runs[id], now)];
      run := if runs[id].pendingInputRequests.None? || runs[id].workerSessionId.None? then None else Some(runs[id]);
    }

    method RestoreInput(id: RunId, token: Token, message: string, now: Time)
      modifies this
      ensures runs == After(old(runs), id, Statement.RestoreInput(token, message, now))
    {
      if id in runs && HoldsLease(runs[id], token) {
        runs := runs[id := Restored(runs[id], message, now)];
      }
    }

    method FinishInput(id: RunId, token: Token, now: Time)
      modifies this
      ensures runs == After(old(runs), id, Statement.FinishInput(token, now))
    {
      if id in runs && HoldsLease(runs[id], token) {
        runs := runs[id := Answered(runs[id], now)];
      }
    }

    /** Answers whether the run completed, was left to a deferred turn, or was no longer the caller's. */
    method Complete(id: RunId, token: Token, turn: string, outcome: Outcome, now: Time)
        returns (completed: Option<bool>)
      modifies this
      ensures runs == After(old(runs), id, Statement.Complete(token, turn, outcome, now))
      ensures completed.Some? <==> id in old(runs) && HoldsLease(old(runs)[id], token)
      ensures completed.Some? ==>
          (completed.value <==> Hits(old(runs), id, Statement.Complete(token, turn, outcome, now)))
    {
      if id !in runs || !HoldsLease(runs[id], token) {
        return None;
      }
      var run := runs[id];
      if run.deferredCompletionTurnId.None?
          || (!outcome.NothingToReport? && run.deferredCompletionTurnId.value != turn) {
        runs := runs[id := Finished(run, outcome, now)];
        return Some(true);
      }
      var deferred := if outcome.NothingToReport? then run.deferredCompletionTurnId.Some?
                      else run.deferredCompletionTurnId == Some(turn);
      completed := if deferred then Some(false) else None;
    }

    /** The first statement of a release. */
    method ReadForRelease(id: RunId, token: Token) returns (seen: Option<Observation>)
      ensures seen == if Hits(runs, id, Statement.ReadForRelease(token)) then Some(Observed(runs[id], token)) else None
    {
      seen := if id in runs && runs[id].leaseToken == Some(token) then Some(Observed(runs[id], token)) else None;
    }

    /** The second statement of a release: it trusts the observation and checks only the lease token. */
    method WriteRelease(id: RunId, seen: Observation, message: string, now: Time) returns (status: Option<RunStatus>)
      modifies this
      ensures runs == After(old(runs), id, Statement.WriteRelease(seen, message, now))
      ensures status == if Hits(old(runs), id, Statement.WriteRelease(seen, message, now)) then Some(runs[id].status)
          else None
    {
      if id !in runs || runs[id].leaseToken != Some(seen.token) {
        return None;
      }
      runs := runs[id := Released(runs[id], seen, message, now)];
      status := Some(runs[id].status);
    }

    method ClaimReport(id: RunId, token: Token, now: Time) returns (run: Option<Run>)
      modifies this
      ensures runs == After(old(runs), id, Statement.ClaimReport(token, now))
      ensures run == if Hits(old(runs), id, Statement.ClaimReport(token, now)) then Some(runs[id]) else None
    {
      if id !in runs || !Reportable(runs[id]) || runs[id].reportStatus != Pending {
        return None;
      }
      runs := runs[id := ReportClaimed(runs[id], token, now)];
      run := Some(runs[id]);
    }

    /** `batch` is what the locking query answered; only its stale reports go back to pending. */
    method RecoverReports(batch: set<RunId>, now: Time)
      requires forall id <- batch ::
          id in runs && (ReportStale(runs[id], now) || (Reportable(runs[id]) && runs[id].reportStatus == Pending))
      modifies this
      ensures runs.Keys == old(runs).Keys
      ensures forall id <- runs ::
          runs[id] == if id in batch then Execute(RecoverReport(now), old(runs)[id]) else old(runs)[id]
    {
      var stale := set id | id in batch && runs[id].reportStatus == Dispatched;
      runs := map id | id in runs :: if id in stale then ReportRecovered(runs[id], now) else runs[id];
    }

    method ReleaseReport(id: RunId, token: Token, message: string, now: Time) returns (ok: bool)
      modifies this
      ensures runs == After(old(runs), id, Statement.ReleaseReport(token, message, now))
      ensures ok <==> Hits(old(runs), id, Statement.ReleaseReport(token, message, now))
    {
      ok := id in runs && runs[id].reportLeaseToken == Some(token);
      if ok {
        runs := runs[id := ReportReleased(runs[id], message, now)];
      }
    }

    method FinalizeReport(id: RunId, token: Token, verdict: Verdict, now: Time) returns (ok: bool)
      modifies this
      ensures runs == After(old(runs), id, Statement.FinalizeReport(token, verdict, now))
      ensures ok <==> Hits(old(runs), id, Statement.FinalizeReport(token, verdict, now))
    {
      ok := id in runs && MayFinalize(runs[id], token, verdict);
      if ok {
        runs := runs[id := Finalized(runs[id], verdict, now)];
      }
    }
  }
}

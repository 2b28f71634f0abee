/** What the columns of a scheduled run come to mean over a history: who wrote them, for how long they bind whom, and
  * which runs are taken over when their worker falls silent.
  */
module ScheduledRunProgress {
  import opened Options
  import opened ScheduledRuns
  import opened ScheduledRunHistories

  /** Statement `i` found the row. */
  ghost predicate Hit(worlds: seq<World>, statements: seq<Statement>, i: int)
    requires 0 <= i < |statements| < |worlds|
  {
    Selects(statements[i], worlds[i].run)
  }

  /** Statement `i` executes on a row of which the invariant holds. */
  ghost predicate Moves(worlds: seq<World>, statements: seq<Statement>, i: int)
    requires 0 <= i < |statements| < |worlds|
  {
    Inv(worlds[i]) && Possible(worlds[i], statements[i]) && worlds[i + 1].run == Execute(statements[i], worlds[i].run)
  }

  ghost predicate Trace(worlds: seq<World>, statements: seq<Statement>) {
    |worlds| == |statements| + 1 && forall i :: 0 <= i < |statements| ==> Moves(worlds, statements, i)
  }

  lemma HistoryIsTrace(worlds: seq<World>, statements: seq<Statement>)
    requires History(worlds, statements)
    ensures Trace(worlds, statements)
  {
    forall i | 0 <= i < |statements| ensures Moves(worlds, statements, i) {
      InvHolds(worlds, statements, i);
      NextExecutes(worlds[i], statements[i]);
    }
  }

  lemma NextExecutes(w: World, s: Statement)
    ensures Next(w, s).run == Execute(s, w.run)
  {
  }

  // ---- silent workers ----

  lemma SessionIsKept(w: World, s: Statement)
    requires w.run.workerSessionId.Some?
    ensures Execute(s, w.run).workerSessionId.Some?
  {
  }

  lemma {:induction false} SessionStays(worlds: seq<World>, statements: seq<Statement>, i: nat, j: nat)
    requires Trace(worlds, statements) && i <= j < |worlds|
    requires worlds[i].run.workerSessionId.Some?
    ensures worlds[j].run.workerSessionId.Some?
    decreases j
  {
    if i < j {
      SessionStays(worlds, statements, i, j - 1);
      assert Moves(worlds, statements, j - 1);
      SessionIsKept(worlds[j - 1], statements[j - 1]);
    }
  }

  /** A running run can be claimed at some time exactly as long as no worker has ever stored a session in it. */
  lemma SilentWorkerIsReplacedExactly(worlds: seq<World>, statements: seq<Statement>, k: nat)
    requires History(worlds, statements) && k < |worlds| && worlds[k].run.status == Running
    ensures (exists now :: Ready(worlds[k].run, now)) <==> worlds[k].run.workerSessionId.None?
  {
    InvHolds(worlds, statements, k);
    var r := worlds[k].run;
    assert r.workerSessionId.None? ==> Ready(r, r.leaseExpiresAt.value);
  }

  /** The worker's columns. */
  predicate SameWork(a: Run, b: Run) {
    && a.status == b.status && a.leaseToken == b.leaseToken && a.leaseExpiresAt == b.leaseExpiresAt
    && a.attempts == b.attempts && a.workerSessionId == b.workerSessionId && a.outcome == b.outcome
  }

  lemma NextKeepsStranded(w: World, s: Statement, token: Token)
    requires Inv(w) && HoldsLease(w.run, token) && w.run.workerSessionId.Some? && Bearer(s) != Some(token)
    ensures SameWork(w.run, Execute(s, w.run))
  {
  }

  /** A run whose session is stored and whose lease holder falls silent stays as it is at any later time on any
    * clock.
    */
  lemma {:induction false} StrandedRunStays(worlds: seq<World>, statements: seq<Statement>, i: nat, j: nat,
      token: Token)
    requires History(worlds, statements) && i <= j < |worlds|
    requires HoldsLease(worlds[i].run, token) && worlds[i].run.workerSessionId.Some?
    requires forall k :: i <= k < j ==> Bearer(statements[k]) != Some(token)
    ensures SameWork(worlds[i].run, worlds[j].run)
    decreases j
  {
    if i < j {
      StrandedRunStays(worlds, statements, i, j - 1, token);
      HistoryIsTrace(worlds, statements);
      assert Moves(worlds, statements, j - 1);
      NextKeepsStranded(worlds[j - 1], statements[j - 1], token);
    }
  }

  function Redispatched(): seq<Statement> {
    [Claim(1, MINUTE, 0), SetSession(1, "first", 1), ReadForRelease(1),
     WriteRelease(Observation(1, 1, None, NotReady), "failed", 2),
     Claim(2, MINUTE, 6 * MINUTE)]
  }

  /** A release keeps the session of the worker that failed. If the process that claims the run next dies before it
    * dispatches, the run has attempts left and nobody to take it over.
    */
  lemma ReleasedRunCanStrand() returns (worlds: seq<World>)
    ensures History(worlds, Redispatched())
    ensures var r := worlds[5].run;
            HoldsLease(r, 2) && r.startedAt.None? && r.attempts < MAX_ATTEMPTS && forall now :: !Ready(r, now)
  {
    var w0 := Start(0, 0);
    var w1 := w0.(run := Leased(w0.run, 1, MINUTE, 0), drawn := {1}, claims := 1);
    var w2 := w1.(run := WithSession(w1.run, "first", 1));
    var seen := Observation(1, 1, None, NotReady);
    var w3 := w2.(observations := {seen});
    var w4 := w3.(run := Released(w3.run, seen, "failed", 2));
    var w5 := w4.(run := Leased(w4.run, 2, MINUTE, 6 * MINUTE), drawn := {1, 2}, claims := 2);
    worlds := [w0, w1, w2, w3, w4, w5];
    var ss := Redispatched();
    assert w1 == Next(w0, ss[0]);
    assert w2 == Next(w1, ss[1]);
    assert w3 == Next(w2, ss[2]);
    assert w4 == Next(w3, ss[3]);
    assert w5 == Next(w4, ss[4]);
    assert worlds[0] == Start(0, 0);
  }

  // ---- leases and delays ----

  const ANSWER_LEASE: nat := 6 * 60 * MINUTE

  /** For how long a statement makes its bearer the active holder, if it does. */
  function Grants(s: Statement, run: Run): Option<nat> {
    match s
    case Claim(_, leaseFor, _) => if run.attempts < MAX_ATTEMPTS then Some(leaseFor) else None
    case MarkStarted(_, _, leaseFor, _) => Some(leaseFor)
    case ClaimInput(_, _) => Some(ANSWER_LEASE)
    case _ => None
  }

  /** A claim, a start and a claimed question make their token the active one for exactly the granted time. */
  lemma LeaseLasts(run: Run, s: Statement, now: Time)
    requires Selects(s, run) && Grants(s, run).Some?
    ensures LeaseActive(Execute(s, run), s.token, now) <==> now < s.now + Grants(s, run).value
  {
  }

  lemma NextKeepsRetry(w: World, s: Statement)
    requires Inv(w) && w.run.status == Queued && !(s.Claim? && Selects(s, w.run))
    ensures Execute(s, w.run).status == Queued && Execute(s, w.run).retryAt == w.run.retryAt
  {
  }

  lemma {:induction false} RetryTimeStays(worlds: seq<World>, statements: seq<Statement>, i: nat, j: nat)
    requires Trace(worlds, statements) && i <= j < |worlds| && worlds[i].run.status == Queued
    requires forall k :: i <= k < j && statements[k].Claim? ==> !Hit(worlds, statements, k)
    ensures worlds[j].run.status == Queued && worlds[j].run.retryAt == worlds[i].run.retryAt
    decreases j
  {
    if i < j {
      RetryTimeStays(worlds, statements, i, j - 1);
      assert Moves(worlds, statements, j - 1);
      NextKeepsRetry(worlds[j - 1], statements[j - 1]);
    }
  }

  /** A released run is not claimed again within five minutes of its release. */
  lemma RetryWaits(worlds: seq<World>, statements: seq<Statement>, i: nat, j: nat)
    requires History(worlds, statements) && i < j < |statements|
    requires statements[i].WriteRelease? && Hit(worlds, statements, i) && worlds[i + 1].run.status == Queued
    requires forall k :: i < k < j && statements[k].Claim? ==> !Hit(worlds, statements, k)
    requires statements[j].Claim? && Hit(worlds, statements, j)
    ensures statements[i].now + 5 * MINUTE <= statements[j].now
  {
    HistoryIsTrace(worlds, statements);
    assert Moves(worlds, statements, i);
    RetryTimeStays(worlds, statements, i + 1, j);
  }

  lemma NextKeepsReportExpiry(run: Run, s: Statement, at: Time)
    requires run.reportLeaseExpiresAt.None? || run.reportLeaseExpiresAt.value == at
    requires !(s.ClaimReport? && Selects(s, run))
    ensures var after := Execute(s, run).reportLeaseExpiresAt; after.None? || after.value == at
  {
  }

  lemma {:induction false} ReportExpiryStays(worlds: seq<World>, statements: seq<Statement>, i: nat, j: nat, at: Time)
    requires Trace(worlds, statements) && i <= j < |worlds|
    requires worlds[i].run.reportLeaseExpiresAt == Some(at)
    requires forall k :: i <= k < j && statements[k].ClaimReport? ==> !Hit(worlds, statements, k)
    ensures var expiry := worlds[j].run.reportLeaseExpiresAt; expiry.None? || expiry.value == at
    decreases j
  {
    if i < j {
      ReportExpiryStays(worlds, statements, i, j - 1, at);
      assert Moves(worlds, statements, j - 1);
      NextKeepsReportExpiry(worlds[j - 1].run, statements[j - 1], at);
    }
  }

  /** A dispatched report is not taken back within five minutes. */
  lemma ReportLeaseLasts(worlds: seq<World>, statements: seq<Statement>, i: nat, j: nat)
    requires History(worlds, statements) && i < j < |statements|
    requires statements[i].ClaimReport? && Hit(worlds, statements, i)
    requires forall k :: i < k < j && statements[k].ClaimReport? ==> !Hit(worlds, statements, k)
    requires statements[j].RecoverReport? && Hit(worlds, statements, j)
    ensures statements[i].now + 5 * MINUTE <= statements[j].now
  {
    HistoryIsTrace(worlds, statements);
    assert Moves(worlds, statements, i);
    ReportExpiryStays(worlds, statements, i + 1, j, statements[i].now + 5 * MINUTE);
  }

  // ---- deferred completions ----

  /** The statements that end or replace a deferral. */
  predicate TouchesDeferral(s: Statement) {
    s.Claim? || s.DeferCompletion? || s.RestoreInput? || s.FinishInput? || s.WriteRelease?
  }

  /** The run is deferred by the turn, or completed despite it. */
  predicate DeferredOrDone(run: Run, turn: string) {
    run.deferredCompletionTurnId == Some(turn) || run.status == Completed
  }

  lemma NextKeepsDeferral(w: World, s: Statement, turn: string)
    requires Inv(w) && DeferredOrDone(w.run, turn)
    requires TouchesDeferral(s) ==> !Selects(s, w.run)
    ensures DeferredOrDone(Execute(s, w.run), turn)
  {
  }

  lemma {:induction false} DeferralStays(worlds: seq<World>, statements: seq<Statement>, i: nat, j: nat, turn: string)
    requires Trace(worlds, statements) && i <= j < |worlds| && DeferredOrDone(worlds[i].run, turn)
    requires forall k :: i <= k < j && TouchesDeferral(statements[k]) ==> !Hit(worlds, statements, k)
    ensures DeferredOrDone(worlds[j].run, turn)
    decreases j
  {
    if i < j {
      DeferralStays(worlds, statements, i, j - 1, turn);
      assert Moves(worlds, statements, j - 1);
      NextKeepsDeferral(worlds[j - 1], statements[j - 1], turn);
    }
  }

  /** After a turn deferred the completion, only another turn with something to report completes the run. */
  lemma DeferringTurnWaits(worlds: seq<World>, statements: seq<Statement>, i: nat, j: nat)
    requires History(worlds, statements) && i < j < |statements|
    requires statements[i].DeferCompletion? && Hit(worlds, statements, i)
    requires forall k :: i < k < j && TouchesDeferral(statements[k]) ==> !Hit(worlds, statements, k)
    requires statements[j].Complete? && Hit(worlds, statements, j)
    ensures statements[j].turn != statements[i].turn && !statements[j].outcome.NothingToReport?
  {
    HistoryIsTrace(worlds, statements);
    assert Moves(worlds, statements, i);
    DeferralStays(worlds, statements, i + 1, j, statements[i].turn);
  }

  // ---- questions ----

  /** The statements that replace or close a question. */
  predicate TouchesQuestion(s: Statement) {
    s.WaitForInput? || s.FinishInput? || s.Complete?
  }

  lemma NextKeepsQuestion(run: Run, s: Statement)
    requires TouchesQuestion(s) ==> !Selects(s, run)
    ensures Execute(s, run).pendingInputRequests == run.pendingInputRequests
  {
  }

  lemma {:induction false} QuestionStays(worlds: seq<World>, statements: seq<Statement>, i: nat, j: nat)
    requires Trace(worlds, statements) && i <= j < |worlds|
    requires forall k :: i <= k < j && TouchesQuestion(statements[k]) ==> !Hit(worlds, statements, k)
    ensures worlds[j].run.pendingInputRequests == worlds[i].run.pendingInputRequests
    decreases j
  {
    if i < j {
      QuestionStays(worlds, statements, i, j - 1);
      assert Moves(worlds, statements, j - 1);
      NextKeepsQuestion(worlds[j - 1].run, statements[j - 1]);
    }
  }

  /** However often a question is claimed and put back, whoever claims it gets the requests that were asked. */
  lemma QuestionIsHandedOut(worlds: seq<World>, statements: seq<Statement>, i: nat, j: nat)
    requires History(worlds, statements) && i < j < |statements|
    requires statements[i].WaitForInput? && Hit(worlds, statements, i)
    requires forall k :: i < k < j && TouchesQuestion(statements[k]) ==> !Hit(worlds, statements, k)
    requires statements[j].ClaimInput? && Hit(worlds, statements, j)
    ensures worlds[j + 1].run.pendingInputRequests == Some(statements[i].requests)
    ensures worlds[i].run.workerSessionId.Some? ==> Answerable(worlds[j + 1].run)
  {
    HistoryIsTrace(worlds, statements);
    assert Moves(worlds, statements, i);
    QuestionStays(worlds, statements, i + 1, j);
    assert Moves(worlds, statements, j);
    if worlds[i].run.workerSessionId.Some? {
      SessionStays(worlds, statements, i, j + 1);
    }
  }

  // ---- outcomes and sequence numbers ----

  predicate SameResult(a: Run, b: Run) {
    a.outcome == b.outcome && a.completedAt == b.completedAt && a.pendingInputRequests == b.pendingInputRequests
  }

  lemma NextKeepsOutcome(w: World, s: Statement)
    requires Inv(w) && Possible(w, s)
    requires w.run.status == DeadLetter ==> w.run.outcome == Some(EXHAUSTED)
    ensures var after := Execute(s, w.run);
            && (after.status == DeadLetter ==> after.outcome == Some(EXHAUSTED))
            && (after.status == Completed ==>
                  (w.run.status == Completed && SameResult(after, w.run))
                  || (s.Complete? && Selects(s, w.run) && after.outcome == Some(s.outcome)
                      && after.completedAt == Some(s.now) && after.pendingInputRequests.None?))
  {
  }

  lemma {:induction false} DeadLettersAreExhausted(worlds: seq<World>, statements: seq<Statement>, k: nat)
    requires History(worlds, statements) && k < |worlds|
    ensures worlds[k].run.status == DeadLetter ==>
              worlds[k].run.outcome == Some(Blocked("The scheduled task could not complete after three attempts.",
                                                    "Try the task again or update the schedule."))
  {
    if k > 0 {
      DeadLettersAreExhausted(worlds, statements, k - 1);
      HistoryIsTrace(worlds, statements);
      assert Moves(worlds, statements, k - 1);
      NextKeepsOutcome(worlds[k - 1], statements[k - 1]);
    }
  }

  /** The outcome of a completed run is the one that its completing worker sent under the current lease. */
  lemma {:induction false} OutcomeHasAuthor(worlds: seq<World>, statements: seq<Statement>, k: nat) returns (i: nat)
    requires History(worlds, statements) && k < |worlds| && worlds[k].run.status == Completed
    ensures i < k && statements[i].Complete? && Hit(worlds, statements, i)
    ensures HoldsLease(worlds[i].run, statements[i].token) && worlds[k].run.outcome == Some(statements[i].outcome)
    ensures worlds[k].run.completedAt == Some(statements[i].now) && worlds[k].run.pendingInputRequests.None?
  {
    HistoryIsTrace(worlds, statements);
    assert Moves(worlds, statements, k - 1);
    DeadLettersAreExhausted(worlds, statements, k - 1);
    NextKeepsOutcome(worlds[k - 1], statements[k - 1]);
    i := k - 1;
    if worlds[k - 1].run.status == Completed {
      i := OutcomeHasAuthor(worlds, statements, k - 1);
    }
  }

  /** The statement gives the owner something to be told: a question, a result that is not empty, or the end of all
    * attempts.
    */
  predicate Announces(run: Run, s: Statement) {
    var after := Execute(s, run);
    || (after.status == WaitingForInput && s.WaitForInput? && Selects(s, run))
    || (after.status == Completed && run.status != Completed && !after.outcome.value.NothingToReport?)
    || (after.status == DeadLetter && run.status != DeadLetter)
  }

  ghost function Announcements(worlds: seq<World>, statements: seq<Statement>, k: nat): nat
    requires k <= |statements| < |worlds|
  {
    if k == 0 then 0
    else Announcements(worlds, statements, k - 1) + if Announces(worlds[k - 1].run, statements[k - 1]) then 1 else 0
  }

  lemma NextCountsAnnouncement(w: World, s: Statement)
    requires Inv(w) && Possible(w, s)
    ensures Execute(s, w.run).reportSequence == w.run.reportSequence + if Announces(w.run, s) then 1 else 0
  {
  }

  /** The report sequence numbers the things the owner is to be told, one by one: restored questions, retries and report
    * statements do not advance it.
    */
  lemma {:induction false} SequenceCountsAnnouncements(worlds: seq<World>, statements: seq<Statement>, k: nat)
    requires History(worlds, statements) && k < |worlds|
    ensures worlds[k].run.reportSequence == Announcements(worlds, statements, k)
  {
    if k > 0 {
      SequenceCountsAnnouncements(worlds, statements, k - 1);
      HistoryIsTrace(worlds, statements);
      assert Moves(worlds, statements, k - 1);
      NextCountsAnnouncement(worlds[k - 1], statements[k - 1]);
    }
  }

  // ---- who wrote what ----

  predicate StoresSession(s: Statement) {
    s.SetSession? || s.MarkStarted?
  }

  /** The stored session is the one that the last statement to store one sent, under the lease that was then current. */
  lemma {:induction false} SessionHasAuthor(worlds: seq<World>, statements: seq<Statement>, k: nat) returns (i: nat)
    requires History(worlds, statements) && k < |worlds|
    requires worlds[k].run.workerSessionId.Some?
    ensures i < k && StoresSession(statements[i]) && Hit(worlds, statements, i)
    ensures worlds[i].run.leaseToken == Some(statements[i].token)
    ensures worlds[k].run.workerSessionId == Some(statements[i].session)
    ensures forall j :: i < j < k && StoresSession(statements[j]) ==> !Hit(worlds, statements, j)
  {
    HistoryIsTrace(worlds, statements);
    assert Moves(worlds, statements, k - 1);
    if StoresSession(statements[k - 1]) && Hit(worlds, statements, k - 1) {
      i := k - 1;
    } else {
      NextKeepsSession(worlds[k - 1].run, statements[k - 1]);
      i := SessionHasAuthor(worlds, statements, k - 1);
    }
  }

  lemma NextKeepsSession(run: Run, s: Statement)
    requires StoresSession(s) ==> !Selects(s, run)
    ensures Execute(s, run).workerSessionId == run.workerSessionId
  {
  }

  /** A start time is that of the first start under the present lease: every claim clears it. */
  lemma {:induction false} StartHasAuthor(worlds: seq<World>, statements: seq<Statement>, k: nat) returns (i: nat)
    requires History(worlds, statements) && k < |worlds|
    requires worlds[k].run.startedAt.Some?
    ensures i < k && statements[i].MarkStarted? && Hit(worlds, statements, i) && worlds[i].run.startedAt.None?
    ensures worlds[k].run.startedAt == Some(statements[i].now)
    ensures forall j :: i < j < k && statements[j].Claim? && Hit(worlds, statements, j) ==>
              worlds[j].run.attempts >= MAX_ATTEMPTS
  {
    HistoryIsTrace(worlds, statements);
    assert Moves(worlds, statements, k - 1);
    if statements[k - 1].MarkStarted? && Hit(worlds, statements, k - 1) && worlds[k - 1].run.startedAt.None? {
      i := k - 1;
    } else {
      NextKeepsStart(worlds[k - 1].run, statements[k - 1]);
      i := StartHasAuthor(worlds, statements, k - 1);
    }
  }

  lemma NextKeepsStart(run: Run, s: Statement)
    requires !(s.MarkStarted? && Selects(s, run) && run.startedAt.None?) && Execute(s, run).startedAt.Some?
    ensures Execute(s, run).startedAt == run.startedAt
    ensures s.Claim? && Selects(s, run) ==> run.attempts >= MAX_ATTEMPTS
  {
  }

  /** A deferral is that of a turn which deferred under the present lease and was neither answered nor put back
    * since.
    */
  lemma {:induction false} DeferralHasAuthor(worlds: seq<World>, statements: seq<Statement>, k: nat) returns (i: nat)
    requires History(worlds, statements) && k < |worlds|
    requires worlds[k].run.deferredCompletionTurnId.Some?
    ensures i < k && statements[i].DeferCompletion? && Hit(worlds, statements, i)
    ensures worlds[k].run.deferredCompletionTurnId == Some(statements[i].turn)
    ensures forall j :: i < j < k && TouchesDeferral(statements[j]) && Hit(worlds, statements, j) ==>
              statements[j].Claim? && worlds[j].run.attempts >= MAX_ATTEMPTS
  {
    HistoryIsTrace(worlds, statements);
    assert Moves(worlds, statements, k - 1);
    if statements[k - 1].DeferCompletion? && Hit(worlds, statements, k - 1) {
      i := k - 1;
    } else {
      NextKeepsDeferralAuthor(worlds[k - 1].run, statements[k - 1]);
      i := DeferralHasAuthor(worlds, statements, k - 1);
    }
  }

  lemma NextKeepsDeferralAuthor(run: Run, s: Statement)
    requires !(s.DeferCompletion? && Selects(s, run)) && Execute(s, run).deferredCompletionTurnId.Some?
    ensures Execute(s, run).deferredCompletionTurnId == run.deferredCompletionTurnId
    ensures TouchesDeferral(s) && Selects(s, run) ==> s.Claim? && run.attempts >= MAX_ATTEMPTS
  {
  }

  /** A completion by the holder of the lease fails only because of a deferral: by the same turn, or with nothing to
    * tell.
    */
  lemma CompletionFailsForDeferral(worlds: seq<World>, statements: seq<Statement>, k: nat) returns (i: nat)
    requires History(worlds, statements) && k < |statements|
    requires statements[k].Complete? && HoldsLease(worlds[k].run, statements[k].token) && !Hit(worlds, statements, k)
    ensures i < k && statements[i].DeferCompletion? && Hit(worlds, statements, i)
    ensures statements[k].outcome.NothingToReport? || statements[k].turn == statements[i].turn
  {
    HistoryIsTrace(worlds, statements);
    i := DeferralHasAuthor(worlds, statements, k);
  }

  predicate ErrorBounded(run: Run) {
    run.lastError.Some? ==> |run.lastError.value| <= 2_000
  }

  lemma NextKeepsErrorBounded(run: Run, s: Statement)
    requires ErrorBounded(run)
    ensures ErrorBounded(Execute(s, run))
  {
  }

  /** No error text is longer than two thousand characters. */
  lemma {:induction false} ErrorsAreBounded(worlds: seq<World>, statements: seq<Statement>, k: nat)
    requires History(worlds, statements) && k < |worlds|
    ensures ErrorBounded(worlds[k].run)
  {
    if k > 0 {
      HistoryIsTrace(worlds, statements);
      assert Moves(worlds, statements, k - 1);
      ErrorsAreBounded(worlds, statements, k - 1);
      NextKeepsErrorBounded(worlds[k - 1].run, statements[k - 1]);
    }
  }

  /** The message of a failed statement, if it carries one. */
  function Reported(s: Statement): Option<string> {
    match s
    case RestoreInput(_, message, _) => Some(message)
    case WriteRelease(_, message, _) => Some(message)
    case ReleaseReport(_, message, _) => Some(message)
    case _ => None
  }

  /** A failure leaves its message as the last error, whole if it is short enough; an answer and a completion clear
    * it.
    */
  lemma ErrorIsKept(run: Run, s: Statement)
    requires Selects(s, run)
    ensures Reported(s).Some? ==>
              && Execute(s, run).lastError.Some? && Execute(s, run).lastError.value <= Reported(s).value
              && (|Reported(s).value| <= 2_000 ==> Execute(s, run).lastError == Reported(s))
              && (|Reported(s).value| > 2_000 ==> |Execute(s, run).lastError.value| == 2_000)
    ensures s.FinishInput? || s.Complete? ==> Execute(s, run).lastError.None?
  {
  }

  predicate AsksSomething(run: Run) {
    run.pendingInputRequests.Some? ==> run.pendingInputRequests.value != []
  }

  lemma NextKeepsAsking(run: Run, s: Statement)
    requires AsksSomething(run)
    ensures AsksSomething(Execute(s, run))
  {
  }

  /** A run never waits for the answers to no questions. */
  lemma {:induction false} QuestionsAreNotEmpty(worlds: seq<World>, statements: seq<Statement>, k: nat)
    requires History(worlds, statements) && k < |worlds|
    ensures worlds[k].run.pendingInputRequests.Some? ==> worlds[k].run.pendingInputRequests.value != []
  {
    if k > 0 {
      HistoryIsTrace(worlds, statements);
      assert Moves(worlds, statements, k - 1);
      QuestionsAreNotEmpty(worlds, statements, k - 1);
      NextKeepsAsking(worlds[k - 1].run, statements[k - 1]);
    }
  }
}

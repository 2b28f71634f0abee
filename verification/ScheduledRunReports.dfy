/** Which results and questions come to be reported, and what a report's status says, over every history of a run. */
module ScheduledRunReports {
  import opened Options
  import opened ScheduledRuns
  import opened ScheduledRunHistories
  import opened ScheduledRunProgress

  /** Statement `i` leads from a world of which the invariant holds to the next. */
  ghost predicate Leads(worlds: seq<World>, statements: seq<Statement>, i: int)
    requires 0 <= i < |statements| < |worlds|
  {
    Inv(worlds[i]) && Possible(worlds[i], statements[i]) && worlds[i + 1] == Next(worlds[i], statements[i])
  }

  ghost predicate Line(worlds: seq<World>, statements: seq<Statement>) {
    && |worlds| == |statements| + 1
    && (exists scheduledFor, now :: worlds[0] == Start(scheduledFor, now))
    && forall i :: 0 <= i < |statements| ==> Leads(worlds, statements, i)
  }

  lemma HistoryIsLine(worlds: seq<World>, statements: seq<Statement>)
    requires History(worlds, statements)
    ensures Line(worlds, statements)
  {
    forall i | 0 <= i < |statements| ensures Leads(worlds, statements, i) {
      InvHolds(worlds, statements, i);
    }
  }

  // ---- results and questions are due ----

  /** The report of the current sequence is to come, under way, or done. */
  predicate DueOrDone(w: World) {
    w.run.reportStatus == Pending || w.run.reportStatus == Dispatched || IsFinalised(w, w.run.reportSequence)
  }

  predicate HasResult(run: Run) {
    Terminal(run) && run.outcome.Some? && !run.outcome.value.NothingToReport?
  }

  predicate ResultDue(w: World) {
    HasResult(w.run) ==> DueOrDone(w)
  }

  lemma FinalisedStays(w: World, s: Statement, sequence: nat)
    requires IsFinalised(w, sequence)
    ensures IsFinalised(Next(w, s), sequence)
  {
    var i :| 0 <= i < |w.finalised| && w.finalised[i].sequence == sequence;
    assert Next(w, s).finalised[i] == w.finalised[i];
  }

  lemma FinalizeIsLogged(w: World, s: Statement)
    requires s.FinalizeReport? && Selects(s, w.run)
    ensures Next(w, s).run.reportSequence == w.run.reportSequence && IsFinalised(Next(w, s), w.run.reportSequence)
    ensures Next(w, s).finalised == w.finalised + [Entry(w.run.reportSequence, s.token, s.verdict)]
  {
    assert Next(w, s).finalised[|w.finalised|].sequence == w.run.reportSequence;
  }

  lemma NextKeepsResultDue(w: World, s: Statement)
    requires Inv(w) && Possible(w, s) && ResultDue(w)
    ensures ResultDue(Next(w, s))
  {
    if s.FinalizeReport? && Selects(s, w.run) {
      FinalizeIsLogged(w, s);
    } else if IsFinalised(w, w.run.reportSequence) {
      FinalisedStays(w, s, w.run.reportSequence);
    }
  }

  /** Every result is reported: a finished run that has something to tell is due for a report, under report, or its
    * report has been delivered or suppressed.
    */
  lemma {:induction false} ResultsAreDue(worlds: seq<World>, statements: seq<Statement>, k: nat)
    requires History(worlds, statements) && k < |worlds|
    requires worlds[k].run.status == Completed || worlds[k].run.status == DeadLetter
    requires worlds[k].run.outcome.Some? && !worlds[k].run.outcome.value.NothingToReport?
    ensures worlds[k].run.reportStatus == Pending || worlds[k].run.reportStatus == Dispatched
            || IsFinalised(worlds[k], worlds[k].run.reportSequence)
  {
    HistoryIsLine(worlds, statements);
    ResultDueHolds(worlds, statements, k);
  }

  lemma {:induction false} ResultDueHolds(worlds: seq<World>, statements: seq<Statement>, k: nat)
    requires Line(worlds, statements) && k < |worlds|
    ensures ResultDue(worlds[k])
  {
    if k > 0 {
      ResultDueHolds(worlds, statements, k - 1);
      assert Leads(worlds, statements, k - 1);
      NextKeepsResultDue(worlds[k - 1], statements[k - 1]);
    }
  }

  /** The statements that ask anew, answer, or end the lease under which was asked. */
  predicate EndsQuestion(s: Statement) {
    s.WaitForInput? || s.FinishInput? || s.Complete? || s.WriteRelease? || s.Claim?
  }

  /** The lease of the question, and its report. */
  predicate QuestionDue(w: World, token: Token) {
    && w.run.leaseToken == Some(token) && (w.run.status == Running || w.run.status == WaitingForInput)
    && DueOrDone(w)
  }

  lemma NextKeepsQuestionDue(w: World, s: Statement, token: Token)
    requires Inv(w) && Possible(w, s) && QuestionDue(w, token)
    requires EndsQuestion(s) ==> !Selects(s, w.run)
    ensures QuestionDue(Next(w, s), token)
  {
    if s.FinalizeReport? && Selects(s, w.run) {
      FinalizeIsLogged(w, s);
    } else if IsFinalised(w, w.run.reportSequence) {
      FinalisedStays(w, s, w.run.reportSequence);
    }
  }

  lemma {:induction false} QuestionDueStays(worlds: seq<World>, statements: seq<Statement>, i: nat, j: nat,
      token: Token)
    requires Line(worlds, statements) && i <= j < |worlds| && QuestionDue(worlds[i], token)
    requires forall k :: i <= k < j && EndsQuestion(statements[k]) ==> !Hit(worlds, statements, k)
    ensures QuestionDue(worlds[j], token)
    decreases j
  {
    if i < j {
      QuestionDueStays(worlds, statements, i, j - 1, token);
      assert Leads(worlds, statements, j - 1);
      NextKeepsQuestionDue(worlds[j - 1], statements[j - 1], token);
    }
  }

  /** So is every question, until it is answered, asked anew, or its lease ends. */
  lemma QuestionsAreDue(worlds: seq<World>, statements: seq<Statement>, i: nat, j: nat)
    requires History(worlds, statements) && i < j < |worlds|
    requires statements[i].WaitForInput? && Hit(worlds, statements, i)
    requires forall k :: i < k < j && EndsQuestion(statements[k]) ==> !Hit(worlds, statements, k)
    ensures worlds[j].run.reportStatus == Pending || worlds[j].run.reportStatus == Dispatched
            || IsFinalised(worlds[j], worlds[j].run.reportSequence)
  {
    HistoryIsLine(worlds, statements);
    assert Leads(worlds, statements, i);
    QuestionDueStays(worlds, statements, i + 1, j, statements[i].token);
  }

  // ---- nothing to report ----

  /** Since the completion no holder of an old report lease has given that lease back. */
  ghost predicate NoneGivenBack(worlds: seq<World>, statements: seq<Statement>, i: nat, j: nat)
    requires j <= |statements| < |worlds|
  {
    forall k :: i < k < j && statements[k].ReleaseReport? ==> !Hit(worlds, statements, k)
  }

  lemma NextOfEmptyResult(w: World, s: Statement)
    requires Inv(w) && Possible(w, s) && w.run.status == Completed
    ensures var after := Next(w, s).run;
            && after.status == Completed && after.outcome == w.run.outcome
            && (w.run.reportStatus == NotNeeded ==>
                  (after.reportStatus == NotNeeded <==> !(s.ReleaseReport? && Selects(s, w.run)))
                  && (w.run.reportLeaseToken.None? ==> after.reportLeaseToken.None?))
            && (w.run.reportStatus != NotNeeded ==> after.reportStatus != NotNeeded)
  {
  }

  /** A run that completed with nothing to report is marked so exactly until the holder of a report lease that was drawn
    * for an earlier question gives the lease back.
    */
  lemma {:induction false} EmptyResultsExactly(worlds: seq<World>, statements: seq<Statement>, i: nat, j: nat)
    requires History(worlds, statements) && i < j < |worlds|
    requires statements[i].Complete? && statements[i].outcome.NothingToReport? && Hit(worlds, statements, i)
    ensures worlds[j].run.status == Completed && worlds[j].run.outcome == Some(statements[i].outcome)
    ensures worlds[j].run.reportStatus == NotNeeded <==> NoneGivenBack(worlds, statements, i, j)
    decreases j
  {
    HistoryIsLine(worlds, statements);
    assert Leads(worlds, statements, j - 1);
    if i < j - 1 {
      EmptyResultsExactly(worlds, statements, i, j - 1);
      NextOfEmptyResult(worlds[j - 1], statements[j - 1]);
      assert NoneGivenBack(worlds, statements, i, j) <==>
          NoneGivenBack(worlds, statements, i, j - 1)
          && !(statements[j - 1].ReleaseReport? && Hit(worlds, statements, j - 1));
    }
  }

  predicate Silent(run: Run) {
    run.status == Completed && run.reportStatus == NotNeeded && run.reportLeaseToken.None?
  }

  lemma CompletesSilently(w: World, s: Statement)
    requires s.Complete? && s.outcome.NothingToReport? && Selects(s, w.run) && w.run.reportLeaseToken.None?
    ensures Silent(Next(w, s).run)
  {
  }

  lemma NextKeepsSilent(w: World, s: Statement)
    requires Inv(w) && Possible(w, s) && Silent(w.run)
    ensures Silent(Next(w, s).run)
  {
  }

  lemma {:induction false} SilentStays(worlds: seq<World>, statements: seq<Statement>, i: nat, j: nat)
    requires Line(worlds, statements) && i <= j < |worlds| && Silent(worlds[i].run)
    ensures Silent(worlds[j].run)
    decreases j
  {
    if i < j {
      SilentStays(worlds, statements, i, j - 1);
      assert Leads(worlds, statements, j - 1);
      NextKeepsSilent(worlds[j - 1], statements[j - 1]);
    }
  }

  /** If no report lease was left at the completion, no report statement ever finds the run. */
  lemma EmptyResultsAreNeverReported(worlds: seq<World>, statements: seq<Statement>, i: nat, j: nat, s: Statement)
    requires History(worlds, statements) && i < j < |worlds|
    requires statements[i].Complete? && statements[i].outcome.NothingToReport? && Hit(worlds, statements, i)
    requires worlds[i].run.reportLeaseToken.None?
    ensures worlds[j].run.reportStatus == NotNeeded && worlds[j].run.reportLeaseToken.None?
    ensures IsReportStatement(s) ==> !Selects(s, worlds[j].run)
  {
    HistoryIsLine(worlds, statements);
    assert Leads(worlds, statements, i);
    CompletesSilently(worlds[i], statements[i]);
    SilentStays(worlds, statements, i + 1, j);
  }

  /** A question is reported, answered and overtaken by a completion that has nothing to tell, before its reporter
    * gives up.
    */
  function OvertakenReport(): seq<Statement> {
    [Claim(1, MINUTE, 0), WaitForInput(1, ["Which day?"], 1), ClaimReport(2, 2), ClaimInput(1, 3),
     Complete(1, "turn", NothingToReport("done"), 4), ReleaseReport(2, "failed", 5)]
  }

  /** Then the run that has nothing to report is due for a report. */
  lemma EmptyResultCanBeReported() returns (worlds: seq<World>)
    ensures History(worlds, OvertakenReport())
    ensures worlds[6].run.status == Completed && worlds[6].run.outcome == Some(NothingToReport("done"))
    ensures Selects(ClaimReport(3, 6), worlds[6].run)
  {
    var w0 := Start(0, 0);
    var w1 := w0.(run := Leased(w0.run, 1, MINUTE, 0), drawn := {1}, claims := 1);
    var w2 := w1.(run := Waiting(w1.run, ["Which day?"], 1));
    var w3 := w2.(run := ReportClaimed(w2.run, 2, 2), drawn := {1, 2}, issued := map[2 := Issue(1, WaitingForInput)]);
    var w4 := w3.(run := ScheduledRuns.Answering(w3.run, 3));
    var w5 := w4.(run := Finished(w4.run, NothingToReport("done"), 4));
    var w6 := w5.(run := ReportReleased(w5.run, "failed", 5));
    worlds := [w0, w1, w2, w3, w4, w5, w6];
    var ss := OvertakenReport();
    assert w1 == Next(w0, ss[0]);
    assert w2 == Next(w1, ss[1]);
    assert w3 == Next(w2, ss[2]);
    assert w4 == Next(w3, ss[3]);
    assert w5 == Next(w4, ss[4]);
    assert w6 == Next(w5, ss[5]);
    assert worlds[0] == Start(0, 0);
  }

  // ---- report leases ----

  /** A report lease has a token and an expiry or neither, and a report that is under way and can be told has one. */
  predicate ReportLeased(w: World) {
    && (w.run.reportLeaseToken.Some? <==> w.run.reportLeaseExpiresAt.Some?)
    && (w.run.reportStatus == Dispatched && w.run.reportLeaseToken.None? ==> BetweenReports(w))
  }

  lemma NextKeepsReportLeased(w: World, s: Statement)
    requires Inv(w) && Possible(w, s) && ReportLeased(w)
    ensures ReportLeased(Next(w, s))
  {
  }

  lemma {:induction false} ReportLeasedHolds(worlds: seq<World>, statements: seq<Statement>, k: nat)
    requires Line(worlds, statements) && k < |worlds|
    ensures ReportLeased(worlds[k])
  {
    if k > 0 {
      ReportLeasedHolds(worlds, statements, k - 1);
      assert Leads(worlds, statements, k - 1);
      NextKeepsReportLeased(worlds[k - 1], statements[k - 1]);
    }
  }

  /** No report gets stuck: one that is due can be claimed, and one under way whose reporter falls silent is taken back
    * from the moment on at which its lease expires.
    */
  lemma NoReportGetsStuck(worlds: seq<World>, statements: seq<Statement>, k: nat, token: Token, now: Time)
    requires History(worlds, statements) && k < |worlds|
    requires worlds[k].run.status == Completed || worlds[k].run.status == DeadLetter
        || worlds[k].run.status == WaitingForInput
    ensures worlds[k].run.reportStatus == Pending <==> Selects(ClaimReport(token, now), worlds[k].run)
    ensures worlds[k].run.reportStatus == Dispatched ==>
              && worlds[k].run.reportLeaseExpiresAt.Some?
              && (Selects(RecoverReport(now), worlds[k].run) <==> worlds[k].run.reportLeaseExpiresAt.value <= now)
              && Execute(RecoverReport(worlds[k].run.reportLeaseExpiresAt.value), worlds[k].run).reportStatus == Pending
  {
    HistoryIsLine(worlds, statements);
    ReportLeasedHolds(worlds, statements, k);
  }

  /** Whoever claimed a report may deliver it, and may suppress it exactly if the run is finished. */
  lemma ClaimedReportCanBeFinalised(worlds: seq<World>, statements: seq<Statement>, i: nat, now: Time)
    requires History(worlds, statements) && i < |statements|
    requires statements[i].ClaimReport? && Hit(worlds, statements, i)
    ensures Selects(FinalizeReport(statements[i].token, Deliver, now), worlds[i + 1].run)
    ensures Selects(FinalizeReport(statements[i].token, Suppress, now), worlds[i + 1].run)
            <==> worlds[i].run.status == Completed || worlds[i].run.status == DeadLetter
  {
    HistoryIsLine(worlds, statements);
    assert Leads(worlds, statements, i);
  }

  // ---- verdicts ----

  ghost predicate Logged(w: World, verdict: Verdict) {
    exists i :: 0 <= i < |w.finalised| && w.finalised[i].verdict == verdict
  }

  /** What a status says was said by somebody who finalised a report. */
  ghost predicate StatusLogged(w: World, status: ReportStatus) {
    (status == Delivered ==> Logged(w, Deliver)) && (status == Suppressed ==> Logged(w, Suppress))
  }

  ghost predicate VerdictsLogged(w: World) {
    StatusLogged(w, w.run.reportStatus) && forall seen <- w.observations :: StatusLogged(w, seen.reportStatus)
  }

  lemma LoggedStays(w: World, s: Statement, verdict: Verdict)
    requires Logged(w, verdict)
    ensures Logged(Next(w, s), verdict)
  {
    var i :| 0 <= i < |w.finalised| && w.finalised[i].verdict == verdict;
    assert Next(w, s).finalised[i] == w.finalised[i];
  }

  lemma StatusLoggedStays(w: World, s: Statement, status: ReportStatus)
    requires StatusLogged(w, status)
    ensures StatusLogged(Next(w, s), status)
  {
    if Logged(w, Deliver) {
      LoggedStays(w, s, Deliver);
    }
    if Logged(w, Suppress) {
      LoggedStays(w, s, Suppress);
    }
  }

  lemma VerdictIsWritten(w: World, s: Statement)
    requires s.FinalizeReport? && Selects(s, w.run)
    ensures Next(w, s).run.reportStatus == (if s.verdict == Deliver then Delivered else Suppressed)
    ensures StatusLogged(Next(w, s), Next(w, s).run.reportStatus)
  {
    assert Next(w, s).finalised[|w.finalised|].verdict == s.verdict;
  }

  lemma NextKeepsVerdictsLogged(w: World, s: Statement)
    requires Inv(w) && Possible(w, s) && VerdictsLogged(w)
    ensures VerdictsLogged(Next(w, s))
  {
    var after := Next(w, s);
    StatusLoggedStays(w, s, w.run.reportStatus);
    forall seen | seen in w.observations ensures StatusLogged(after, seen.reportStatus) {
      StatusLoggedStays(w, s, seen.reportStatus);
    }
    if s.FinalizeReport? && Selects(s, w.run) {
      VerdictIsWritten(w, s);
    }
  }

  /** A run is marked delivered only if a report of it was delivered, and suppressed only if one was suppressed. */
  lemma {:induction false} StatusHasVerdict(worlds: seq<World>, statements: seq<Statement>, k: nat)
    requires History(worlds, statements) && k < |worlds|
    ensures worlds[k].run.reportStatus == Delivered ==> Logged(worlds[k], Deliver)
    ensures worlds[k].run.reportStatus == Suppressed ==> Logged(worlds[k], Suppress)
  {
    HistoryIsLine(worlds, statements);
    VerdictsLoggedHolds(worlds, statements, k);
  }

  lemma {:induction false} VerdictsLoggedHolds(worlds: seq<World>, statements: seq<Statement>, k: nat)
    requires Line(worlds, statements) && k < |worlds|
    ensures VerdictsLogged(worlds[k])
  {
    if k > 0 {
      VerdictsLoggedHolds(worlds, statements, k - 1);
      assert Leads(worlds, statements, k - 1);
      NextKeepsVerdictsLogged(worlds[k - 1], statements[k - 1]);
    }
  }

  // ---- answering ----

  /** Statement `i` handed a question out to a caller who knows the token: the run has requests and a session. */
  ghost predicate HandsOut(worlds: seq<World>, statements: seq<Statement>, i: int, token: Token)
    requires 0 <= i < |statements| < |worlds|
  {
    && statements[i].ClaimInput? && statements[i].token == token && Hit(worlds, statements, i)
    && worlds[i].run.pendingInputRequests.Some? && worlds[i].run.workerSessionId.Some?
  }

  /** A token may put a question back or close it exactly if the question was handed out for it before. */
  lemma {:induction false} AnsweringExactly(worlds: seq<World>, statements: seq<Statement>, k: nat, token: Token)
    requires History(worlds, statements) && k < |worlds|
    ensures token in worlds[k].answering <==> exists i :: 0 <= i < k && HandsOut(worlds, statements, i, token)
  {
    HistoryIsLine(worlds, statements);
    if k > 0 {
      AnsweringExactly(worlds, statements, k - 1, token);
      assert Leads(worlds, statements, k - 1);
      assert token in worlds[k].answering <==>
          token in worlds[k - 1].answering || HandsOut(worlds, statements, k - 1, token);
    }
  }

  /** Whoever got the question may put it back, and then it waits as before, or close it, and then it is gone. */
  lemma HandedOutQuestionCanBeClosed(worlds: seq<World>, statements: seq<Statement>, i: nat, token: Token,
      error: string, now: Time)
    requires History(worlds, statements) && i < |statements| && HandsOut(worlds, statements, i, token)
    ensures var w := worlds[i + 1];
            && Possible(w, RestoreInput(token, error, now)) && Possible(w, FinishInput(token, now))
            && Selects(RestoreInput(token, error, now), w.run) && Selects(FinishInput(token, now), w.run)
    ensures var back := Execute(RestoreInput(token, error, now), worlds[i + 1].run);
            && back.status == WaitingForInput && back.leaseToken == worlds[i].run.leaseToken
            && back.pendingInputRequests == worlds[i].run.pendingInputRequests
            && back.reportStatus == worlds[i].run.reportStatus
            && back.reportLeaseToken == worlds[i].run.reportLeaseToken
    ensures var done := Execute(FinishInput(token, now), worlds[i + 1].run);
            && done.status == Running && done.leaseToken == worlds[i].run.leaseToken
            && done.leaseExpiresAt == Some(statements[i].now + 6 * 60 * 60_000)
            && done.pendingInputRequests.None? && done.reportLeaseToken.None? && done.reportStatus == NotReady
  {
    HistoryIsLine(worlds, statements);
    assert Leads(worlds, statements, i);
    AnsweringExactly(worlds, statements, i + 1, token);
  }

  // ---- withdrawn questions ----

  /** The statements that may make a report due again. */
  predicate Announcing(s: Statement) {
    s.WaitForInput? || s.Complete? || s.RestoreInput? || s.WriteRelease? || s.Claim?
  }

  predicate Withdrawn(run: Run) {
    run.reportStatus == NotReady && run.reportLeaseToken.None? && run.pendingInputRequests.None?
  }

  lemma FinishWithdraws(w: World, s: Statement)
    requires s.FinishInput? && Selects(s, w.run)
    ensures Withdrawn(Next(w, s).run)
  {
  }

  lemma NextKeepsWithdrawn(w: World, s: Statement)
    requires Withdrawn(w.run) && (Announcing(s) ==> !Selects(s, w.run))
    ensures Withdrawn(Next(w, s).run)
  {
  }

  lemma {:induction false} WithdrawnStays(worlds: seq<World>, statements: seq<Statement>, i: nat, j: nat)
    requires Line(worlds, statements) && i <= j < |worlds| && Withdrawn(worlds[i].run)
    requires forall k :: i <= k < j && Announcing(statements[k]) ==> !Hit(worlds, statements, k)
    ensures Withdrawn(worlds[j].run)
    decreases j
  {
    if i < j {
      WithdrawnStays(worlds, statements, i, j - 1);
      assert Leads(worlds, statements, j - 1);
      NextKeepsWithdrawn(worlds[j - 1], statements[j - 1]);
    }
  }

  /** An answered question is withdrawn: until the run has something new to tell no report statement finds it. */
  lemma AnsweredQuestionIsWithdrawn(worlds: seq<World>, statements: seq<Statement>, i: nat, j: nat, s: Statement)
    requires History(worlds, statements) && i < j < |worlds|
    requires statements[i].FinishInput? && Hit(worlds, statements, i)
    requires forall k :: i < k < j && Announcing(statements[k]) ==> !Hit(worlds, statements, k)
    ensures worlds[j].run.reportStatus == NotReady && worlds[j].run.reportLeaseToken.None?
    ensures worlds[j].run.pendingInputRequests.None?
    ensures IsReportStatement(s) ==> !Selects(s, worlds[j].run)
  {
    HistoryIsLine(worlds, statements);
    assert Leads(worlds, statements, i);
    FinishWithdraws(worlds[i], statements[i]);
    WithdrawnStays(worlds, statements, i + 1, j);
  }
}

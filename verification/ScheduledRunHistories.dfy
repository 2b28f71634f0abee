/** Whole runs of one scheduled run: every order in which its statements can reach the row.
  *
  * `World` adds to the row what no column records: the tokens already drawn, the observations taken by releases
  * that have not written yet, the leases whose holder was handed the pending question, and the log of finalised
  * reports. A release is two statements, so any others may run between its read and its write.
  */
module ScheduledRunHistories {
  import opened Options
  import opened ScheduledRuns

  /** The sequence number and the run status under which a report token was drawn. */
  datatype Issue = Issue(sequence: nat, status: RunStatus)

  datatype Entry = Entry(sequence: nat, token: Token, verdict: Verdict)

  datatype World = World(
    run: Run,
    drawn: set<Token>,
    claims: nat,
    observations: set<Observation>,
    answering: set<Token>,
    issued: map<Token, Issue>,
    finalised: seq<Entry>)

  function Start(scheduledFor: Time, now: Time): World {
    World(Fresh(scheduledFor, now), {}, 0, {}, {}, map[], [])
  }

  /** Random tokens are new; a release writes only what it read before; the two statements that put a question
    * back or close it come only from a caller to whom the question was handed out.
    */
  predicate Possible(w: World, s: Statement) {
    && PossibleByGuards(w, s)
    && (s.RestoreInput? || s.FinishInput? ==> s.token in w.answering)
  }

  predicate PossibleByGuards(w: World, s: Statement) {
    && (s.Claim? || s.ClaimReport? ==> s.token !in w.drawn)
    && (s.WriteRelease? ==> s.seen in w.observations)
  }

  function Next(w: World, s: Statement): World {
    var run := Execute(s, w.run);
    if !Selects(s, w.run) then w
    else match s
      case Claim(token, _, _) =>
        if w.run.attempts >= MAX_ATTEMPTS then w.(run := run)
        else w.(run := run, drawn := w.drawn + {token}, claims := w.claims + 1)
      case ClaimInput(token, _) =>
        if Answerable(run) then w.(run := run, answering := w.answering + {token}) else w.(run := run)
      case ReadForRelease(token) => w.(observations := w.observations + {Observed(w.run, token)})
      case ClaimReport(token, _) =>
        w.(run := run, drawn := w.drawn + {token},
            issued := w.issued[token := Issue(w.run.reportSequence, w.run.status)])
      case FinalizeReport(token, verdict, _) =>
        w.(run := run, finalised := w.finalised + [Entry(w.run.reportSequence, token, verdict)])
      case _ => w.(run := run)
  }

  /** `worlds[i + 1]` follows from `worlds[i]` by `statements[i]`. */
  ghost predicate History(worlds: seq<World>, statements: seq<Statement>) {
    && |worlds| == |statements| + 1
    && (exists scheduledFor, now :: worlds[0] == Start(scheduledFor, now))
    && forall i :: 0 <= i < |statements| ==>
       Possible(worlds[i], statements[i]) && worlds[i + 1] == Next(worlds[i], statements[i])
  }

  // ---- the invariant ----

  predicate IsFinalised(w: World, sequence: nat) {
    exists i :: 0 <= i < |w.finalised| && w.finalised[i].sequence == sequence
  }

  /** Between two reports: the worker holds or awaits a lease under which nobody answers a question. Only here may
    * a late release leave a report status behind that belongs to an earlier moment.
    */
  predicate BetweenReports(w: World) {
    && (w.run.status == Queued || w.run.status == Running)
    && (w.run.leaseToken.Some? ==> w.run.leaseToken.value !in w.answering)
  }

  predicate LeaseConsistent(w: World) {
    var r := w.run;
    && (r.leaseToken.Some? <==> r.status == Running || r.status == WaitingForInput)
    && (r.leaseExpiresAt.Some? <==> r.status == Running)
    && (r.outcome.Some? <==> Terminal(r))
    && (r.retryAt.Some? ==> r.status == Queued)
    && r.attempts == w.claims <= MAX_ATTEMPTS
    && (r.status == Queued ==> r.attempts < MAX_ATTEMPTS)
    && (r.status == DeadLetter ==> r.attempts == MAX_ATTEMPTS)
    && (r.status != Queued ==> 1 <= r.attempts)
  }

  ghost predicate TokensConsistent(w: World) {
    && (w.run.leaseToken.Some? ==> w.run.leaseToken.value in w.drawn)
    && (w.run.reportLeaseToken.Some? ==> w.run.reportLeaseToken.value in w.issued)
    && w.answering <= w.drawn
    && w.issued.Keys <= w.drawn
    && (forall seen <- w.observations :: seen.token in w.drawn)
    && (forall seen <- w.observations :: w.run.leaseToken == Some(seen.token) ==>
          seen.attempts == w.run.attempts && seen.outcome.None?)
  }

  predicate ReportConsistent(w: World) {
    var r := w.run;
    && (IsFinalised(w, r.reportSequence) ==>
          && r.reportLeaseToken.None?
          && (r.reportStatus == Pending || r.reportStatus == Dispatched ==> BetweenReports(w)))
    && (r.reportStatus == Dispatched && r.reportLeaseToken.Some? && r.reportLeaseToken.value in w.issued ==>
          var issue := w.issued[r.reportLeaseToken.value];
          && (issue.sequence == r.reportSequence || BetweenReports(w))
          && (Terminal(r) ==> issue.status != WaitingForInput))
  }

  ghost predicate LogConsistent(w: World) {
    && (forall i :: 0 <= i < |w.finalised| ==>
          var e := w.finalised[i];
          && e.sequence <= w.run.reportSequence
          && e.token in w.issued
          && w.issued[e.token].sequence == e.sequence
          && (e.verdict == Suppress ==> w.issued[e.token].status != WaitingForInput))
    && (forall i, j :: 0 <= i < j < |w.finalised| ==> w.finalised[i].sequence != w.finalised[j].sequence)
  }

  ghost predicate Inv(w: World) {
    LeaseConsistent(w) && TokensConsistent(w) && ReportConsistent(w) && LogConsistent(w)
  }

  // The invariant, kind of statement by kind of statement.

  predicate IsReportStatement(s: Statement) {
    s.ClaimReport? || s.RecoverReport? || s.ReleaseReport? || s.FinalizeReport?
  }

  predicate IsRelease(s: Statement) {
    s.ReadForRelease? || s.WriteRelease?
  }

  predicate IsQuestionStatement(s: Statement) {
    s.WaitForInput? || s.ClaimInput? || s.RestoreInput? || s.FinishInput?
  }

  lemma ReportsKeepInv(w: World, s: Statement)
    requires Inv(w) && Possible(w, s) && IsReportStatement(s)
    ensures Inv(Next(w, s))
  {
    match s
    case ClaimReport(_, _) => ClaimReportKeepsInv(w, s);
    case FinalizeReport(_, _, _) => FinalizeReportKeepsInv(w, s);
    case _ =>
  }

  lemma ClaimReportKeepsInv(w: World, s: Statement)
    requires Inv(w) && Possible(w, s) && s.ClaimReport?
    ensures Inv(Next(w, s))
  {
  }

  lemma FinalizeReportKeepsInv(w: World, s: Statement)
    requires Inv(w) && Possible(w, s) && s.FinalizeReport?
    ensures Inv(Next(w, s))
  {
  }

  lemma ReleasesKeepInv(w: World, s: Statement)
    requires Inv(w) && Possible(w, s) && IsRelease(s)
    ensures Inv(Next(w, s))
  {
  }

  lemma QuestionsKeepInv(w: World, s: Statement)
    requires Inv(w) && Possible(w, s) && IsQuestionStatement(s)
    ensures Inv(Next(w, s))
  {
  }

  lemma ClaimsKeepInv(w: World, s: Statement)
    requires Inv(w) && Possible(w, s) && s.Claim?
    ensures Inv(Next(w, s))
  {
  }

  lemma WorkKeepsInv(w: World, s: Statement)
    requires Inv(w) && Possible(w, s)
    requires s.SetSession? || s.MarkStarted? || s.DeferCompletion? || s.Complete?
    ensures Inv(Next(w, s))
  {
  }

  lemma NextKeepsInv(w: World, s: Statement)
    requires Inv(w) && Possible(w, s)
    ensures Inv(Next(w, s))
  {
    if IsReportStatement(s) {
      ReportsKeepInv(w, s);
    } else if IsRelease(s) {
      ReleasesKeepInv(w, s);
    } else if IsQuestionStatement(s) {
      QuestionsKeepInv(w, s);
    } else if s.Claim? {
      ClaimsKeepInv(w, s);
    } else {
      WorkKeepsInv(w, s);
    }
  }

  lemma {:induction false} InvHolds(worlds: seq<World>, statements: seq<Statement>, k: nat)
    requires History(worlds, statements) && k < |worlds|
    ensures Inv(worlds[k])
  {
    if k > 0 {
      InvHolds(worlds, statements, k - 1);
      NextKeepsInv(worlds[k - 1], statements[k - 1]);
    }
  }

  // ---- the report machine ----

  /** However runs, releases and reports interleave: no sequence number is finalised twice, a report token finalises
    * only the sequence it was drawn for, and a report drawn while a question was open is never suppressed.
    */
  lemma ReportsFinaliseOnce(worlds: seq<World>, statements: seq<Statement>, k: nat)
    requires History(worlds, statements) && k < |worlds|
    ensures var log := worlds[k].finalised;
            && (forall i, j :: 0 <= i < j < |log| ==> log[i].sequence != log[j].sequence)
            && (forall e <- log :: e.token in worlds[k].issued && worlds[k].issued[e.token].sequence == e.sequence)
            && (forall e <- log :: worlds[k].issued[e.token].status == WaitingForInput ==> e.verdict == Deliver)
  {
    InvHolds(worlds, statements, k);
  }

  /** Once the current sequence is finalised its token is gone and no report statement finds the row again. */
  lemma FinalisedReportIsClosed(worlds: seq<World>, statements: seq<Statement>, k: nat, s: Statement)
    requires History(worlds, statements) && k < |worlds|
    requires IsFinalised(worlds[k], worlds[k].run.reportSequence)
    requires IsReportStatement(s)
    ensures worlds[k].run.reportLeaseToken.None?
    ensures !Selects(s, worlds[k].run)
  {
    InvHolds(worlds, statements, k);
  }

  /** The status of a finalised sequence is neither pending nor dispatched. */
  predicate StatusTells(w: World) {
    IsFinalised(w, w.run.reportSequence) ==> w.run.reportStatus != Pending && w.run.reportStatus != Dispatched
  }

  /** The release requeues the run and writes back a report status that was read before the report was finalised. */
  predicate Revives(w: World, s: Statement) {
    && s.WriteRelease? && Selects(s, w.run)
    && s.seen.attempts < MAX_ATTEMPTS
    && (s.seen.reportStatus == Pending || s.seen.reportStatus == Dispatched)
    && IsFinalised(w, w.run.reportSequence)
  }

  lemma ReleaseRevivesExactly(w: World, s: Statement)
    requires Inv(w) && Possible(w, s) && StatusTells(w) && s.WriteRelease?
    ensures StatusTells(Next(w, s)) <==> !Revives(w, s)
  {
  }

  lemma NextRevivesExactly(w: World, s: Statement)
    requires Inv(w) && Possible(w, s) && StatusTells(w)
    ensures StatusTells(Next(w, s)) <==> !Revives(w, s)
  {
    if s.WriteRelease? {
      ReleaseRevivesExactly(w, s);
    }
  }

  ghost predicate StatusAlwaysTells(worlds: seq<World>, k: nat)
    requires k < |worlds|
  {
    forall i :: 0 <= i <= k ==> StatusTells(worlds[i])
  }

  ghost predicate NothingRevived(worlds: seq<World>, statements: seq<Statement>, k: nat)
    requires k <= |statements| < |worlds|
  {
    forall i :: 0 <= i < k ==> !Revives(worlds[i], statements[i])
  }

  /** Up to any moment the status tells of every finalised sequence exactly when no release has revived one. */
  lemma {:induction false} StatusTellsExactly(worlds: seq<World>, statements: seq<Statement>, k: nat)
    requires History(worlds, statements) && k < |worlds|
    ensures StatusAlwaysTells(worlds, k) <==> NothingRevived(worlds, statements, k)
  {
    if k > 0 {
      StatusTellsExactly(worlds, statements, k - 1);
      InvHolds(worlds, statements, k - 1);
      if StatusAlwaysTells(worlds, k - 1) {
        NextRevivesExactly(worlds[k - 1], statements[k - 1]);
      }
      assert StatusAlwaysTells(worlds, k) <==> StatusAlwaysTells(worlds, k - 1) && StatusTells(worlds[k]);
      assert NothingRevived(worlds, statements, k)
             <==> NothingRevived(worlds, statements, k - 1) && !Revives(worlds[k - 1], statements[k - 1]);
    }
  }

  /** Every release wrote what was still true. */
  ghost predicate ReleasesAreAtomic(worlds: seq<World>, statements: seq<Statement>)
    requires |worlds| == |statements| + 1
  {
    forall i :: 0 <= i < |statements| && statements[i].WriteRelease? && Selects(statements[i], worlds[i].run) ==>
      statements[i].seen == Observed(worlds[i].run, statements[i].seen.token)
  }

  /** In particular a release that wrote what is still true revives nothing. */
  lemma {:induction false} AtomicReleasesKeepStatus(worlds: seq<World>, statements: seq<Statement>, k: nat)
    requires History(worlds, statements) && k < |worlds|
    requires ReleasesAreAtomic(worlds, statements)
    ensures StatusTells(worlds[k])
  {
    if k > 0 {
      InvHolds(worlds, statements, k - 1);
      AtomicReleasesKeepStatus(worlds, statements, k - 1);
      NextRevivesExactly(worlds[k - 1], statements[k - 1]);
    }
  }

  ghost predicate Follows(worlds: seq<World>, statements: seq<Statement>) {
    && |worlds| == |statements| + 1
    && forall i :: 0 <= i < |statements| ==>
       PossibleByGuards(worlds[i], statements[i]) && worlds[i + 1] == Next(worlds[i], statements[i])
  }

  /** The beginning of both examples: the report of an open question is delivered after a release has read the row. */
  function DeliveredQuestion(): seq<Statement> {
    [Claim(1, MINUTE, 0), WaitForInput(1, ["Which day?"], 1), ReadForRelease(1), ClaimReport(2, 2),
        FinalizeReport(2, Deliver, 3)]
  }

  /** The write of that release, and the claim that comes after it. */
  function LateRelease(): seq<Statement> {
    DeliveredQuestion() + [WriteRelease(Observation(1, 1, None, Pending), "cancelled", 4),
        Claim(3, MINUTE, 10 * MINUTE)]
  }

  lemma QuestionIsDelivered() returns (worlds: seq<World>)
    ensures History(worlds, DeliveredQuestion())
    ensures var w := worlds[5];
            && w.finalised == [Entry(1, 2, Deliver)] && w.answering == {} && w.drawn == {1, 2} && w.claims == 1
            && w.observations == {Observation(1, 1, None, Pending)}
            && w.run == Finalized(ReportClaimed(Waiting(Leased(Fresh(0, 0), 1, MINUTE, 0), ["Which day?"], 1), 2, 2),
               Deliver, 3)
  {
    var w0 := Start(0, 0);
    var r1 := Leased(w0.run, 1, MINUTE, 0);
    var w1 := w0.(run := r1, drawn := {1}, claims := 1);
    var r2 := Waiting(r1, ["Which day?"], 1);
    var w2 := w1.(run := r2);
    var w3 := w2.(observations := {Observation(1, 1, None, Pending)});
    var r4 := ReportClaimed(r2, 2, 2);
    var w4 := w3.(run := r4, drawn := {1, 2}, issued := map[2 := Issue(1, WaitingForInput)]);
    var w5 := w4.(run := Finalized(r4, Deliver, 3), finalised := [Entry(1, 2, Deliver)]);
    worlds := [w0, w1, w2, w3, w4, w5];
    var ss := DeliveredQuestion();
    assert w1 == Next(w0, ss[0]);
    assert w2 == Next(w1, ss[1]);
    assert w3 == Next(w2, ss[2]);
    assert w4 == Next(w3, ss[3]);
    assert w5 == Next(w4, ss[4]);
    assert worlds[0] == Start(0, 0);
  }

  /** The late write brings `pending` back for a sequence that was already delivered. */
  lemma LateReleaseRevivesStatus() returns (worlds: seq<World>)
    ensures History(worlds, LateRelease()) && Follows(worlds, LateRelease())
    ensures worlds[7].finalised == [Entry(1, 2, Deliver)] && worlds[7].answering == {} && worlds[7].drawn == {1, 2, 3}
    ensures HoldsLease(worlds[7].run, 3)
    ensures worlds[7].run.reportSequence == 1 && worlds[7].run.reportStatus == Pending
  {
    var first := QuestionIsDelivered();
    var ss := LateRelease();
    var w5 := first[5];
    var w6 := w5.(run := Released(w5.run, Observation(1, 1, None, Pending), "cancelled", 4));
    var w7 := w6.(run := Leased(w6.run, 3, MINUTE, 10 * MINUTE), drawn := {1, 2, 3}, claims := 2);
    assert w6 == Next(w5, ss[5]);
    assert w7 == Next(w6, ss[6]);
    worlds := first + [w6, w7];
    assert forall i :: 0 <= i < 5 ==> ss[i] == DeliveredQuestion()[i];
  }

  /** A question put back by a caller to whom none was handed out, and its report. */
  function PutBack(): seq<Statement> {
    [RestoreInput(3, "no answer", 11 * MINUTE), ClaimReport(4, 12 * MINUTE), FinalizeReport(4, Deliver, 12 * MINUTE)]
  }

  lemma PutBackDelivers(w: World)
    requires HoldsLease(w.run, 3) && w.run.reportStatus == Pending && 4 !in w.drawn
    ensures var (w1, again) := (Next(w, PutBack()[0]), PutBack());
            var w2 := Next(w1, again[1]);
            && PossibleByGuards(w, again[0]) && PossibleByGuards(w1, again[1]) && PossibleByGuards(w2, again[2])
            && Next(w2, again[2]).finalised == w.finalised + [Entry(w.run.reportSequence, 4, Deliver)]
  {
  }

  /** The guards alone do not carry the theorem: a caller that put a question back without having been handed one
    * would have the same sequence delivered twice.
    */
  lemma GuardsAloneFinaliseTwice() returns (worlds: seq<World>, statements: seq<Statement>)
    ensures Follows(worlds, statements) && worlds[0].finalised == []
    ensures var log := worlds[|statements|].finalised;
            |log| == 2 && log[0].sequence == log[1].sequence
  {
    var first := LateReleaseRevivesStatus();
    PutBackDelivers(first[7]);
    var w8 := Next(first[7], PutBack()[0]);
    var w9 := Next(w8, PutBack()[1]);
    worlds := first + [w8, w9, Next(w9, PutBack()[2])];
    statements := LateRelease() + PutBack();
    assert forall i :: 0 <= i < 7 ==> statements[i] == LateRelease()[i];
    assert statements[7..] == PutBack();
  }

  // ---- the lease ----

  /** What every column about the lease means, at every moment of every run. */
  lemma LeaseColumnsAgree(worlds: seq<World>, statements: seq<Statement>, k: nat)
    requires History(worlds, statements) && k < |worlds|
    ensures var r := worlds[k].run;
            && (r.leaseToken.Some? <==> r.status == Running || r.status == WaitingForInput)
            && (r.leaseExpiresAt.Some? <==> r.status == Running)
            && (r.outcome.Some? <==> Terminal(r))
            && r.attempts == worlds[k].claims <= 3
            && (r.status == Queued ==> r.attempts <= 2)
            && (r.status == DeadLetter ==> r.attempts == 3)
  {
    InvHolds(worlds, statements, k);
  }

  lemma NextKeepsTerminal(w: World, s: Statement)
    requires Inv(w) && Possible(w, s) && Terminal(w.run)
    ensures var r := Next(w, s).run;
            r.status == w.run.status && r.outcome == w.run.outcome && r.attempts == w.run.attempts
  {
  }

  /** A finished run keeps its status, its outcome and its attempts for ever. */
  lemma {:induction false} TerminalRunsStay(worlds: seq<World>, statements: seq<Statement>, i: nat, j: nat)
    requires History(worlds, statements) && i <= j < |worlds|
    requires Terminal(worlds[i].run)
    ensures worlds[j].run.status == worlds[i].run.status
    ensures worlds[j].run.outcome == worlds[i].run.outcome
    ensures worlds[j].run.attempts == worlds[i].run.attempts
    decreases j
  {
    if i < j {
      TerminalRunsStay(worlds, statements, i, j - 1);
      InvHolds(worlds, statements, j - 1);
      NextKeepsTerminal(worlds[j - 1], statements[j - 1]);
    }
  }

  /** The worker's statements and the lease token they carry. */
  function Bearer(s: Statement): Option<Token> {
    match s
    case SetSession(token, _, _) => Some(token)
    case MarkStarted(token, _, _, _) => Some(token)
    case WaitForInput(token, _, _) => Some(token)
    case DeferCompletion(token, _, _) => Some(token)
    case ClaimInput(token, _) => Some(token)
    case RestoreInput(token, _, _) => Some(token)
    case FinishInput(token, _) => Some(token)
    case Complete(token, _, _, _) => Some(token)
    case ReadForRelease(token) => Some(token)
    case WriteRelease(seen, _, _) => Some(seen.token)
    case _ => None
  }

  /** A token that was drawn and is not current never becomes current again, so no later statement that carries it
    * changes the run, whatever happened in between.
    */
  lemma {:induction false} LostLeaseNeverReturns(worlds: seq<World>, statements: seq<Statement>, i: nat, j: nat,
      token: Token)
    requires History(worlds, statements) && i <= j < |worlds|
    requires token in worlds[i].drawn && worlds[i].run.leaseToken != Some(token)
    ensures token in worlds[j].drawn && worlds[j].run.leaseToken != Some(token)
    ensures j < |statements| && Bearer(statements[j]) == Some(token) ==> worlds[j + 1] == worlds[j]
    decreases j
  {
    if i < j {
      LostLeaseNeverReturns(worlds, statements, i, j - 1, token);
      assert worlds[j] == Next(worlds[j - 1], statements[j - 1]);
    }
  }

  lemma NextKeepsLeaseActive(w: World, s: Statement, token: Token, now: Time)
    requires Inv(w) && Possible(w, s) && LeaseActive(w.run, token, now)
    requires Bearer(s) != Some(token) && (s.Claim? ==> s.now <= now)
    ensures LeaseActive(Next(w, s).run, token, now) && Next(w, s).claims == w.claims
  {
  }

  /** While a lease runs and its holder is silent, claims on the same clock leave the run to that holder. */
  lemma {:induction false} LeaseIsExclusive(worlds: seq<World>, statements: seq<Statement>, i: nat, j: nat,
      token: Token, now: Time)
    requires History(worlds, statements) && i <= j < |worlds|
    requires LeaseActive(worlds[i].run, token, now)
    requires forall k :: i <= k < j ==> Bearer(statements[k]) != Some(token)
    requires forall k :: i <= k < j && statements[k].Claim? ==> statements[k].now <= now
    ensures LeaseActive(worlds[j].run, token, now)
    ensures worlds[j].claims == worlds[i].claims
    decreases j
  {
    if i < j {
      LeaseIsExclusive(worlds, statements, i, j - 1, token, now);
      InvHolds(worlds, statements, j - 1);
      NextKeepsLeaseActive(worlds[j - 1], statements[j - 1], token, now);
    }
  }
}

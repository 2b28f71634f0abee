/** Delivering a task to its native session while it is being canceled, deleted or finished.
  *
  * One task and everything that can happen to it, one database statement or native call at a time: any number of
  * deliveries, cancel requests and outbox drains run at once, each may be denied, fail or crash between its steps.
  * The native runtime accepts one session per input id, however often the input is sent.
  */
module ProtocolCancellation {
  import opened Options
  import opened ProtocolTasks

  type Process = nat

  /** How far a delivery has come. `Holding` is the moment at which only this process knows the accepted session. */
  datatype Delivery = Checked | Holding | Bound | Answered(canceled: bool)

  datatype Drain = Queued | Delivered

  datatype World = World(
    task: Option<Task>,
    droppedOpen: bool,
    native: Option<SessionId>,
    cancelDelivered: bool,
    queued: bool,
    deliveries: map<Process, Delivery>,
    cancels: map<Process, Option<SessionId>>,
    drains: map<Process, Drain>,
    everBound: bool)

  function Start(s: Submission): World {
    World(Some(NewTask(s)), false, None, false, false, map[], map[], map[], false)
  }

  datatype Step =
    | BeginDelivery(p: Process)
    | Send(p: Process, session: SessionId)
    | SendReplyLost(p: Process, session: SessionId)
    | BindStep(p: Process, allowed: bool, now: Time)
    | ReadBack(p: Process, allowed: bool)
    | CancelAfterDelivery(p: Process, ok: bool)
    | CrashDelivery(p: Process)
    | RequestCancel(p: Process, now: Time)
    | CancelFromRequest(p: Process, ok: bool)
    | BeginDrain(p: Process)
    | CancelFromDrain(p: Process, ok: bool)
    | EndDrain(p: Process)
    | OtherWrite(write: Write, now: Time)
    | DropTask

  predicate Wants(w: World, s: Step) {
    match s
    case BeginDelivery(p) => p !in w.deliveries && w.task.Some? && Active(w.task.value.state)
    case Send(p, session) => At(w, p, Checked) && (w.native.Some? ==> session == w.native.value)
    case SendReplyLost(p, session) => At(w, p, Checked) && (w.native.Some? ==> session == w.native.value)
    case BindStep(p, _, _) => At(w, p, Holding)
    case ReadBack(p, _) => At(w, p, Bound)
    case CancelAfterDelivery(p, _) => p in w.deliveries && w.deliveries[p].Answered?
    case CrashDelivery(p) => p in w.deliveries
    case RequestCancel(p, _) => p !in w.cancels && w.task.Some? && Selects(Cancel, w.task.value)
    case CancelFromRequest(p, _) => p in w.cancels
    case BeginDrain(p) => p !in w.drains && w.queued
    case CancelFromDrain(p, _) => p in w.drains && w.drains[p] == Queued
    case EndDrain(p) => p in w.drains && w.drains[p] == Delivered
    case OtherWrite(write, _) =>
      && w.task.Some?
      && !write.Bind? && !write.Cancel?
      && (write.Finish? ==> Terminal(write.state))
      && (write.FailSession? ==> w.native == Some(write.session))
    case DropTask => w.task.Some?
  }

  predicate At(w: World, p: Process, phase: Delivery) {
    p in w.deliveries && w.deliveries[p] == phase
  }

  /** A statement against the task row, with the trigger. */
  function Update(w: World, write: Write, now: Time): World
    requires w.task.Some?
  {
    if !Selects(write, w.task.value) then w
    else
      var t := Written(write, w.task.value, now);
      w.(task := Some(t), queued := w.queued || QueuedByUpdate(t) != {}, everBound := w.everBound || t.sessionId.Some?)
  }

  /** The error path of a delivery that could not bind or read back. */
  function Enqueue(w: World, p: Process): World {
    w.(queued := true, deliveries := w.deliveries - {p})
  }

  function Next(w: World, s: Step): World
    requires Wants(w, s)
  {
    match s
    case BeginDelivery(p) => w.(deliveries := w.deliveries[p := Checked])
    case Send(p, session) => w.(native := Some(session), deliveries := w.deliveries[p := Holding])
    case SendReplyLost(p, session) => w.(native := Some(session), deliveries := w.deliveries - {p})
    case BindStep(p, allowed, now) =>
      if allowed && w.task.Some? && w.native.Some? && Selects(Bind(w.native.value), w.task.value)
      then Update(w, Bind(w.native.value), now).(deliveries := w.deliveries[p := Bound])
      else Enqueue(w, p)
    case ReadBack(p, allowed) =>
      if allowed && w.task.Some? then w.(deliveries := w.deliveries[p := Answered(w.task.value.state == Canceled)])
      else Enqueue(w, p)
    case CancelAfterDelivery(p, ok) =>
      w.(cancelDelivered := w.cancelDelivered || (ok && w.deliveries[p].canceled), deliveries := w.deliveries - {p})
    case CrashDelivery(p) => w.(deliveries := w.deliveries - {p})
    case RequestCancel(p, now) =>
      Update(w, Cancel, now).(cancels := w.cancels[p := w.task.value.sessionId])
    case CancelFromRequest(p, ok) =>
      w.(cancelDelivered := w.cancelDelivered || (ok && w.cancels[p].Some?), cancels := w.cancels - {p})
    case BeginDrain(p) => w.(drains := w.drains[p := Queued])
    case CancelFromDrain(p, ok) =>
      if ok then w.(cancelDelivered := true, drains := w.drains[p := Delivered]) else w.(drains := w.drains - {p})
    case EndDrain(p) => w.(queued := false, drains := w.drains - {p})
    case OtherWrite(write, now) => Update(w, write, now)
    case DropTask =>
      var t := w.task.value;
      w.(task := None, droppedOpen := Open(t.state) || t.state == Canceled,
         queued := w.queued || QueuedByDelete(t) != {})
  }

  predicate Then(w: World, s: Step, after: World) {
    Wants(w, s) && after == Next(w, s)
  }

  ghost predicate Leads(worlds: seq<World>, steps: seq<Step>, i: int)
    requires 0 <= i < |steps| < |worlds|
  {
    Then(worlds[i], steps[i], worlds[i + 1])
  }

  ghost predicate History(worlds: seq<World>, steps: seq<Step>) {
    && |worlds| == |steps| + 1
    && (exists s :: worlds[0] == Start(s))
    && forall i :: 0 <= i < |steps| ==> Leads(worlds, steps, i)
  }

  /** The task was canceled, or deleted before it finished. */
  predicate MustStop(w: World) {
    if w.task.Some? then w.task.value.state == Canceled else w.droppedOpen
  }

  predicate Safe(w: World) {
    w.cancelDelivered || w.queued
  }

  predicate RowConsistent(w: World) {
    && (w.task.Some? && w.task.value.sessionId.Some? ==> w.everBound && w.task.value.sessionId == w.native)
    && (w.everBound ==> w.native.Some? && (w.task.Some? ==> w.task.value.sessionId.Some?))
    && (w.everBound && MustStop(w) ==> Safe(w))
    && (Safe(w) ==> w.native.Some?)
  }

  predicate DeliveriesConsistent(w: World) {
    forall p <- w.deliveries :: PhaseConsistent(w, w.deliveries[p])
  }

  predicate CancelsConsistent(w: World) {
    forall p <- w.cancels :: w.cancels[p].Some? ==> w.everBound
  }

  predicate DrainsConsistent(w: World) {
    forall p <- w.drains :: Safe(w) && (w.drains[p] == Delivered ==> w.cancelDelivered)
  }

  predicate ProcessesConsistent(w: World) {
    DeliveriesConsistent(w) && CancelsConsistent(w) && DrainsConsistent(w)
  }

  ghost predicate Inv(w: World) {
    RowConsistent(w) && ProcessesConsistent(w)
  }

  /** The trigger queues the session whenever a statement leaves the row canceled with a session. */
  lemma UpdateKeepsRow(w: World, write: Write, now: Time)
    requires RowConsistent(w) && w.task.Some?
    requires write.Bind? || write.FailSession? ==> w.native == Some(write.session)
    ensures RowConsistent(Update(w, write, now))
  {
  }

  lemma NextKeepsRow(w: World, s: Step)
    requires RowConsistent(w) && ProcessesConsistent(w) && Wants(w, s)
    ensures RowConsistent(Next(w, s))
  {
    match s
    case BindStep(_, _, now) =>
      if w.task.Some? && w.native.Some? {
        UpdateKeepsRow(w, Bind(w.native.value), now);
      }
    case RequestCancel(p, now) =>
      UpdateKeepsRow(w, Cancel, now);
      assert w.task.value.sessionId.Some? <==> Update(w, Cancel, now).task.value.sessionId.Some?;
    case OtherWrite(write, now) => UpdateKeepsRow(w, write, now);
    case _ =>
  }

  /** A statement against the row is nothing to the processes, and what was bound or queued stays so. */
  lemma UpdateEffect(w: World, write: Write, now: Time)
    requires w.task.Some?
    ensures var after := Update(w, write, now);
            && after.deliveries == w.deliveries && after.cancels == w.cancels && after.drains == w.drains
            && after.native == w.native && after.cancelDelivered == w.cancelDelivered
            && (w.everBound ==> after.everBound) && (w.queued ==> after.queued)
            && (w.task.value.sessionId.Some? ==> after.everBound || !Selects(write, w.task.value))
            && (write.Bind? && Selects(write, w.task.value) ==> after.everBound)
  {
  }

  predicate PhaseConsistent(w: World, phase: Delivery) {
    && (phase == Holding ==> w.native.Some?)
    && (phase == Bound || phase.Answered? ==> w.everBound)
  }

  lemma NextKeepsDeliveries(w: World, s: Step)
    requires DeliveriesConsistent(w) && Wants(w, s)
    ensures DeliveriesConsistent(Next(w, s))
  {
    match s
    case BindStep(_, _, now) =>
      if w.task.Some? && w.native.Some? {
        UpdateEffect(w, Bind(w.native.value), now);
      }
    case RequestCancel(_, now) => UpdateEffect(w, Cancel, now);
    case OtherWrite(write, now) => UpdateEffect(w, write, now);
    case _ =>
  }

  lemma NextKeepsCancels(w: World, s: Step)
    requires RowConsistent(w) && CancelsConsistent(w) && Wants(w, s)
    ensures CancelsConsistent(Next(w, s))
  {
    match s
    case BindStep(_, _, now) =>
      if w.task.Some? && w.native.Some? {
        UpdateEffect(w, Bind(w.native.value), now);
      }
    case RequestCancel(_, now) => UpdateEffect(w, Cancel, now);
    case OtherWrite(write, now) => UpdateEffect(w, write, now);
    case _ =>
  }

  lemma NextKeepsDrains(w: World, s: Step)
    requires DrainsConsistent(w) && Wants(w, s)
    ensures DrainsConsistent(Next(w, s))
  {
    match s
    case BindStep(_, _, now) =>
      if w.task.Some? && w.native.Some? {
        UpdateEffect(w, Bind(w.native.value), now);
      }
    case RequestCancel(_, now) => UpdateEffect(w, Cancel, now);
    case OtherWrite(write, now) => UpdateEffect(w, write, now);
    case _ =>
  }

  lemma NextKeepsInv(w: World, s: Step)
    requires Inv(w) && Wants(w, s)
    ensures Inv(Next(w, s))
  {
    NextKeepsRow(w, s);
    NextKeepsDeliveries(w, s);
    NextKeepsCancels(w, s);
    NextKeepsDrains(w, s);
  }

  lemma {:induction false} InvHolds(worlds: seq<World>, steps: seq<Step>, k: nat)
    requires History(worlds, steps) && k < |worlds|
    ensures Inv(worlds[k])
  {
    if k > 0 {
      assert Leads(worlds, steps, k - 1);
      InvHolds(worlds, steps, k - 1);
      NextKeepsInv(worlds[k - 1], steps[k - 1]);
    }
  }

  // ---- no lost cancellation ----

  /** The session is bound, or a cancel was delivered or is queued. */
  predicate Known(w: World) {
    w.everBound || Safe(w)
  }

  /** A statement binds a row without a session only if it carries one, and the outbox is filled from bound rows. */
  lemma UpdateKeepsUnknown(w: World, write: Write, now: Time)
    requires w.task.Some? && w.task.value.sessionId.None? && !Known(w)
    requires !write.Bind? && (write.FailSession? ==> !Selects(write, w.task.value))
    ensures !Known(Update(w, write, now))
  {
  }

  /** A delivery that gets as far as its binding binds the session or queues it. */
  lemma BindingMakesKnown(w: World, s: Step)
    requires Inv(w) && Wants(w, s) && s.BindStep?
    ensures Known(Next(w, s))
  {
  }

  lemma NextKeepsKnown(w: World, s: Step)
    requires Inv(w) && Wants(w, s) && Known(w)
    ensures Known(Next(w, s))
  {
  }

  /** Before any delivery got as far as its binding nobody is in a position to cancel, and a session can only have been
    * written by its own failure, which no request to stop survives.
    */
  predicate Unbound(w: World) {
    && !Safe(w)
    && (w.everBound ==> if w.task.Some? then w.task.value.state == Failed else !w.droppedOpen)
    && (forall p <- w.deliveries :: w.deliveries[p] == Checked || w.deliveries[p] == Holding)
    && (forall p <- w.cancels :: w.cancels[p].None?)
    && w.drains == map[]
  }

  lemma UpdateKeepsUnbound(w: World, write: Write, now: Time)
    requires Unbound(w) && RowConsistent(w) && w.task.Some? && !write.Bind?
    ensures Unbound(Update(w, write, now))
  {
  }

  lemma NextKeepsUnbound(w: World, s: Step)
    requires Unbound(w) && RowConsistent(w) && Wants(w, s) && !s.BindStep?
    ensures Unbound(Next(w, s))
  {
    match s
    case RequestCancel(_, now) => UpdateKeepsUnbound(w, Cancel, now);
    case OtherWrite(write, now) => UpdateKeepsUnbound(w, write, now);
    case _ =>
  }

  ghost predicate SomeBinding(steps: seq<Step>, k: nat)
    requires k <= |steps|
  {
    exists i :: 0 <= i < k && steps[i].BindStep?
  }

  lemma {:induction false} UnboundWithoutBinding(worlds: seq<World>, steps: seq<Step>, k: nat)
    requires History(worlds, steps) && k < |worlds|
    ensures if SomeBinding(steps, k) then Known(worlds[k]) else Unbound(worlds[k])
  {
    if k > 0 {
      assert Leads(worlds, steps, k - 1);
      UnboundWithoutBinding(worlds, steps, k - 1);
      InvHolds(worlds, steps, k - 1);
      assert SomeBinding(steps, k) <==> SomeBinding(steps, k - 1) || steps[k - 1].BindStep?;
      if steps[k - 1].BindStep? {
        BindingMakesKnown(worlds[k - 1], steps[k - 1]);
      } else if SomeBinding(steps, k - 1) {
        NextKeepsKnown(worlds[k - 1], steps[k - 1]);
      } else {
        NextKeepsUnbound(worlds[k - 1], steps[k - 1]);
      }
    }
  }

  /** No lost cancellation. Once a task was canceled, or deleted unfinished, a cancel reached its session or the
    * session's id is in the outbox, exactly if some delivery got as far as its binding.
    */
  lemma NoLostCancellation(worlds: seq<World>, steps: seq<Step>, k: nat)
    requires History(worlds, steps) && k < |worlds| && MustStop(worlds[k])
    ensures Safe(worlds[k]) <==> SomeBinding(steps, k)
  {
    InvHolds(worlds, steps, k);
    UnboundWithoutBinding(worlds, steps, k);
  }

  // ---- no cancel without cause ----

  /** The step ends in the error path of a delivery, which queues the session whatever the task's state is: access was
    * denied, the row was gone, or another session was bound.
    */
  predicate Fails(w: World, s: Step) {
    match s
    case BindStep(_, allowed, _) =>
      !(allowed && w.task.Some? && w.native.Some?
          && (w.task.value.sessionId.None? || w.task.value.sessionId == w.native))
    case ReadBack(_, allowed) => !(allowed && w.task.Some?)
    case _ => false
  }

  /** Whoever is about to cancel has a task that must stop. */
  ghost predicate CancelsHaveCause(w: World) {
    && (Safe(w) ==> MustStop(w))
    && (forall p <- w.deliveries :: w.deliveries[p].Answered? && w.deliveries[p].canceled ==> MustStop(w))
    && (forall p <- w.cancels :: w.cancels[p].Some? ==> MustStop(w))
  }

  lemma NextKeepsMustStop(w: World, s: Step)
    requires Wants(w, s) && MustStop(w)
    ensures MustStop(Next(w, s))
  {
  }

  lemma UpdateKeepsCause(w: World, write: Write, now: Time)
    requires CancelsHaveCause(w) && w.task.Some?
    ensures CancelsHaveCause(Update(w, write, now))
  {
  }

  lemma NextKeepsCause(w: World, s: Step)
    requires Inv(w) && CancelsHaveCause(w) && Wants(w, s) && !Fails(w, s)
    ensures CancelsHaveCause(Next(w, s))
  {
    match s
    case BindStep(_, _, now) => UpdateKeepsCause(w, Bind(w.native.value), now);
    case RequestCancel(_, now) => UpdateKeepsCause(w, Cancel, now);
    case OtherWrite(write, now) => UpdateKeepsCause(w, write, now);
    case _ =>
  }

  lemma FailureQueues(w: World, s: Step)
    requires Wants(w, s) && Fails(w, s)
    ensures Next(w, s).queued
  {
  }

  ghost predicate SomeFailure(worlds: seq<World>, steps: seq<Step>, k: nat)
    requires k <= |steps| < |worlds|
  {
    exists i :: 0 <= i < k && Fails(worlds[i], steps[i])
  }

  lemma {:induction false} CauseOrFailure(worlds: seq<World>, steps: seq<Step>, k: nat)
    requires History(worlds, steps) && k < |worlds|
    ensures if SomeFailure(worlds, steps, k) then Safe(worlds[k]) else CancelsHaveCause(worlds[k])
  {
    if k > 0 {
      var w, s := worlds[k - 1], steps[k - 1];
      assert Leads(worlds, steps, k - 1);
      CauseOrFailure(worlds, steps, k - 1);
      InvHolds(worlds, steps, k - 1);
      assert SomeFailure(worlds, steps, k) <==> SomeFailure(worlds, steps, k - 1) || Fails(w, s);
      if Fails(w, s) {
        FailureQueues(w, s);
      } else if SomeFailure(worlds, steps, k - 1) {
        NextKeepsSafety(w, s);
      } else {
        NextKeepsCause(w, s);
      }
    }
  }

  /** A session was canceled or is queued for cancellation exactly if some delivery failed to bind or read back, or
    * its task must stop and some delivery got as far as its binding.
    */
  lemma CanceledExactly(worlds: seq<World>, steps: seq<Step>, k: nat)
    requires History(worlds, steps) && k < |worlds|
    ensures Safe(worlds[k]) <==> SomeFailure(worlds, steps, k) || (MustStop(worlds[k]) && SomeBinding(steps, k))
  {
    CauseOrFailure(worlds, steps, k);
    InvHolds(worlds, steps, k);
    UnboundWithoutBinding(worlds, steps, k);
  }

  /** As long as no delivery fails, only a task that was canceled or deleted unfinished has its session canceled. */
  lemma CancelsHaveReason(worlds: seq<World>, steps: seq<Step>, k: nat)
    requires History(worlds, steps) && k < |worlds| && !SomeFailure(worlds, steps, k)
    ensures worlds[k].cancelDelivered || worlds[k].queued ==>
              if worlds[k].task.Some? then worlds[k].task.value.state == Canceled else worlds[k].droppedOpen
  {
    CauseOrFailure(worlds, steps, k);
  }

  /** A delivery that reads its task back as canceled cancels the session itself, and one that does not leaves it
    * alone.
    */
  lemma DeliveryCancelsExactly(w: World, p: Process)
    requires Inv(w) && At(w, p, Bound) && w.task.Some?
    ensures var read := Next(w, ReadBack(p, true));
            && Wants(read, CancelAfterDelivery(p, true))
            && (Next(read, CancelAfterDelivery(p, true)).cancelDelivered
                <==> w.cancelDelivered || w.task.value.state == Canceled)
            && Next(read, CancelAfterDelivery(p, false)).cancelDelivered == w.cancelDelivered
            && p !in Next(read, CancelAfterDelivery(p, true)).deliveries
  {
  }

  /** A request cancels the session that the row had when it was canceled, and none if it had none. */
  lemma RequestCancelsExactly(w: World, p: Process, now: Time)
    requires Inv(w) && Wants(w, RequestCancel(p, now))
    ensures var requested := Next(w, RequestCancel(p, now));
            && requested.task == Some(w.task.value.(state := Canceled, updatedAt := now))
            && Wants(requested, CancelFromRequest(p, true))
            && (Next(requested, CancelFromRequest(p, true)).cancelDelivered
                <==> w.cancelDelivered || w.task.value.sessionId.Some?)
            && Next(requested, CancelFromRequest(p, false)).cancelDelivered == w.cancelDelivered
  {
  }

  /** A drain that gets through delivers a cancel and takes the row out; one whose cancel fails leaves the row. */
  lemma DrainDelivers(w: World, p: Process)
    requires w.queued && p !in w.drains
    ensures var begun := Next(w, BeginDrain(p));
            var delivered := Next(begun, CancelFromDrain(p, true));
            && Wants(w, BeginDrain(p)) && Wants(begun, CancelFromDrain(p, true)) && Wants(delivered, EndDrain(p))
            && delivered.cancelDelivered && delivered.queued
            && Next(delivered, EndDrain(p)).cancelDelivered && !Next(delivered, EndDrain(p)).queued
            && Next(begun, CancelFromDrain(p, false)).queued
            && Next(begun, CancelFromDrain(p, false)).cancelDelivered == w.cancelDelivered
  {
  }

  /** The steps at which the only process that may know an accepted session dies. */
  predicate LosesSession(s: Step) {
    s.SendReplyLost? || s.CrashDelivery?
  }

  ghost predicate SomeoneHolds(w: World) {
    exists p :: p in w.deliveries && w.deliveries[p] == Holding
  }

  ghost predicate SessionKnown(w: World) {
    w.native.Some? ==> Known(w) || SomeoneHolds(w)
  }

  /** Only the holder's own step ends its hold, and short of a crash that step binds or queues the session. */
  lemma NextKeepsSessionKnown(w: World, s: Step)
    requires Inv(w) && Wants(w, s) && SessionKnown(w) && !LosesSession(s)
    ensures SessionKnown(Next(w, s))
  {
    var after := Next(w, s);
    if s.BindStep? {
      BindingMakesKnown(w, s);
    } else if Known(w) {
      NextKeepsKnown(w, s);
    } else if s.Send? {
      assert after.deliveries[s.p] == Holding;
    } else if SomeoneHolds(w) {
      var p :| p in w.deliveries && w.deliveries[p] == Holding;
      assert p in after.deliveries && after.deliveries[p] == Holding;
    }
  }

  /** None is lost in a history in which every delivery runs to its end: once nobody is between acceptance and binding,
    * the session of a canceled task has been canceled or is queued.
    */
  lemma NoneLostWithoutCrash(worlds: seq<World>, steps: seq<Step>, k: nat)
    requires History(worlds, steps) && k < |worlds|
    requires forall i :: 0 <= i < k ==> !LosesSession(steps[i])
    requires MustStop(worlds[k]) && worlds[k].native.Some? && !SomeoneHolds(worlds[k])
    ensures Safe(worlds[k])
  {
    InvHolds(worlds, steps, k);
    SessionKnownWithoutCrash(worlds, steps, k);
  }

  lemma {:induction false} SessionKnownWithoutCrash(worlds: seq<World>, steps: seq<Step>, k: nat)
    requires History(worlds, steps) && k < |worlds|
    requires forall i :: 0 <= i < k ==> !LosesSession(steps[i])
    ensures SessionKnown(worlds[k])
  {
    if k > 0 {
      assert Leads(worlds, steps, k - 1);
      SessionKnownWithoutCrash(worlds, steps, k - 1);
      InvHolds(worlds, steps, k - 1);
      NextKeepsSessionKnown(worlds[k - 1], steps[k - 1]);
    }
  }

  lemma NextKeepsSafety(w: World, s: Step)
    requires Inv(w) && Wants(w, s)
    ensures w.cancelDelivered ==> Next(w, s).cancelDelivered
    ensures w.queued && !Next(w, s).queued ==> Next(w, s).cancelDelivered
  {
  }

  /** An outbox row goes only after a cancel was delivered, and a delivered cancel stays delivered. */
  lemma {:induction false} OutboxKeepsUntilDelivered(worlds: seq<World>, steps: seq<Step>, i: nat, j: nat)
    requires History(worlds, steps) && i <= j < |worlds|
    requires Safe(worlds[i])
    ensures Safe(worlds[j])
    ensures worlds[i].queued && !worlds[j].queued ==> worlds[j].cancelDelivered
    decreases j
  {
    if i < j {
      OutboxKeepsUntilDelivered(worlds, steps, i, j - 1);
      assert Leads(worlds, steps, j - 1);
      InvHolds(worlds, steps, j - 1);
      NextKeepsSafety(worlds[j - 1], steps[j - 1]);
    }
  }

  // ---- what is lost stays lost ----

  /** The session runs, its task must stop, no cancel was delivered or is queued, and no delivery is under way. */
  predicate Lost(w: World) {
    w.native.Some? && MustStop(w) && !Safe(w) && w.deliveries == map[]
  }

  lemma NextKeepsLost(w: World, s: Step)
    requires Inv(w) && Wants(w, s) && Lost(w)
    ensures Lost(Next(w, s)) && Next(w, s).native == w.native
  {
    assert !w.everBound;
    match s
    case RequestCancel(_, now) => UpdateKeepsUnknown(w, Cancel, now);
    case OtherWrite(write, now) => assert write.Finish? || write.FailSession? ==> !Selects(write, w.task.value);
    case _ =>
  }

  /** A lost cancellation is lost for good, whatever is requested, retried or drained afterwards. */
  lemma {:induction false} LostForGood(worlds: seq<World>, steps: seq<Step>, i: nat, j: nat)
    requires History(worlds, steps) && i <= j < |worlds| && Lost(worlds[i])
    ensures Lost(worlds[j]) && worlds[j].native == worlds[i].native
    decreases j
  {
    if i < j {
      LostForGood(worlds, steps, i, j - 1);
      assert Leads(worlds, steps, j - 1);
      InvHolds(worlds, steps, j - 1);
      NextKeepsLost(worlds[j - 1], steps[j - 1]);
    }
  }

  /** A delivery dies after the native runtime accepted the task. */
  lemma CrashAbandons(s: Submission)
    ensures var w0 := Start(s);
            && Then(w0, BeginDelivery(0), w0.(deliveries := map[0 := Checked]))
            && Then(w0.(deliveries := map[0 := Checked]), Send(0, 7),
               w0.(native := Some(7), deliveries := map[0 := Holding]))
            && Then(w0.(native := Some(7), deliveries := map[0 := Holding]), CrashDelivery(0), w0.(native := Some(7)))
  {
    assert map[0 := Checked][0 := Holding] == map[0 := Holding];
    assert map[0 := Holding] - {0} == map[];
  }

  /** The task is canceled while it has no session. */
  lemma CancelMisses(s: Submission)
    ensures var w := Start(s).(native := Some(7));
            var canceled := w.(task := Some(NewTask(s).(state := Canceled, updatedAt := s.now)));
            && Then(w, RequestCancel(1, s.now), canceled.(cancels := map[1 := None]))
            && Then(canceled.(cancels := map[1 := None]), CancelFromRequest(1, true), canceled)
  {
    var waiting: map<Process, Option<SessionId>> := map[1 := None];
    assert waiting - {1} == map[];
  }

  /** The exception happens: the request was answered, every process is gone, and the session is lost for good. */
  lemma CrashCanLoseCancellation(s: Submission) returns (worlds: seq<World>, steps: seq<Step>)
    ensures History(worlds, steps)
    ensures Lost(worlds[|steps|]) && worlds[|steps|].cancels == map[] && worlds[|steps|].drains == map[]
    ensures forall more, after, j ::
        History(more, after) && |steps| <= j < |more| && more[|steps|] == worlds[|steps|] ==> Lost(more[j])
  {
    CrashAbandons(s);
    CancelMisses(s);
    var w0 := Start(s);
    var w3 := w0.(native := Some(7));
    var w5 := w3.(task := Some(NewTask(s).(state := Canceled, updatedAt := s.now)));
    steps := [BeginDelivery(0), Send(0, 7), CrashDelivery(0), RequestCancel(1, s.now), CancelFromRequest(1, true)];
    worlds := [w0, w0.(deliveries := map[0 := Checked]), w0.(native := Some(7), deliveries := map[0 := Holding]), w3,
               w5.(cancels := map[1 := None]), w5];
    forall more, after, j | History(more, after) && 5 <= j < |more| && more[5] == w5 ensures Lost(more[j]) {
      LostForGood(more, after, 5, j);
    }
  }

  /** A submitted task whose accepted session nobody knows can be delivered again, which binds that very session. */
  lemma RedeliveryRecovers(w: World, p: Process, now: Time)
    requires Inv(w) && w.native.Some? && !Known(w)
    requires w.task.Some? && w.task.value.state == Submitted && p !in w.deliveries
    ensures var w1 := Next(w, BeginDelivery(p));
            var w2 := Next(w1, Send(p, w.native.value));
            var w3 := Next(w2, BindStep(p, true, now));
            && Wants(w1, Send(p, w.native.value)) && Wants(w2, BindStep(p, true, now))
            && Known(w3) && w3.task.value.sessionId == w.native && w3.task.value.state == Working
  {
  }
}

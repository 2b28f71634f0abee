/** The A2A task table: accepting messages as tasks, and every statement that writes a task afterwards.
  *
  * Task states are those of the A2A protocol 1.0, section 4.1.3. A request hash is kept as the value it digests, so
  * two hashes are equal exactly when the messages are. Workspace access is a parameter: the live authority check may
  * allow or deny any call.
  */
module ProtocolTasks {
  import opened Options
  import opened Sequences

  type Time = int
  type GrantId = nat
  type TaskId = nat
  type ContextId = nat
  type SessionId = nat

  const HOUR: nat := 3_600_000_000
  const MAX_ACTIVE: nat := 5
  const MAX_RECENT: nat := 60
  const MAX_OUTPUT: nat := 32_000
  const FAILURE := "The task could not be completed. Start a new task to retry."

  datatype State = Submitted | Working | InputRequired | Completed | Failed | Canceled

  datatype Message = Message(messageId: string, parts: seq<string>, contextId: Option<ContextId>,
      taskId: Option<TaskId>)

  datatype Digest = Sha256(message: Message)

  datatype Chain = Chain(correlationId: TaskId, round: int, originTaskId: TaskId)

  datatype Task = Task(
    grant: GrantId,
    contextId: ContextId,
    messageId: string,
    requestHash: Digest,
    prompt: string,
    sessionId: Option<SessionId>,
    state: State,
    output: Option<string>,
    correlationId: TaskId,
    round: int,
    originTaskId: Option<TaskId>,
    createdAt: Time,
    updatedAt: Time)

  /** The tables: `dropped` are the grants deleted so far, whose tasks went with them. */
  datatype Store = Store(tasks: map<TaskId, Task>, cancellations: set<SessionId>, dropped: set<GrantId>)

  datatype Error = AccessDenied | Rpc(code: int, message: string)

  predicate Active(state: State) {
    state == Submitted || state == Working
  }

  predicate Open(state: State) {
    Active(state) || state == InputRequired
  }

  predicate Terminal(state: State) {
    state == Completed || state == Failed || state == Canceled
  }

  // ---- acceptance ----

  /** A submission with the random ids and the transaction time that the database would give it. */
  datatype Submission = Submission(
    grant: GrantId, message: Message, chain: Option<Chain>, allowed: bool, id: TaskId, newContext: ContextId, now: Time)

  function Joined(parts: seq<string>): string {
    if parts == [] then "" else if |parts| == 1 then parts[0] else parts[0] + "\n\n" + Joined(parts[1..])
  }

  function ByMessage(tasks: map<TaskId, Task>, grant: GrantId, messageId: string): set<TaskId> {
    set id | id in tasks && tasks[id].grant == grant && tasks[id].messageId == messageId
  }

  function ActiveTasks(tasks: map<TaskId, Task>, grant: GrantId): set<TaskId> {
    set id | id in tasks && tasks[id].grant == grant && Active(tasks[id].state)
  }

  function CreatedAfter(tasks: map<TaskId, Task>, grant: GrantId, time: Time): set<TaskId> {
    set id | id in tasks && tasks[id].grant == grant && tasks[id].createdAt > time
  }

  function InContext(tasks: map<TaskId, Task>, grant: GrantId, context: ContextId): set<TaskId> {
    set id | id in tasks && tasks[id].grant == grant && tasks[id].contextId == context
  }

  function Round(s: Submission): int {
    if s.chain.Some? then s.chain.value.round else 1
  }

  /** Why a message that was not seen before is refused. */
  function Refusal(tasks: map<TaskId, Task>, s: Submission): Option<Error> {
    var context := s.message.contextId;
    if |ActiveTasks(tasks, s.grant)| >= MAX_ACTIVE || |CreatedAfter(tasks, s.grant, s.now - HOUR)| >= MAX_RECENT then
      Some(Rpc(-32000, "Task limit reached; retry later"))
    else if context.Some? && InContext(tasks, s.grant, context.value) == {} then
      Some(Rpc(-32001, "Context not found"))
    else if context.Some? && InContext(tasks, s.grant, context.value) * ActiveTasks(tasks, s.grant) != {} then
      Some(Rpc(-32000, "A task is already running in this context"))
    else if Round(s) < 1 || Round(s) > 8 then
      Some(Rpc(-32000, "Task chain limit reached"))
    else None
  }

  function NewTask(s: Submission): Task {
    Task(s.grant, if s.message.contextId.Some? then s.message.contextId.value else s.newContext,
         s.message.messageId, Sha256(s.message), Joined(s.message.parts), None, Submitted, None,
         if s.chain.Some? then s.chain.value.correlationId else s.id, Round(s),
         if s.chain.Some? then Some(s.chain.value.originTaskId) else None, s.now, s.now)
  }

  /** A submission that was not seen before is refused exactly when five tasks are active or sixty were created within
    * the hour, when its context is unknown or busy, or when its chain is longer than eight rounds.
    */
  lemma RefusedExactly(tasks: map<TaskId, Task>, s: Submission)
    ensures var active := set id | id in tasks && tasks[id].grant == s.grant && tasks[id].state in {Submitted, Working};
            var recent := set id | id in tasks && tasks[id].grant == s.grant
                && tasks[id].createdAt > s.now - 3_600_000_000;
            var limited := |active| >= 5 || |recent| >= 60;
            var context := s.message.contextId;
            var unknown := context.Some? && forall id <- tasks :: tasks[id].grant == s.grant ==>
                             tasks[id].contextId != context.value;
            var busy := context.Some? && exists id <- active :: tasks[id].contextId == context.value;
            var round := if s.chain.Some? then s.chain.value.round else 1;
            Refusal(tasks, s) ==
              if limited then Some(Rpc(-32000, "Task limit reached; retry later"))
              else if unknown then Some(Rpc(-32001, "Context not found"))
              else if busy then Some(Rpc(-32000, "A task is already running in this context"))
              else if !(1 <= round <= 8) then Some(Rpc(-32000, "Task chain limit reached"))
              else None
  {
    assert ActiveTasks(tasks, s.grant)
           == set id | id in tasks && tasks[id].grant == s.grant && tasks[id].state in {Submitted, Working};
    assert CreatedAfter(tasks, s.grant, s.now - HOUR)
           == set id | id in tasks && tasks[id].grant == s.grant && tasks[id].createdAt > s.now - 3_600_000_000;
    if s.message.contextId.Some? {
      var inside := InContext(tasks, s.grant, s.message.contextId.value);
      assert inside == {} <==> forall id <- tasks :: tasks[id].grant == s.grant ==>
                                 tasks[id].contextId != s.message.contextId.value by {
        assert forall id <- tasks :: id in inside <==>
                 tasks[id].grant == s.grant && tasks[id].contextId == s.message.contextId.value;
      }
      assert inside * ActiveTasks(tasks, s.grant) != {} <==>
             exists id <- ActiveTasks(tasks, s.grant) :: tasks[id].contextId == s.message.contextId.value by {
        assert forall id :: id in inside * ActiveTasks(tasks, s.grant) <==>
                 id in ActiveTasks(tasks, s.grant) && tasks[id].contextId == s.message.contextId.value;
      }
    }
  }

  /** Two lists of parts are joined by an empty line, like the parts themselves. */
  lemma {:induction false} JoinedParts(a: seq<string>, b: seq<string>)
    requires a != [] && b != []
    ensures Joined(a + b) == Joined(a) + ("\n\n" + Joined(b)) && Joined([a[0]]) == a[0]
  {
    assert (a + b)[0] == a[0];
    if |a| == 1 {
      assert (a + b)[1..] == b;
      Reassociate(a[0], "\n\n", Joined(b));
    } else {
      JoinedParts(a[1..], b);
      assert (a + b)[1..] == a[1..] + b;
      Reassociate(a[0] + "\n\n", Joined(a[1..]), "\n\n" + Joined(b));
    }
  }

  /** The table after a submission. */
  function AfterSubmit(tasks: map<TaskId, Task>, s: Submission): map<TaskId, Task> {
    if s.message.taskId.None? && s.allowed && ByMessage(tasks, s.grant, s.message.messageId) == {}
        && Refusal(tasks, s).None?
    then tasks[s.id := NewTask(s)] else tasks
  }

  // ---- later writes ----

  /** The statements that update an existing task. `CloseRoom` is the one the conversation's retirement sends. */
  datatype Write =
    | Bind(session: SessionId)
    | Cancel
    | Finish(state: State, output: Option<string>)
    | FailSession(session: SessionId)
    | CancelForAccount
    | CloseRoom

  predicate Selects(w: Write, t: Task) {
    match w
    case Bind(session) => t.sessionId.None? || t.sessionId == Some(session)
    case Cancel => Open(t.state) || t.state == Canceled
    case Finish(_, _) => Open(t.state)
    case FailSession(session) => (t.sessionId.None? || t.sessionId == Some(session)) && Active(t.state)
    case CancelForAccount => Open(t.state)
    case CloseRoom => Open(t.state)
  }

  function Cut(output: Option<string>): Option<string> {
    if output.Some? && |output.value| > MAX_OUTPUT then Some(output.value[..MAX_OUTPUT]) else output
  }

  function Written(w: Write, t: Task, now: Time): Task {
    match w
    case Bind(session) =>
        t.(sessionId := Some(session), state := if t.state == Submitted then Working else t.state, updatedAt := now)
    case Cancel => t.(state := Canceled, updatedAt := now)
    case Finish(state, output) => t.(state := state, output := Cut(output), updatedAt := now)
    case FailSession(session) =>
        t.(state := Failed, sessionId := Some(session), output := Some(FAILURE), updatedAt := now)
    case CancelForAccount => t.(state := Canceled, updatedAt := now)
    case CloseRoom => t.(state := Canceled, output := None, updatedAt := now)
  }

  /** The trigger on updates: a canceled row that has a session queues that session for cancellation. */
  function QueuedByUpdate(t: Task): set<SessionId> {
    if t.state == Canceled && t.sessionId.Some? then {t.sessionId.value} else {}
  }

  /** The trigger on deletes: an unfinished or canceled row does. */
  function QueuedByDelete(t: Task): set<SessionId> {
    if (Open(t.state) || t.state == Canceled) && t.sessionId.Some? then {t.sessionId.value} else {}
  }

  function Execute(store: Store, id: TaskId, w: Write, now: Time): Store {
    if id in store.tasks && Selects(w, store.tasks[id]) then
      var t := Written(w, store.tasks[id], now);
      store.(tasks := store.tasks[id := t], cancellations := store.cancellations + QueuedByUpdate(t))
    else store
  }

  /** Deleting a grant deletes its tasks. */
  function DropGrant(store: Store, grant: GrantId): Store {
    var gone := set id | id in store.tasks && store.tasks[id].grant == grant;
    Store(store.tasks - gone,
          store.cancellations + (set id, session | id in gone && session in QueuedByDelete(store.tasks[id]) :: session),
          store.dropped + {grant})
  }

  class TaskTable {
    var store: Store

    constructor ()
      ensures store == Store(map[], {}, {})
    {
      store := Store(map[], {}, {});
    }

    /** Runs under the grant's advisory lock, so submissions of one grant come one after another. */
    method Accept(s: Submission) returns (answer: Result<TaskId, Error>)
      requires s.id !in store.tasks
      modifies this
      ensures store == old(store).(tasks := AfterSubmit(old(store).tasks, s))
      ensures s.message.taskId.Some? ==>
                answer == Err(Rpc(-32004, "Start a new task in the same context instead of reopening a terminal task"))
      ensures s.message.taskId.None? && !s.allowed ==> answer == Err(AccessDenied)
      ensures s.message.taskId.None? && s.allowed ==>
                var previous := ByMessage(old(store).tasks, s.grant, s.message.messageId);
                match answer
                case Ok(id) =>
                    id in store.tasks && store.tasks[id].grant == s.grant
                        && store.tasks[id].requestHash == Sha256(s.message)
                               && (if previous == {} then id == s.id else id in previous)
                case Err(e) => if previous == {} then Refusal(old(store).tasks, s) == Some(e)
                               else e == Rpc(-32602, "Message ID was reused with different content")
                                    && exists id <- previous :: old(store).tasks[id].requestHash != Sha256(s.message)
      ensures answer == Ok(s.id) && s.id in store.tasks ==>
                var t := store.tasks[s.id];
                && store.tasks == old(store).tasks[s.id := t]
                && t.grant == s.grant && t.messageId == s.message.messageId && t.prompt == Joined(s.message.parts)
                && t.contextId == (if s.message.contextId.Some? then s.message.contextId.value else s.newContext)
                && t.state == Submitted && t.sessionId.None? && t.output.None? && t.createdAt == t.updatedAt == s.now
                && (if s.chain.Some?
                    then && t.correlationId == s.chain.value.correlationId && t.round == s.chain.value.round
                         && t.originTaskId == Some(s.chain.value.originTaskId)
                    else t.correlationId == s.id && t.round == 1 && t.originTaskId.None?)
    {
      if s.message.taskId.Some? {
        return Err(Rpc(-32004, "Start a new task in the same context instead of reopening a terminal task"));
      }
      if !s.allowed {
        return Err(AccessDenied);
      }
      var previous := ByMessage(store.tasks, s.grant, s.message.messageId);
      if previous != {} {
        var id :| id in previous;
        if store.tasks[id].requestHash != Sha256(s.message) {
          return Err(Rpc(-32602, "Message ID was reused with different content"));
        }
        return Ok(id);
      }
      var refusal := Refusal(store.tasks, s);
      if refusal.Some? {
        return Err(refusal.value);
      }
      store := store.(tasks := store.tasks[s.id := NewTask(s)]);
      answer := Ok(s.id);
    }

    /** Also refused when the task already has another session. */
    method BindSession(grant: GrantId, id: TaskId, session: SessionId, allowed: bool, now: Time)
        returns (answer: Result<(), Error>)
      modifies this
      ensures var mine := allowed && id in old(store).tasks && old(store).tasks[id].grant == grant;
              && store == (if mine then Execute(old(store), id, Bind(session), now) else old(store))
              && (answer.Ok? <==> mine && Selects(Bind(session), old(store).tasks[id]))
              && (answer.Ok? ==>
                    var t := old(store).tasks[id];
                    && (t.sessionId.None? || t.sessionId == Some(session))
                    && store.tasks[id] == t.(sessionId := Some(session), updatedAt := now,
                                             state := if t.state == Submitted then Working else t.state)
                    && (t.state == Canceled ==> session in store.cancellations))
    {
      var found := ReadTask(grant, id, allowed);
      if found.Err? {
        return Err(found.error);
      }
      var t := found.value;
      if t.sessionId.Some? && t.sessionId.value != session {
        return Err(AccessDenied);
      }
      var bound :=
          t.(sessionId := Some(session), state := if t.state == Submitted then Working else t.state, updatedAt := now);
      store := store.(tasks := store.tasks[id := bound], cancellations := store.cancellations + QueuedByUpdate(bound));
      answer := Ok(());
    }

    method ReadTask(grant: GrantId, id: TaskId, allowed: bool) returns (answer: Result<Task, Error>)
      ensures answer == if !allowed then Err(AccessDenied)
                        else if id in store.tasks && store.tasks[id].grant == grant then Ok(store.tasks[id])
                        else Err(Rpc(-32001, "Task not found"))
    {
      if !allowed {
        return Err(AccessDenied);
      }
      if id !in store.tasks || store.tasks[id].grant != grant {
        return Err(Rpc(-32001, "Task not found"));
      }
      answer := Ok(store.tasks[id]);
    }

    method CancelTask(grant: GrantId, id: TaskId, allowed: bool, now: Time) returns (answer: Result<Task, Error>)
      modifies this
      ensures var mine := allowed && id in old(store).tasks && old(store).tasks[id].grant == grant;
              && store == (if mine then Execute(old(store), id, Cancel, now) else old(store))
              && (answer.Ok? <==> mine && Selects(Cancel, old(store).tasks[id]))
              && (answer.Ok? ==> answer.value == store.tasks[id] && answer.value.state == Canceled)
              && (mine && answer.Err? ==>
                    && answer.error == Rpc(-32002, "Task cannot be canceled")
                    && old(store).tasks[id].state in {Completed, Failed})
              && (answer.Ok? ==>
                    && answer.value == old(store).tasks[id].(state := Canceled, updatedAt := now)
                    && (answer.value.sessionId.Some? ==> answer.value.sessionId.value in store.cancellations))
    {
      var found := ReadTask(grant, id, allowed);
      if found.Err? {
        return Err(found.error);
      }
      if !Open(found.value.state) && found.value.state != Canceled {
        return Err(Rpc(-32002, "Task cannot be canceled"));
      }
      var t := found.value.(state := Canceled, updatedAt := now);
      store := store.(tasks := store.tasks[id := t], cancellations := store.cancellations + QueuedByUpdate(t));
      answer := Ok(t);
    }

    method FinishTask(grant: GrantId, id: TaskId, allowed: bool, state: State, output: Option<string>, now: Time)
      returns (answer: Result<(), Error>)
      requires Terminal(state)
      modifies this
      ensures var mine := allowed && id in old(store).tasks && old(store).tasks[id].grant == grant;
              && store == (if mine then Execute(old(store), id, Finish(state, output), now) else old(store))
              && (answer.Ok? <==> mine)
              && (mine && old(store).tasks[id].state in {Completed, Failed, Canceled} ==> store == old(store))
              && (mine && old(store).tasks[id].state !in {Completed, Failed, Canceled} ==>
                    var t := store.tasks[id];
                    && t == old(store).tasks[id].(state := state, output := t.output, updatedAt := now)
                    && (t.output.Some? <==> output.Some?)
                    && (output.Some? && |output.value| <= 32_000 ==> t.output == output)
                    && (output.Some? && |output.value| > 32_000 ==> t.output == Some(output.value[..32_000])))
    {
      var found := ReadTask(grant, id, allowed);
      if found.Err? {
        return Err(found.error);
      }
      if Open(found.value.state) {
        var cut := if output.Some? && |output.value| > MAX_OUTPUT then Some(output.value[..MAX_OUTPUT]) else output;
        var t := found.value.(state := state, output := cut, updatedAt := now);
        store := store.(tasks := store.tasks[id := t], cancellations := store.cancellations + QueuedByUpdate(t));
      }
      answer := Ok(());
    }

    /** `continuation` is the grant and task that the native session's continuation token names, when it parses. */
    method FailSession(session: SessionId, continuation: Option<(GrantId, TaskId)>, now: Time)
      modifies this
      ensures store == if continuation.Some? && continuation.value.1 in old(store).tasks
                            && old(store).tasks[continuation.value.1].grant == continuation.value.0
                       then Execute(old(store), continuation.value.1, Write.FailSession(session), now) else old(store)
      ensures store != old(store) ==>
                && continuation.Some? && continuation.value.1 in old(store).tasks
                && var (grant, id) := continuation.value;
                   var t := old(store).tasks[id];
                   && t.grant == grant && t.state in {Submitted, Working}
                   && (t.sessionId.None? || t.sessionId == Some(session))
                   && store == old(store).(tasks := old(store).tasks[id := store.tasks[id]])
                   && store.tasks[id] == t.(state := Failed, sessionId := Some(session), updatedAt := now,
                        output := Some("The task could not be completed. Start a new task to retry."))
    {
      if continuation.None? {
        return;
      }
      var (grant, id) := continuation.value;
      if id in store.tasks && store.tasks[id].grant == grant {
        var t := store.tasks[id];
        if Active(t.state) && (t.sessionId.None? || t.sessionId.value == session) {
          t := t.(state := Failed, sessionId := Some(session), output := Some(FAILURE), updatedAt := now);
          store := store.(tasks := store.tasks[id := t], cancellations := store.cancellations + QueuedByUpdate(t));
        }
      }
    }
  }

  /** Account deletion and a room's retirement cancel exactly the unfinished tasks, with their outputs if any gone at
    * most.
    */
  lemma StoppingCancels(t: Task, w: Write, now: Time)
    requires w.CancelForAccount? || w.CloseRoom?
    ensures Selects(w, t) <==> t.state in {Submitted, Working, InputRequired}
    ensures var u := Written(w, t, now);
            u == t.(state := Canceled, updatedAt := now, output := if w.CloseRoom? then None else t.output)
  {
  }

  // ---- whole histories ----

  datatype Op =
    | Submit(submission: Submission)
    | Update(id: TaskId, write: Write, now: Time)
    | Drop(grant: GrantId)
    | Acknowledge(session: SessionId)

  /** Random ids are new, a finishing state is terminal, and a deleted grant gives no access. */
  ghost predicate Possible(store: Store, op: Op) {
    match op
    case Submit(s) =>
      && s.id !in store.tasks
      && (forall id <- store.tasks :: store.tasks[id].contextId != s.newContext)
      && (s.allowed ==> s.grant !in store.dropped)
    case Update(_, Finish(state, _), _) => Terminal(state)
    case _ => true
  }

  function Next(store: Store, op: Op): Store {
    match op
    case Submit(s) => store.(tasks := AfterSubmit(store.tasks, s))
    case Update(id, w, now) => Execute(store, id, w, now)
    case Drop(grant) => DropGrant(store, grant)
    case Acknowledge(session) => store.(cancellations := store.cancellations - {session})
  }

  ghost predicate History(stores: seq<Store>, ops: seq<Op>) {
    && |stores| == |ops| + 1
    && stores[0] == Store(map[], {}, {})
    && forall i :: 0 <= i < |ops| ==> Possible(stores[i], ops[i]) && stores[i + 1] == Next(stores[i], ops[i])
  }

  function CreatedWithin(tasks: map<TaskId, Task>, grant: GrantId, a: Time): set<TaskId> {
    set id | id in tasks && tasks[id].grant == grant && a < tasks[id].createdAt <= a + HOUR
  }

  ghost predicate OneActivePerContext(tasks: map<TaskId, Task>) {
    forall i <- tasks, j <- tasks :: i != j && SameContext(tasks[i], tasks[j]) && Active(tasks[i].state) ==>
        !Active(tasks[j].state)
  }

  predicate SameContext(t: Task, u: Task) {
    t.grant == u.grant && t.contextId == u.contextId
  }

  ghost predicate QuotasHold(tasks: map<TaskId, Task>) {
    && (forall grant, a :: |CreatedWithin(tasks, grant, a)| <= 60)
    && (forall grant :: |ActiveTasks(tasks, grant)| <= 5)
    && OneActivePerContext(tasks)
  }

  predicate SameMessage(t: Task, u: Task) {
    t.grant == u.grant && t.messageId == u.messageId
  }

  ghost predicate MessagesUnique(tasks: map<TaskId, Task>) {
    forall i <- tasks, j <- tasks :: SameMessage(tasks[i], tasks[j]) ==> i == j
  }

  ghost predicate TaskConsistent(t: Task) {
    && (t.state == Submitted ==> t.sessionId.None?)
    && (t.state == Working ==> t.sessionId.Some?)
    && t.state != InputRequired
    && (t.output.Some? ==> Terminal(t.state) && |t.output.value| <= 32_000)
    && 1 <= t.round <= 8
    && var m := t.requestHash.message;
       && t.messageId == m.messageId
       && t.prompt == Joined(m.parts)
       && (m.contextId.Some? ==> t.contextId == m.contextId.value)
  }

  ghost predicate Inv(store: Store) {
    && QuotasHold(store.tasks)
    && (forall id <- store.tasks :: TaskConsistent(store.tasks[id]) && store.tasks[id].grant !in store.dropped)
    && MessagesUnique(store.tasks)
  }

  lemma WindowGrows(tasks: map<TaskId, Task>, s: Submission, grant: GrantId, a: Time)
    requires s.id !in tasks
    ensures var before, after := CreatedWithin(tasks, grant, a), CreatedWithin(AfterSubmit(tasks, s), grant, a);
            after == if s.id in after then before + {s.id} else before
  {
  }

  lemma WindowIsRecent(tasks: map<TaskId, Task>, s: Submission, grant: GrantId, a: Time)
    requires s.id !in tasks && s.id in CreatedWithin(AfterSubmit(tasks, s), grant, a)
    ensures CreatedWithin(tasks, grant, a) <= CreatedAfter(tasks, grant, s.now - HOUR)
    ensures |CreatedAfter(tasks, grant, s.now - HOUR)| < MAX_RECENT
  {
  }

  /** The window that counts a new task holds, besides it, only tasks that the submission itself counted as recent. */
  lemma SubmitKeepsWindow(tasks: map<TaskId, Task>, s: Submission, grant: GrantId, a: Time)
    requires |CreatedWithin(tasks, grant, a)| <= 60 && s.id !in tasks
    ensures |CreatedWithin(AfterSubmit(tasks, s), grant, a)| <= 60
  {
    WindowGrows(tasks, s, grant, a);
    if s.id in CreatedWithin(AfterSubmit(tasks, s), grant, a) {
      WindowIsRecent(tasks, s, grant, a);
      SubsetBound(CreatedWithin(tasks, grant, a), CreatedAfter(tasks, grant, s.now - HOUR));
    }
  }

  lemma SubmitKeepsActive(tasks: map<TaskId, Task>, s: Submission, grant: GrantId)
    requires |ActiveTasks(tasks, grant)| <= 5 && s.id !in tasks
    ensures |ActiveTasks(AfterSubmit(tasks, s), grant)| <= 5
  {
    var before, after := ActiveTasks(tasks, grant), ActiveTasks(AfterSubmit(tasks, s), grant);
    assert after == if s.id in after then before + {s.id} else before;
  }

  lemma SubmitKeepsContexts(tasks: map<TaskId, Task>, s: Submission)
    requires OneActivePerContext(tasks) && s.id !in tasks
    requires forall id <- tasks :: tasks[id].contextId != s.newContext
    ensures OneActivePerContext(AfterSubmit(tasks, s))
  {
    if Refusal(tasks, s).None? {
      forall i <- tasks | SameContext(tasks[i], NewTask(s)) ensures !Active(tasks[i].state) {
        assert i in InContext(tasks, s.grant, s.message.contextId.value);
        assert i !in InContext(tasks, s.grant, s.message.contextId.value) * ActiveTasks(tasks, s.grant);
      }
    }
  }

  lemma SubmitKeepsMessages(tasks: map<TaskId, Task>, s: Submission)
    requires MessagesUnique(tasks) && s.id !in tasks
    ensures MessagesUnique(AfterSubmit(tasks, s))
  {
    if ByMessage(tasks, s.grant, s.message.messageId) == {} {
      forall i <- tasks ensures !SameMessage(tasks[i], NewTask(s)) {
        assert i !in ByMessage(tasks, s.grant, s.message.messageId);
      }
    }
  }

  lemma SubmitKeepsInv(store: Store, s: Submission)
    requires Inv(store) && Possible(store, Submit(s))
    ensures Inv(Next(store, Submit(s)))
  {
    forall grant, a ensures |CreatedWithin(AfterSubmit(store.tasks, s), grant, a)| <= MAX_RECENT {
      SubmitKeepsWindow(store.tasks, s, grant, a);
    }
    forall grant ensures |ActiveTasks(AfterSubmit(store.tasks, s), grant)| <= MAX_ACTIVE {
      SubmitKeepsActive(store.tasks, s, grant);
    }
    SubmitKeepsContexts(store.tasks, s);
    SubmitKeepsMessages(store.tasks, s);
  }

  /** No later statement changes what a task was created from, and none makes it active again. */
  lemma WriteKeepsTask(w: Write, t: Task, now: Time)
    requires TaskConsistent(t) && Selects(w, t) && (w.Finish? ==> Terminal(w.state))
    ensures var u := Written(w, t, now);
            && TaskConsistent(u)
            && u.(sessionId := t.sessionId, state := t.state, output := t.output, updatedAt := t.updatedAt) == t
            && (Active(u.state) ==> Active(t.state))
            && (t.sessionId.Some? ==> u.sessionId == t.sessionId)
            && (Terminal(t.state) ==> u.state == t.state && u.output == t.output)
  {
  }

  lemma ShrinkingKeepsQuotas(tasks: map<TaskId, Task>, after: map<TaskId, Task>)
    requires QuotasHold(tasks)
    requires after.Keys <= tasks.Keys
    requires forall id <- after :: after[id].grant == tasks[id].grant && after[id].createdAt == tasks[id].createdAt
                                   && after[id].contextId == tasks[id].contextId
                                   && (Active(after[id].state) ==> Active(tasks[id].state))
    ensures QuotasHold(after)
  {
    forall grant, a ensures |CreatedWithin(after, grant, a)| <= 60 {
      SubsetBound(CreatedWithin(after, grant, a), CreatedWithin(tasks, grant, a));
    }
    forall grant ensures |ActiveTasks(after, grant)| <= 5 {
      SubsetBound(ActiveTasks(after, grant), ActiveTasks(tasks, grant));
    }
  }

  lemma NextKeepsInv(store: Store, op: Op)
    requires Inv(store) && Possible(store, op)
    ensures Inv(Next(store, op))
  {
    match op
    case Submit(s) => SubmitKeepsInv(store, s);
    case Update(id, w, now) =>
      if id in store.tasks && Selects(w, store.tasks[id]) {
        WriteKeepsTask(w, store.tasks[id], now);
        ShrinkingKeepsQuotas(store.tasks, Next(store, op).tasks);
      }
    case Drop(grant) => ShrinkingKeepsQuotas(store.tasks, Next(store, op).tasks);
    case Acknowledge(_) =>
  }

  lemma {:induction false} InvHolds(stores: seq<Store>, ops: seq<Op>, k: nat)
    requires History(stores, ops) && k < |stores|
    ensures Inv(stores[k])
  {
    if k > 0 {
      InvHolds(stores, ops, k - 1);
      NextKeepsInv(stores[k - 1], ops[k - 1]);
    }
  }

  /** At every moment of every history, whatever transaction times the submissions carry: any window of one hour holds
    * at most 60 created tasks of a grant, at most 5 of its tasks are active, and at most one per context.
    */
  lemma QuotasAlwaysHold(stores: seq<Store>, ops: seq<Op>, k: nat)
    requires History(stores, ops) && k < |stores|
    ensures QuotasHold(stores[k].tasks)
  {
    InvHolds(stores, ops, k);
  }

  /** Only a finished task has an output, and no output is longer than 32,000 characters. */
  lemma OutputsAreFinalAndBounded(stores: seq<Store>, ops: seq<Op>, k: nat, id: TaskId)
    requires History(stores, ops) && k < |stores| && id in stores[k].tasks
    ensures var t := stores[k].tasks[id];
            t.output.Some? ==> Terminal(t.state) && |t.output.value| <= 32_000
  {
    InvHolds(stores, ops, k);
  }

  /** A submitted task has no session, a working one has one, and no task waits for input. */
  lemma SessionsMatchStates(stores: seq<Store>, ops: seq<Op>, k: nat, id: TaskId)
    requires History(stores, ops) && k < |stores| && id in stores[k].tasks
    ensures var t := stores[k].tasks[id];
            && (t.state == Submitted ==> t.sessionId.None?)
            && (t.state == Working ==> t.sessionId.Some?)
            && t.state != InputRequired
  {
    InvHolds(stores, ops, k);
  }

  /** What became of a task: its grant is deleted, or it is there with the same origin, with its session if it had one,
    * and with its state and output if these were final.
    */
  predicate MovedForward(t: Task, store: Store, id: TaskId) {
    if id in store.tasks && t.grant !in store.dropped then
      var u := store.tasks[id];
      && u.(sessionId := t.sessionId, state := t.state, output := t.output, updatedAt := t.updatedAt) == t
      && (t.sessionId.Some? ==> u.sessionId == t.sessionId)
      && (Terminal(t.state) ==> u.state == t.state && u.output == t.output)
    else t.grant in store.dropped
  }

  lemma NextMovesForward(t: Task, store: Store, op: Op, id: TaskId)
    requires Inv(store) && Possible(store, op) && MovedForward(t, store, id)
    ensures MovedForward(t, Next(store, op), id)
  {
    if op.Update? && op.id == id && id in store.tasks && Selects(op.write, store.tasks[id]) {
      WriteKeepsTask(op.write, store.tasks[id], op.now);
    }
  }

  /** While a task exists, its origin never changes, its session is written once, and a terminal state and its output
    * stay. A grant that is deleted never has a task again.
    */
  lemma {:induction false} TasksOnlyMoveForward(stores: seq<Store>, ops: seq<Op>, i: nat, j: nat, id: TaskId)
    requires History(stores, ops) && i <= j < |stores| && id in stores[i].tasks
    ensures MovedForward(stores[i].tasks[id], stores[j], id)
    decreases j
  {
    InvHolds(stores, ops, i);
    if i < j {
      TasksOnlyMoveForward(stores, ops, i, j - 1, id);
      InvHolds(stores, ops, j - 1);
      NextMovesForward(stores[i].tasks[id], stores[j - 1], ops[j - 1], id);
    }
  }

  /** The task that a submission is answered with, if any. */
  ghost predicate AnsweredWith(store: Store, s: Submission, id: TaskId) {
    && s.message.taskId.None? && s.allowed
    && id in Next(store, Submit(s)).tasks
    && var t := Next(store, Submit(s)).tasks[id];
       t.grant == s.grant && t.messageId == s.message.messageId && t.requestHash == Sha256(s.message)
  }

  /** Two answered submissions with one message id under one grant are the same message and get the same task, which
    * holds that message's content.
    */
  lemma ResendsAgree(stores: seq<Store>, ops: seq<Op>, i: nat, j: nat, first: TaskId, second: TaskId)
    requires History(stores, ops) && i < j < |ops|
    requires ops[i].Submit? && ops[j].Submit?
    requires AnsweredWith(stores[i], ops[i].submission, first) && AnsweredWith(stores[j], ops[j].submission, second)
    requires ops[i].submission.grant == ops[j].submission.grant
    requires ops[i].submission.message.messageId == ops[j].submission.message.messageId
    ensures first == second && ops[i].submission.message == ops[j].submission.message
    ensures stores[j + 1].tasks[second].prompt == Joined(ops[i].submission.message.parts)
  {
    InvHolds(stores, ops, j + 1);
    InvHolds(stores, ops, j);
    TasksOnlyMoveForward(stores, ops, i + 1, j + 1, first);
  }
}

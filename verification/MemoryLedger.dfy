/** Memory operations behind content-free receipts: at most one effect per operation id, across crashes and retries.
  *
  * A process takes the namespace's advisory lock, looks for a receipt, inserts one without a result, applies the effect
  * in the memory store, and records the result. It may crash or be rejected between any two of these, and its database
  * connection, with the lock, may go while it is still talking to the memory store.
  */
module MemoryLedger {
  import opened Options

  type Process = nat
  type Namespace = nat

  datatype Action = Remember | Update | Delete | Clear

  datatype Request = Request(namespace: Namespace, action: Action, operationId: string, text: string, memoryId: nat,
      infer: bool)

  /** A digest is the request it digests: two digests are equal exactly when the requests are. */
  datatype Digest = Sha256(request: Request)

  datatype Key = Key(namespace: Namespace, operationId: string)

  type Ids = seq<nat>

  datatype Receipt = Receipt(digest: Digest, result: Option<Ids>)

  datatype Error = Conflict | NeedsReconciliation | MemoryLimit | Rejected | Unavailable

  /** What the memory store does with one call: it applies it, refuses it unchanged, or fails having changed it or
    * not.
    */
  datatype Effect = Applied(ids: Ids) | Refused | Failed(changed: bool)

  function KeyOf(r: Request): Key {
    Key(r.namespace, r.operationId)
  }

  /** The answer to a request whose receipt exists. */
  function FromReceipt(receipt: Receipt, r: Request): Result<Ids, Error> {
    if receipt.digest != Sha256(r) then Err(Conflict)
    else if receipt.result.None? then Err(NeedsReconciliation)
    else Ok(receipt.result.value)
  }

  predicate Changes(e: Effect) {
    e.Applied? || (e.Failed? && e.changed)
  }

  // ---- one undisturbed call ----

  datatype Ledger = Ledger(receipts: map<Key, Receipt>, effects: seq<Key>)

  function Called(l: Ledger, r: Request, full: bool, e: Effect): (Ledger, Result<Ids, Error>) {
    var key := KeyOf(r);
    if key in l.receipts then (l, FromReceipt(l.receipts[key], r))
    else if r.action == Remember && full then (l, Err(MemoryLimit))
    else
      (Ledger(l.receipts[key := Receipt(Sha256(r), if e.Applied? then Some(e.ids) else None)],
              if Changes(e) then l.effects + [key] else l.effects),
       if e.Applied? then Ok(e.ids) else if e.Refused? then Err(Rejected) else Err(Unavailable))
  }

  /** The service of one process. `effects` logs the memory store's changes and is not part of the ledger table. */
  class MemoryService {
    var receipts: map<Key, Receipt>
    ghost var effects: seq<Key>

    constructor ()
      ensures receipts == map[] && effects == []
    {
      receipts := map[];
      effects := [];
    }

    method ApplyOperation(r: Request, e: Effect) returns (result: Result<Ids, Error>)
      modifies this`effects
      ensures effects == if Changes(e) then old(effects) + [KeyOf(r)] else old(effects)
      ensures result == if e.Applied? then Ok(e.ids) else if e.Refused? then Err(Rejected) else Err(Unavailable)
      ensures result.Ok? ==> effects == old(effects) + [KeyOf(r)]
      ensures result == Err(Rejected) ==> effects == old(effects)
    {
      if Changes(e) {
        effects := effects + [KeyOf(r)];
      }
      result := if e.Applied? then Ok(e.ids) else if e.Refused? then Err(Rejected) else Err(Unavailable);
    }

    /** `full` is the count of stored memories against the limit, `e` what the memory store will do. */
    method MemoryOperation(r: Request, full: bool, e: Effect) returns (answer: Result<Ids, Error>)
      modifies this
      ensures (Ledger(receipts, effects), answer) == Called(Ledger(old(receipts), old(effects)), r, full, e)
      ensures var key := Key(r.namespace, r.operationId);
              if key in old(receipts) then
                && receipts == old(receipts) && effects == old(effects)
                && answer == if old(receipts)[key].digest != Sha256(r) then Err(Conflict)
                             else if old(receipts)[key].result.None? then Err(NeedsReconciliation)
                             else Ok(old(receipts)[key].result.value)
              else if r.action == Remember && full then
                answer == Err(MemoryLimit) && receipts == old(receipts) && effects == old(effects)
              else
                match e
                case Applied(ids) =>
                  && answer == Ok(ids) && effects == old(effects) + [key]
                  && receipts == old(receipts)[key := Receipt(Sha256(r), Some(ids))]
                case Refused =>
                  && answer == Err(Rejected) && effects == old(effects)
                  && receipts == old(receipts)[key := Receipt(Sha256(r), None)]
                case Failed(changed) =>
                  && answer == Err(Unavailable) && receipts == old(receipts)[key := Receipt(Sha256(r), None)]
                  && effects == if changed then old(effects) + [key] else old(effects)
    {
      var key := KeyOf(r);
      if key in receipts {
        if receipts[key].digest != Sha256(r) {
          return Err(Conflict);
        }
        if receipts[key].result.None? {
          return Err(NeedsReconciliation);
        }
        return Ok(receipts[key].result.value);
      }
      if r.action == Remember && full {
        return Err(MemoryLimit);
      }
      receipts := receipts[key := Receipt(Sha256(r), None)];
      answer := ApplyOperation(r, e);
      if answer.Ok? {
        receipts := receipts[key := Receipt(Sha256(r), Some(answer.value))];
        assert receipts == old(receipts)[key := Receipt(Sha256(r), Some(answer.value))];
      }
    }
  }

  // ---- many processes, statement by statement ----

  datatype Phase = Waiting | Locked | Missed | Inserted | Answering(ids: Ids)

  datatype Call = Call(request: Request, phase: Phase, connected: bool)

  datatype Reply = Reply(request: Request, answer: Result<Ids, Error>)

  datatype World = World(
    locks: map<Namespace, Process>, ledger: Ledger, calls: map<Process, Call>, replies: seq<Reply>)

  datatype Step =
    | Begin(p: Process, request: Request)
    | TakeLock(p: Process)
    | Lookup(p: Process, full: bool)
    | Insert(p: Process)
    | Apply(p: Process, effect: Effect)
    | Record(p: Process)
    | LoseConnection(p: Process)
    | Crash(p: Process)

  predicate At(w: World, p: Process, phase: Phase) {
    p in w.calls && w.calls[p].phase == phase && w.calls[p].connected
  }

  predicate Possible(w: World, s: Step) {
    match s
    case Begin(p, _) => p !in w.calls
    case TakeLock(p) => At(w, p, Waiting) && w.calls[p].request.namespace !in w.locks
    case Lookup(p, _) => At(w, p, Locked)
    case Insert(p) => At(w, p, Missed)
    case Apply(p, _) => p in w.calls && w.calls[p].phase == Inserted
    case Record(p) => p in w.calls && w.calls[p].phase.Answering? && w.calls[p].connected
    case LoseConnection(p) => p in w.calls && w.calls[p].connected
    case Crash(p) => p in w.calls
  }

  function Unlocked(locks: map<Namespace, Process>, p: Process): map<Namespace, Process> {
    map n | n in locks && locks[n] != p :: locks[n]
  }

  function Moved(w: World, p: Process, phase: Phase): World
    requires p in w.calls
  {
    w.(calls := w.calls[p := w.calls[p].(phase := phase)])
  }

  function Ended(w: World, p: Process): World {
    w.(calls := w.calls - {p}, locks := Unlocked(w.locks, p))
  }

  function Replied(w: World, p: Process, answer: Result<Ids, Error>): World
    requires p in w.calls
  {
    Ended(w, p).(replies := w.replies + [Reply(w.calls[p].request, answer)])
  }

  function Next(w: World, s: Step): World
    requires Possible(w, s)
  {
    match s
    case Begin(p, request) => w.(calls := w.calls[p := Call(request, Waiting, true)])
    case TakeLock(p) => Moved(w, p, Locked).(locks := w.locks[w.calls[p].request.namespace := p])
    case Lookup(p, full) =>
      var r := w.calls[p].request;
      if KeyOf(r) in w.ledger.receipts then Replied(w, p, FromReceipt(w.ledger.receipts[KeyOf(r)], r))
      else if r.action == Remember && full then Replied(w, p, Err(MemoryLimit))
      else Moved(w, p, Missed)
    case Insert(p) =>
      var r := w.calls[p].request;
      if KeyOf(r) in w.ledger.receipts then Replied(w, p, Err(Unavailable))
      else
        var receipts := w.ledger.receipts[KeyOf(r) := Receipt(Sha256(r), None)];
        Moved(w, p, Inserted).(ledger := w.ledger.(receipts := receipts))
    case Apply(p, e) =>
      var after := if Changes(e) then
          w.(ledger := w.ledger.(effects := w.ledger.effects + [KeyOf(w.calls[p].request)])) else w;
      if e.Applied? then Moved(after, p, Answering(e.ids))
      else Replied(after, p, if e.Refused? then Err(Rejected) else Err(Unavailable))
    case Record(p) =>
      var r, ids := w.calls[p].request, w.calls[p].phase.ids;
      var receipts := w.ledger.receipts[KeyOf(r) := Receipt(Sha256(r), Some(ids))];
      Replied(w, p, Ok(ids)).(ledger := w.ledger.(receipts := receipts))
    case LoseConnection(p) => w.(calls := w.calls[p := w.calls[p].(connected := false)], locks := Unlocked(w.locks, p))
    case Crash(p) => Ended(w, p)
  }

  /** One process goes through all its statements while nothing else happens. */
  function Undisturbed(w: World, p: Process, r: Request, full: bool, e: Effect): World
    requires p !in w.calls && r.namespace !in w.locks && p !in w.locks.Values
  {
    var looked := Next(Next(Next(w, Begin(p, r)), TakeLock(p)), Lookup(p, full));
    if p !in looked.calls then looked
    else
      var applied := Next(Next(looked, Insert(p)), Apply(p, e));
      if p !in applied.calls then applied else Next(applied, Record(p))
  }

  /** The first statements of a call: the lock and the receipt. */
  lemma LookupAnswers(w: World, p: Process, r: Request, full: bool)
    requires p !in w.calls && r.namespace !in w.locks && p !in w.locks.Values
    ensures var looked := Next(Next(Next(w, Begin(p, r)), TakeLock(p)), Lookup(p, full));
            looked == if KeyOf(r) in w.ledger.receipts then
                w.(replies := w.replies + [Reply(r, FromReceipt(w.ledger.receipts[KeyOf(r)], r))])
                      else if r.action == Remember && full then w.(replies := w.replies + [Reply(r, Err(MemoryLimit))])
                      else w.(calls := w.calls[p := Call(r, Missed, true)], locks := w.locks[r.namespace := p])
  {
    var locked := w.(calls := w.calls[p := Call(r, Locked, true)], locks := w.locks[r.namespace := p]);
    assert Next(Next(w, Begin(p, r)), TakeLock(p)) == locked;
    assert Unlocked(locked.locks, p) == w.locks;
    assert locked.calls - {p} == w.calls;
    assert locked.calls[p := Call(r, Missed, true)] == w.calls[p := Call(r, Missed, true)];
  }

  /** The statements of an undisturbed process amount to the service's one call, and leave no lock and no process
    * behind.
    */
  lemma UndisturbedIsOneCall(w: World, p: Process, r: Request, full: bool, e: Effect)
    requires p !in w.calls && r.namespace !in w.locks && p !in w.locks.Values
    ensures var (ledger, answer) := Called(w.ledger, r, full, e);
            Undisturbed(w, p, r, full, e) == World(w.locks, ledger, w.calls, w.replies + [Reply(r, answer)])
  {
    LookupAnswers(w, p, r, full);
    if KeyOf(r) !in w.ledger.receipts && !(r.action == Remember && full) {
      OperationAnswers(w, p, r, e);
    }
  }

  /** The other statements of a call that found no receipt. */
  lemma OperationAnswers(w: World, p: Process, r: Request, e: Effect)
    requires p !in w.calls && r.namespace !in w.locks && p !in w.locks.Values && KeyOf(r) !in w.ledger.receipts
    ensures var missed := w.(calls := w.calls[p := Call(r, Missed, true)], locks := w.locks[r.namespace := p]);
            var applied := Next(Next(missed, Insert(p)), Apply(p, e));
            var (ledger, answer) := Called(w.ledger, r, false, e);
            (if p in applied.calls then Next(applied, Record(p)) else applied)
            == World(w.locks, ledger, w.calls, w.replies + [Reply(r, answer)])
  {
    var key := KeyOf(r);
    var missed := w.(calls := w.calls[p := Call(r, Missed, true)], locks := w.locks[r.namespace := p]);
    var inserted := Next(missed, Insert(p));
    AppliedAnswers(inserted, p, e);
    assert inserted.calls - {p} == w.calls;
    assert Unlocked(inserted.locks, p) == w.locks;
    assert w.ledger.receipts[key := Receipt(Sha256(r), None)][key := Receipt(Sha256(r), if e.Applied? then Some(e.ids)
        else None)]
           == w.ledger.receipts[key := Receipt(Sha256(r), if e.Applied? then Some(e.ids) else None)];
  }

  /** The last statements of a call: the effect and, if it was applied, the record of its result. */
  lemma AppliedAnswers(w: World, p: Process, e: Effect)
    requires p in w.calls && w.calls[p].phase == Inserted && w.calls[p].connected
    ensures var r, applied := w.calls[p].request, Next(w, Apply(p, e));
            var key := KeyOf(r);
            var receipts := if e.Applied? then w.ledger.receipts[key := Receipt(Sha256(r), Some(e.ids))]
                else w.ledger.receipts;
            var effects := if Changes(e) then w.ledger.effects + [key] else w.ledger.effects;
            var answer := if e.Applied? then Ok(e.ids) else if e.Refused? then Err(Rejected) else Err(Unavailable);
            && (p in applied.calls <==> e.Applied?)
            && (if p in applied.calls then Next(applied, Record(p)) else applied)
               == World(Unlocked(w.locks, p), Ledger(receipts, effects), w.calls - {p}, w.replies + [Reply(r, answer)])
  {
  }

  ghost predicate History(worlds: seq<World>, steps: seq<Step>) {
    && |worlds| == |steps| + 1
    && worlds[0] == World(map[], Ledger(map[], []), map[], [])
    && forall i :: 0 <= i < |steps| ==> Possible(worlds[i], steps[i]) && worlds[i + 1] == Next(worlds[i], steps[i])
  }

  function Times(effects: seq<Key>, key: Key): nat {
    multiset(effects)[key]
  }

  /** The process has inserted the receipt of its operation and not answered yet. */
  predicate Owns(w: World, p: Process, key: Key) {
    p in w.calls && KeyOf(w.calls[p].request) == key && (w.calls[p].phase == Inserted || w.calls[p].phase.Answering?)
  }

  ghost predicate ReceiptConsistent(w: World, key: Key) {
    var l := w.ledger;
    && Times(l.effects, key) <= 1
    && (key !in l.receipts ==> Times(l.effects, key) == 0)
    && (key in l.receipts && l.receipts[key].result.Some? ==> Times(l.effects, key) == 1)
  }

  ghost predicate OwnerConsistent(w: World, p: Process) {
    p in w.calls ==>
      var key := KeyOf(w.calls[p].request);
      Owns(w, p, key) ==>
        && key in w.ledger.receipts && w.ledger.receipts[key] == Receipt(Sha256(w.calls[p].request), None)
        && Times(w.ledger.effects, key) == (if w.calls[p].phase == Inserted then 0 else 1)
        && (forall q :: Owns(w, q, key) ==> q == p)
  }

  ghost predicate LocksConsistent(w: World) {
    && (forall p <- w.calls :: w.calls[p].connected && w.calls[p].phase != Waiting ==>
          w.calls[p].request.namespace in w.locks && w.locks[w.calls[p].request.namespace] == p)
    && (forall n <- w.locks ::
       w.locks[n] in w.calls && w.calls[w.locks[n]].connected && w.calls[w.locks[n]].request.namespace == n)
  }

  ghost predicate RepliesConsistent(w: World) {
    forall reply <- w.replies :: reply.answer.Ok? ==>
      KeyOf(reply.request) in w.ledger.receipts
      && w.ledger.receipts[KeyOf(reply.request)] == Receipt(Sha256(reply.request), Some(reply.answer.value))
  }

  ghost predicate Inv(w: World) {
    && (forall key :: ReceiptConsistent(w, key))
    && (forall p :: OwnerConsistent(w, p))
    && LocksConsistent(w)
    && RepliesConsistent(w)
  }

  lemma NextKeepsReceipt(w: World, s: Step, key: Key)
    requires Inv(w) && Possible(w, s)
    ensures ReceiptConsistent(Next(w, s), key)
    ensures key in w.ledger.receipts ==>
              && key in Next(w, s).ledger.receipts
              && Next(w, s).ledger.receipts[key].digest == w.ledger.receipts[key].digest
              && (w.ledger.receipts[key].result.Some? ==> Next(w, s).ledger.receipts[key] == w.ledger.receipts[key])
    ensures Times(Next(w, s).ledger.effects, key) > Times(w.ledger.effects, key) ==> s.Apply? && Owns(w, s.p, key)
  {
    assert ReceiptConsistent(w, key);
    if !s.Begin? {
      assert OwnerConsistent(w, s.p);
    }
  }

  lemma OwnersStayUntilInsert(w: World, s: Step, p: Process, key: Key)
    requires Possible(w, s) && Owns(Next(w, s), p, key)
    ensures Owns(w, p, key) || (s == Insert(p) && key !in w.ledger.receipts)
  {
  }

  /** Nobody else inserts the receipt of an operation that has one. */
  lemma OwnerStaysAlone(w: World, s: Step, p: Process, q: Process, key: Key)
    requires Inv(w) && Possible(w, s) && Owns(Next(w, s), p, key) && Owns(Next(w, s), q, key)
    ensures p == q
  {
    assert OwnerConsistent(w, p) && OwnerConsistent(w, q);
    OwnersStayUntilInsert(w, s, p, key);
    OwnersStayUntilInsert(w, s, q, key);
  }

  /** A process that inserted before this step still finds its open receipt, and only its own effect is logged for
    * it.
    */
  lemma OwnerKeepsReceipt(w: World, s: Step, p: Process, key: Key)
    requires Inv(w) && Possible(w, s) && Owns(w, p, key) && Owns(Next(w, s), p, key)
    ensures var after := Next(w, s);
            && after.calls[p].request == w.calls[p].request
            && key in w.ledger.receipts && key in after.ledger.receipts
            && after.ledger.receipts[key] == w.ledger.receipts[key]
            && Times(after.ledger.effects, key) == (if after.calls[p].phase == Inserted then 0 else 1)
  {
    assert OwnerConsistent(w, p) && OwnerConsistent(w, s.p);
  }

  lemma InsertMakesOwner(w: World, p: Process, key: Key)
    requires Inv(w) && Possible(w, Insert(p)) && Owns(Next(w, Insert(p)), p, key) && key !in w.ledger.receipts
    ensures var after := Next(w, Insert(p));
            && after.calls[p].phase == Inserted && Times(after.ledger.effects, key) == 0
            && key in after.ledger.receipts
               && after.ledger.receipts[key] == Receipt(Sha256(after.calls[p].request), None)
  {
    assert ReceiptConsistent(w, key);
  }

  lemma NextKeepsOwner(w: World, s: Step, p: Process)
    requires Inv(w) && Possible(w, s)
    ensures OwnerConsistent(Next(w, s), p)
  {
    var after := Next(w, s);
    if p in after.calls && Owns(after, p, KeyOf(after.calls[p].request)) {
      var key := KeyOf(after.calls[p].request);
      OwnersStayUntilInsert(w, s, p, key);
      if Owns(w, p, key) {
        assert OwnerConsistent(w, p);
        OwnerKeepsReceipt(w, s, p, key);
      } else {
        InsertMakesOwner(w, p, key);
      }
      forall q | Owns(after, q, key) ensures q == p {
        OwnerStaysAlone(w, s, p, q, key);
      }
    }
  }

  lemma NextKeepsLocks(w: World, s: Step)
    requires Inv(w) && Possible(w, s)
    ensures LocksConsistent(Next(w, s))
  {
  }

  lemma NextKeepsReplies(w: World, s: Step)
    requires Inv(w) && Possible(w, s)
    ensures RepliesConsistent(Next(w, s))
  {
    if !s.Begin? {
      assert OwnerConsistent(w, s.p);
    }
    forall reply <- Next(w, s).replies | reply in w.replies ensures true {
      NextKeepsReceipt(w, s, KeyOf(reply.request));
    }
  }

  lemma {:induction false} InvHolds(worlds: seq<World>, steps: seq<Step>, k: nat)
    requires History(worlds, steps) && k < |worlds|
    ensures Inv(worlds[k])
  {
    if k > 0 {
      InvHolds(worlds, steps, k - 1);
      var w, s := worlds[k - 1], steps[k - 1];
      forall key ensures ReceiptConsistent(worlds[k], key) {
        NextKeepsReceipt(w, s, key);
      }
      forall p ensures OwnerConsistent(worlds[k], p) {
        NextKeepsOwner(w, s, p);
      }
      NextKeepsLocks(w, s);
      NextKeepsReplies(w, s);
    }
  }

  /** At most once: whatever crashes and retries, by whichever processes, an operation changes the memory at most
    * once.
    */
  lemma EffectsHappenAtMostOnce(worlds: seq<World>, steps: seq<Step>, k: nat, key: Key)
    requires History(worlds, steps) && k < |worlds|
    ensures Times(worlds[k].ledger.effects, key) <= 1
  {
    InvHolds(worlds, steps, k);
    assert ReceiptConsistent(worlds[k], key);
  }

  /** Processes of one namespace that still have their connection hold its lock one at a time. */
  lemma NamespacesAreSerialised(worlds: seq<World>, steps: seq<Step>, k: nat, p: Process, q: Process)
    requires History(worlds, steps) && k < |worlds|
    requires var c := worlds[k].calls;
             p in c && q in c && c[p].connected && c[q].connected && c[p].phase != Waiting && c[q].phase != Waiting
             && c[p].request.namespace == c[q].request.namespace
    ensures p == q
  {
    InvHolds(worlds, steps, k);
  }

  /** The receipt of an operation is never replaced: its digest stays, and a recorded result stays. */
  lemma {:induction false} ReceiptsStay(worlds: seq<World>, steps: seq<Step>, i: nat, j: nat, key: Key)
    requires History(worlds, steps) && i <= j < |worlds| && key in worlds[i].ledger.receipts
    ensures var before, after := worlds[i].ledger.receipts, worlds[j].ledger.receipts;
            && key in after && after[key].digest == before[key].digest
            && (before[key].result.Some? ==> after[key] == before[key])
    decreases j
  {
    if i < j {
      ReceiptsStay(worlds, steps, i, j - 1, key);
      InvHolds(worlds, steps, j - 1);
      NextKeepsReceipt(worlds[j - 1], steps[j - 1], key);
    }
  }

  /** Nobody will ever apply the operation: it has a receipt and no process that inserted it is left. */
  ghost predicate Closed(w: World, key: Key) {
    key in w.ledger.receipts && forall p :: !Owns(w, p, key)
  }

  lemma NextKeepsClosed(w: World, s: Step, key: Key)
    requires Inv(w) && Possible(w, s) && Closed(w, key)
    ensures Closed(Next(w, s), key)
    ensures Next(w, s).ledger.receipts[key] == w.ledger.receipts[key]
    ensures Times(Next(w, s).ledger.effects, key) == Times(w.ledger.effects, key)
  {
    NextKeepsReceipt(w, s, key);
    var after := Next(w, s);
    forall p ensures !Owns(after, p, key) {
      assert !Owns(w, p, key);
    }
    if !s.Begin? {
      assert !Owns(w, s.p, key);
    }
  }

  lemma ClosedStays(worlds: seq<World>, steps: seq<Step>, i: nat, key: Key)
    requires History(worlds, steps) && i < |steps| && Closed(worlds[i], key)
    ensures Closed(worlds[i + 1], key)
    ensures worlds[i + 1].ledger.receipts[key] == worlds[i].ledger.receipts[key]
    ensures Times(worlds[i + 1].ledger.effects, key) == Times(worlds[i].ledger.effects, key)
  {
    InvHolds(worlds, steps, i);
    NextKeepsClosed(worlds[i], steps[i], key);
  }

  /** Once an operation's process is gone, with its result recorded or after a crash that left none, no retry has an
    * effect: the receipt and the number of effects stay as they are for ever.
    */
  lemma {:induction false} ClosedForEver(worlds: seq<World>, steps: seq<Step>, i: nat, j: nat, key: Key)
    requires History(worlds, steps) && i <= j < |worlds| && Closed(worlds[i], key)
    ensures Closed(worlds[j], key) && worlds[j].ledger.receipts[key] == worlds[i].ledger.receipts[key]
    ensures Times(worlds[j].ledger.effects, key) == Times(worlds[i].ledger.effects, key)
    decreases j
  {
    if i < j {
      ClosedForEver(worlds, steps, i, j - 1, key);
      ClosedStays(worlds, steps, j - 1, key);
    }
  }

  /** A recorded result closes the operation, and every later lookup answers an identical request with that result. */
  lemma RecordedResultIsReplayed(worlds: seq<World>, steps: seq<Step>, i: nat, j: nat, r: Request)
    requires History(worlds, steps) && i <= j < |steps|
    requires KeyOf(r) in worlds[i].ledger.receipts && worlds[i].ledger.receipts[KeyOf(r)].result.Some?
    requires steps[j].Lookup? && worlds[j].calls[steps[j].p].request == r
    ensures Closed(worlds[i], KeyOf(r))
    ensures worlds[j + 1].replies == worlds[j].replies + [Reply(r,
              if worlds[i].ledger.receipts[KeyOf(r)].digest == Sha256(r) then
                  Ok(worlds[i].ledger.receipts[KeyOf(r)].result.value)
              else Err(Conflict))]
    ensures worlds[j + 1].ledger == worlds[j].ledger
  {
    InvHolds(worlds, steps, i);
    forall p ensures !Owns(worlds[i], p, KeyOf(r)) {
      assert OwnerConsistent(worlds[i], p);
    }
    ReceiptsStay(worlds, steps, i, j, KeyOf(r));
  }

  /** A request with a different content than the receipt's never has an effect. */
  lemma OnlyTheReceiptsRequestActs(worlds: seq<World>, steps: seq<Step>, k: nat)
    requires History(worlds, steps) && k < |steps|
    requires worlds[k + 1].ledger.effects != worlds[k].ledger.effects
    ensures steps[k].Apply?
    ensures var r := worlds[k].calls[steps[k].p].request;
            KeyOf(r) in worlds[k].ledger.receipts && worlds[k].ledger.receipts[KeyOf(r)] == Receipt(Sha256(r), None)
  {
    InvHolds(worlds, steps, k);
    assert OwnerConsistent(worlds[k], steps[k].p);
  }

  /** Every success that was answered is on record, and its operation changed the memory exactly once. */
  lemma SuccessMeansOneEffect(worlds: seq<World>, steps: seq<Step>, k: nat, reply: Reply)
    requires History(worlds, steps) && k < |worlds| && reply in worlds[k].replies && reply.answer.Ok?
    ensures Times(worlds[k].ledger.effects, KeyOf(reply.request)) == 1
    ensures KeyOf(reply.request) in worlds[k].ledger.receipts
    ensures worlds[k].ledger.receipts[KeyOf(reply.request)] == Receipt(Sha256(reply.request), Some(reply.answer.value))
  {
    InvHolds(worlds, steps, k);
    assert ReceiptConsistent(worlds[k], KeyOf(reply.request));
  }

  /** What a lookup answers: the limit stops only what would be remembered, an open receipt wants reconciliation, and a
    * request of another content is a conflict. A request without a receipt goes on otherwise.
    */
  lemma LookupExactly(w: World, p: Process, full: bool)
    requires Possible(w, Lookup(p, full))
    ensures var r, after := w.calls[p].request, Next(w, Lookup(p, full));
            var key := Key(r.namespace, r.operationId);
            && after.ledger == w.ledger
            && (p in after.calls <==> key !in w.ledger.receipts && !(r.action == Remember && full))
            && (p in after.calls ==> after.calls[p].phase == Missed && after.replies == w.replies)
            && (p !in after.calls ==>
                  after.replies == w.replies + [Reply(r,
                    if key !in w.ledger.receipts then Err(MemoryLimit)
                    else if w.ledger.receipts[key].digest != Sha256(r) then Err(Conflict)
                    else if w.ledger.receipts[key].result.None? then Err(NeedsReconciliation)
                    else Ok(w.ledger.receipts[key].result.value))])
  {
  }
}

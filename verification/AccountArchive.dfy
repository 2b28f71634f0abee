/** Archiving one channel account into another: its native addresses move to fresh identities of the target. */
module AccountArchive {
  import opened Options

  type UserId = nat
  type IdentityId = nat

  datatype Address = Address(channel: string, installationId: string, senderId: string)

  datatype Identity = Identity(address: Address, user: UserId, revoked: bool)

  datatype Archive = Archive(source: UserId, target: UserId)

  datatype MessageStatus = Queued | Dispatching | Sent | Cancelled

  datatype Message = Message(identity: IdentityId, status: MessageStatus)

  type SessionId = nat

  /** `signIns` are the accounts that have another way to sign in than a channel. */
  datatype Store = Store(
    identities: map<IdentityId, Identity>,
    archives: set<Archive>,
    inbox: map<nat, Message>,
    outbox: map<nat, Message>,
    sessions: map<SessionId, UserId>,
    signIns: set<UserId>)

  datatype Error = AccountConflict | RequiresReview | Busy | InvalidChallenge | SessionInvalid | IdentityInactive

  predicate Owns(store: Store, id: IdentityId, u: UserId) {
    id in store.identities && store.identities[id].user == u
  }

  predicate ActiveFor(store: Store, id: IdentityId, u: UserId) {
    Owns(store, id, u) && !store.identities[id].revoked
  }

  function ActiveAddresses(identities: map<IdentityId, Identity>): set<Address> {
    set id | id in identities && !identities[id].revoked :: identities[id].address
  }

  /** The partial unique index on the addresses of unrevoked identities. */
  ghost predicate AddressesUnique(identities: map<IdentityId, Identity>) {
    forall i <- identities, j <- identities ::
      !identities[i].revoked && !identities[j].revoked && identities[i].address == identities[j].address ==> i == j
  }

  /** The account's part in earlier archives does not rule this one out. */
  predicate ArchivesAllow(archives: set<Archive>, source: UserId, target: UserId) {
    source != target && forall a <- archives :: a.source != source && a.source != target && a.target != source
  }

  predicate HasDispatching(store: Store, source: UserId) {
    || (exists m <- store.inbox.Values :: Owns(store, m.identity, source) && m.status == Dispatching)
    || (exists m <- store.outbox.Values :: Owns(store, m.identity, source) && m.status == Dispatching)
  }

  // ---- what an archive writes ----

  function Revoked(identities: map<IdentityId, Identity>, u: UserId): map<IdentityId, Identity> {
    map id | id in identities :: if identities[id].user == u then identities[id].(revoked := true) else identities[id]
  }

  function CancelledFor(store: Store, u: UserId): map<nat, Message> {
    map m | m in store.outbox ::
      if Owns(store, store.outbox[m].identity, u) && store.outbox[m].status == Queued
      then store.outbox[m].(status := Cancelled) else store.outbox[m]
  }

  function SignedOut(sessions: map<SessionId, UserId>, u: UserId): map<SessionId, UserId> {
    map id | id in sessions && sessions[id] != u :: sessions[id]
  }

  /** The query's answer: the source's active identities, each once. */
  ghost predicate IsActiveList(store: Store, source: UserId, rows: seq<IdentityId>) {
    && (forall id :: id in rows <==> ActiveFor(store, id, source))
    && (forall i, j :: 0 <= i < j < |rows| ==> rows[i] != rows[j])
  }

  /** Random ids: new and distinct. */
  ghost predicate FreshIds(store: Store, ids: seq<IdentityId>) {
    && (forall id <- ids :: id !in store.identities)
    && (forall i, j :: 0 <= i < j < |ids| ==> ids[i] != ids[j])
  }

  class ChannelAccounts {
    var store: Store

    constructor (store: Store)
      ensures this.store == store
    {
      this.store := store;
    }

    /** Refused by the unique index when an unrevoked identity has the address. */
    method InsertIdentity(id: IdentityId, address: Address, user: UserId) returns (ok: bool)
      requires id !in store.identities
      modifies this
      ensures ok <==> address !in ActiveAddresses(old(store).identities)
      ensures store == if ok then
          old(store).(identities := old(store).identities[id := Identity(address, user, false)]) else old(store)
    {
      ok := address !in ActiveAddresses(store.identities);
      if ok {
        store := store.(identities := store.identities[id := Identity(address, user, false)]);
      }
    }

    /** The loop over the source's rows: one insertion each, and none meets the index. */
    method MoveIdentities(source: UserId, target: UserId, rows: seq<IdentityId>, ids: seq<IdentityId>,
        ghost before: Store)
      requires Movable(before, source, target, rows, ids)
      requires store == before.(identities := Revoked(before.identities, source), archives := store.archives)
      modifies this
      ensures store == old(store).(identities := MovedTo(before, source, target, rows, ids, |rows|))
    {
      for k := 0 to |rows|
        invariant store == old(store).(identities := MovedTo(before, source, target, rows, ids, k))
      {
        MovedFacts(before, source, target, rows, ids, k);
        NextAddressIsFree(before, source, target, rows, ids, k);
        assert rows[k] in rows;
        var ok := InsertIdentity(ids[k], store.identities[rows[k]].address, target);
      }
    }

    /** `eligible` and `proven` are the answers of the queries on other tables and on challenges, which are not
      * modelled; `running` says whether a scheduled run of the source is under way.
      */
    method ArchiveAccount(source: UserId, target: UserId, sender: Address, rows: seq<IdentityId>, ids: seq<IdentityId>,
                          eligible: bool, running: bool, proven: bool) returns (answer: Result<(), Error>)
      requires AddressesUnique(store.identities)
      requires IsActiveList(store, source, rows) && FreshIds(store, ids) && |ids| == |rows|
      modifies this
      ensures var linked := exists id <- rows :: old(store).identities[id].address == sender;
              var allowed := && eligible && source !in old(store).signIns && source != target
                             && forall a <- old(store).archives ::
                                  a.source != source && a.source != target && a.target != source;
              var busy := || running
                          || (exists m <- old(store).inbox.Values ::
                                m.status == Dispatching && Owns(old(store), m.identity, source))
                          || (exists m <- old(store).outbox.Values ::
                                m.status == Dispatching && Owns(old(store), m.identity, source));
              && (answer == Err(AccountConflict) <==> !linked)
              && (answer == Err(RequiresReview) <==> linked && !allowed)
              && (answer == Err(Busy) <==> linked && allowed && busy)
              && (answer == Err(InvalidChallenge) <==> linked && allowed && !busy && !proven)
              && (answer.Ok? <==> linked && allowed && !busy && proven)
      ensures store == if answer.Ok? then Archived(old(store), source, target, rows, ids) else old(store)
    {
      if !exists id <- rows :: store.identities[id].address == sender {
        return Err(AccountConflict);
      }
      if !eligible || source in store.signIns || !ArchivesAllow(store.archives, source, target) {
        return Err(RequiresReview);
      }
      if HasDispatching(store, source) || running {
        return Err(Busy);
      }
      if !proven {
        return Err(InvalidChallenge);
      }
      Transfer(source, target, rows, ids);
      answer := Ok(());
    }

    method Transfer(source: UserId, target: UserId, rows: seq<IdentityId>, ids: seq<IdentityId>)
      requires Movable(store, source, target, rows, ids)
      modifies this
      ensures store == Archived(old(store), source, target, rows, ids)
    {
      ghost var before := store;
      store := store.(archives := store.archives + {Archive(source, target)});
      store := store.(identities := Revoked(store.identities, source));
      MoveIdentities(source, target, rows, ids, before);
      store := store.(outbox := CancelledFor(store, source));
      store := store.(sessions := SignedOut(store.sessions, source));
    }

    /** An address that was ever linked is not linked anew: it is the caller's, somebody else's, or retired. */
    method LinkIdentity(session: SessionId, user: UserId, address: Address, id: IdentityId)
      returns (answer: Result<IdentityId, Error>)
      requires AddressesUnique(store.identities) && id !in store.identities
      modifies this
      ensures store == if HasSession(old(store), session, user) then Linked(old(store), user, address, id)
          else old(store)
      ensures !HasSession(old(store), session, user) <==> answer == Err(SessionInvalid)
      ensures HasSession(old(store), session, user) ==>
                && (forall i <- old(store).identities :: ActiveAt(old(store), i, address) ==>
                      answer == if old(store).identities[i].user == user then Ok(i) else Err(AccountConflict))
                && ((forall i <- old(store).identities :: !ActiveAt(old(store), i, address)) ==>
                      answer == if address in Addresses(old(store).identities) then Err(IdentityInactive) else Ok(id))
    {
      if !(session in store.sessions && store.sessions[session] == user) {
        return Err(SessionInvalid);
      }
      var active := set i | i in store.identities && ActiveAt(store, i, address);
      assert forall i <- store.identities :: ActiveAt(store, i, address) ==> i in active;
      if active != {} {
        var i :| i in active;
        assert store.identities[i].address in Addresses(store.identities);
        assert ActiveAt(store, i, address) && forall j <- store.identities :: ActiveAt(store, j, address) ==> j == i;
        return if store.identities[i].user == user then Ok(i) else Err(AccountConflict);
      }
      if address in Addresses(store.identities) {
        return Err(IdentityInactive);
      }
      var ok := InsertIdentity(id, address, user);
      answer := Ok(id);
    }
  }

  function Addresses(identities: map<IdentityId, Identity>): set<Address> {
    set id | id in identities :: identities[id].address
  }

  predicate ActiveAt(store: Store, id: IdentityId, address: Address) {
    id in store.identities && !store.identities[id].revoked && store.identities[id].address == address
  }

  predicate HasSession(store: Store, session: SessionId, user: UserId) {
    session in store.sessions && store.sessions[session] == user
  }

  function Linked(store: Store, user: UserId, address: Address, id: IdentityId): Store {
    if address in Addresses(store.identities) then store
    else store.(identities := store.identities[id := Identity(address, user, false)])
  }

  ghost predicate Movable(store: Store, source: UserId, target: UserId, rows: seq<IdentityId>, ids: seq<IdentityId>) {
    && AddressesUnique(store.identities) && IsActiveList(store, source, rows) && FreshIds(store, ids)
    && |ids| == |rows| && source != target
  }

  /** The identities after the source's were revoked and the first `k` addresses were inserted for the target. */
  function MovedTo(store: Store, source: UserId, target: UserId, rows: seq<IdentityId>, ids: seq<IdentityId>,
      k: nat): map<IdentityId, Identity>
    requires k <= |rows| <= |ids| && (forall id <- rows :: id in store.identities)
  {
    if k == 0 then Revoked(store.identities, source)
    else
      assert rows[k - 1] in rows;
      var moved := Identity(store.identities[rows[k - 1]].address, target, false);
      MovedTo(store, source, target, rows, ids, k - 1)[ids[k - 1] := moved]
  }

  function Archived(store: Store, source: UserId, target: UserId, rows: seq<IdentityId>, ids: seq<IdentityId>): Store
    requires |rows| <= |ids| && (forall id <- rows :: id in store.identities)
  {
    var identities := MovedTo(store, source, target, rows, ids, |rows|);
    store.(identities := identities, archives := store.archives + {Archive(source, target)},
           outbox := CancelledFor(store.(identities := identities), source),
           sessions := SignedOut(store.sessions, source))
  }

  lemma {:induction false} MovedKeys(store: Store, source: UserId, target: UserId, rows: seq<IdentityId>,
      ids: seq<IdentityId>, k: nat)
    requires Movable(store, source, target, rows, ids) && k <= |rows|
    ensures var now := MovedTo(store, source, target, rows, ids, k);
            && now.Keys == store.identities.Keys + (set i | 0 <= i < k :: ids[i])
            && (forall id <- store.identities :: now[id] == Revoked(store.identities, source)[id])
  {
    if k > 0 {
      MovedKeys(store, source, target, rows, ids, k - 1);
      assert ids[k - 1] in ids;
      assert (set i | 0 <= i < k :: ids[i]) == (set i | 0 <= i < k - 1 :: ids[i]) + {ids[k - 1]};
    }
  }

  lemma {:induction false} MovedValue(store: Store, source: UserId, target: UserId, rows: seq<IdentityId>,
      ids: seq<IdentityId>, k: nat, i: nat)
    requires Movable(store, source, target, rows, ids) && i < k <= |rows|
    ensures rows[i] in rows && ids[i] in MovedTo(store, source, target, rows, ids, k)
    ensures MovedTo(store, source, target, rows, ids, k)[ids[i]]
        == Identity(store.identities[rows[i]].address, target, false)
  {
    if i < k - 1 {
      MovedValue(store, source, target, rows, ids, k - 1, i);
      assert ids[i] != ids[k - 1];
    }
  }

  lemma MovedFacts(store: Store, source: UserId, target: UserId, rows: seq<IdentityId>, ids: seq<IdentityId>, k: nat)
    requires Movable(store, source, target, rows, ids) && k <= |rows|
    ensures var now := MovedTo(store, source, target, rows, ids, k);
            && now.Keys == store.identities.Keys + (set i | 0 <= i < k :: ids[i])
            && (forall id <- store.identities :: now[id] == Revoked(store.identities, source)[id])
            && (forall i :: 0 <= i < k ==>
               rows[i] in rows && now[ids[i]] == Identity(store.identities[rows[i]].address, target, false))
  {
    MovedKeys(store, source, target, rows, ids, k);
    forall i | 0 <= i < k
      ensures rows[i] in rows
          && MovedTo(store, source, target, rows, ids, k)[ids[i]]
             == Identity(store.identities[rows[i]].address, target, false)
    {
      MovedValue(store, source, target, rows, ids, k, i);
    }
  }

  /** The index admits the next insertion. */
  lemma NextAddressIsFree(store: Store, source: UserId, target: UserId, rows: seq<IdentityId>, ids: seq<IdentityId>,
      k: nat)
    requires Movable(store, source, target, rows, ids) && k < |rows|
    ensures rows[k] in rows
    ensures var now := MovedTo(store, source, target, rows, ids, k);
            ids[k] !in now && store.identities[rows[k]].address !in ActiveAddresses(now)
  {
    MovedFacts(store, source, target, rows, ids, k);
    var now := MovedTo(store, source, target, rows, ids, k);
    assert rows[k] in rows;
    forall id <- now | !now[id].revoked ensures now[id].address != store.identities[rows[k]].address {
      if id !in store.identities {
        var i :| 0 <= i < k && id == ids[i];
        assert rows[i] in rows && rows[i] != rows[k];
      }
    }
  }

  /** An identity is as it was, revoked because it was the source's, or one of the fresh ones. */
  lemma ArchivedIdentities(store: Store, source: UserId, target: UserId, rows: seq<IdentityId>,
      ids: seq<IdentityId>)
    requires Movable(store, source, target, rows, ids)
    ensures var after := Archived(store, source, target, rows, ids).identities;
            && (forall id :: id in after <==> id in store.identities || id in ids)
            && (forall id <- store.identities :: after[id] == Revoked(store.identities, source)[id])
            && (forall i :: 0 <= i < |rows| ==>
                  rows[i] in rows && after[ids[i]] == Identity(store.identities[rows[i]].address, target, false))
  {
    MovedFacts(store, source, target, rows, ids, |rows|);
    var after := Archived(store, source, target, rows, ids).identities;
    forall id ensures id in after <==> id in store.identities || id in ids {
      assert id in after.Keys <==> id in store.identities.Keys || id in set i | 0 <= i < |rows| :: ids[i];
    }
  }

  /** An archive leaves the source nothing active, gives the target each of the source's active addresses through
    * exactly one fresh identity, and touches nobody else's.
    */
  lemma ArchiveMovesIdentities(store: Store, source: UserId, target: UserId, rows: seq<IdentityId>,
      ids: seq<IdentityId>)
    requires Movable(store, source, target, rows, ids)
    ensures var after := Archived(store, source, target, rows, ids);
            && (forall id :: !ActiveFor(after, id, source))
            && (forall i :: 0 <= i < |rows| ==>
                  && ActiveFor(after, ids[i], target) && rows[i] in rows
                  && after.identities[ids[i]].address == store.identities[rows[i]].address)
            && (forall id :: ActiveFor(after, id, target) <==> ActiveFor(store, id, target) || id in ids)
            && (forall id <- store.identities :: store.identities[id].user != source ==>
                  id in after.identities && after.identities[id] == store.identities[id])
  {
    ArchivedIdentities(store, source, target, rows, ids);
    forall id | id in ids
      ensures ActiveFor(Archived(store, source, target, rows, ids), id, target)
    {
      var i :| 0 <= i < |ids| && id == ids[i];
    }
  }

  /** Nobody else's messages and sessions are touched, nor a message of the source that is not queued; the archive is
    * recorded.
    */
  lemma ArchiveTouchesOnlySource(store: Store, source: UserId, target: UserId, rows: seq<IdentityId>,
      ids: seq<IdentityId>)
    requires Movable(store, source, target, rows, ids)
    ensures var after := Archived(store, source, target, rows, ids);
            && after.archives == store.archives + {Archive(source, target)}
            && after.inbox == store.inbox && after.signIns == store.signIns
            && after.outbox.Keys == store.outbox.Keys
            && (forall m <- store.outbox :: !Owns(store, store.outbox[m].identity, source)
                                            && store.outbox[m].identity !in ids ==>
                  after.outbox[m] == store.outbox[m])
            && (forall m <- store.outbox :: store.outbox[m].status != Queued ==> after.outbox[m] == store.outbox[m])
            && (forall m <- store.outbox ::
               Owns(store, store.outbox[m].identity, source) && store.outbox[m].status == Queued ==>
                  after.outbox[m] == store.outbox[m].(status := Cancelled))
            && (forall id :: id in after.sessions <==> id in store.sessions && store.sessions[id] != source)
            && (forall id <- after.sessions :: after.sessions[id] == store.sessions[id])
  {
    ArchivedIdentities(store, source, target, rows, ids);
  }

  lemma NothingWaits(store: Store, source: UserId, target: UserId, rows: seq<IdentityId>, ids: seq<IdentityId>, m: nat)
    requires Movable(store, source, target, rows, ids) && !HasDispatching(store, source)
    requires m in store.outbox && Owns(store, store.outbox[m].identity, source)
    ensures Archived(store, source, target, rows, ids).outbox[m].status !in {Queued, Dispatching}
  {
    MovedFacts(store, source, target, rows, ids, |rows|);
    assert store.outbox[m] in store.outbox.Values;
  }

  /** The set of active addresses is the same after an archive, and each still belongs to one active identity. */
  lemma ArchiveConservesAddresses(store: Store, source: UserId, target: UserId, rows: seq<IdentityId>,
      ids: seq<IdentityId>)
    requires Movable(store, source, target, rows, ids)
    ensures var after := Archived(store, source, target, rows, ids).identities;
            ActiveAddresses(after) == ActiveAddresses(store.identities) && AddressesUnique(after)
  {
    MovedConserves(store, source, target, rows, ids, |rows|);
    var after := MovedTo(store, source, target, rows, ids, |rows|);
    forall address | address in ActiveAddresses(store.identities) ensures address in ActiveAddresses(after) {
      var id :| id in store.identities && !store.identities[id].revoked && store.identities[id].address == address;
      MovedFacts(store, source, target, rows, ids, |rows|);
      if store.identities[id].user == source {
        assert ActiveFor(store, id, source);
        var i :| 0 <= i < |rows| && rows[i] == id;
        assert !after[ids[i]].revoked;
      } else {
        assert !after[id].revoked;
      }
    }
  }

  lemma {:induction false} MovedConserves(store: Store, source: UserId, target: UserId, rows: seq<IdentityId>,
      ids: seq<IdentityId>, k: nat)
    requires Movable(store, source, target, rows, ids) && k <= |rows|
    ensures var now := MovedTo(store, source, target, rows, ids, k);
            AddressesUnique(now) && ActiveAddresses(now) <= ActiveAddresses(store.identities)
  {
    if k > 0 {
      MovedConserves(store, source, target, rows, ids, k - 1);
      NextAddressIsFree(store, source, target, rows, ids, k - 1);
      assert ActiveFor(store, rows[k - 1], source);
      assert store.identities[rows[k - 1]].address in ActiveAddresses(store.identities);
    }
  }

  /** After an archive the transaction links the confirmed sender to the target, which finds the fresh identity. */
  lemma ArchivedSenderIsLinked(store: Store, source: UserId, target: UserId, sender: Address, rows: seq<IdentityId>,
                               ids: seq<IdentityId>, id: IdentityId)
    requires Movable(store, source, target, rows, ids)
    requires exists row <- rows :: store.identities[row].address == sender
    ensures var after := Archived(store, source, target, rows, ids);
            && (exists i <- ids :: ActiveAt(after, i, sender) && ActiveFor(after, i, target))
            && Linked(after, target, sender, id) == after
  {
    var after := Archived(store, source, target, rows, ids);
    ArchiveMovesIdentities(store, source, target, rows, ids);
    var i :| 0 <= i < |rows| && store.identities[rows[i]].address == sender;
    assert ids[i] in ids && ActiveAt(after, ids[i], sender);
  }

  // ---- many archives, links, logins and erasures ----

  /** Sources and targets of the recorded archives are different people; a source has no active address, no session and
    * no other way to sign in.
    */
  ghost predicate ArchivesDisjoint(store: Store) {
    && (forall a <- store.archives, b <- store.archives :: a.target != b.source)
    && (forall a <- store.archives, b <- store.archives :: a.source == b.source ==> a == b)
    && (forall a <- store.archives, id :: !ActiveFor(store, id, a.source))
    && (forall a <- store.archives, session :: !HasSession(store, session, a.source))
    && (forall a <- store.archives :: a.source !in store.signIns)
  }

  function Unlinked(identities: map<IdentityId, Identity>, u: UserId): map<IdentityId, Identity> {
    map id | id in identities && identities[id].user != u :: identities[id]
  }

  function WithoutMessages(store: Store, messages: map<nat, Message>, u: UserId): map<nat, Message> {
    map m | m in messages && !Owns(store, messages[m].identity, u) :: messages[m]
  }

  /** The part of an account's erasure that concerns this store. Deleting the user deletes the identities and with them
    * their messages, so their addresses may be linked again.
    */
  function Erased(store: Store, u: UserId): Store {
    store.(identities := Unlinked(store.identities, u),
           archives := (set a | a in store.archives && a.source != u && a.target != u),
           inbox := WithoutMessages(store, store.inbox, u), outbox := WithoutMessages(store, store.outbox, u),
           sessions := SignedOut(store.sessions, u), signIns := store.signIns - {u})
  }

  /** After an erasure whoever has a session may link an address that was only ever the erased person's. */
  lemma ErasureFreesAddresses(store: Store, u: UserId, address: Address, v: UserId, id: IdentityId)
    requires forall i <- store.identities :: store.identities[i].address == address ==> store.identities[i].user == u
    requires id !in store.identities
    ensures address !in Addresses(Erased(store, u).identities)
    ensures ActiveAt(Linked(Erased(store, u), v, address, id), id, address)
    ensures ActiveFor(Linked(Erased(store, u), v, address, id), id, v)
  {
  }

  /** `RegisterOp` is the first sign-in of a new person. */
  datatype Op =
    | ArchiveOp(source: UserId, target: UserId, rows: seq<IdentityId>, ids: seq<IdentityId>)
    | LinkOp(session: SessionId, user: UserId, address: Address, id: IdentityId)
    | ChannelLoginOp(identity: IdentityId, session: SessionId)
    | SignInOp(user: UserId, session: SessionId)
    | RegisterOp(user: UserId)
    | EraseOp(user: UserId)

  ghost predicate Possible(store: Store, op: Op) {
    match op
    case ArchiveOp(source, target, rows, ids) =>
      && Movable(store, source, target, rows, ids) && ArchivesAllow(store.archives, source, target)
      && source !in store.signIns
    case LinkOp(session, user, _, id) => HasSession(store, session, user) && id !in store.identities
    case ChannelLoginOp(identity, session) =>
      identity in store.identities && !store.identities[identity].revoked && session !in store.sessions
    case SignInOp(user, session) => user in store.signIns && session !in store.sessions
    case RegisterOp(user) => forall a <- store.archives :: a.source != user
    case EraseOp(_) => true
  }

  ghost function Next(store: Store, op: Op): Store
    requires Possible(store, op)
  {
    match op
    case ArchiveOp(source, target, rows, ids) => Archived(store, source, target, rows, ids)
    case LinkOp(_, user, address, id) => Linked(store, user, address, id)
    case ChannelLoginOp(identity, session) =>
        store.(sessions := store.sessions[session := store.identities[identity].user])
    case SignInOp(user, session) => store.(sessions := store.sessions[session := user])
    case RegisterOp(user) => store.(signIns := store.signIns + {user})
    case EraseOp(u) => Erased(store, u)
  }

  ghost predicate History(stores: seq<Store>, ops: seq<Op>) {
    && |stores| == |ops| + 1
    && AddressesUnique(stores[0].identities) && stores[0].archives == {}
    && forall i :: 0 <= i < |ops| ==> Possible(stores[i], ops[i]) && stores[i + 1] == Next(stores[i], ops[i])
  }

  lemma ArchiveKeepsDisjoint(store: Store, source: UserId, target: UserId, rows: seq<IdentityId>, ids: seq<IdentityId>)
    requires Movable(store, source, target, rows, ids) && ArchivesAllow(store.archives, source, target)
    requires ArchivesDisjoint(store) && source !in store.signIns
    ensures ArchivesDisjoint(Archived(store, source, target, rows, ids))
  {
    var after := Archived(store, source, target, rows, ids);
    ArchiveMovesIdentities(store, source, target, rows, ids);
    MovedFacts(store, source, target, rows, ids, |rows|);
    forall a, id | a in store.archives ensures !ActiveFor(after, id, a.source) {
      assert !ActiveFor(store, id, a.source) && a.source != target;
      if id in after.identities && id !in store.identities {
        var i :| 0 <= i < |rows| && id == ids[i];
      }
    }
    forall a, session | a in store.archives ensures !HasSession(after, session, a.source) {
      assert !HasSession(store, session, a.source);
    }
  }

  /** Only a person with a session links, and only an active identity or a sign-in gives a session. */
  lemma NextKeepsDisjoint(store: Store, op: Op)
    requires ArchivesDisjoint(store) && AddressesUnique(store.identities) && Possible(store, op) && !op.ArchiveOp?
    ensures ArchivesDisjoint(Next(store, op)) && AddressesUnique(Next(store, op).identities)
  {
    var after := Next(store, op);
    forall a, id | a in after.archives ensures !ActiveFor(after, id, a.source) {
      assert !ActiveFor(store, id, a.source);
      assert op.LinkOp? ==> HasSession(store, op.session, op.user) && op.user != a.source;
    }
    forall a, session | a in after.archives ensures !HasSession(after, session, a.source) {
      assert !HasSession(store, session, a.source);
      assert op.ChannelLoginOp? ==> !ActiveFor(store, op.identity, a.source);
    }
  }

  /** Over all archives, links, logins and erasures: nobody is both archived and archived into, so every chain of
    * archives has length one; an archived account never owns an active address or a session; and active addresses stay
    * unique.
    */
  lemma {:induction false} ArchivesNeverChain(stores: seq<Store>, ops: seq<Op>, k: nat)
    requires History(stores, ops) && k < |stores|
    ensures ArchivesDisjoint(stores[k])
    ensures AddressesUnique(stores[k].identities)
  {
    if k > 0 {
      ArchivesNeverChain(stores, ops, k - 1);
      match ops[k - 1]
      case ArchiveOp(source, target, rows, ids) =>
        ArchiveKeepsDisjoint(stores[k - 1], source, target, rows, ids);
        ArchiveConservesAddresses(stores[k - 1], source, target, rows, ids);
      case _ => NextKeepsDisjoint(stores[k - 1], ops[k - 1]);
    }
  }
}

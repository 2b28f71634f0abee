/** Account deletion: the erasure of one person's rows, the write-ahead journal and its replay after a restore. */
module AccountErasure {
  import opened Options

  type UserId = nat
  type OrgId = nat

  /** A personal workspace id is derived from its user; no two users share one. */
  datatype WorkspaceId = Personal(user: UserId) | Numbered(n: nat)

  datatype Role = Admin | Member

  datatype Grant = Grant(issuedBy: UserId, requester: Option<UserId>, revoked: bool)

  datatype Task = Task(grant: nat, state: TaskState)

  datatype TaskState = Open | Completed | Failed | Canceled

  datatype Job = Job(createdBy: UserId, deleted: bool)

  datatype Request = Blocked | PendingExternal

  /** `workspaces` maps a workspace to its organization, if it has one. `tombstones` are the committed deletions. */
  datatype Database = Database(
    users: set<UserId>,
    sessions: map<nat, UserId>,
    workspaces: map<WorkspaceId, Option<OrgId>>,
    members: set<(WorkspaceId, UserId)>,
    orgMembers: map<(OrgId, UserId), Role>,
    grants: map<nat, Grant>,
    tasks: map<nat, Task>,
    jobs: map<nat, Job>,
    archives: set<(UserId, UserId)>,
    requests: map<UserId, Request>,
    tombstones: set<UserId>)

  ghost predicate WellFormed(db: Database) {
    && (forall u :: Personal(u) in db.workspaces ==> db.workspaces[Personal(u)].None?)
    && (forall m <- db.members :: m.0 in db.workspaces)
  }

  // ---- the erasure ----

  predicate Involves(g: Grant, u: UserId) {
    g.issuedBy == u || g.requester == Some(u)
  }

  function Sessions(m: map<nat, UserId>, u: UserId): map<nat, UserId> {
    map id | id in m && m[id] != u :: m[id]
  }

  function Jobs(m: map<nat, Job>, u: UserId): map<nat, Job> {
    map id | id in m :: if m[id].createdBy == u then m[id].(deleted := true) else m[id]
  }

  function Grants(m: map<nat, Grant>, u: UserId): map<nat, Grant> {
    map id | id in m :: if Involves(m[id], u) then m[id].(revoked := true) else m[id]
  }

  function Tasks(m: map<nat, Task>, grants: map<nat, Grant>, u: UserId): map<nat, Task> {
    map id | id in m ::
      if m[id].grant in grants && Involves(grants[m[id].grant], u) && m[id].state == Open then
          m[id].(state := Canceled) else m[id]
  }

  function Archives(s: set<(UserId, UserId)>, u: UserId): set<(UserId, UserId)> {
    set a | a in s && a.0 != u && a.1 != u
  }

  /** Company memberships of the user go, and with the personal workspace every membership in it. */
  function Members(db: Database, u: UserId): set<(WorkspaceId, UserId)> {
    set m | m in db.members && !(m.1 == u && m.0 in db.workspaces && db.workspaces[m.0].Some?) && !(m.0 == Personal(u))
  }

  function OrgMembers(m: map<(OrgId, UserId), Role>, u: UserId): map<(OrgId, UserId), Role> {
    map k | k in m && k.1 != u :: m[k]
  }

  function Erased(db: Database, u: UserId): Database {
    Database(db.users - {u}, Sessions(db.sessions, u), db.workspaces - {Personal(u)}, Members(db, u),
             OrgMembers(db.orgMembers, u), Grants(db.grants, u), Tasks(db.tasks, db.grants, u), Jobs(db.jobs, u),
             Archives(db.archives, u), db.requests, db.tombstones)
  }

  function Recorded(db: Database, u: UserId): Database {
    db.(requests := db.requests[u := PendingExternal], tombstones := db.tombstones + {u})
  }

  predicate Present(db: Database, u: UserId) {
    u in db.users || Personal(u) in db.workspaces
  }

  /** What a deleted person leaves behind: nothing of their own, and nothing that still acts for them. */
  ghost predicate Gone(db: Database, u: UserId) {
    && !Present(db, u)
    && (forall id <- db.sessions :: db.sessions[id] != u)
    && (forall k <- db.orgMembers :: k.1 != u)
    && (forall m <- db.members :: m.0 != Personal(u) && (m.1 == u ==> m.0 in db.workspaces && db.workspaces[m.0].None?))
    && (forall id <- db.grants :: Involves(db.grants[id], u) ==> db.grants[id].revoked)
    && (forall id <- db.tasks :: db.tasks[id].grant in db.grants && Involves(db.grants[db.tasks[id].grant], u) ==>
       db.tasks[id].state != Open)
    && (forall id <- db.jobs :: db.jobs[id].createdBy == u ==> db.jobs[id].deleted)
    && (forall a <- db.archives :: a.0 != u && a.1 != u)
  }

  /** Accounts, workspaces, memberships and sessions of everybody else. */
  ghost predicate OthersKeepAccess(db: Database, after: Database, u: UserId) {
    && after.users == db.users - {u}
    && after.workspaces == db.workspaces - {Personal(u)}
    && (forall m: (WorkspaceId, UserId) :: m.1 != u && m.0 != Personal(u) ==> (m in after.members <==> m in db.members))
    && (forall id :: id in after.sessions <==> id in db.sessions && db.sessions[id] != u)
    && (forall id <- after.sessions :: after.sessions[id] == db.sessions[id])
    && (forall k :: k in after.orgMembers <==> k in db.orgMembers && k.1 != u)
    && (forall k <- after.orgMembers :: after.orgMembers[k] == db.orgMembers[k])
  }

  /** Grants, tasks, jobs, archives and deletion records in which the person has no part. */
  ghost predicate OthersKeepWork(db: Database, after: Database, u: UserId) {
    && after.grants.Keys == db.grants.Keys && after.tasks.Keys == db.tasks.Keys && after.jobs.Keys == db.jobs.Keys
    && (forall id <- db.grants :: !Involves(db.grants[id], u) ==> after.grants[id] == db.grants[id])
    && (forall id <- db.tasks :: db.tasks[id].state != Open
                                 || (db.tasks[id].grant in db.grants && !Involves(db.grants[db.tasks[id].grant], u)) ==>
          after.tasks[id] == db.tasks[id])
    && (forall id <- db.jobs :: db.jobs[id].createdBy != u ==> after.jobs[id] == db.jobs[id])
    && (forall a :: a in after.archives <==> a in db.archives && a.0 != u && a.1 != u)
    && after.requests == db.requests && after.tombstones == db.tombstones
  }

  /** The erasure removes the person, leaves everything of everybody else as it was, and may be repeated. */
  lemma ErasureIsExact(db: Database, u: UserId)
    requires WellFormed(db)
    ensures WellFormed(Erased(db, u)) && Gone(Erased(db, u), u)
    ensures OthersKeepAccess(db, Erased(db, u), u) && OthersKeepWork(db, Erased(db, u), u)
    ensures Erased(Erased(db, u), u) == Erased(db, u)
  {
    ErasedIsGone(db, u);
    ErasedKeepsWork(db, u);
    ErasedOnce(db, u);
  }

  lemma ErasedIsGone(db: Database, u: UserId)
    requires WellFormed(db)
    ensures WellFormed(Erased(db, u)) && Gone(Erased(db, u), u)
  {
  }

  lemma ErasedKeepsWork(db: Database, u: UserId)
    ensures OthersKeepWork(db, Erased(db, u), u)
  {
  }

  lemma ErasedOnce(db: Database, u: UserId)
    ensures Erased(Erased(db, u), u) == Erased(db, u)
  {
    var once := Erased(db, u);
    assert once.workspaces - {Personal(u)} == once.workspaces;
    assert Sessions(once.sessions, u) == once.sessions;
    assert Members(once, u) == once.members;
    assert OrgMembers(once.orgMembers, u) == once.orgMembers;
    assert Grants(once.grants, u) == once.grants;
    assert Tasks(once.tasks, once.grants, u) == once.tasks;
    assert Jobs(once.jobs, u) == once.jobs;
    assert Archives(once.archives, u) == once.archives;
  }

  lemma MembersCommute(db: Database, u: UserId, v: UserId)
    requires WellFormed(db)
    ensures Members(Erased(db, u), v) == Members(Erased(db, v), u)
  {
    var a, b := Members(Erased(db, u), v), Members(Erased(db, v), u);
    forall m ensures m in a <==> m in b {
      if m in db.members && m.0 != Personal(u) && m.0 != Personal(v) {
        assert m.0 in Erased(db, u).workspaces && m.0 in Erased(db, v).workspaces;
      }
    }
  }

  lemma RowsCommute(db: Database, u: UserId, v: UserId)
    ensures Sessions(Sessions(db.sessions, u), v) == Sessions(Sessions(db.sessions, v), u)
    ensures OrgMembers(OrgMembers(db.orgMembers, u), v) == OrgMembers(OrgMembers(db.orgMembers, v), u)
    ensures Archives(Archives(db.archives, u), v) == Archives(Archives(db.archives, v), u)
    ensures Jobs(Jobs(db.jobs, u), v) == Jobs(Jobs(db.jobs, v), u)
    ensures db.workspaces - {Personal(u)} - {Personal(v)} == db.workspaces - {Personal(v)} - {Personal(u)}
  {
  }

  lemma GrantsAndTasksCommute(db: Database, u: UserId, v: UserId)
    ensures Grants(Grants(db.grants, u), v) == Grants(Grants(db.grants, v), u)
    ensures Tasks(Tasks(db.tasks, db.grants, u), Grants(db.grants, u), v)
        == Tasks(Tasks(db.tasks, db.grants, v), Grants(db.grants, v), u)
  {
  }

  lemma ErasuresCommute(db: Database, u: UserId, v: UserId)
    requires WellFormed(db)
    ensures Erased(Erased(db, u), v) == Erased(Erased(db, v), u)
  {
    RowsCommute(db, u, v);
    GrantsAndTasksCommute(db, u, v);
    MembersCommute(db, u, v);
  }

  // ---- the replay ----

  function Replayed1(db: Database, u: UserId): Database {
    if Present(db, u) then Recorded(Erased(db, u), u) else db
  }

  function Replayed(db: Database, tombs: seq<UserId>): Database {
    if tombs == [] then db else Replayed1(Replayed(db, tombs[..|tombs| - 1]), tombs[|tombs| - 1])
  }

  lemma Replay1Facts(db: Database, u: UserId, v: UserId)
    requires WellFormed(db)
    ensures WellFormed(Replayed1(db, u)) && !Present(Replayed1(db, u), u)
    ensures !Present(db, v) ==> !Present(Replayed1(db, u), v)
    ensures db.tombstones <= Replayed1(db, u).tombstones <= db.tombstones + {u}
  {
  }

  /** Replaying the journal leaves none of its people present and adds nobody else's tombstone. */
  lemma {:induction false} ReplayErases(db: Database, tombs: seq<UserId>)
    requires WellFormed(db)
    ensures WellFormed(Replayed(db, tombs))
    ensures forall u <- tombs :: !Present(Replayed(db, tombs), u)
    ensures Replayed(db, tombs).tombstones <= db.tombstones + (set u | u in tombs)
    ensures forall v :: !Present(db, v) ==> !Present(Replayed(db, tombs), v)
    decreases |tombs|
  {
    if tombs != [] {
      var most, last := tombs[..|tombs| - 1], tombs[|tombs| - 1];
      ReplayErases(db, most);
      forall v ensures !Present(Replayed(db, most), v) ==> !Present(Replayed(db, tombs), v) {
        Replay1Facts(Replayed(db, most), last, v);
      }
      Replay1Facts(Replayed(db, most), last, last);
    }
  }

  /** A replay removes exactly the people it lists, and records those whom it removed. */
  lemma {:induction false} ReplayRemovesExactly(db: Database, tombs: seq<UserId>, v: UserId)
    requires WellFormed(db)
    ensures Present(Replayed(db, tombs), v) <==> Present(db, v) && v !in tombs
    ensures v in Replayed(db, tombs).tombstones <==> v in db.tombstones || (v in tombs && Present(db, v))
    decreases |tombs|
  {
    if tombs != [] {
      var most, last := tombs[..|tombs| - 1], tombs[|tombs| - 1];
      ReplayErases(db, most);
      ReplayRemovesExactly(db, most, v);
      assert tombs == most + [last];
      if last == v {
        Replay1Facts(Replayed(db, most), last, v);
      }
    }
  }

  /** A second replay, in whatever order, finds nothing to do. */
  lemma {:induction false} ReplayIsIdempotent(db: Database, tombs: seq<UserId>, again: seq<UserId>)
    requires WellFormed(db) && (forall u <- again :: u in tombs)
    ensures Replayed(Replayed(db, tombs), again) == Replayed(db, tombs)
    decreases |again|
  {
    if again != [] {
      ReplayIsIdempotent(db, tombs, again[..|again| - 1]);
      ReplayErases(db, tombs);
      assert again[|again| - 1] in again;
    }
  }

  lemma Replay1Commutes(db: Database, u: UserId, v: UserId)
    requires WellFormed(db)
    ensures Replayed1(Replayed1(db, u), v) == Replayed1(Replayed1(db, v), u)
  {
    if u != v {
      assert Present(Erased(db, u), v) == Present(db, v) && Present(Erased(db, v), u) == Present(db, u);
      if Present(db, u) && Present(db, v) {
        ErasuresCommute(db, u, v);
        assert db.requests[u := PendingExternal][v := PendingExternal]
            == db.requests[v := PendingExternal][u := PendingExternal];
        assert Erased(Recorded(Erased(db, u), u), v) == Recorded(Erased(Erased(db, u), v), u);
        assert Erased(Recorded(Erased(db, v), v), u) == Recorded(Erased(Erased(db, v), u), v);
      } else if Present(db, u) {
        assert !Present(Recorded(Erased(db, u), u), v);
      } else if Present(db, v) {
        assert !Present(Recorded(Erased(db, v), v), u);
      }
    }
  }

  /** One more name may be replayed first or last. */
  lemma {:induction false} ReplayFirstOrLast(db: Database, u: UserId, tombs: seq<UserId>)
    requires WellFormed(db)
    ensures Replayed(Replayed1(db, u), tombs) == Replayed1(Replayed(db, tombs), u)
    decreases |tombs|
  {
    if tombs != [] {
      var most := tombs[..|tombs| - 1];
      ReplayFirstOrLast(db, u, most);
      ReplayErases(db, most);
      Replay1Commutes(Replayed(db, most), u, tombs[|tombs| - 1]);
    }
  }

  lemma {:induction false} ReplaySplits(db: Database, a: seq<UserId>, b: seq<UserId>)
    ensures Replayed(db, a + b) == Replayed(Replayed(db, a), b)
    decreases |b|
  {
    if b == [] {
      assert a + b == a;
    } else {
      ReplaySplits(db, a, b[..|b| - 1]);
      assert (a + b)[..|a + b| - 1] == a + b[..|b| - 1];
    }
  }

  /** The journal is a bucket listing: its order and any repetition do not matter. */
  lemma {:induction false} ReplayIgnoresOrder(db: Database, a: seq<UserId>, b: seq<UserId>)
    requires WellFormed(db) && (forall u :: u in a <==> u in b)
    ensures Replayed(db, a) == Replayed(db, b)
  {
    ReplayIsIdempotent(db, a, b);
    ReplayIsIdempotent(db, b, a);
    ReplaySplits(db, a, b);
    ReplaySplits(db, b, a);
    ReplaysSwap(db, a, b);
  }

  lemma {:induction false} ReplaysSwap(db: Database, a: seq<UserId>, b: seq<UserId>)
    requires WellFormed(db)
    ensures Replayed(Replayed(db, a), b) == Replayed(Replayed(db, b), a)
    decreases |b|
  {
    if b == [] {
      assert Replayed(db, b) == db;
    } else {
      var most, last := b[..|b| - 1], b[|b| - 1];
      ReplaysSwap(db, a, most);
      ReplayErases(db, most);
      ReplayFirstOrLast(Replayed(db, most), last, a);
    }
  }

  // ---- the ownership guard ----

  predicate IsAdmin(db: Database, org: OrgId, u: UserId) {
    (org, u) in db.orgMembers && db.orgMembers[(org, u)] == Admin
  }

  predicate OtherAdmin(db: Database, org: OrgId, u: UserId) {
    exists k <- db.orgMembers.Keys :: k.0 == org && k.1 != u && db.orgMembers[k] == Admin
  }

  predicate Remainder(db: Database, org: OrgId, u: UserId) {
    || (exists k <- db.orgMembers.Keys :: k.0 == org && k.1 != u)
    || (exists w <- db.workspaces.Keys :: db.workspaces[w] == Some(org))
  }

  /** The user is the only admin of an organization that still has other members or a workspace. */
  predicate Blocks(db: Database, org: OrgId, u: UserId) {
    IsAdmin(db, org, u) && !OtherAdmin(db, org, u) && Remainder(db, org, u)
  }

  ghost predicate SoleOwner(db: Database, u: UserId) {
    exists org :: Blocks(db, org, u)
  }

  // ---- the service ----

  datatype DeletionError = Unauthenticated | BlockedSoleOwner | Unavailable

  /** How a request to the bucket ends: acknowledged, without an answer although the record was stored, or without
    * effect.
    */
  datatype Put = Acknowledged | Unanswered | Refused

  /** Append-only records outside the database. Without a configured bucket every access fails. */
  class ErasureJournal {
    var records: set<UserId>
    const configured: bool

    constructor (configured: bool)
      ensures records == {} && this.configured == configured
    {
      records := {};
      this.configured := configured;
    }

    /** Appending a record again is no error. A request that times out may have stored its record all the same. */
    method Append(u: UserId, put: Put) returns (ok: bool)
      modifies this
      ensures ok <==> configured && put == Acknowledged
      ensures records == if configured && put != Refused then old(records) + {u} else old(records)
    {
      if !configured {
        return false;
      }
      if put != Refused {
        records := records + {u};
      }
      ok := put == Acknowledged;
    }
  }

  /** Where the database fails a deletion request, if it does. */
  datatype Fault = Never | BeforeDecision | AfterDecision | AfterCommit

  class AccountStore {
    var db: Database

    constructor (db: Database)
      ensures this.db == db
    {
      this.db := db;
    }

    method IsSoleOwner(u: UserId) returns (blocked: bool)
      ensures blocked <==> SoleOwner(db, u)
    {
      var orgs := set k | k in db.orgMembers && k.1 == u && db.orgMembers[k] == Admin :: k.0;
      var left := orgs;
      while left != {}
        invariant left <= orgs
        invariant forall org <- orgs - left :: !Blocks(db, org, u)
      {
        var org :| org in left;
        left := left - {org};
        if OtherAdmin(db, org, u) {
          continue;
        }
        if Remainder(db, org, u) {
          assert Blocks(db, org, u);
          return true;
        }
      }
      blocked := false;
    }

    /** The ordered statements of the erasure, with its loop over the company workspaces. */
    method EraseUser(u: UserId)
      requires WellFormed(db)
      modifies this
      ensures db == Erased(old(db), u)
    {
      ghost var before := db;
      db := db.(sessions := Sessions(db.sessions, u));
      db := db.(jobs := Jobs(db.jobs, u));
      db := db.(grants := Grants(db.grants, u));
      db := db.(tasks := Tasks(db.tasks, db.grants, u));
      assert db.tasks == Tasks(before.tasks, before.grants, u);
      db := db.(archives := Archives(db.archives, u));
      var company := set m | m in db.members && m.1 == u && m.0 in db.workspaces && db.workspaces[m.0].Some? :: m.0;
      var left := company;
      while left != {}
        invariant left <= company
        invariant db == before.(sessions := db.sessions, jobs := db.jobs, grants := db.grants, tasks := db.tasks,
                                archives := db.archives, members := db.members)
        invariant db.members == set m | m in before.members && !(m.1 == u && m.0 in company - left)
        invariant db.sessions == Sessions(before.sessions, u) && db.jobs == Jobs(before.jobs, u)
        invariant db.grants == Grants(before.grants, u) && db.tasks == Tasks(before.tasks, before.grants, u)
        invariant db.archives == Archives(before.archives, u)
      {
        var w :| w in left;
        left := left - {w};
        db := db.(members := db.members - {(w, u)});
      }
      db := db.(orgMembers := OrgMembers(db.orgMembers, u));
      if Personal(u) in db.workspaces && db.workspaces[Personal(u)].None? {
        db := db.(workspaces := db.workspaces - {Personal(u)},
                  members := set m | m in db.members && m.0 != Personal(u));
      }
      db := db.(users := db.users - {u});
      assert db.workspaces == before.workspaces - {Personal(u)};
      assert db.members == Members(before, u);
    }

    method PersistCompleted(u: UserId)
      modifies this
      ensures db == Recorded(old(db), u)
      ensures u in db.tombstones && u in db.requests && db.requests[u] == PendingExternal
    {
      db := db.(requests := db.requests[u := PendingExternal]);
      db := db.(tombstones := db.tombstones + {u});
    }

    /** The journal is written before the rows are erased. A fault between the two leaves the record in the journal and
      * the rows as they are; one after the commit hides the deletion that happened.
      */
    method RequestDeletion(journal: ErasureJournal, u: UserId, live: bool, put: Put, fault: Fault)
      returns (answer: Result<(), DeletionError>)
      requires WellFormed(db)
      modifies this, journal
      ensures fault == BeforeDecision ==>
          answer == Err(Unavailable) && db == old(db) && journal.records == old(journal.records)
      ensures fault != BeforeDecision && !live ==>
                answer == Err(Unauthenticated) && db == old(db) && journal.records == old(journal.records)
      ensures fault != BeforeDecision && live && SoleOwner(old(db), u) ==>
                && journal.records == old(journal.records)
                && (if fault == AfterDecision then answer == Err(Unavailable) && db == old(db)
                    else answer == Err(BlockedSoleOwner) && db == old(db).(requests := old(db).requests[u := Blocked]))
      ensures fault != BeforeDecision && live && !SoleOwner(old(db), u) ==>
                var committed := journal.configured && put == Acknowledged && fault != AfterDecision;
                && journal.records == (if journal.configured && put != Refused then old(journal.records) + {u}
                                       else old(journal.records))
                && db == (if committed then Recorded(Erased(old(db), u), u) else old(db))
                && answer == if committed && fault != AfterCommit then Ok(()) else Err(Unavailable)
    {
      if fault == BeforeDecision {
        return Err(Unavailable);
      }
      if !live {
        return Err(Unauthenticated);
      }
      var blocked := IsSoleOwner(u);
      if blocked {
        if fault == AfterDecision {
          return Err(Unavailable);
        }
        db := db.(requests := db.requests[u := Blocked]);
        return Err(BlockedSoleOwner);
      }
      var appended := journal.Append(u, put);
      if !appended {
        return Err(Unavailable);
      }
      if fault == AfterDecision {
        return Err(Unavailable);
      }
      EraseUser(u);
      PersistCompleted(u);
      answer := if fault == AfterCommit then Err(Unavailable) else Ok(());
    }

    /** `tombs` is what the journal's listing answered. */
    method ApplyTombstones(tombs: seq<UserId>) returns (applied: nat)
      requires WellFormed(db)
      modifies this
      ensures db == Replayed(old(db), tombs)
      ensures applied == |tombs|
    {
      for k := 0 to |tombs|
        invariant db == Replayed(old(db), tombs[..k]) && WellFormed(db)
      {
        var u := tombs[k];
        assert tombs[..k + 1][..k] == tombs[..k];
        Replay1Facts(db, u, u);
        if u in db.users || Personal(u) in db.workspaces {
          EraseUser(u);
          PersistCompleted(u);
        }
      }
      assert tombs[..|tombs|] == tombs;
      applied := |tombs|;
    }
  }
}

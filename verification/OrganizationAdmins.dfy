/** Account deletion, admin transfer and organization close as concurrent transactions.
  *
  * A transaction first determines the organizations its actor belongs to, then waits for the locks on their rows,
  * decides on what it reads, and later commits. Only the locks keep two transactions apart.
  */
module OrganizationAdmins {
  import opened Options
  import opened AccountErasure

  type Process = nat

  datatype Op = DeleteAccount | TransferAdmin(org: OrgId, target: UserId) | CloseOrganization(org: OrgId)

  datatype Phase = WaitingForLocks | Locked | Decided

  datatype Tx = Tx(actor: UserId, op: Op, locks: set<OrgId>, phase: Phase)

  datatype World = World(db: Database, txs: map<Process, Tx>)

  function OrgsOf(db: Database, u: UserId): set<OrgId> {
    set k | k in db.orgMembers && k.1 == u :: k.0
  }

  /** What the transaction checks once it holds its locks. */
  ghost predicate Allowed(db: Database, actor: UserId, op: Op) {
    match op
    case DeleteAccount => !SoleOwner(db, actor)
    case TransferAdmin(org, target) =>
      IsAdmin(db, org, actor) && (org, target) in db.orgMembers && db.orgMembers[(org, target)] == Member
    case CloseOrganization(org) =>
      IsAdmin(db, org, actor) && forall k <- db.orgMembers.Keys :: k.0 == org ==> k.1 == actor
  }

  /** What its statements write. */
  function Effect(db: Database, actor: UserId, op: Op): Database {
    match op
    case DeleteAccount => Recorded(Erased(db, actor), actor)
    case TransferAdmin(org, target) =>
      if (org, target) in db.orgMembers && db.orgMembers[(org, target)] == Member then
        var promoted := db.orgMembers[(org, target) := Admin];
        db.(orgMembers := if (org, actor) in promoted && promoted[(org, actor)] == Admin then
            promoted[(org, actor) := Member] else promoted)
      else db
    case CloseOrganization(org) =>
      var closed := set w | w in db.workspaces && db.workspaces[w] == Some(org);
      db.(workspaces := db.workspaces - closed, members := set m | m in db.members && m.0 !in closed)
  }

  datatype Step =
    | Begin(p: Process, actor: UserId, op: Op)
    | Acquire(p: Process)
    | Decide(p: Process)
    | Commit(p: Process)
    | Abort(p: Process)

  predicate Holds(tx: Tx) {
    tx.phase == Locked || tx.phase == Decided
  }

  ghost predicate Possible(w: World, s: Step) {
    match s
    case Begin(p, _, _) => p !in w.txs
    case Acquire(p) =>
      && p in w.txs && w.txs[p].phase == WaitingForLocks
      && forall q <- w.txs :: Holds(w.txs[q]) ==> w.txs[q].locks !! w.txs[p].locks
    case Decide(p) => p in w.txs && w.txs[p].phase == Locked && Allowed(w.db, w.txs[p].actor, w.txs[p].op)
    case Commit(p) => p in w.txs && w.txs[p].phase == Decided
    case Abort(p) => p in w.txs
  }

  function Next(w: World, s: Step): World
    requires !s.Begin? ==> s.p in w.txs
  {
    match s
    case Begin(p, actor, op) => w.(txs := w.txs[p := Tx(actor, op, OrgsOf(w.db, actor), WaitingForLocks)])
    case Acquire(p) => w.(txs := w.txs[p := w.txs[p].(phase := Locked)])
    case Decide(p) => w.(txs := w.txs[p := w.txs[p].(phase := Decided)])
    case Commit(p) => World(Effect(w.db, w.txs[p].actor, w.txs[p].op), w.txs - {p})
    case Abort(p) => w.(txs := w.txs - {p})
  }

  /** An organization with a member or a workspace has an admin. */
  ghost predicate Healthy(db: Database, org: OrgId) {
    (exists u :: (org, u) in db.orgMembers) || (exists w :: w in db.workspaces && db.workspaces[w] == Some(org)) ==>
      exists u :: IsAdmin(db, org, u)
  }

  ghost predicate History(worlds: seq<World>, steps: seq<Step>) {
    && |worlds| == |steps| + 1
    && WellFormed(worlds[0].db) && worlds[0].txs == map[] && (forall org :: Healthy(worlds[0].db, org))
    && forall i :: 0 <= i < |steps| ==> Possible(worlds[i], steps[i]) && worlds[i + 1] == Next(worlds[i], steps[i])
  }

  // ---- what a transaction can touch ----

  /** Nothing about the organization's members and workspaces differs. */
  ghost predicate SameOrg(a: Database, b: Database, org: OrgId) {
    && (forall u :: (org, u) in a.orgMembers <==> (org, u) in b.orgMembers)
    && (forall u :: (org, u) in a.orgMembers && (org, u) in b.orgMembers ==>
       a.orgMembers[(org, u)] == b.orgMembers[(org, u)])
    && (forall w :: (w in a.workspaces && a.workspaces[w] == Some(org)) <==>
       (w in b.workspaces && b.workspaces[w] == Some(org)))
  }

  lemma SameOrgSameGuards(a: Database, b: Database, org: OrgId, u: UserId)
    requires SameOrg(a, b, org)
    ensures Healthy(a, org) <==> Healthy(b, org)
    ensures Blocks(a, org, u) <==> Blocks(b, org, u)
  {
    GuardsCarryOver(a, b, org, u);
    GuardsCarryOver(b, a, org, u);
  }

  lemma GuardsCarryOver(a: Database, b: Database, org: OrgId, u: UserId)
    requires SameOrg(a, b, org)
    ensures Healthy(a, org) ==> Healthy(b, org)
    ensures OtherAdmin(a, org, u) ==> OtherAdmin(b, org, u)
    ensures Remainder(a, org, u) ==> Remainder(b, org, u)
    ensures IsAdmin(a, org, u) ==> IsAdmin(b, org, u)
  {
    if OtherAdmin(a, org, u) {
      var k :| k in a.orgMembers.Keys && k.0 == org && k.1 != u && a.orgMembers[k] == Admin;
      assert (org, k.1) == k && k in b.orgMembers.Keys;
    }
    if Remainder(a, org, u) {
      if k :| k in a.orgMembers.Keys && k.0 == org && k.1 != u {
        assert (org, k.1) == k && k in b.orgMembers.Keys;
      } else {
        var w :| w in a.workspaces.Keys && a.workspaces[w] == Some(org);
        assert w in b.workspaces.Keys;
      }
    }
    if Healthy(a, org) && (exists v :: IsAdmin(a, org, v)) {
      var v :| IsAdmin(a, org, v);
      assert IsAdmin(b, org, v);
    }
  }

  /** A committing transaction leaves every organization outside its actor's own alone, and adds no member anywhere. */
  lemma EffectIsLocal(db: Database, actor: UserId, op: Op, org: OrgId)
    requires WellFormed(db) && org !in OrgsOf(db, actor)
    requires !op.DeleteAccount? ==> op.org != org
    ensures SameOrg(db, Effect(db, actor, op), org)
  {
    assert (org, actor) !in db.orgMembers;
  }

  lemma EffectAddsNoMember(db: Database, actor: UserId, op: Op)
    requires WellFormed(db)
    ensures WellFormed(Effect(db, actor, op))
    ensures Effect(db, actor, op).orgMembers.Keys <= db.orgMembers.Keys
  {
  }

  lemma DeletionKeepsHealthy(db: Database, actor: UserId, org: OrgId)
    requires WellFormed(db) && !SoleOwner(db, actor) && Healthy(db, org)
    ensures Healthy(Erased(db, actor), org)
  {
    var after := Erased(db, actor);
    if admin :| IsAdmin(db, org, admin) && admin != actor {
      assert IsAdmin(after, org, admin);
    } else if IsAdmin(db, org, actor) {
      assert !Blocks(db, org, actor);
      if OtherAdmin(db, org, actor) {
        var k :| k in db.orgMembers.Keys && k.0 == org && k.1 != actor && db.orgMembers[k] == Admin;
        assert IsAdmin(db, org, k.1);
      } else {
        assert forall u :: (org, u) in after.orgMembers ==> (org, u) in db.orgMembers.Keys;
        assert forall w :: w in after.workspaces ==> w in db.workspaces.Keys;
      }
    }
  }

  /** A permitted effect keeps the organizations it touches healthy. */
  lemma EffectKeepsHealthy(db: Database, actor: UserId, op: Op, org: OrgId)
    requires WellFormed(db) && Allowed(db, actor, op) && Healthy(db, org)
    ensures Healthy(Effect(db, actor, op), org)
  {
    var after := Effect(db, actor, op);
    match op
    case DeleteAccount =>
      DeletionKeepsHealthy(db, actor, org);
      SameOrgSameGuards(Erased(db, actor), after, org, actor);
    case TransferAdmin(o, target) =>
      if org == o {
        assert IsAdmin(after, org, target);
      } else {
        assert SameOrg(db, after, org);
        SameOrgSameGuards(db, after, org, actor);
      }
    case CloseOrganization(o) =>
      if org == o {
        assert IsAdmin(after, org, actor);
      } else {
        assert SameOrg(db, after, org);
        SameOrgSameGuards(db, after, org, actor);
      }
  }

  lemma OrgsStay(db: Database, actor: UserId, other: UserId, otherOp: Op, org: OrgId)
    requires WellFormed(db) && Allowed(db, other, otherOp) && OrgsOf(db, actor) !! OrgsOf(db, other)
    requires (org, actor) in db.orgMembers
    ensures SameOrg(db, Effect(db, other, otherOp), org)
  {
    assert org in OrgsOf(db, actor);
    if !otherOp.DeleteAccount? {
      assert otherOp.org in OrgsOf(db, other);
    }
    EffectIsLocal(db, other, otherOp, org);
  }

  lemma DeletionCarriesOver(db: Database, actor: UserId, other: UserId, otherOp: Op, org: OrgId)
    requires WellFormed(db) && Allowed(db, other, otherOp) && OrgsOf(db, actor) !! OrgsOf(db, other)
    requires !Blocks(db, org, actor)
    ensures !Blocks(Effect(db, other, otherOp), org, actor)
  {
    EffectAddsNoMember(db, other, otherOp);
    if (org, actor) in db.orgMembers {
      OrgsStay(db, actor, other, otherOp, org);
      SameOrgSameGuards(db, Effect(db, other, otherOp), org, actor);
    }
  }

  /** A decision outlives the commit of a transaction whose actor shares no organization. */
  lemma AllowedCarriesOver(db: Database, actor: UserId, op: Op, other: UserId, otherOp: Op)
    requires WellFormed(db) && Allowed(db, actor, op) && Allowed(db, other, otherOp)
    requires OrgsOf(db, actor) !! OrgsOf(db, other)
    ensures Allowed(Effect(db, other, otherOp), actor, op)
  {
    var after := Effect(db, other, otherOp);
    if op.DeleteAccount? {
      forall org ensures !Blocks(after, org, actor) {
        assert !Blocks(db, org, actor);
        DeletionCarriesOver(db, actor, other, otherOp, org);
      }
    } else {
      OrgsStay(db, actor, other, otherOp, op.org);
      EffectAddsNoMember(db, other, otherOp);
    }
  }

  // ---- every interleaving ----

  ghost predicate Inv(w: World) {
    && WellFormed(w.db)
    && (forall org :: Healthy(w.db, org))
    && (forall p <- w.txs :: OrgsOf(w.db, w.txs[p].actor) <= w.txs[p].locks)
    && (forall p <- w.txs :: w.txs[p].phase == Decided ==> Allowed(w.db, w.txs[p].actor, w.txs[p].op))
    && (forall p <- w.txs, q <- w.txs :: p != q && Holds(w.txs[p]) && Holds(w.txs[q]) ==>
       w.txs[p].locks !! w.txs[q].locks)
  }

  lemma CommitKeepsInv(w: World, p: Process)
    requires Inv(w) && Possible(w, Commit(p))
    ensures Inv(Next(w, Commit(p)))
  {
    var tx := w.txs[p];
    var after := Effect(w.db, tx.actor, tx.op);
    EffectAddsNoMember(w.db, tx.actor, tx.op);
    forall org ensures Healthy(after, org) {
      EffectKeepsHealthy(w.db, tx.actor, tx.op, org);
    }
    forall u: UserId ensures OrgsOf(after, u) <= OrgsOf(w.db, u) {
      assert forall k <- after.orgMembers :: k in w.db.orgMembers;
    }
    forall q | q in w.txs && q != p && w.txs[q].phase == Decided
      ensures Allowed(after, w.txs[q].actor, w.txs[q].op)
    {
      assert w.txs[p].locks !! w.txs[q].locks;
      AllowedCarriesOver(w.db, w.txs[q].actor, w.txs[q].op, tx.actor, tx.op);
    }
  }

  lemma {:induction false} InvHolds(worlds: seq<World>, steps: seq<Step>, k: nat)
    requires History(worlds, steps) && k < |worlds|
    ensures Inv(worlds[k])
  {
    if k > 0 {
      InvHolds(worlds, steps, k - 1);
      if steps[k - 1].Commit? {
        CommitKeepsInv(worlds[k - 1], steps[k - 1].p);
      }
    }
  }

  /** In every interleaving that the row locks allow, an organization with a member or a workspace has an admin: two
    * last admins cannot both delete themselves, however their transactions overlap.
    */
  lemma OrganizationsKeepAdmins(worlds: seq<World>, steps: seq<Step>, k: nat, org: OrgId)
    requires History(worlds, steps) && k < |worlds|
    ensures Healthy(worlds[k].db, org)
  {
    InvHolds(worlds, steps, k);
  }

  /** After a transfer or a close commits, that organization does not stand in the way of the actor's deletion. */
  lemma TransferAndCloseUnblock(worlds: seq<World>, steps: seq<Step>, k: nat)
    requires History(worlds, steps) && k < |steps|
    requires steps[k].Commit? && !worlds[k].txs[steps[k].p].op.DeleteAccount?
    ensures var tx := worlds[k].txs[steps[k].p]; !Blocks(worlds[k + 1].db, tx.op.org, tx.actor)
  {
    InvHolds(worlds, steps, k);
  }

  function LastAdmins(): Database {
    Database({1, 2, 3}, map[], map[], {}, map[(0, 1) := Admin, (0, 2) := Admin, (0, 3) := Member], map[], map[],
        map[], {}, map[], {})
  }

  lemma EitherLastAdminMayGo(org: OrgId)
    ensures !Blocks(LastAdmins(), org, 1) && !Blocks(LastAdmins(), org, 2)
  {
    assert (0, 1) in LastAdmins().orgMembers.Keys && (0, 2) in LastAdmins().orgMembers.Keys;
  }

  lemma DeletionsDropMembers(db: Database, u: UserId, v: UserId)
    ensures Effect(Effect(db, u, DeleteAccount), v, DeleteAccount).orgMembers
        == OrgMembers(OrgMembers(db.orgMembers, u), v)
  {
  }

  lemma BothLastAdminsGone()
    ensures OrgMembers(OrgMembers(LastAdmins().orgMembers, 1), 2) == map[(0, 3) := Member]
  {
    assert OrgMembers(LastAdmins().orgMembers, 1) == map[(0, 2) := Admin, (0, 3) := Member];
  }

  /** Without the locks the guard is not enough: two admins who both decide before either commits leave none. */
  lemma LocksAreNeeded()
    ensures WellFormed(LastAdmins()) && Healthy(LastAdmins(), 0)
    ensures Allowed(LastAdmins(), 1, DeleteAccount) && Allowed(LastAdmins(), 2, DeleteAccount)
    ensures !Healthy(Effect(Effect(LastAdmins(), 1, DeleteAccount), 2, DeleteAccount), 0)
  {
    assert IsAdmin(LastAdmins(), 0, 1);
    forall org ensures !Blocks(LastAdmins(), org, 1) && !Blocks(LastAdmins(), org, 2) {
      EitherLastAdminMayGo(org);
    }
    var db := Effect(Effect(LastAdmins(), 1, DeleteAccount), 2, DeleteAccount);
    DeletionsDropMembers(LastAdmins(), 1, 2);
    BothLastAdminsGone();
    assert (0, 3) in db.orgMembers && forall u :: !IsAdmin(db, 0, u);
  }

  // ---- what each operation is for ----

  /** A deletion is blocked exactly by the organizations that it would leave without an admin although they have another
    * member or a workspace.
    */
  lemma DeletionOrphansExactly(db: Database, u: UserId, org: OrgId)
    requires WellFormed(db) && IsAdmin(db, org, u)
    ensures Blocks(db, org, u) <==> !Healthy(Erased(db, u), org)
  {
    var after := Erased(db, u);
    assert forall v :: v != u ==> ((org, v) in after.orgMembers <==> (org, v) in db.orgMembers);
    if Healthy(after, org) && Remainder(db, org, u) {
      if k :| k in db.orgMembers.Keys && k.0 == org && k.1 != u {
        assert (org, k.1) == k && (org, k.1) in after.orgMembers;
      } else {
        var w :| w in db.workspaces.Keys && db.workspaces[w] == Some(org);
        assert w in after.workspaces && after.workspaces[w] == Some(org);
      }
      var v :| IsAdmin(after, org, v);
      assert (org, v) in db.orgMembers.Keys && db.orgMembers[(org, v)] == Admin && v != u;
      assert OtherAdmin(db, org, u);
    }
    if !Healthy(after, org) {
      if exists v :: (org, v) in after.orgMembers {
        var v :| (org, v) in after.orgMembers;
        assert (org, v) in db.orgMembers.Keys && v != u;
      } else {
        var w :| w in after.workspaces && after.workspaces[w] == Some(org);
        assert w in db.workspaces.Keys && db.workspaces[w] == Some(org);
      }
      assert Remainder(db, org, u);
    }
    OtherAdminsStay(db, u, org);
  }

  lemma OtherAdminsStay(db: Database, u: UserId, org: OrgId)
    ensures OtherAdmin(db, org, u) ==> exists v :: IsAdmin(Erased(db, u), org, v)
  {
    if OtherAdmin(db, org, u) {
      var k :| k in db.orgMembers.Keys && k.0 == org && k.1 != u && db.orgMembers[k] == Admin;
      assert k == (org, k.1) && IsAdmin(Erased(db, u), org, k.1);
    }
  }

  /** Only an admin transfers the role, to another member who has it not, or closes the organization, being alone in
    * it.
    */
  lemma OnlyAdminsAct(db: Database, actor: UserId, op: Op)
    requires Allowed(db, actor, op) && !op.DeleteAccount?
    ensures (op.org, actor) in db.orgMembers && db.orgMembers[(op.org, actor)] == Admin
    ensures op.TransferAdmin? ==>
              op.target != actor && (op.org, op.target) in db.orgMembers && db.orgMembers[(op.org, op.target)] == Member
    ensures op.CloseOrganization? ==> forall v :: (op.org, v) in db.orgMembers ==> v == actor
  {
    if op.CloseOrganization? {
      forall v | (op.org, v) in db.orgMembers ensures v == actor {
        assert (op.org, v) in db.orgMembers.Keys;
      }
    }
  }

  /** A transfer exchanges the roles of the actor and the target and changes nothing else. */
  lemma TransferIsExact(db: Database, actor: UserId, org: OrgId, target: UserId)
    requires Allowed(db, actor, TransferAdmin(org, target))
    ensures var after := Effect(db, actor, TransferAdmin(org, target));
            && after == db.(orgMembers := after.orgMembers) && after.orgMembers.Keys == db.orgMembers.Keys
            && after.orgMembers[(org, target)] == Admin && after.orgMembers[(org, actor)] == Member
            && forall k <- db.orgMembers :: k != (org, target) && k != (org, actor) ==>
                 after.orgMembers[k] == db.orgMembers[k]
  {
  }

  /** A close removes the organization's workspaces with their memberships and nothing else; personal workspaces
    * stay.
    */
  lemma CloseIsExact(db: Database, actor: UserId, org: OrgId)
    requires Allowed(db, actor, CloseOrganization(org))
    ensures var after := Effect(db, actor, CloseOrganization(org));
            && after == db.(workspaces := after.workspaces, members := after.members)
            && (forall w :: w in after.workspaces <==> w in db.workspaces && db.workspaces[w] != Some(org))
            && (forall w <- after.workspaces :: after.workspaces[w] == db.workspaces[w])
            && forall m :: m in after.members <==>
                 m in db.members && !(m.0 in db.workspaces && db.workspaces[m.0] == Some(org))
  {
  }

  /** A deletion is the erasure and its record. */
  lemma DeletionIsExact(db: Database, actor: UserId)
    ensures var after := Effect(db, actor, DeleteAccount);
            && actor in after.tombstones && after.tombstones == db.tombstones + {actor}
            && actor in after.requests && after.requests[actor] == PendingExternal
            && (forall u <- db.requests :: u != actor ==> u in after.requests && after.requests[u] == db.requests[u])
            && after.(tombstones := db.tombstones, requests := db.requests) == Erased(db, actor)
  {
  }
}

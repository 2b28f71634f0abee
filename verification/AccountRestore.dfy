/** Deletions, crashes, backups, restores and restarts of one installation.
  *
  * The journal lives outside the database, so a restore brings back an old database but not an old journal. A
  * deletion appends to the journal inside its transaction and may fail or crash before the commit. Whether there is
  * a journal at all is read from the environment at every start.
  */
module AccountRestore {
  import opened Options
  import opened AccountErasure

  datatype World = World(db: Database, journal: set<UserId>, backups: seq<Database>, serving: bool, configured: bool)

  datatype End = Committed | RolledBack | Crashed

  datatype Step =
    | Delete(user: UserId, put: Put, end: End)
    | Work(db: Database)
    | Backup
    | Restore(backup: nat)
    | Stop
    | Start(configured: bool, listing: seq<UserId>, replayed: nat, ok: bool)

  /** Work is whatever else the service commits: it writes no tombstones. A configured start lists the whole journal, in
    * any order, and serves only if it got through; an unconfigured one reads nothing and serves.
    */
  ghost predicate Possible(w: World, s: Step) {
    match s
    case Delete(u, put, end) =>
      && w.serving && !SoleOwner(w.db, u)
      && (put != Refused ==> w.configured)
      && (end == Committed ==> put == Acknowledged)
    case Work(db) => w.serving && WellFormed(db) && db.tombstones == w.db.tombstones
    case Backup => true
    case Restore(backup) => backup < |w.backups|
    case Stop => true
    case Start(configured, listing, replayed, ok) =>
      && !w.serving
      && replayed <= |listing|
      && (ok ==> replayed == |listing|)
      && (if configured then forall u :: u in listing <==> u in w.journal else listing == [] && ok)
  }

  function Next(w: World, s: Step): World
    requires s.Restore? ==> s.backup < |w.backups|
    requires s.Start? ==> s.replayed <= |s.listing|
  {
    match s
    case Delete(u, put, end) =>
      w.(journal := if put == Refused then w.journal else w.journal + {u},
         db := if end == Committed then Recorded(Erased(w.db, u), u) else w.db,
         serving := end != Crashed)
    case Work(db) => w.(db := db)
    case Backup => w.(backups := w.backups + [w.db])
    case Restore(backup) => w.(db := w.backups[backup], serving := false)
    case Stop => w.(serving := false)
    case Start(configured, listing, replayed, ok) =>
      w.(db := Replayed(w.db, listing[..replayed]), serving := ok, configured := configured)
  }

  /** The deletion left its record in the journal, whether or not it committed. */
  predicate Journals(s: Step) {
    s.Delete? && s.put != Refused
  }

  predicate Serves(s: Step) {
    s.Start? && s.ok
  }

  ghost predicate Then(w: World, s: Step, after: World) {
    Possible(w, s) && after == Next(w, s)
  }

  ghost predicate Leads(worlds: seq<World>, steps: seq<Step>, i: int)
    requires 0 <= i < |steps| < |worlds|
  {
    Then(worlds[i], steps[i], worlds[i + 1])
  }

  ghost predicate History(worlds: seq<World>, steps: seq<Step>) {
    && |worlds| == |steps| + 1
    && WellFormed(worlds[0].db) && worlds[0].db.tombstones == {} && worlds[0].journal == {} && worlds[0].backups == []
    && forall i :: 0 <= i < |steps| ==> Leads(worlds, steps, i)
  }

  /** Nobody in the journal is present. */
  ghost predicate Clean(journal: set<UserId>, db: Database) {
    forall u <- journal :: !Present(db, u)
  }

  ghost predicate Inv(w: World) {
    && WellFormed(w.db) && w.db.tombstones <= w.journal
    && (forall b <- w.backups :: WellFormed(b) && b.tombstones <= w.journal)
  }

  lemma NextKeepsInv(w: World, s: Step)
    requires Inv(w) && Possible(w, s)
    ensures Inv(Next(w, s)) && w.journal <= Next(w, s).journal
  {
    match s
    case Delete(u, _, _) => ErasureIsExact(w.db, u);
    case Start(_, listing, replayed, _) => ReplayErases(w.db, listing[..replayed]);
    case _ =>
  }

  lemma {:induction false} InvHolds(worlds: seq<World>, steps: seq<Step>, k: nat)
    requires History(worlds, steps) && k < |worlds|
    ensures Inv(worlds[k])
  {
    if k > 0 {
      assert Leads(worlds, steps, k - 1);
      InvHolds(worlds, steps, k - 1);
      NextKeepsInv(worlds[k - 1], steps[k - 1]);
    }
  }

  lemma {:induction false} JournalOnlyGrows(worlds: seq<World>, steps: seq<Step>, i: nat, j: nat)
    requires History(worlds, steps) && i <= j < |worlds|
    ensures worlds[i].journal <= worlds[j].journal
    decreases j
  {
    if i < j {
      JournalOnlyGrows(worlds, steps, i, j - 1);
      assert Leads(worlds, steps, j - 1);
      InvHolds(worlds, steps, j - 1);
      NextKeepsInv(worlds[j - 1], steps[j - 1]);
    }
  }

  /** Every deletion that committed, in the database or in any backup of it, is in the journal. */
  lemma CommittedDeletionsAreJournaled(worlds: seq<World>, steps: seq<Step>, k: nat)
    requires History(worlds, steps) && k < |worlds|
    ensures worlds[k].db.tombstones <= worlds[k].journal
    ensures forall b <- worlds[k].backups :: b.tombstones <= worlds[k].journal
  {
    InvHolds(worlds, steps, k);
  }

  lemma StartIsCleanExactly(w: World, s: Step)
    requires Inv(w) && Possible(w, s) && Serves(s)
    ensures Clean(w.journal, Next(w, s).db) <==> s.configured || Clean(w.journal, w.db)
  {
    assert s.listing[..|s.listing|] == s.listing;
    ReplayErases(w.db, s.listing);
  }

  /** After a step the installation serves exactly if it started and got through, or it served before and neither
    * stopped, nor was restored, nor crashed. A configured start that gets through has replayed the whole journal.
    */
  lemma ServesExactly(worlds: seq<World>, steps: seq<Step>, j: nat)
    requires History(worlds, steps) && j < |steps|
    ensures worlds[j + 1].serving <==>
        match steps[j]
        case Start(_, _, _, ok) => ok
        case Backup => worlds[j].serving
        case Work(_) => worlds[j].serving
        case Delete(_, _, end) => worlds[j].serving && end != Crashed
        case Restore(_) => false
        case Stop => false
    ensures !worlds[j].serving && worlds[j + 1].serving ==>
        && steps[j].Start? && steps[j].replayed == |steps[j].listing|
        && (steps[j].configured ==> forall u <- worlds[j].journal :: u in steps[j].listing)
  {
    assert Leads(worlds, steps, j);
  }

  /** When serving begins nobody in the journal is present exactly if the journal is configured at that start, or nobody
    * was present before it.
    */
  lemma ServingIsCleanExactly(worlds: seq<World>, steps: seq<Step>, j: nat)
    requires History(worlds, steps) && j < |steps| && Serves(steps[j])
    ensures worlds[j + 1].serving && worlds[j + 1].journal == worlds[j].journal
    ensures Clean(worlds[j].journal, worlds[j + 1].db) <==>
        steps[j].configured || Clean(worlds[j].journal, worlds[j].db)
  {
    assert Leads(worlds, steps, j);
    InvHolds(worlds, steps, j);
    StartIsCleanExactly(worlds[j], steps[j]);
  }

  /** Erasure survives restore: whoever asked to be deleted at step `i`, even if the deletion was rolled back or crashed
    * or its append got no answer, is absent at every later moment at which serving begins with the journal configured,
    * from whatever backup the database was restored.
    */
  lemma ErasureSurvivesRestore(worlds: seq<World>, steps: seq<Step>, i: nat, j: nat)
    requires History(worlds, steps) && i < j < |steps|
    requires Journals(steps[i]) && Serves(steps[j]) && steps[j].configured
    ensures worlds[j + 1].serving && !Present(worlds[j + 1].db, steps[i].user)
  {
    assert Leads(worlds, steps, i);
    JournalOnlyGrows(worlds, steps, i + 1, j);
    ServingIsCleanExactly(worlds, steps, j);
  }

  /** A person is deleted after a backup, the backup is restored, and the installation starts without its bucket. */
  function UnsetBucket(u: UserId): seq<Step> {
    [Backup, Delete(u, Acknowledged, Committed), Restore(0), Start(false, [], 0, true)]
  }

  lemma Deletes(w: World, u: UserId) returns (deleted: World)
    requires w.serving && w.configured && !SoleOwner(w.db, u)
    ensures Then(w, Delete(u, Acknowledged, Committed), deleted)
    ensures deleted.journal == w.journal + {u} && deleted.backups == w.backups
  {
    deleted := Next(w, Delete(u, Acknowledged, Committed));
  }

  lemma Restores(w: World) returns (restored: World)
    requires w.backups != []
    ensures Then(w, Restore(0), restored)
    ensures restored.db == w.backups[0] && restored.journal == w.journal && !restored.serving
  {
    restored := Next(w, Restore(0));
  }

  lemma StartsUnconfigured(w: World) returns (started: World)
    requires !w.serving
    ensures Then(w, Start(false, [], 0, true), started)
    ensures started.db == w.db && started.journal == w.journal && started.serving
  {
    started := w.(serving := true, configured := false);
  }

  lemma BacksUp(w: World) returns (backed: World)
    ensures Then(w, Backup, backed) && backed == w.(backups := w.backups + [w.db])
  {
    backed := w.(backups := w.backups + [w.db]);
  }

  /** Five worlds and four steps make a history if each follows from the one before. */
  lemma FourSteps(a: World, b: World, c: World, d: World, e: World, s: Step, t: Step, u: Step, v: Step)
    requires WellFormed(a.db) && a.db.tombstones == {} && a.journal == {} && a.backups == []
    requires Then(a, s, b) && Then(b, t, c) && Then(c, u, d) && Then(d, v, e)
    ensures History([a, b, c, d, e], [s, t, u, v])
  {
    var worlds, steps := [a, b, c, d, e], [s, t, u, v];
    assert Leads(worlds, steps, 0);
    assert Leads(worlds, steps, 1);
    assert Leads(worlds, steps, 2);
    assert Leads(worlds, steps, 3);
  }

  /** If the bucket is unset when a restored installation starts, it serves with the deleted person present, whoever
    * that person was.
    */
  lemma UnsetBucketServesErased(db: Database, u: UserId) returns (worlds: seq<World>)
    requires WellFormed(db) && db.tombstones == {} && Present(db, u) && !SoleOwner(db, u)
    ensures History(worlds, UnsetBucket(u))
    ensures worlds[4].serving && u in worlds[4].journal && Present(worlds[4].db, u)
  {
    var w0 := World(db, {}, [], true, true);
    var w1 := BacksUp(w0);
    var w2 := Deletes(w1, u);
    var w3 := Restores(w2);
    var w4 := StartsUnconfigured(w3);
    FourSteps(w0, w1, w2, w3, w4, Backup, Delete(u, Acknowledged, Committed), Restore(0), Start(false, [], 0, true));
    worlds := [w0, w1, w2, w3, w4];
  }
}

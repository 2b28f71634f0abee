/** The notes shown to the next model step after a memory mutation, built from the old and the refreshed projection. */
module RecallProjection {
  import opened Options

  datatype Note = Note(id: Option<string>, content: string)

  /** `Map.set`: an id that is there keeps its place, a new one goes to the end. The map is the sequence of its
    * values.
    */
  function Set(entries: seq<Note>, note: Note): seq<Note> {
    if entries == [] then [note]
    else if entries[0].id == note.id then [note] + entries[1..]
    else [entries[0]] + Set(entries[1..], note)
  }

  predicate Keeps(note: Note, ids: set<string>) {
    note.id.Some? && note.id.value in ids
  }

  /** The map after the keyed notes with these ids were set in order. */
  function SetAll(entries: seq<Note>, notes: seq<Note>, ids: set<string>): seq<Note>
    decreases |notes|
  {
    if notes == [] then entries
    else
      var before, last := SetAll(entries, notes[..|notes| - 1], ids), notes[|notes| - 1];
      if Keeps(last, ids) then Set(before, last) else before
  }

  function Unkeyed(notes: seq<Note>): seq<Note>
    decreases |notes|
  {
    if notes == [] then []
    else Unkeyed(notes[..|notes| - 1]) + if notes[|notes| - 1].id.None? then [notes[|notes| - 1]] else []
  }

  function Ids(notes: seq<Note>): set<string> {
    set n | n in notes && n.id.Some? :: n.id.value
  }

  function Projection(prior: seq<Note>, refreshed: seq<Note>): seq<Note> {
    var ids := Ids(refreshed);
    SetAll(SetAll([], prior, ids), refreshed, ids) + Unkeyed(refreshed)
  }

  method ProjectNotes(prior: seq<Note>, refreshed: seq<Note>) returns (next: seq<Note>)
    ensures next == Projection(prior, refreshed)
  {
    var refreshedIds := set n | n in refreshed && n.id.Some? :: n.id.value;
    var byId: seq<Note> := [];
    var unkeyed: seq<Note> := [];
    for k := 0 to |prior|
      invariant byId == SetAll([], prior[..k], refreshedIds)
    {
      var note := prior[k];
      assert prior[..k + 1][..k] == prior[..k];
      if note.id.None? {
        continue;
      }
      if note.id.value !in refreshedIds {
        continue;
      }
      byId := Set(byId, note);
    }
    assert prior[..|prior|] == prior;
    ghost var kept := byId;
    for k := 0 to |refreshed|
      invariant byId == SetAll(kept, refreshed[..k], refreshedIds)
      invariant unkeyed == Unkeyed(refreshed[..k])
    {
      var note := refreshed[k];
      assert refreshed[..k + 1][..k] == refreshed[..k];
      if note.id.None? {
        unkeyed := unkeyed + [note];
        continue;
      }
      assert note in refreshed;
      byId := Set(byId, note);
    }
    assert refreshed[..|refreshed|] == refreshed;
    next := byId + unkeyed;
  }

  // ---- what the projection holds ----

  /** The note with this id that comes last. */
  ghost predicate IsLast(notes: seq<Note>, note: Note) {
    note.id.Some? && exists i :: 0 <= i < |notes| && notes[i] == note && forall j :: i < j < |notes| ==>
        notes[j].id != note.id
  }

  ghost predicate DistinctIds(entries: seq<Note>) {
    && (forall e <- entries :: e.id.Some?)
    && (forall i, j :: 0 <= i < j < |entries| ==> entries[i].id != entries[j].id)
  }

  /** The last note of each id, in the order of those last notes, without reference to any map. */
  function LastPerId(notes: seq<Note>): seq<Note> {
    if notes == [] then []
    else
      (if notes[0].id.Some? && (forall n <- notes[1..] :: n.id != notes[0].id) then [notes[0]] else [])
      + LastPerId(notes[1..])
  }

  lemma {:induction false} SetFacts(entries: seq<Note>, note: Note)
    requires DistinctIds(entries) && note.id.Some?
    ensures DistinctIds(Set(entries, note))
    ensures forall e :: e in Set(entries, note) <==> e == note || (e in entries && e.id != note.id)
  {
    if entries != [] {
      assert entries == [entries[0]] + entries[1..];
      assert forall e <- entries[1..] :: e.id != entries[0].id;
      if entries[0].id != note.id {
        SetFacts(entries[1..], note);
        var rest := Set(entries[1..], note);
        assert forall i :: 0 <= i < |rest| ==> rest[i] in rest;
      }
    }
  }

  lemma LastExtends(notes: seq<Note>, e: Note)
    requires notes != []
    ensures var most, last := notes[..|notes| - 1], notes[|notes| - 1];
            IsLast(notes, e) <==> (e == last && e.id.Some?) || (IsLast(most, e) && e.id != last.id)
  {
    var most, last := notes[..|notes| - 1], notes[|notes| - 1];
    if IsLast(most, e) && e.id != last.id {
      var i :| 0 <= i < |most| && most[i] == e && forall j :: i < j < |most| ==> most[j].id != e.id;
      assert notes[i] == e && forall j :: i < j < |notes| ==> notes[j].id != e.id;
    }
    if e == last && e.id.Some? {
      assert notes[|notes| - 1] == e;
    }
  }

  /** The map after a pass: the last note of each kept id, else what was there before. */
  lemma {:induction false} SetAllFacts(entries: seq<Note>, notes: seq<Note>, ids: set<string>)
    requires DistinctIds(entries)
    ensures DistinctIds(SetAll(entries, notes, ids))
    ensures forall e :: e in SetAll(entries, notes, ids) <==>
              (IsLast(notes, e) && Keeps(e, ids))
                  || (e in entries && !(Keeps(e, ids) && exists n <- notes :: n.id == e.id))
    decreases |notes|
  {
    if notes != [] {
      var most, last := notes[..|notes| - 1], notes[|notes| - 1];
      SetAllFacts(entries, most, ids);
      if Keeps(last, ids) {
        SetFacts(SetAll(entries, most, ids), last);
      }
      assert notes == most + [last];
      forall e ensures e in SetAll(entries, notes, ids) <==>
                 (IsLast(notes, e) && Keeps(e, ids))
                     || (e in entries && !(Keeps(e, ids) && exists n <- notes :: n.id == e.id))
      {
        LastExtends(notes, e);
        assert (exists n <- notes :: n.id == e.id) <==> (exists n <- most :: n.id == e.id) || last.id == e.id;
      }
    }
  }

  lemma LastPrepends(notes: seq<Note>, e: Note)
    requires notes != []
    ensures IsLast(notes, e) <==>
            IsLast(notes[1..], e) || (e == notes[0] && e.id.Some? && forall n <- notes[1..] :: n.id != e.id)
  {
    var rest := notes[1..];
    if IsLast(rest, e) {
      var i :| 0 <= i < |rest| && rest[i] == e && forall j :: i < j < |rest| ==> rest[j].id != e.id;
      assert notes[i + 1] == e && forall j :: i + 1 < j < |notes| ==> notes[j] == rest[j - 1];
    }
    if IsLast(notes, e) {
      var i :| 0 <= i < |notes| && notes[i] == e && forall j :: i < j < |notes| ==> notes[j].id != e.id;
      assert forall j :: 0 <= j < |rest| ==> rest[j] == notes[j + 1];
      if i > 0 {
        assert rest[i - 1] == e;
      }
    }
    if e == notes[0] && e.id.Some? && forall n <- rest :: n.id != e.id {
      assert forall j :: 0 < j < |notes| ==> notes[j] == rest[j - 1];
    }
  }

  lemma {:induction false} LastPerIdHolds(notes: seq<Note>, e: Note)
    ensures e in LastPerId(notes) <==> IsLast(notes, e)
  {
    if notes != [] {
      LastPerIdHolds(notes[1..], e);
      LastPrepends(notes, e);
    }
  }

  lemma {:induction false} LastPerIdFacts(notes: seq<Note>)
    ensures DistinctIds(LastPerId(notes))
    ensures forall e :: e in LastPerId(notes) <==> IsLast(notes, e)
  {
    forall e ensures e in LastPerId(notes) <==> IsLast(notes, e) {
      LastPerIdHolds(notes, e);
    }
    if notes != [] {
      var rest := LastPerId(notes[1..]);
      LastPerIdFacts(notes[1..]);
      forall i | 0 <= i < |rest| ensures rest[i] in notes[1..] {
        assert rest[i] in rest && IsLast(notes[1..], rest[i]);
      }
    }
  }

  lemma {:induction false} SameDistinctSameMultiset(a: seq<Note>, b: seq<Note>)
    requires DistinctIds(a) && DistinctIds(b) && (forall e :: e in a <==> e in b)
    ensures multiset(a) == multiset(b)
  {
    forall e ensures multiset(a)[e] == multiset(b)[e] {
      CountOfDistinct(a, e);
      CountOfDistinct(b, e);
    }
  }

  lemma {:induction false} CountOfDistinct(a: seq<Note>, e: Note)
    requires DistinctIds(a)
    ensures multiset(a)[e] == if e in a then 1 else 0
  {
    if a != [] {
      CountOfDistinct(a[1..], e);
      assert a == [a[0]] + a[1..];
      assert a[0] !in a[1..];
    }
  }

  /** For every prior and refreshed projection the next one holds, as a multiset, the last refreshed note of each id and
    * every unkeyed refreshed note. The prior projection only decides the order; nothing it alone holds survives.
    */
  lemma ProjectionHoldsRefreshed(prior: seq<Note>, refreshed: seq<Note>)
    ensures multiset(Projection(prior, refreshed)) == multiset(LastPerId(refreshed)) + multiset(Unkeyed(refreshed))
    ensures forall n <- Projection(prior, refreshed) :: n in refreshed
  {
    KeyedPart(prior, refreshed);
    LastPerIdFacts(refreshed);
    var ids := Ids(refreshed);
    SameDistinctSameMultiset(SetAll(SetAll([], prior, ids), refreshed, ids), LastPerId(refreshed));
    UnkeyedFacts(refreshed);
  }

  lemma KeyedPart(prior: seq<Note>, refreshed: seq<Note>)
    ensures var keyed := SetAll(SetAll([], prior, Ids(refreshed)), refreshed, Ids(refreshed));
            DistinctIds(keyed) && forall e :: e in keyed <==> IsLast(refreshed, e)
  {
    var ids := Ids(refreshed);
    SetAllFacts([], prior, ids);
    SetAllFacts(SetAll([], prior, ids), refreshed, ids);
    forall e | e in SetAll([], prior, ids) ensures Keeps(e, ids) && exists n <- refreshed :: n.id == e.id {
      assert e.id.value in ids;
    }
    forall e | IsLast(refreshed, e) ensures Keeps(e, ids) {
      assert e in refreshed;
    }
  }

  lemma {:induction false} UnkeyedFacts(notes: seq<Note>)
    ensures forall n :: n in Unkeyed(notes) <==> n in notes && n.id.None?
    decreases |notes|
  {
    if notes != [] {
      UnkeyedFacts(notes[..|notes| - 1]);
      assert notes == notes[..|notes| - 1] + [notes[|notes| - 1]];
    }
  }

  // ---- the order of the projection ----

  /** The ids that are kept, in the order of the notes. */
  function KeptIds(notes: seq<Note>, ids: set<string>): seq<string>
    decreases |notes|
  {
    if notes == [] then []
    else
      var last := notes[|notes| - 1];
      KeptIds(notes[..|notes| - 1], ids) + if Keeps(last, ids) then [last.id.value] else []
  }

  /** Each id where it comes first. */
  function Firsts(ids: seq<string>): seq<string>
    decreases |ids|
  {
    if ids == [] then []
    else
      var before, last := Firsts(ids[..|ids| - 1]), ids[|ids| - 1];
      if last in ids[..|ids| - 1] then before else before + [last]
  }

  /** The entries stand in the order of these ids. */
  ghost predicate InOrderOf(entries: seq<Note>, ids: seq<string>) {
    |entries| == |ids| && forall i :: 0 <= i < |ids| ==> entries[i].id == Some(ids[i])
  }

  lemma {:induction false} FirstsHold(ids: seq<string>)
    ensures forall id :: id in Firsts(ids) <==> id in ids
    decreases |ids|
  {
    if ids != [] {
      FirstsHold(ids[..|ids| - 1]);
      assert ids == ids[..|ids| - 1] + [ids[|ids| - 1]];
    }
  }

  /** Setting a note puts a new id at the end and leaves the places of the others. */
  lemma SetInOrder(entries: seq<Note>, ids: seq<string>, note: Note)
    requires InOrderOf(entries, Firsts(ids)) && note.id.Some?
    ensures InOrderOf(Set(entries, note), Firsts(ids + [note.id.value]))
  {
    var id := note.id.value;
    assert (ids + [id])[..|ids|] == ids;
    FirstsHold(ids);
    if id in ids {
      var i :| 0 <= i < |Firsts(ids)| && Firsts(ids)[i] == id;
      assert entries[i].id == note.id && entries[i] in entries;
      SetKeepsPlaces(entries, note);
    } else {
      forall i | 0 <= i < |entries| ensures entries[i].id != note.id {
        assert Firsts(ids)[i] in Firsts(ids);
      }
      SetNew(entries, note);
    }
  }

  lemma {:induction false} SetAllInOrder(entries: seq<Note>, before: seq<string>, notes: seq<Note>, ids: set<string>)
    requires InOrderOf(entries, Firsts(before))
    ensures InOrderOf(SetAll(entries, notes, ids), Firsts(before + KeptIds(notes, ids)))
    decreases |notes|
  {
    if notes == [] {
      assert before + [] == before;
    } else {
      var most, last := notes[..|notes| - 1], notes[|notes| - 1];
      SetAllInOrder(entries, before, most, ids);
      if Keeps(last, ids) {
        SetInOrder(SetAll(entries, most, ids), before + KeptIds(most, ids), last);
        assert before + KeptIds(notes, ids) == before + KeptIds(most, ids) + [last.id.value];
      } else {
        assert KeptIds(notes, ids) == KeptIds(most, ids);
      }
    }
  }

  /** The keyed notes stand where the prior projection first had their ids, then where the refreshed one has the
    * others; the unkeyed ones follow in the order of the refresh.
    */
  lemma ProjectionFollowsPrior(prior: seq<Note>, refreshed: seq<Note>)
    ensures var ids := Ids(refreshed);
            var order := Firsts(KeptIds(prior, ids) + KeptIds(refreshed, ids));
            exists keyed :: Projection(prior, refreshed) == keyed + Unkeyed(refreshed) && InOrderOf(keyed, order)
  {
    var ids := Ids(refreshed);
    SetAllInOrder([], [], prior, ids);
    assert [] + KeptIds(prior, ids) == KeptIds(prior, ids);
    SetAllInOrder(SetAll([], prior, ids), KeptIds(prior, ids), refreshed, ids);
    assert InOrderOf(SetAll(SetAll([], prior, ids), refreshed, ids),
        Firsts(KeptIds(prior, ids) + KeptIds(refreshed, ids)));
  }

  /** The unkeyed notes of a refresh, read one after the other. */
  lemma {:induction false} UnkeyedAppend(a: seq<Note>, b: seq<Note>)
    ensures Unkeyed(a + b) == Unkeyed(a) + Unkeyed(b)
    decreases |b|
  {
    if b == [] {
      assert a + b == a;
    } else {
      var last := b[|b| - 1];
      UnkeyedAppend(a, b[..|b| - 1]);
      assert (a + b)[..|a + b| - 1] == a + b[..|b| - 1] && (a + b)[|a + b| - 1] == last;
    }
  }

  // ---- applying the refresh again ----

  /** Setting a note that the map already holds changes nothing; setting another of a present id keeps the places. */
  lemma {:induction false} SetKeepsPlaces(entries: seq<Note>, note: Note)
    requires exists e <- entries :: e.id == note.id
    ensures |Set(entries, note)| == |entries|
    ensures forall i :: 0 <= i < |entries| ==> Set(entries, note)[i].id == entries[i].id
  {
    if entries[0].id != note.id {
      assert entries == [entries[0]] + entries[1..];
      SetKeepsPlaces(entries[1..], note);
    }
  }

  lemma {:induction false} SetAllKeepsPlaces(entries: seq<Note>, notes: seq<Note>, ids: set<string>)
    requires DistinctIds(entries) && (forall n <- notes :: Keeps(n, ids) ==> exists e <- entries :: e.id == n.id)
    ensures |SetAll(entries, notes, ids)| == |entries|
    ensures forall i :: 0 <= i < |entries| ==> SetAll(entries, notes, ids)[i].id == entries[i].id
    decreases |notes|
  {
    if notes != [] {
      var most, last := notes[..|notes| - 1], notes[|notes| - 1];
      SetAllKeepsPlaces(entries, most, ids);
      var before := SetAll(entries, most, ids);
      if Keeps(last, ids) {
        var e :| e in entries && e.id == last.id;
        var i :| 0 <= i < |entries| && entries[i] == e;
        assert before[i] in before && before[i].id == last.id;
        SetKeepsPlaces(before, last);
      }
    }
  }

  /** Two maps with the same places and the same entries are the same. */
  lemma SamePlacesSameMap(a: seq<Note>, b: seq<Note>)
    requires DistinctIds(a) && DistinctIds(b) && |a| == |b|
    requires forall i :: 0 <= i < |a| ==> a[i].id == b[i].id
    requires forall e :: e in a ==> e in b
    ensures a == b
  {
    forall i | 0 <= i < |a| ensures a[i] == b[i] {
      assert a[i] in a;
      var j :| 0 <= j < |b| && b[j] == a[i];
      assert i == j;
    }
  }

  /** Setting the entries of a map into an empty map, with other notes that are not kept, rebuilds it. */
  lemma {:induction false} RebuildsMap(entries: seq<Note>, ids: set<string>)
    requires DistinctIds(entries) && (forall e <- entries :: Keeps(e, ids))
    ensures SetAll([], entries, ids) == entries
    decreases |entries|
  {
    if entries != [] {
      var most, last := entries[..|entries| - 1], entries[|entries| - 1];
      assert forall e <- most :: e in entries;
      RebuildsMap(most, ids);
      assert forall i :: 0 <= i < |most| ==> most[i].id != last.id;
      SetNew(most, last);
      assert entries == most + [last];
    }
  }

  lemma {:induction false} SetNew(entries: seq<Note>, note: Note)
    requires forall i :: 0 <= i < |entries| ==> entries[i].id != note.id
    ensures Set(entries, note) == entries + [note]
  {
    if entries != [] {
      SetNew(entries[1..], note);
      assert entries == [entries[0]] + entries[1..];
    }
  }

  lemma {:induction false} SkipsUnkeyed(entries: seq<Note>, keyed: seq<Note>, unkeyed: seq<Note>, ids: set<string>)
    requires forall n <- unkeyed :: n.id.None?
    ensures SetAll(entries, keyed + unkeyed, ids) == SetAll(entries, keyed, ids)
    decreases |unkeyed|
  {
    if unkeyed == [] {
      assert keyed + unkeyed == keyed;
    } else {
      SkipsUnkeyed(entries, keyed, unkeyed[..|unkeyed| - 1], ids);
      var all := keyed + unkeyed;
      assert all[..|all| - 1] == keyed + unkeyed[..|unkeyed| - 1] && all[|all| - 1] == unkeyed[|unkeyed| - 1];
      assert unkeyed[|unkeyed| - 1] in unkeyed;
    }
  }

  /** Applying the same refresh again changes nothing, order included. */
  lemma RefreshIsIdempotent(prior: seq<Note>, refreshed: seq<Note>)
    ensures Projection(Projection(prior, refreshed), refreshed) == Projection(prior, refreshed)
  {
    var ids := Ids(refreshed);
    var keyed := SetAll(SetAll([], prior, ids), refreshed, ids);
    KeyedPart(prior, refreshed);
    UnkeyedFacts(refreshed);
    forall e | e in keyed ensures Keeps(e, ids) {
      assert e in refreshed;
    }
    RebuildsMap(keyed, ids);
    SkipsUnkeyed([], keyed, Unkeyed(refreshed), ids);
    forall n | n in refreshed && Keeps(n, ids) ensures exists e <- keyed :: e.id == n.id {
      var last := LastOf(refreshed, n);
    }
    SetAllKeepsPlaces(keyed, refreshed, ids);
    SetAllFacts(keyed, refreshed, ids);
    KeyedPart(Projection(prior, refreshed), refreshed);
    SamePlacesSameMap(SetAll(keyed, refreshed, ids), keyed);
  }

  lemma {:induction false} LastOf(notes: seq<Note>, n: Note) returns (last: Note)
    requires n in notes && n.id.Some?
    ensures IsLast(notes, last) && last.id == n.id
    decreases |notes|
  {
    var end := notes[|notes| - 1];
    LastExtends(notes, end);
    if end.id == n.id {
      last := end;
    } else {
      assert notes == notes[..|notes| - 1] + [end];
      last := LastOf(notes[..|notes| - 1], n);
      LastExtends(notes, last);
    }
  }
}

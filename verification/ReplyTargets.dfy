/** The bounded table of the messages that background tasks answer to, as an object that lists its keys in its own
  * order.
  */
module ReplyTargets {
  import opened Options
  import opened Sequences
  import opened JsObjects

  datatype Target = Target(conversationId: Text, messageId: Text)

  /** A scheduled report's caller attributes, once they decode. */
  datatype Report = Report(scheduleId: Text, replyAnchorMessageId: Option<Text>)

  /** An absent attribute stands for every value that is not a string. */
  datatype Caller = Caller(linq: bool, conversationId: Option<Text>, linqMessageId: Option<Text>,
      report: Option<Report>)

  datatype Auth = Auth(current: Option<Caller>, initiator: Option<Caller>)

  datatype Reference = Current | Task(id: Text) | ScheduledReport(id: Text)

  const MAXIMUM := 100

  /** "linq:" */
  const LINQ: Text := [108, 105, 110, 113, 58]

  function ConversationId(caller: Caller): Option<Text> {
    if caller.linq && caller.conversationId.Some? && LINQ <= caller.conversationId.value then caller.conversationId
        else None
  }

  function CurrentConversationId(auth: Auth): Option<Text> {
    if auth.current.Some? then ConversationId(auth.current.value)
    else if auth.initiator.Some? then ConversationId(auth.initiator.value)
    else None
  }

  function CurrentTarget(auth: Auth): Option<Target> {
    if auth.current.None? then None
    else
      var id, message := ConversationId(auth.current.value), auth.current.value.linqMessageId;
      if id.Some? && message.Some? && message.value != [] then Some(Target(id.value, message.value)) else None
  }

  function CurrentReport(auth: Auth): Option<Report> {
    if auth.current.Some? then auth.current.value.report
    else if auth.initiator.Some? then auth.initiator.value.report
    else None
  }

  type Table = seq<Entry<Target>>

  function Without(table: Table, id: Text): Table {
    if table == [] then [] else (if table[0].key != id then [table[0]] else []) + Without(table[1..], id)
  }

  function Newest(table: Table): Table {
    if |table| <= MAXIMUM then table else table[|table| - MAXIMUM..]
  }

  function Registered(table: Table, r: Entry<Target>): Table {
    OwnOrder(Newest(Without(table, r.key) + [r]))
  }

  /** The table after these registrations, oldest first. */
  function After(history: Table): Table
    decreases |history|
  {
    if history == [] then [] else Registered(After(history[..|history| - 1]), history[|history| - 1])
  }

  function Lookup(table: Table, id: Text): Option<Target> {
    if table == [] then None else if table[0].key == id then Some(table[0].value) else Lookup(table[1..], id)
  }

  /** Looking up an id finds its target, and finds none exactly if the id is not there. */
  lemma {:induction false} LookupExactly(table: Table, id: Text, t: Target)
    requires DistinctKeys(table)
    ensures Lookup(table, id) == Some(t) <==> Entry(id, t) in table
    ensures Lookup(table, id) == None <==> forall e <- table :: e.key != id
  {
    if table != [] {
      assert table == [table[0]] + table[1..];
      forall e | e in table[1..] ensures e.key != table[0].key {
        var i :| 0 <= i < |table[1..]| && table[1..][i] == e;
        assert table[i + 1] == e;
      }
      LookupExactly(table[1..], id, t);
    }
  }

  /** A current target is the message that the present caller sent from a Linq conversation. */
  lemma CurrentTargetExactly(auth: Auth, t: Target)
    ensures CurrentTarget(auth) == Some(t) <==>
              && auth.current.Some? && auth.current.value.linq
              && auth.current.value.conversationId == Some(t.conversationId)
              && auth.current.value.linqMessageId == Some(t.messageId)
              && [108, 105, 110, 113, 58] <= t.conversationId && t.messageId != []
  {
  }

  /** The conversation is that of the present caller, or of the initiator when there is no present one. */
  lemma CurrentConversationExactly(auth: Auth, id: Text)
    ensures CurrentConversationId(auth) == Some(id) <==>
              && (auth.current.Some? || auth.initiator.Some?)
              && var caller := if auth.current.Some? then auth.current.value else auth.initiator.value;
                 caller.linq && caller.conversationId == Some(id) && [108, 105, 110, 113, 58] <= id
  {
  }

  lemma CurrentReportExactly(auth: Auth, report: Report)
    ensures CurrentReport(auth) == Some(report) <==>
              && (auth.current.Some? || auth.initiator.Some?)
              && (if auth.current.Some? then auth.current.value else auth.initiator.value).report == Some(report)
  {
  }

  class BackgroundReplyTargets {
    var table: Table
    /** Every registration that had a target. */
    ghost var history: Table

    constructor ()
      ensures table == [] && history == [] && table == After(history)
    {
      table, history := [], [];
    }

    method Register(taskId: Text, auth: Auth)
      requires table == After(history)
      modifies this
      ensures table == After(history)
      ensures history == match CurrentTarget(auth)
                         case None => old(history)
                         case Some(target) => old(history) + [Entry(taskId, target)]
    {
      var target := CurrentTarget(auth);
      if target.None? {
        return;
      }
      table := OwnOrder(Newest(Without(table, taskId) + [Entry(taskId, target.value)]));
      history := history + [Entry(taskId, target.value)];
      assert history[..|history| - 1] == old(history);
    }

    /** A reference answers to a message of the caller's own conversation or to nothing. */
    method Resolve(reference: Option<Reference>, auth: Auth) returns (target: Option<Target>)
      ensures target.Some? ==> CurrentConversationId(auth) == Some(target.value.conversationId)
      ensures reference == Some(Current) ==> target == CurrentTarget(auth)
      ensures forall id :: reference == Some(Task(id)) ==>
                forall t :: target == Some(t) <==>
                    Lookup(table, id) == Some(t) && CurrentConversationId(auth) == Some(t.conversationId)
      ensures forall id :: reference == Some(ScheduledReport(id)) ==>
                forall t :: target == Some(t) <==>
                  && CurrentConversationId(auth) == Some(t.conversationId)
                  && CurrentReport(auth) == Some(Report(id, Some(t.messageId))) && t.messageId != []
      ensures reference.None? ==> target.None?
    {
      if reference.None? {
        return None;
      }
      var conversationId := CurrentConversationId(auth);
      if conversationId.None? {
        return None;
      }
      match reference.value
      case Current =>
        return CurrentTarget(auth);
      case Task(id) =>
        var found := Lookup(table, id);
        return if found.Some? && found.value.conversationId == conversationId.value then found else None;
      case ScheduledReport(id) =>
        var report := CurrentReport(auth);
        if report.None? || report.value.scheduleId != id || report.value.replyAnchorMessageId.None?
           || report.value.replyAnchorMessageId.value == [] {
          return None;
        }
        return Some(Target(conversationId.value, report.value.replyAnchorMessageId.value));
    }
  }

  // ---- what the table holds ----

  /** The last registration of each task id, in the order in which these were made. */
  ghost function Latest(history: Table): Table {
    if history == [] then []
    else (if NewKey(history[0].key, history[1..]) then [history[0]] else []) + Latest(history[1..])
  }

  /** The task id of this place is not registered again. */
  ghost predicate Standing(history: Table, i: int) {
    0 <= i < |history| && NewKey(history[i].key, history[i + 1..])
  }

  lemma StandingTail(history: Table, i: int)
    requires history != [] && i > 0
    ensures Standing(history, i) <==> Standing(history[1..], i - 1)
  {
    if i < |history| {
      assert history[1..][i - 1] == history[i] && history[1..][i..] == history[i + 1..];
    }
  }

  /** These are all the standing places, in order. */
  ghost predicate Places(history: Table, places: seq<int>) {
    && (forall k, l :: 0 <= k < l < |places| ==> places[k] < places[l])
    && (forall i :: i in places <==> Standing(history, i))
  }

  function Shifted(places: seq<int>): (r: seq<int>)
    ensures |r| == |places| && forall k :: 0 <= k < |r| ==> r[k] == places[k] + 1
  {
    seq(|places|, k requires 0 <= k < |places| => places[k] + 1)
  }

  lemma InShifted(places: seq<int>, i: int)
    ensures i in Shifted(places) <==> i - 1 in places
  {
    if i - 1 in places {
      var k :| 0 <= k < |places| && places[k] == i - 1;
      assert Shifted(places)[k] == i;
    }
  }

  lemma PlacesPrepend(history: Table, later: seq<int>)
    requires history != [] && Places(history[1..], later)
    ensures Places(history, (if Standing(history, 0) then [0] else []) + Shifted(later))
  {
    var first := if Standing(history, 0) then [0] else [];
    forall i ensures i in Shifted(later) <==> i > 0 && Standing(history, i) {
      InShifted(later, i);
      if i > 0 {
        StandingTail(history, i);
      }
    }
    assert forall k :: 0 <= k < |later| ==> Shifted(later)[k] in Shifted(later);
    assert forall i :: i in first <==> i == 0 && Standing(history, i);
  }

  /** `Latest` takes the standing places, all of them and in order. */
  lemma {:induction false} LatestPlaces(history: Table) returns (places: seq<int>)
    ensures Places(history, places) && |places| == |Latest(history)|
    ensures forall k :: 0 <= k < |places| ==> 0 <= places[k] < |history| && history[places[k]] == Latest(history)[k]
  {
    places := [];
    if history != [] {
      var later := LatestPlaces(history[1..]);
      PlacesPrepend(history, later);
      places := (if Standing(history, 0) then [0] else []) + Shifted(later);
      forall k | 0 <= k < |later|
        ensures 0 <= Shifted(later)[k] < |history| && history[Shifted(later)[k]] == Latest(history[1..])[k]
      {
        assert history[1..][later[k]] == history[later[k] + 1];
      }
    }
  }

  lemma {:induction false} LatestWasRegistered(history: Table)
    ensures forall e :: e in Latest(history) ==> e in history
  {
    if history != [] {
      LatestWasRegistered(history[1..]);
    }
  }

  lemma {:induction false} LatestIsDistinct(history: Table)
    ensures DistinctKeys(Latest(history))
  {
    if history != [] {
      LatestIsDistinct(history[1..]);
      if NewKey(history[0].key, history[1..]) {
        LatestWasRegistered(history[1..]);
        NewKeyCarriesOver(history[0].key, history[1..], Latest(history[1..]));
      }
    }
  }

  lemma {:induction false} WithoutAppend(a: Table, b: Table, id: Text)
    ensures Without(a + b, id) == Without(a, id) + Without(b, id)
  {
    if a == [] {
      assert a + b == b;
    } else {
      var head := if a[0].key != id then [a[0]] else [];
      WithoutAppend(a[1..], b, id);
      assert (a + b)[1..] == a[1..] + b && (a + b)[0] == a[0];
      assert Without(a, id) == head + Without(a[1..], id);
      Reassociate(head, Without(a[1..], id), Without(b, id));
    }
  }

  lemma NewKeyAppend(key: Text, a: Table, r: Entry<Target>)
    ensures NewKey(key, a + [r]) <==> NewKey(key, a) && r.key != key
  {
    assert (a + [r])[|a|] == r;
    assert forall i :: 0 <= i < |a| ==> (a + [r])[i] == a[i];
  }

  /** A registration supersedes the earlier one of its id and comes last. */
  lemma {:induction false} LatestAppend(history: Table, r: Entry<Target>)
    ensures Latest(history + [r]) == Without(Latest(history), r.key) + [r]
  {
    var all := history + [r];
    if history == [] {
      assert all == [r];
      assert all[1..] == [];
    } else {
      var x, rest := history[0], history[1..];
      LatestAppend(rest, r);
      assert all[0] == x && all[1..] == rest + [r];
      NewKeyAppend(x.key, rest, r);
      var head := if NewKey(x.key, rest) then [x] else [];
      WithoutAppend(head, Latest(rest), r.key);
      WithoutOne(x, r.key);
    }
  }

  lemma WithoutOne(x: Entry<Target>, id: Text)
    ensures Without([x], id) == (if x.key != id then [x] else []) && Without([], id) == []
  {
    assert [x][1..] == [];
  }

  lemma {:induction false} WithoutNew(a: Table, id: Text)
    requires NewKey(id, a)
    ensures Without(a, id) == a
  {
    if a != [] {
      WithoutNew(a[1..], id);
    }
  }

  lemma {:induction false} WithoutLosesOne(a: Table, id: Text)
    requires DistinctKeys(a)
    ensures |a| - 1 <= |Without(a, id)| <= |a|
  {
    if a != [] {
      DistinctTail(a);
      WithoutLosesOne(a[1..], id);
      if a[0].key == id {
        WithoutNew(a[1..], id);
      }
    }
  }

  lemma NewestOfSuffix(a: Table, b: Table)
    requires |b| >= MAXIMUM
    ensures Newest(a + b) == Newest(b)
  {
    assert (a + b)[|a + b| - MAXIMUM..] == b[|b| - MAXIMUM..];
  }

  lemma DistinctSuffix(a: Table, b: Table)
    requires DistinctKeys(a + b)
    ensures DistinctKeys(b)
  {
    assert forall i :: 0 <= i < |b| ==> (a + b)[|a| + i] == b[i];
  }

  lemma Cut(latest: Table) returns (dropped: Table)
    ensures latest == dropped + Newest(latest)
    ensures |latest| <= MAXIMUM ==> dropped == []
    ensures |latest| > MAXIMUM ==> |Newest(latest)| == MAXIMUM
  {
    dropped := if |latest| > MAXIMUM then latest[..|latest| - MAXIMUM] else [];
  }

  /** Cutting to the newest before the next registration cuts nothing that would have stayed. */
  lemma CutEarlyOrLate(latest: Table, r: Entry<Target>)
    requires DistinctKeys(latest)
    ensures Newest(Without(Newest(latest), r.key) + [r]) == Newest(Without(latest, r.key) + [r])
  {
    if |latest| > MAXIMUM {
      var dropped := Cut(latest);
      var recent := Newest(latest);
      DistinctSuffix(dropped, recent);
      WithoutAppend(dropped, recent, r.key);
      WithoutLosesOne(recent, r.key);
      NewestOfSuffix(Without(dropped, r.key), Without(recent, r.key) + [r]);
      Reassociate(Without(dropped, r.key), Without(recent, r.key), [r]);
    }
  }

  /** The newest hundred of the latest registrations, oldest first: what the table is meant to hold. */
  ghost function Meant(history: Table): Table {
    Newest(Latest(history))
  }

  /** The last hundred of the latest registrations, or all of them if they are fewer. */
  lemma MeantIsNewestHundred(history: Table)
    ensures |Meant(history)| == if |Latest(history)| < 100 then |Latest(history)| else 100
    ensures exists dropped :: Latest(history) == dropped + Meant(history)
  {
    var dropped := Cut(Latest(history));
  }

  lemma MeantIsDistinct(history: Table)
    ensures DistinctKeys(Meant(history))
  {
    LatestIsDistinct(history);
    var dropped := Cut(Latest(history));
    DistinctSuffix(dropped, Newest(Latest(history)));
  }

  /** One more registration of a table that is as it should be. */
  lemma NextTable(history: Table, r: Entry<Target>)
    requires After(history) == Meant(history)
    ensures After(history + [r]) == OwnOrder(Meant(history + [r]))
  {
    assert (history + [r])[..|history|] == history && (history + [r])[|history|] == r;
    LatestAppend(history, r);
    LatestIsDistinct(history);
    CutEarlyOrLate(Latest(history), r);
  }

  /** The table is right after every registration of the history. */
  ghost predicate AlwaysRight(history: Table) {
    forall n :: 0 <= n <= |history| ==> After(history[..n]) == Meant(history[..n])
  }

  /** What the table is meant to hold never has an array-index id behind a name or behind a larger index. */
  ghost predicate AlwaysListed(history: Table) {
    forall n :: 0 <= n <= |history| ==> Listed(Meant(history[..n]))
  }

  lemma Drops(history: Table, n: int)
    requires 0 < n <= |history|
    ensures history[..n] == history[..n - 1] + [history[n - 1]]
  {
  }

  /** After every registration of a history the table holds the newest hundred of the latest registrations, oldest
    * first, exactly when these never have an array-index id behind a name or behind a larger index.
    */
  lemma TableHoldsLatest(history: Table)
    ensures AlwaysRight(history) <==> AlwaysListed(history)
  {
    if AlwaysRight(history) {
      forall n | 0 <= n <= |history| ensures Listed(Meant(history[..n])) {
        if n > 0 {
          Drops(history, n);
          NextTable(history[..n - 1], history[n - 1]);
          MeantIsDistinct(history[..n]);
          OwnOrderIsListed(Meant(history[..n]));
        }
      }
    }
    if AlwaysListed(history) {
      forall n | 0 <= n <= |history| ensures After(history[..n]) == Meant(history[..n]) {
        ListedTableHoldsLatest(history, n);
      }
    }
  }

  lemma {:induction false} ListedTableHoldsLatest(history: Table, n: int)
    requires AlwaysListed(history) && 0 <= n <= |history|
    ensures After(history[..n]) == Meant(history[..n])
  {
    if n > 0 {
      ListedTableHoldsLatest(history, n - 1);
      Drops(history, n);
      NextTable(history[..n - 1], history[n - 1]);
      ListedStays(Meant(history[..n]));
    }
  }

  lemma NamesAreListed(history: Table)
    requires forall r <- history :: !IsIndex(r.key)
    ensures Listed(Meant(history))
  {
    LatestWasRegistered(history);
    var dropped := Cut(Latest(history));
    var meant := Meant(history);
    forall i | 0 <= i < |meant| ensures !IsIndex(meant[i].key) {
      assert meant[i] in dropped + meant;
    }
  }

  /** With task ids that are no array indices the table is always the newest hundred of the latest registrations. */
  lemma NamesAreKeptInOrder(history: Table)
    requires forall r <- history :: !IsIndex(r.key)
    ensures After(history) == Meant(history)
  {
    forall n | 0 <= n <= |history| ensures Listed(Meant(history[..n])) {
      assert forall r <- history[..n] :: r in history;
      NamesAreListed(history[..n]);
    }
    ListedTableHoldsLatest(history, |history|);
    assert history[..|history|] == history;
  }

  // ---- what holds whatever the ids are ----

  lemma {:induction false} WithoutElements(a: Table, id: Text, e: Entry<Target>)
    ensures e in Without(a, id) <==> e in a && e.key != id
  {
    if a != [] {
      WithoutElements(a[1..], id, e);
    }
  }

  lemma {:induction false} WithoutFacts(a: Table, id: Text)
    requires DistinctKeys(a)
    ensures forall e :: e in Without(a, id) <==> e in a && e.key != id
    ensures DistinctKeys(Without(a, id))
  {
    forall e ensures e in Without(a, id) <==> e in a && e.key != id {
      WithoutElements(a, id, e);
    }
    if a != [] {
      DistinctTail(a);
      WithoutFacts(a[1..], id);
      NewKeyCarriesOver(a[0].key, a[1..], Without(a[1..], id));
    }
  }

  /** The table before the listing. */
  lemma ReplacementFacts(before: Table, r: Entry<Target>)
    requires DistinctKeys(before)
    ensures var next := Newest(Without(before, r.key) + [r]);
            && DistinctKeys(next) && |next| <= MAXIMUM && r in next
            && forall e <- next :: e == r || (e in before && e.key != r.key)
  {
    var rest := Without(before, r.key);
    WithoutFacts(before, r.key);
    assert forall i :: 0 <= i < |rest| ==> rest[i] in rest;
    assert (rest + [r])[|rest|] == r;
    NewestFacts(rest + [r]);
  }

  lemma NewestFacts(a: Table)
    requires DistinctKeys(a)
    ensures DistinctKeys(Newest(a)) && |Newest(a)| <= MAXIMUM && (a != [] ==> a[|a| - 1] in Newest(a))
    ensures forall e :: e in Newest(a) ==> e in a
  {
    assert a != [] ==> Newest(a)[|Newest(a)| - 1] == a[|a| - 1];
  }

  /** The table never holds more than a hundred targets or two of one task, it always holds the newest registration, and
    * what else it holds it held before.
    */
  lemma {:induction false} TableIsBounded(history: Table)
    ensures DistinctKeys(After(history)) && |After(history)| <= 100
    ensures history != [] ==>
              var before, r := After(history[..|history| - 1]), history[|history| - 1];
              r in After(history) && forall e <- After(history) :: e == r || (e in before && e.key != r.key)
    decreases |history|
  {
    if history != [] {
      var before, r := After(history[..|history| - 1]), history[|history| - 1];
      TableIsBounded(history[..|history| - 1]);
      ReplacementFacts(before, r);
      OwnOrderKeepsElements(Newest(Without(before, r.key) + [r]));
      OwnOrderKeepsLength(Newest(Without(before, r.key) + [r]));
    }
  }

  // ---- what an array-index id does ----

  /** "b" and then "1": the index is listed first although it was registered last. */
  lemma IndexJumpsTheQueue(a: Target, b: Target)
    ensures !AlwaysRight([Entry([98], b), Entry([49], a)])
  {
    var name, index: Entry<Target> := Entry([98], b), Entry([49], a);
    var history := [name, index];
    assert history[1..] == [index] && [index][1..] == [];
    assert index.key != name.key by {
      assert index.key[0] != name.key[0];
    }
    assert Latest([index]) == [index];
    assert Latest(history) == history;
    assert history[..2] == history && Meant(history) == history;
    assert IsIndex(index.key) && !IsIndex(name.key) by {
      assert name.key[0] in name.key;
    }
    assert !Listed(history) by {
      assert IsIndex(history[1].key) && !IsIndex(history[0].key);
    }
    TableHoldsLatest(history);
  }

  /** In a table full of names the target of an array-index id is lost at the very next registration of a new name,
    * although every other target in the table is older.
    */
  lemma IndexIsEvictedNext(table: Table, index: Entry<Target>, name: Entry<Target>)
    requires |table| == MAXIMUM && Names(table)
    requires IsIndex(index.key) && !IsIndex(name.key) && NewKey(name.key, table)
    ensures Registered(table, index) == [index] + table[1..]
    ensures Registered(Registered(table, index), name) == table[1..] + [name]
    ensures index !in Registered(Registered(table, index), name)
  {
    var names := table[1..];
    WithoutNew(table, index.key);
    NewestDropsOne(table, index);
    OneIndexGoesFirst(names, index);
    var second := [index] + names;
    WithoutNew(second, name.key);
    NewestDropsOne(second, name);
    assert second[1..] == names;
    ListedStays(names + [name]);
  }

  lemma NewestDropsOne(table: Table, r: Entry<Target>)
    requires |table| == MAXIMUM
    ensures Newest(table + [r]) == table[1..] + [r]
  {
  }
}

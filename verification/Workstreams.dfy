/** Workstream records: optimistic saves, tombstones and the quota, all under the workspace's row lock. */
module Workstreams {
  import opened Options
  import opened Sequences

  /** A scope key within a workspace. */
  type Scope = nat

  datatype Key = Key(scope: Scope, id: string)

  datatype Row = Row(revision: nat, content: Option<string>, lastOperationId: string, sessionId: Option<string>)

  type Table = map<Key, Row>

  const CAPACITY: nat := 100

  datatype Command =
    | Save(key: Key, expected: nat, content: string, operation: string, session: string)
    | Forget(key: Key, expected: nat, operation: string)

  datatype Error = Changed | Full

  function Revision(rows: Table, key: Key): nat {
    if key in rows then rows[key].revision else 0
  }

  predicate Forgotten(rows: Table, key: Key) {
    key in rows && rows[key].content.None?
  }

  function Live(rows: Table, scope: Scope): set<Key> {
    set key | key in rows && key.scope == scope && rows[key].content.Some?
  }

  /** What a save is answered; `Ok` without a write when the row's last operation is this one. */
  function SaveAnswer(rows: Table, c: Command): Result<Row, Error>
    requires c.Save?
  {
    if c.key in rows && rows[c.key].lastOperationId == c.operation then Ok(rows[c.key])
    else if Revision(rows, c.key) != c.expected || Forgotten(rows, c.key) then Err(Changed)
    else if c.key !in rows && |Live(rows, c.key.scope)| >= CAPACITY then Err(Full)
    else Ok(Row(c.expected + 1, Some(c.content), c.operation, Some(c.session)))
  }

  /** A forget of an id that has no row yet leaves a tombstone all the same. */
  function ForgetAnswer(rows: Table, c: Command): Result<Row, Error>
    requires c.Forget?
  {
    if Forgotten(rows, c.key) then Ok(rows[c.key])
    else if c.key in rows && rows[c.key].revision != c.expected then Err(Changed)
    else Ok(Row(Revision(rows, c.key) + 1, None, c.operation, None))
  }

  function Answer(rows: Table, c: Command): Result<Row, Error> {
    if c.Save? then SaveAnswer(rows, c) else ForgetAnswer(rows, c)
  }

  function Next(rows: Table, c: Command): Table {
    var answer := Answer(rows, c);
    if answer.Ok? then rows[c.key := answer.value] else rows
  }

  /** The command writes a new revision. */
  predicate Writes(rows: Table, c: Command) {
    Answer(rows, c).Ok? && Answer(rows, c).value.revision != Revision(rows, c.key)
  }

  class WorkstreamStore {
    var rows: Table

    constructor ()
      ensures rows == map[]
    {
      rows := map[];
    }

    method SaveWorkstream(key: Key, expected: nat, content: string, operation: string, session: string)
      returns (answer: Result<Row, Error>)
      modifies this
      ensures answer == SaveAnswer(old(rows), Save(key, expected, content, operation, session))
      ensures rows == Next(old(rows), Save(key, expected, content, operation, session))
      ensures var current := if key in old(rows) then old(rows)[key].revision else 0;
              if key in old(rows) && old(rows)[key].lastOperationId == operation then
                answer == Ok(old(rows)[key]) && rows == old(rows)
              else if current != expected || (key in old(rows) && old(rows)[key].content.None?) then
                answer == Err(Changed) && rows == old(rows)
              else if key !in old(rows) && |set k | k in old(rows) && k.scope == key.scope
                  && old(rows)[k].content.Some?| >= 100 then
                answer == Err(Full) && rows == old(rows)
              else
                && answer == Ok(Row(expected + 1, Some(content), operation, Some(session)))
                && rows == old(rows)[key := answer.value]
    {
      var current := if key in rows then Some(rows[key]) else None;
      if current.Some? && current.value.lastOperationId == operation {
        assert rows[key := current.value] == rows;
        return Ok(current.value);
      }
      var revision := if current.Some? then current.value.revision else 0;
      if revision != expected || (current.Some? && current.value.content.None?) {
        return Err(Changed);
      }
      if current.None? {
        var total := |set k | k in rows && k.scope == key.scope && rows[k].content.Some?|;
        if total >= CAPACITY {
          return Err(Full);
        }
      }
      var saved := Row(expected + 1, Some(content), operation, Some(session));
      rows := rows[key := saved];
      answer := Ok(saved);
    }

    method ForgetWorkstream(key: Key, expected: nat, operation: string) returns (forgotten: bool)
      modifies this
      ensures forgotten <==> ForgetAnswer(old(rows), Forget(key, expected, operation)).Ok?
      ensures rows == Next(old(rows), Forget(key, expected, operation))
      ensures var current := if key in old(rows) then old(rows)[key].revision else 0;
              if key in old(rows) && old(rows)[key].content.None? then forgotten && rows == old(rows)
              else if key in old(rows) && current != expected then !forgotten && rows == old(rows)
              else forgotten && rows == old(rows)[key := Row(current + 1, None, operation, None)]
    {
      var current := if key in rows then Some(rows[key]) else None;
      if current.Some? && current.value.content.None? {
        assert rows[key := current.value] == rows;
        return true;
      }
      if current.Some? && current.value.revision != expected {
        return false;
      }
      var revision := if current.Some? then current.value.revision else 0;
      rows := rows[key := Row(revision + 1, None, operation, None)];
      forgotten := true;
    }
  }

  // ---- any order of saves and forgets ----

  ghost predicate History(tables: seq<Table>, commands: seq<Command>) {
    && |tables| == |commands| + 1
    && tables[0] == map[]
    && forall i :: 0 <= i < |commands| ==> tables[i + 1] == Next(tables[i], commands[i])
  }

  /** How many of the first `k` commands wrote the key. */
  function WritesTo(tables: seq<Table>, commands: seq<Command>, key: Key, k: nat): nat
    requires k <= |commands| < |tables|
  {
    if k == 0 then 0
    else
      WritesTo(tables, commands, key, k - 1)
      + if commands[k - 1].key == key && Writes(tables[k - 1], commands[k - 1]) then 1 else 0
  }

  lemma StepFacts(rows: Table, c: Command, key: Key)
    ensures Revision(Next(rows, c), key) == Revision(rows, key) + (if c.key == key && Writes(rows, c) then 1 else 0)
    ensures !Writes(rows, c) ==> Next(rows, c) == rows
    ensures Forgotten(rows, key) ==> key in Next(rows, c) && Next(rows, c)[key] == rows[key]
  {
    assert c.key in rows ==> rows[c.key := rows[c.key]] == rows;
  }

  /** An id's revision is the number of effective writes to it, so each of them raises it by exactly one. */
  lemma {:induction false} RevisionCountsWrites(tables: seq<Table>, commands: seq<Command>, key: Key, k: nat)
    requires History(tables, commands) && k < |tables|
    ensures Revision(tables[k], key) == WritesTo(tables, commands, key, k)
  {
    if k > 0 {
      RevisionCountsWrites(tables, commands, key, k - 1);
      StepFacts(tables[k - 1], commands[k - 1], key);
    }
  }

  lemma {:induction false} RevisionsOnlyRise(tables: seq<Table>, commands: seq<Command>, key: Key, i: nat, j: nat)
    requires History(tables, commands) && i <= j < |tables|
    ensures Revision(tables[i], key) <= Revision(tables[j], key)
    decreases j
  {
    if i < j {
      RevisionsOnlyRise(tables, commands, key, i, j - 1);
      StepFacts(tables[j - 1], commands[j - 1], key);
    }
  }

  /** Every effective write of an id that has a row, save or forget, starts from the row's revision; a save of an id
    * that has none starts from zero.
    */
  lemma WritesStartFromCurrent(rows: Table, c: Command)
    requires Writes(rows, c) && (c.Save? || c.key in rows)
    ensures c.expected == (if c.key in rows then rows[c.key].revision else 0)
  {
  }

  /** No lost update: of two effective commands of one id neither overwrites what the other wrote unseen, for they never
    * start from the same revision. Only the first forget of an id never seen starts from nothing.
    */
  lemma NoLostUpdate(tables: seq<Table>, commands: seq<Command>, i: nat, j: nat)
    requires History(tables, commands) && i < j < |commands| && commands[i].key == commands[j].key
    requires Writes(tables[i], commands[i]) && Writes(tables[j], commands[j])
    requires commands[i].Save? || commands[i].key in tables[i]
    ensures commands[i].expected == Revision(tables[i], commands[i].key)
    ensures commands[j].expected == Revision(tables[j], commands[j].key)
    ensures commands[i].expected < commands[j].expected
  {
    var key := commands[i].key;
    StepFacts(tables[i], commands[i], key);
    RevisionsOnlyRise(tables, commands, key, i + 1, j);
    assert key in tables[j];
    WritesStartFromCurrent(tables[i], commands[i]);
    WritesStartFromCurrent(tables[j], commands[j]);
  }

  /** A forgotten id keeps its tombstone for ever, even against a create that arrives after a forget of an id never
    * seen.
    */
  lemma {:induction false} ForgottenForEver(tables: seq<Table>, commands: seq<Command>, key: Key, i: nat, j: nat)
    requires History(tables, commands) && i <= j < |tables|
    requires Forgotten(tables[i], key)
    ensures key in tables[j] && tables[j][key] == tables[i][key]
    decreases j
  {
    if i < j {
      ForgottenForEver(tables, commands, key, i, j - 1);
      StepFacts(tables[j - 1], commands[j - 1], key);
    }
  }

  /** Sending a command again takes effect at most once. */
  lemma ResendWritesOnce(tables: seq<Table>, commands: seq<Command>, i: nat, j: nat)
    requires History(tables, commands) && i < j < |commands|
    requires commands[i] == commands[j] && Writes(tables[i], commands[i])
    ensures tables[j + 1] == tables[j]
  {
    var c := commands[i];
    StepFacts(tables[i], c, c.key);
    if c.Save? {
      RevisionsOnlyRise(tables, commands, c.key, i + 1, j);
    } else {
      ForgottenForEver(tables, commands, c.key, i + 1, j);
    }
    StepFacts(tables[j], c, c.key);
  }

  /** A scope never holds more than 100 live records. */
  lemma {:induction false} CapacityHolds(tables: seq<Table>, commands: seq<Command>, scope: Scope, k: nat)
    requires History(tables, commands) && k < |tables|
    ensures |Live(tables[k], scope)| <= 100
  {
    if k > 0 {
      CapacityHolds(tables, commands, scope, k - 1);
      var before, c := tables[k - 1], commands[k - 1];
      var after := Next(before, c);
      if Live(after, scope) <= Live(before, scope) {
        SubsetBound(Live(after, scope), Live(before, scope));
      } else {
        assert Live(after, scope) == Live(before, scope) + {c.key};
      }
    }
  }

  /** Command `i` is the last before `k` that wrote the key. */
  ghost predicate LastWriter(tables: seq<Table>, commands: seq<Command>, key: Key, k: nat, i: int)
    requires k <= |commands| < |tables|
  {
    && 0 <= i < k && commands[i].key == key && Writes(tables[i], commands[i])
    && forall j :: i < j < k && commands[j].key == key ==> !Writes(tables[j], commands[j])
  }

  predicate Stores(row: Row, c: Command) {
    row.content == if c.Save? then Some(c.content) else None
  }

  lemma WriteStores(rows: Table, c: Command)
    requires Writes(rows, c)
    ensures c.key in Next(rows, c) && Next(rows, c)[c.key].lastOperationId == c.operation
        && Stores(Next(rows, c)[c.key], c)
  {
  }

  /** Every row is what the last command that wrote it sent. */
  lemma {:induction false} RowHasWriter(tables: seq<Table>, commands: seq<Command>, key: Key, k: nat) returns (i: nat)
    requires History(tables, commands) && k < |tables| && key in tables[k]
    ensures LastWriter(tables, commands, key, k, i)
    ensures tables[k][key].lastOperationId == commands[i].operation && Stores(tables[k][key], commands[i])
  {
    var before, c := tables[k - 1], commands[k - 1];
    StepFacts(before, c, key);
    if c.key == key && Writes(before, c) {
      i := k - 1;
      WriteStores(before, c);
    } else {
      assert tables[k][key] == before[key];
      i := RowHasWriter(tables, commands, key, k - 1);
    }
  }

  /** The last command that wrote the key before `k` had the operation id of command `k` and wrote something else. */
  ghost predicate ReusedWithOtherContent(tables: seq<Table>, commands: seq<Command>, k: nat)
    requires k < |commands| < |tables| && commands[k].Save?
  {
    var c := commands[k];
    exists i :: LastWriter(tables, commands, c.key, k, i) && commands[i].operation == c.operation
                && (commands[i].Forget? || commands[i].content != c.content)
  }

  /** An acknowledged save is stored exactly unless the record's last writer used the same operation id for something
    * else.
    */
  lemma AcknowledgedSaveIsStoredExactly(tables: seq<Table>, commands: seq<Command>, k: nat)
    requires History(tables, commands) && k < |commands| && commands[k].Save?
    requires Answer(tables[k], commands[k]).Ok?
    ensures commands[k].key in tables[k + 1]
    ensures tables[k + 1][commands[k].key].content == Some(commands[k].content)
            <==> !ReusedWithOtherContent(tables, commands, k)
  {
    var c := commands[k];
    if c.key in tables[k] {
      var i := RowHasWriter(tables, commands, c.key, k);
      assert forall j :: LastWriter(tables, commands, c.key, k, j) ==> j == i;
    } else {
      assert Revision(tables[k], c.key) == 0;
      NeverWritten(tables, commands, c.key, k);
    }
  }

  lemma NeverWritten(tables: seq<Table>, commands: seq<Command>, key: Key, k: nat)
    requires History(tables, commands) && k < |tables| && Revision(tables[k], key) == 0
    ensures forall i :: !LastWriter(tables, commands, key, k, i)
  {
    forall i | LastWriter(tables, commands, key, k, i) ensures false {
      StepFacts(tables[i], commands[i], key);
      RevisionsOnlyRise(tables, commands, key, i + 1, k);
    }
  }

  /** Each operation id names one command, as it does when it is made of a session and one of its tool calls. */
  ghost predicate OperationsIdentify(commands: seq<Command>) {
    forall i, j :: 0 <= i < |commands| && 0 <= j < |commands| && commands[i].operation == commands[j].operation ==>
      commands[i] == commands[j]
  }

  /** With such ids every acknowledged save is stored: the record holds what was sent. */
  lemma AcknowledgedSaveIsStored(tables: seq<Table>, commands: seq<Command>, k: nat)
    requires History(tables, commands) && OperationsIdentify(commands)
    requires k < |commands| && commands[k].Save? && Answer(tables[k], commands[k]).Ok?
    ensures commands[k].key in tables[k + 1] && tables[k + 1][commands[k].key].content == Some(commands[k].content)
  {
    AcknowledgedSaveIsStoredExactly(tables, commands, k);
  }

  /** What uniqueness of the ids is for; no caller reuses one. A save with the operation id of a forget is acknowledged
    * although the record is gone.
    */
  lemma ReusedOperationMisleads(key: Key, content: string)
    ensures var gone := Next(map[], Forget(key, 0, "op"));
            var save := Save(key, 0, content, "op", "session");
            Answer(gone, save).Ok? && Forgotten(Next(gone, save), key)
  {
  }
}

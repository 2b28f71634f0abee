/** The canonical serialisation of a JSON value, whose SHA-256 digest is the revision of a consent request.
  *
  * Texts are sequences of UTF-16 code units. A number is represented by the decimal text that ECMAScript gives it,
  * which is one-to-one on finite numbers except that both zeros have the text 0.
  */
module CanonicalJson {
  import opened Sequences
  import opened JsObjects
  import opened Utf8

  datatype Json =
    | Undefined
    | Null
    | Bool(value: bool)
    | Number(numeral: Text)
    | Str(text: Text)
    | Arr(items: seq<Json>)
    | Obj(members: seq<Entry<Json>>)

  // ---- values up to key order ----

  /** What a value means: objects are finite maps, so key order is gone at every depth; arrays keep their order. */
  datatype Value =
    | VNull
    | VBool(value: bool)
    | VNumber(numeral: Text)
    | VString(text: Text)
    | VArray(items: seq<Value>)
    | VObject(members: map<Text, Value>)

  function Denote(v: Json): Value
    decreases v, 1
  {
    match v
    case Undefined => VNull
    case Null => VNull
    case Bool(b) => VBool(b)
    case Number(n) => VNumber(n)
    case Str(s) => VString(s)
    case Arr(items) => VArray(DenoteItems(items))
    case Obj(members) => VObject(DenoteMembers(members))
  }

  function DenoteItems(items: seq<Json>): (values: seq<Value>)
    ensures |values| == |items|
    ensures forall i :: 0 <= i < |items| ==> values[i] == Denote(items[i])
    decreases items, 0
  {
    if items == [] then [] else [Denote(items[0])] + DenoteItems(items[1..])
  }

  /** A member whose value is undefined is no member. */
  function DenoteMembers(members: seq<Entry<Json>>): map<Text, Value>
    decreases members, 0
  {
    if members == [] then map[]
    else
      var rest := DenoteMembers(members[1..]);
      if members[0].value.Undefined? then rest else rest[members[0].key := Denote(members[0].value)]
  }

  // ---- well-formed values ----

  predicate IsNumeralUnit(c: CodeUnit) {
    IsDigit(c) || c == 43 || c == 45 || c == 46 || c == 101
  }

  /** Decimal texts start with a digit or a minus sign; see section 6 of RFC 8259. */
  predicate IsNumeral(n: Text) {
    n != [] && (IsDigit(n[0]) || n[0] == 45) && forall c <- n :: IsNumeralUnit(c)
  }

  /** Keys are distinct, and nothing undefined stands alone or in an array. */
  ghost predicate WellFormed(v: Json) {
    match v
    case Undefined => false
    case Number(n) => IsNumeral(n)
    case Arr(items) => forall i :: 0 <= i < |items| ==> WellFormed(items[i])
    case Obj(members) =>
      && DistinctKeys(members)
      && forall i :: 0 <= i < |members| ==> members[i].value.Undefined? || WellFormed(members[i].value)
    case _ => true
  }

  // ---- the replacer ----

  /** Every object rebuilt with its keys sorted, listed in the order of its own properties, without undefined
    * members.
    */
  function Canonical(v: Json): Json
    decreases v, 1
  {
    match v
    case Arr(items) => Arr(CanonicalItems(items))
    case Obj(members) => Obj(OwnOrder(SortedByKey(CanonicalMembers(members))))
    case _ => v
  }

  function CanonicalItems(items: seq<Json>): (result: seq<Json>)
    ensures |result| == |items|
    ensures forall i :: 0 <= i < |items| ==> result[i] == Canonical(items[i])
    decreases items, 0
  {
    if items == [] then [] else [Canonical(items[0])] + CanonicalItems(items[1..])
  }

  function CanonicalMembers(members: seq<Entry<Json>>): seq<Entry<Json>>
    decreases members, 0
  {
    if members == [] then []
    else
      (if members[0].value.Undefined? then [] else [Entry(members[0].key, Canonical(members[0].value))])
      + CanonicalMembers(members[1..])
  }

  // ---- the text ----

  function HexDigit(d: int): CodeUnit
    requires 0 <= d < 16
  {
    if d < 10 then 48 + d else 87 + d
  }

  /** Section 7 of RFC 8259: two-character escapes where there are any, else six characters for the control characters
    * and, as ECMAScript has it, for a surrogate outside a pair.
    */
  function EscapedUnit(c: CodeUnit): Text {
    if c == 8 then [92, 98]
    else if c == 9 then [92, 116]
    else if c == 10 then [92, 110]
    else if c == 12 then [92, 102]
    else if c == 13 then [92, 114]
    else if c == 34 then [92, 34]
    else if c == 92 then [92, 92]
    else if c < 32 || IsSurrogate(c) then
      [92, 117, HexDigit(c / 4096), HexDigit(c / 256 % 16), HexDigit(c / 16 % 16), HexDigit(c % 16)]
    else [c]
  }

  /** `inPair` says that the unit before was the high half of a pair, so the first unit is its low half. */
  function Escaped(s: Text, inPair: bool): Text {
    if s == [] then []
    else if inPair then [s[0]] + Escaped(s[1..], false)
    else if IsHigh(s[0]) && |s| > 1 && IsLow(s[1]) then [s[0]] + Escaped(s[1..], true)
    else EscapedUnit(s[0]) + Escaped(s[1..], false)
  }

  function Quoted(s: Text): Text {
    [34] + Escaped(s, false) + [34]
  }

  const NULL: Text := [110, 117, 108, 108]
  const TRUE: Text := [116, 114, 117, 101]
  const FALSE: Text := [102, 97, 108, 115, 101]

  function TextOf(v: Json): Text
    decreases v, 1
  {
    match v
    case Undefined => []
    case Null => NULL
    case Bool(b) => if b then TRUE else FALSE
    case Number(n) => n
    case Str(s) => Quoted(s)
    case Arr(items) => [91] + TextOfItems(items) + [93]
    case Obj(members) => [123] + TextOfMembers(members) + [125]
  }

  function TextOfItems(items: seq<Json>): Text
    decreases items, 0
  {
    if items == [] then []
    else TextOf(items[0]) + (if |items| == 1 then [] else [44]) + TextOfItems(items[1..])
  }

  function TextOfMembers(members: seq<Entry<Json>>): Text
    decreases members, 0
  {
    if members == [] then []
    else
      Quoted(members[0].key) + [58] + TextOf(members[0].value)
      + (if |members| == 1 then [] else [44]) + TextOfMembers(members[1..])
  }

  /** `JSON.stringify` with the key-sorting replacer. */
  function Serialised(v: Json): Text {
    TextOf(Canonical(v))
  }

  // ---- the replacer keeps the meaning ----

  lemma {:induction false} MembersByElement(members: seq<Entry<Json>>, key: Text)
    requires DistinctKeys(members)
    ensures key in DenoteMembers(members) <==> exists m :: m in members && m.key == key && !m.value.Undefined?
    ensures forall m :: m in members && m.key == key && !m.value.Undefined? ==>
              key in DenoteMembers(members) && DenoteMembers(members)[key] == Denote(m.value)
  {
    if members != [] {
      var first, rest := members[0], members[1..];
      DistinctTail(members);
      MembersByElement(rest, key);
      assert forall m :: m in rest ==> m.key != first.key;
      assert forall m :: m in members <==> m == first || m in rest;
    }
  }

  /** Members with the same elements mean the same object. */
  lemma SameMembersSameMeaning(a: seq<Entry<Json>>, b: seq<Entry<Json>>)
    requires DistinctKeys(a) && DistinctKeys(b) && (forall m :: m in a <==> m in b)
    ensures DenoteMembers(a) == DenoteMembers(b)
  {
    forall key ensures key in DenoteMembers(a) <==> key in DenoteMembers(b)
      ensures key in DenoteMembers(a) && key in DenoteMembers(b) ==> DenoteMembers(a)[key] == DenoteMembers(b)[key]
    {
      MembersByElement(a, key);
      MembersByElement(b, key);
    }
  }

  lemma {:induction false} CanonicalMembersFacts(members: seq<Entry<Json>>)
    requires DistinctKeys(members)
    ensures DistinctKeys(CanonicalMembers(members))
    ensures forall m :: m in CanonicalMembers(members) <==>
              exists n :: n in members && !n.value.Undefined? && m == Entry(n.key, Canonical(n.value))
  {
    if members != [] {
      DistinctTail(members);
      CanonicalMembersFacts(members[1..]);
      var rest := CanonicalMembers(members[1..]);
      assert members == [members[0]] + members[1..];
      forall i | 0 <= i < |rest| ensures rest[i].key != members[0].key {
        assert rest[i] in rest;
        var n :| n in members[1..] && rest[i] == Entry(n.key, Canonical(n.value));
      }
      forall m ensures m in CanonicalMembers(members) <==>
                 exists n :: n in members && !n.value.Undefined? && m == Entry(n.key, Canonical(n.value))
      {
        if m in CanonicalMembers(members) && m !in rest {
          assert members[0] in members;
        }
      }
    }
  }

  lemma {:induction false} CanonicalKeepsMeaning(v: Json)
    requires WellFormed(v)
    ensures Denote(Canonical(v)) == Denote(v) && !Canonical(v).Undefined?
    decreases v
  {
    match v
    case Arr(items) =>
      forall i | 0 <= i < |items| ensures Denote(CanonicalItems(items)[i]) == Denote(items[i]) {
        CanonicalKeepsMeaning(items[i]);
      }
    case Obj(members) =>
      forall m | m in members && !m.value.Undefined?
        ensures Denote(Canonical(m.value)) == Denote(m.value) && !Canonical(m.value).Undefined?
      {
        CanonicalKeepsMeaning(m.value);
      }
      CanonicalMembersKeepMeaning(members);
      OrderKeepsMembers(members);
      SameMembersSameMeaning(OwnOrder(SortedByKey(CanonicalMembers(members))), CanonicalMembers(members));
    case _ =>
  }

  lemma CanonicalMembersKeepMeaning(members: seq<Entry<Json>>)
    requires DistinctKeys(members)
    requires forall m :: m in members && !m.value.Undefined? ==>
               Denote(Canonical(m.value)) == Denote(m.value) && !Canonical(m.value).Undefined?
    ensures DenoteMembers(CanonicalMembers(members)) == DenoteMembers(members)
  {
    CanonicalMembersFacts(members);
    forall key ensures key in DenoteMembers(CanonicalMembers(members)) <==> key in DenoteMembers(members)
      ensures key in DenoteMembers(members) ==>
          DenoteMembers(CanonicalMembers(members))[key] == DenoteMembers(members)[key]
    {
      MembersByElement(members, key);
      MembersByElement(CanonicalMembers(members), key);
      if n :| n in members && n.key == key && !n.value.Undefined? {
        assert Entry(n.key, Canonical(n.value)) in CanonicalMembers(members);
      }
    }
  }

  lemma OrderKeepsMembers(members: seq<Entry<Json>>)
    requires DistinctKeys(members)
    ensures DistinctKeys(CanonicalMembers(members))
    ensures DistinctKeys(OwnOrder(SortedByKey(CanonicalMembers(members))))
    ensures forall m :: m in OwnOrder(SortedByKey(CanonicalMembers(members))) <==> m in CanonicalMembers(members)
  {
    CanonicalMembersFacts(members);
    SortedByKeyFacts(CanonicalMembers(members));
    OwnOrderKeepsElements(SortedByKey(CanonicalMembers(members)));
  }

  /** Values with one meaning have one canonical form. */
  lemma {:induction false} MeaningDeterminesCanonical(v: Json, w: Json)
    requires WellFormed(v) && WellFormed(w) && Denote(v) == Denote(w)
    ensures Canonical(v) == Canonical(w)
    decreases v
  {
    match v
    case Arr(items) =>
      forall i | 0 <= i < |items| ensures Canonical(items[i]) == Canonical(w.items[i]) {
        assert DenoteItems(items)[i] == DenoteItems(w.items)[i];
        MeaningDeterminesCanonical(items[i], w.items[i]);
      }
      assert CanonicalItems(items) == CanonicalItems(w.items);
    case Obj(members) =>
      forall m | m in CanonicalMembers(members) ensures m in CanonicalMembers(w.members) {
        CanonicalMembersFacts(members);
        var n :| n in members && !n.value.Undefined? && m == Entry(n.key, Canonical(n.value));
        var other := Counterpart(members, w.members, n);
        MeaningDeterminesCanonical(n.value, other.value);
        CanonicalMembersFacts(w.members);
      }
      forall m | m in CanonicalMembers(w.members) ensures m in CanonicalMembers(members) {
        CanonicalMembersFacts(w.members);
        var n :| n in w.members && !n.value.Undefined? && m == Entry(n.key, Canonical(n.value));
        var other := Counterpart(w.members, members, n);
        MeaningDeterminesCanonical(other.value, n.value);
        CanonicalMembersFacts(members);
      }
      OrderKeepsMembers(members);
      OrderKeepsMembers(w.members);
      SortForgetsOrder(CanonicalMembers(members), CanonicalMembers(w.members));
    case _ =>
  }

  /** The member of an equal object with the same key. */
  lemma Counterpart(members: seq<Entry<Json>>, others: seq<Entry<Json>>, m: Entry<Json>) returns (n: Entry<Json>)
    requires DistinctKeys(members) && DistinctKeys(others) && DenoteMembers(members) == DenoteMembers(others)
    requires m in members && !m.value.Undefined?
    ensures n in others && n.key == m.key && !n.value.Undefined? && Denote(n.value) == Denote(m.value)
  {
    MembersByElement(members, m.key);
    MembersByElement(others, m.key);
    n :| n in others && n.key == m.key && !n.value.Undefined?;
  }

  // ---- the text is uniquely decodable ----

  /** What may follow a value inside a text. */
  predicate Delimited(rest: Text) {
    rest == [] || rest[0] == 44 || rest[0] == 93 || rest[0] == 125
  }

  /** Nothing undefined is left and numbers have their texts. */
  ghost predicate Plain(v: Json) {
    match v
    case Undefined => false
    case Number(n) => IsNumeral(n)
    case Arr(items) => forall i :: 0 <= i < |items| ==> Plain(items[i])
    case Obj(members) => forall i :: 0 <= i < |members| ==> Plain(members[i].value)
    case _ => true
  }

  lemma {:induction false} NumeralCancels(n: Text, m: Text, r: Text, q: Text)
    requires (forall c <- n :: IsNumeralUnit(c)) && (forall c <- m :: IsNumeralUnit(c))
    requires Delimited(r) && Delimited(q) && n + r == m + q
    ensures n == m && r == q
  {
    assert n == [] ==> n + r == r;
    assert m == [] ==> m + q == q;
    assert n != [] ==> n[0] in n && n[0] == (n + r)[0];
    assert m != [] ==> m[0] in m && m[0] == (m + q)[0];
    if n != [] && m != [] {
      assert n[1..] + r == (n + r)[1..] && m[1..] + q == (m + q)[1..];
      NumeralCancels(n[1..], m[1..], r, q);
      assert n == [n[0]] + n[1..] && m == [m[0]] + m[1..];
    }
  }

  lemma HexDetermines(c: CodeUnit, d: CodeUnit)
    requires c / 4096 == d / 4096 && c / 256 % 16 == d / 256 % 16 && c / 16 % 16 == d / 16 % 16 && c % 16 == d % 16
    ensures c == d
  {
    assert c / 16 / 16 == c / 256 && c / 256 / 16 == c / 4096;
    assert d / 16 / 16 == d / 256 && d / 256 / 16 == d / 4096;
  }

  /** Escapes are prefix-free, and none begins with a quotation mark. */
  lemma EscapedUnitCancels(c: CodeUnit, d: CodeUnit, r: Text, q: Text)
    requires EscapedUnit(c) + r == EscapedUnit(d) + q
    ensures c == d && r == q
  {
    var e, f := EscapedUnit(c), EscapedUnit(d);
    assert e[0] == (e + r)[0] && f[0] == (f + q)[0];
    if |e| > 1 && |f| > 1 {
      assert e[1] == (e + r)[1] && f[1] == (f + q)[1];
      if |e| == 6 {
        assert e[2] == (e + r)[2] && f[2] == (f + q)[2];
        assert e[3] == (e + r)[3] && f[3] == (f + q)[3];
        assert e[4] == (e + r)[4] && f[4] == (f + q)[4];
        assert e[5] == (e + r)[5] && f[5] == (f + q)[5];
        HexDetermines(c, d);
      }
    }
    assert c == d;
    assert r == (e + r)[|e|..] && q == (f + q)[|f|..];
  }

  /** What the escaping of a nonempty text begins with: one unit as it is, or one escape. */
  function Head(s: Text, inPair: bool): Text
    requires s != []
  {
    if inPair || (IsHigh(s[0]) && |s| > 1 && IsLow(s[1])) then [s[0]] else EscapedUnit(s[0])
  }

  predicate OpensPair(s: Text, inPair: bool) {
    s != [] && !inPair && IsHigh(s[0]) && |s| > 1 && IsLow(s[1])
  }

  /** In the middle of a pair the low half comes next. */
  predicate Fits(s: Text, inPair: bool) {
    inPair ==> s != [] && IsLow(s[0])
  }

  lemma HeadsCancel(s: Text, t: Text, inPair: bool, r: Text, q: Text)
    requires s != [] && t != [] && Fits(s, inPair) && Fits(t, inPair)
    requires Head(s, inPair) + r == Head(t, inPair) + q
    ensures s[0] == t[0] && r == q && OpensPair(s, inPair) == OpensPair(t, inPair)
  {
    var e, f := Head(s, inPair), Head(t, inPair);
    assert e[0] == (e + r)[0] && f[0] == (f + q)[0];
    if inPair || (OpensPair(s, inPair) && OpensPair(t, inPair)) {
      assert r == (e + r)[1..] && q == (f + q)[1..];
    } else if !OpensPair(s, inPair) && !OpensPair(t, inPair) {
      EscapedUnitCancels(s[0], t[0], r, q);
    }
  }

  lemma EscapedSplit(s: Text, inPair: bool, r: Text)
    requires s != []
    ensures Escaped(s, inPair) + r == Head(s, inPair) + (Escaped(s[1..], OpensPair(s, inPair)) + r)
    ensures (Escaped(s, inPair) + r)[0] == Head(s, inPair)[0]
  {
    assert Escaped(s, inPair) == Head(s, inPair) + Escaped(s[1..], OpensPair(s, inPair));
    Reassociate(Head(s, inPair), Escaped(s[1..], OpensPair(s, inPair)), r);
  }

  /** An escaped text and a quotation mark end where they end: nothing that follows can be part of them. */
  lemma EndsTogether(s: Text, t: Text, inPair: bool, r: Text, q: Text)
    requires Fits(s, inPair) && Fits(t, inPair) && s == []
    requires Escaped(s, inPair) + ([34] + r) == Escaped(t, inPair) + ([34] + q)
    ensures t == [] && r == q
  {
    assert Escaped(s, inPair) + ([34] + r) == [34] + r;
    if t != [] {
      EscapedSplit(t, inPair, [34] + q);
      HeadIsNoQuote(t, inPair);
    } else {
      assert r == ([34] + r)[1..] && q == ([34] + q)[1..];
    }
  }

  lemma HeadIsNoQuote(s: Text, inPair: bool)
    requires s != [] && Fits(s, inPair)
    ensures Head(s, inPair)[0] != 34
  {
  }

  lemma {:induction false} EscapedCancels(s: Text, t: Text, inPair: bool, r: Text, q: Text)
    requires Fits(s, inPair) && Fits(t, inPair)
    requires Escaped(s, inPair) + ([34] + r) == Escaped(t, inPair) + ([34] + q)
    ensures s == t && r == q
    decreases |s|
  {
    if s == [] {
      EndsTogether(s, t, inPair, r, q);
    } else if t == [] {
      EndsTogether(t, s, inPair, q, r);
    } else {
      EscapedSplit(s, inPair, [34] + r);
      EscapedSplit(t, inPair, [34] + q);
      HeadsCancel(s, t, inPair, Escaped(s[1..], OpensPair(s, inPair)) + ([34] + r),
          Escaped(t[1..], OpensPair(t, inPair)) + ([34] + q));
      EscapedCancels(s[1..], t[1..], OpensPair(s, inPair), r, q);
      assert s == [s[0]] + s[1..] && t == [t[0]] + t[1..];
    }
  }

  lemma QuotedTail(s: Text, r: Text)
    ensures (Quoted(s) + r)[1..] == Escaped(s, false) + ([34] + r)
  {
    Unbracket(34, Escaped(s, false), 34, r);
  }

  lemma QuotedCancels(s: Text, t: Text, r: Text, q: Text)
    requires Quoted(s) + r == Quoted(t) + q
    ensures s == t && r == q
  {
    QuotedTail(s, r);
    QuotedTail(t, q);
    EscapedCancels(s, t, false, r, q);
  }

  /** What the first unit of a text tells. */
  function Kind(c: CodeUnit): nat {
    if c == 110 then 0 else if c == 116 then 1 else if c == 102 then 2 else if IsDigit(c) || c == 45 then 3
    else if c == 34 then 4 else if c == 91 then 5 else 6
  }

  function KindOf(v: Json): nat {
    match v
    case Null => 0
    case Bool(b) => if b then 1 else 2
    case Number(_) => 3
    case Str(_) => 4
    case Arr(_) => 5
    case _ => 6
  }

  lemma TextShowsKind(v: Json, r: Text)
    requires Plain(v)
    ensures TextOf(v) != [] && Kind((TextOf(v) + r)[0]) == KindOf(v)
  {
    assert TextOf(v)[0] == (TextOf(v) + r)[0];
  }

  lemma {:induction false} TextCancels(a: Json, b: Json, r: Text, q: Text)
    requires Plain(a) && Plain(b) && Delimited(r) && Delimited(q)
    requires TextOf(a) + r == TextOf(b) + q
    ensures a == b && r == q
    decreases a, 1
  {
    TextShowsKind(a, r);
    TextShowsKind(b, q);
    match a
    case Number(n) => NumeralCancels(n, b.numeral, r, q);
    case Str(s) => QuotedCancels(s, b.text, r, q);
    case Arr(items) =>
      Unbracket(91, TextOfItems(items), 93, r);
      Unbracket(91, TextOfItems(b.items), 93, q);
      ItemsCancel(items, b.items, r, q);
    case Obj(members) =>
      Unbracket(123, TextOfMembers(members), 125, r);
      Unbracket(123, TextOfMembers(b.members), 125, q);
      MembersCancel(members, b.members, r, q);
    case _ =>
      DropText(TextOf(a), r);
      DropText(TextOf(b), q);
  }

  lemma Unbracket(open: CodeUnit, body: Text, close: CodeUnit, rest: Text)
    ensures (([open] + body + [close]) + rest)[1..] == body + ([close] + rest)
  {
  }

  lemma DropText(text: Text, rest: Text)
    ensures (text + rest)[|text|..] == rest
  {
  }

  /** What follows the first item: a comma and the others, or the closing bracket. */
  function ItemsRest(items: seq<Json>, r: Text): Text
    requires items != []
  {
    if |items| == 1 then [93] + r else [44] + (TextOfItems(items[1..]) + ([93] + r))
  }

  lemma ItemsSplit(items: seq<Json>, r: Text)
    requires items != []
    ensures TextOfItems(items) + ([93] + r) == TextOf(items[0]) + ItemsRest(items, r)
  {
  }

  /** No value's text begins with a closing bracket. */
  lemma TextOpens(v: Json)
    requires Plain(v)
    ensures TextOf(v) != [] && TextOf(v)[0] != 93
  {
  }

  lemma FirstUnit(text: Text, rest: Text)
    requires text != []
    ensures (text + rest)[0] == text[0]
  {
  }

  /** The text of items never begins like the end of an empty array. */
  lemma ItemsOpen(items: seq<Json>, r: Text)
    requires items != [] && Plain(items[0])
    ensures var x := TextOfItems(items) + ([93] + r); x != [] && x[0] != 93
  {
    ItemsSplit(items, r);
    TextOpens(items[0]);
    FirstUnit(TextOf(items[0]), ItemsRest(items, r));
  }

  lemma ItemsEndTogether(a: seq<Json>, b: seq<Json>, r: Text, q: Text)
    requires a == [] && (b != [] ==> Plain(b[0]))
    requires TextOfItems(a) + ([93] + r) == TextOfItems(b) + ([93] + q)
    ensures b == [] && r == q
  {
    NoText(r, 93);
    if b != [] {
      ItemsOpen(b, q);
    }
    NoText(q, 93);
  }

  lemma NoText(rest: Text, close: CodeUnit)
    ensures [] + ([close] + rest) == [close] + rest && ([close] + rest)[0] == close && ([close] + rest)[1..] == rest
  {
  }

  lemma SameParts<T>(a: seq<T>, b: seq<T>)
    requires a != [] && b != [] && a[0] == b[0] && a[1..] == b[1..]
    ensures a == b
  {
    assert a == [a[0]] + a[1..] && b == [b[0]] + b[1..];
  }

  lemma ItemsRestCancels(a: seq<Json>, b: seq<Json>, r: Text, q: Text)
    requires a != [] && b != [] && ItemsRest(a, r) == ItemsRest(b, q)
    ensures |a| == 1 <==> |b| == 1
    ensures |a| == 1 ==> r == q
    ensures |a| > 1 ==> TextOfItems(a[1..]) + ([93] + r) == TextOfItems(b[1..]) + ([93] + q)
  {
    assert ItemsRest(a, r)[0] == ItemsRest(b, q)[0] && ItemsRest(a, r)[1..] == ItemsRest(b, q)[1..];
  }

  lemma {:induction false} ItemsCancel(a: seq<Json>, b: seq<Json>, r: Text, q: Text)
    requires (forall i :: 0 <= i < |a| ==> Plain(a[i])) && (forall i :: 0 <= i < |b| ==> Plain(b[i]))
    requires TextOfItems(a) + ([93] + r) == TextOfItems(b) + ([93] + q)
    ensures a == b && r == q
    decreases a, 0
  {
    if a == [] {
      ItemsEndTogether(a, b, r, q);
    } else if b == [] {
      ItemsEndTogether(b, a, q, r);
    } else {
      ItemsSplit(a, r);
      ItemsSplit(b, q);
      TextCancels(a[0], b[0], ItemsRest(a, r), ItemsRest(b, q));
      ItemsRestCancels(a, b, r, q);
      if |a| > 1 {
        ItemsCancel(a[1..], b[1..], r, q);
      }
      SameParts(a, b);
    }
  }

  function MembersRest(members: seq<Entry<Json>>, r: Text): Text
    requires members != []
  {
    if |members| == 1 then [125] + r else [44] + (TextOfMembers(members[1..]) + ([125] + r))
  }

  lemma MembersSplit(members: seq<Entry<Json>>, r: Text)
    requires members != []
    ensures TextOfMembers(members) + ([125] + r)
            == Quoted(members[0].key) + ([58] + (TextOf(members[0].value) + MembersRest(members, r)))
  {
    var comma: Text := if |members| == 1 then [] else [44];
    var others := TextOfMembers(members[1..]);
    MembersReassociate(Quoted(members[0].key), TextOf(members[0].value), comma, others, [125] + r);
    RestOfMembers(members, r, comma, others);
  }

  lemma RestOfMembers(members: seq<Entry<Json>>, r: Text, comma: Text, others: Text)
    requires members != [] && others == TextOfMembers(members[1..]) && comma == if |members| == 1 then [] else [44]
    ensures comma + (others + ([125] + r)) == MembersRest(members, r)
  {
  }

  lemma MembersReassociate(key: Text, value: Text, comma: Text, others: Text, rest: Text)
    ensures (key + [58] + value + comma + others) + rest == key + ([58] + (value + (comma + (others + rest))))
  {
  }

  lemma MembersOpen(members: seq<Entry<Json>>, r: Text)
    requires members != []
    ensures var x := TextOfMembers(members) + ([125] + r); x != [] && x[0] == 34
  {
    MembersSplit(members, r);
    FirstUnit(Quoted(members[0].key), [58] + (TextOf(members[0].value) + MembersRest(members, r)));
  }

  lemma MembersEndTogether(a: seq<Entry<Json>>, b: seq<Entry<Json>>, r: Text, q: Text)
    requires a == []
    requires TextOfMembers(a) + ([125] + r) == TextOfMembers(b) + ([125] + q)
    ensures b == [] && r == q
  {
    NoText(r, 125);
    if b != [] {
      MembersOpen(b, q);
    }
    NoText(q, 125);
  }

  lemma MembersRestCancels(a: seq<Entry<Json>>, b: seq<Entry<Json>>, r: Text, q: Text)
    requires a != [] && b != [] && MembersRest(a, r) == MembersRest(b, q)
    ensures |a| == 1 <==> |b| == 1
    ensures |a| == 1 ==> r == q
    ensures |a| > 1 ==> TextOfMembers(a[1..]) + ([125] + r) == TextOfMembers(b[1..]) + ([125] + q)
  {
    assert MembersRest(a, r)[0] == MembersRest(b, q)[0] && MembersRest(a, r)[1..] == MembersRest(b, q)[1..];
  }

  lemma KeysCancel(a: seq<Entry<Json>>, b: seq<Entry<Json>>, r: Text, q: Text)
    requires a != [] && b != []
    requires TextOfMembers(a) + ([125] + r) == TextOfMembers(b) + ([125] + q)
    ensures a[0].key == b[0].key
    ensures TextOf(a[0].value) + MembersRest(a, r) == TextOf(b[0].value) + MembersRest(b, q)
  {
    var c, d := TextOf(a[0].value) + MembersRest(a, r), TextOf(b[0].value) + MembersRest(b, q);
    MembersSplit(a, r);
    MembersSplit(b, q);
    QuotedCancels(a[0].key, b[0].key, [58] + c, [58] + d);
    DropText([58], c);
    DropText([58], d);
  }

  lemma {:induction false} MembersCancel(a: seq<Entry<Json>>, b: seq<Entry<Json>>, r: Text, q: Text)
    requires (forall i :: 0 <= i < |a| ==> Plain(a[i].value)) && (forall i :: 0 <= i < |b| ==> Plain(b[i].value))
    requires TextOfMembers(a) + ([125] + r) == TextOfMembers(b) + ([125] + q)
    ensures a == b && r == q
    decreases a, 0
  {
    if a == [] {
      MembersEndTogether(a, b, r, q);
    } else if b == [] {
      MembersEndTogether(b, a, q, r);
    } else {
      KeysCancel(a, b, r, q);
      TextCancels(a[0].value, b[0].value, MembersRest(a, r), MembersRest(b, q));
      MembersRestCancels(a, b, r, q);
      if |a| > 1 {
        MembersCancel(a[1..], b[1..], r, q);
      }
      SameParts(a, b);
    }
  }

  // ---- the theorem ----

  lemma {:induction false} CanonicalIsPlain(v: Json)
    requires WellFormed(v)
    ensures Plain(Canonical(v))
    decreases v
  {
    match v
    case Arr(items) =>
      forall i | 0 <= i < |items| ensures Plain(CanonicalItems(items)[i]) {
        CanonicalIsPlain(items[i]);
      }
    case Obj(members) =>
      var own := OwnOrder(SortedByKey(CanonicalMembers(members)));
      OrderKeepsMembers(members);
      CanonicalMembersFacts(members);
      forall i | 0 <= i < |own| ensures Plain(own[i].value) {
        assert own[i] in own;
        var n :| n in members && !n.value.Undefined? && own[i] == Entry(n.key, Canonical(n.value));
        CanonicalIsPlain(n.value);
      }
    case _ =>
  }

  /** The serialisation is injective up to key order: two values have the same text exactly when they are equal as
    * values, with object key order immaterial at every depth and array order kept.
    */
  lemma SerialisationIsCanonical(v: Json, w: Json)
    requires WellFormed(v) && WellFormed(w)
    ensures Serialised(v) == Serialised(w) <==> Denote(v) == Denote(w)
  {
    if Denote(v) == Denote(w) {
      MeaningDeterminesCanonical(v, w);
    }
    if Serialised(v) == Serialised(w) {
      CanonicalIsPlain(v);
      CanonicalIsPlain(w);
      assert Serialised(v) + [] == Serialised(w) + [];
      TextCancels(Canonical(v), Canonical(w), [], []);
      CanonicalKeepsMeaning(v);
      CanonicalKeepsMeaning(w);
    }
  }

  // ---- the text is JSON ----

  function HexValue(c: CodeUnit): int {
    if c < 58 then c - 48 else c - 87
  }

  function HexUnit(a: CodeUnit, b: CodeUnit, c: CodeUnit, d: CodeUnit): int {
    ((HexValue(a) * 16 + HexValue(b)) * 16 + HexValue(c)) * 16 + HexValue(d)
  }

  /** Section 7 of RFC 8259, read the other way: what the inside of a string text stands for. */
  function Unescaped(t: Text): seq<int> {
    if t == [] then []
    else if t[0] != 92 || |t| == 1 then [t[0]] + Unescaped(t[1..])
    else if t[1] == 117 && |t| >= 6 then [HexUnit(t[2], t[3], t[4], t[5])] + Unescaped(t[6..])
    else
      [if t[1] == 98 then 8
       else if t[1] == 116 then 9
       else if t[1] == 110 then 10
       else if t[1] == 102 then 12
       else if t[1] == 114 then 13
       else t[1]] + Unescaped(t[2..])
  }

  lemma HexUnitInverts(c: CodeUnit)
    ensures HexUnit(HexDigit(c / 4096), HexDigit(c / 256 % 16), HexDigit(c / 16 % 16), HexDigit(c % 16)) == c
  {
    assert c / 16 / 16 == c / 256 && c / 256 / 16 == c / 4096;
  }

  /** A two-character escape. */
  lemma UnescapesShort(c: CodeUnit, rest: Text)
    requires |EscapedUnit(c)| == 2
    ensures Unescaped(EscapedUnit(c) + rest) == [c] + Unescaped(rest)
  {
    var t := EscapedUnit(c) + rest;
    assert t[0] == 92 && t[1] == EscapedUnit(c)[1] && t[2..] == rest;
  }

  /** A six-character escape. */
  lemma UnescapesHex(c: CodeUnit, rest: Text)
    requires |EscapedUnit(c)| == 6
    ensures Unescaped(EscapedUnit(c) + rest) == [c] + Unescaped(rest)
  {
    var t := EscapedUnit(c) + rest;
    HexUnitInverts(c);
    assert t[0] == 92 && t[1] == 117 && t[6..] == rest;
    assert t[2] == HexDigit(c / 4096) && t[3] == HexDigit(c / 256 % 16);
    assert t[4] == HexDigit(c / 16 % 16) && t[5] == HexDigit(c % 16);
  }

  lemma UnescapesUnit(c: CodeUnit, rest: Text)
    ensures Unescaped(EscapedUnit(c) + rest) == [c] + Unescaped(rest)
  {
    if |EscapedUnit(c)| == 2 {
      UnescapesShort(c, rest);
    } else if |EscapedUnit(c)| == 6 {
      UnescapesHex(c, rest);
    } else {
      UnescapesPlain(c, rest);
    }
  }

  /** Reading an escaped text gives back the text. */
  lemma {:induction false} UnescapeInverts(s: Text)
    ensures Unescaped(Escaped(s, false)) == s
    decreases |s|
  {
    if s == [] {
    } else if OpensPair(s, false) {
      var rest := Escaped(s[2..], false);
      assert s[1..][1..] == s[2..] && s[1..][0] == s[1];
      assert Escaped(s, false) == [s[0]] + ([s[1]] + rest);
      UnescapeInverts(s[2..]);
      UnescapesPlain(s[0], [s[1]] + rest);
      UnescapesPlain(s[1], rest);
      assert s == [s[0]] + ([s[1]] + s[2..]);
    } else {
      UnescapeInverts(s[1..]);
      UnescapesUnit(s[0], Escaped(s[1..], false));
    }
  }

  lemma UnescapesPlain(c: CodeUnit, rest: Text)
    requires c != 92
    ensures Unescaped([c] + rest) == [c] + Unescaped(rest)
  {
    assert ([c] + rest)[1..] == rest;
  }

  /** Texts with commas between them. */
  function WithCommas(texts: seq<Text>): Text {
    if texts == [] then [] else if |texts| == 1 then texts[0] else texts[0] + [44] + WithCommas(texts[1..])
  }

  lemma {:induction false} ItemsWithCommas(items: seq<Json>, texts: seq<Text>)
    requires |texts| == |items| && forall i :: 0 <= i < |items| ==> texts[i] == TextOf(items[i])
    ensures TextOfItems(items) == WithCommas(texts)
  {
    if |items| == 1 {
      assert items[1..] == [];
    } else if items != [] {
      ItemsWithCommas(items[1..], texts[1..]);
    }
  }

  lemma {:induction false} MembersWithCommas(members: seq<Entry<Json>>, texts: seq<Text>)
    requires |texts| == |members|
    requires forall i :: 0 <= i < |members| ==> texts[i] == Quoted(members[i].key) + [58] + TextOf(members[i].value)
    ensures TextOfMembers(members) == WithCommas(texts)
  {
    if |members| == 1 {
      assert members[1..] == [];
    } else if members != [] {
      MembersWithCommas(members[1..], texts[1..]);
    }
  }

  /** Sections 4 and 5 of RFC 8259: braces and brackets around members and items with commas between them, a colon after
    * each quoted key; section 3 has the three words.
    */
  lemma TextIsJson(v: Json, texts: seq<Text>)
    ensures v.Arr? && |texts| == |v.items| && (forall i :: 0 <= i < |texts| ==> texts[i] == TextOf(v.items[i])) ==>
              TextOf(v) == [91] + WithCommas(texts) + [93]
    ensures v.Obj? && |texts| == |v.members|
            && (forall i :: 0 <= i < |texts| ==>
                  texts[i] == Quoted(v.members[i].key) + [58] + TextOf(v.members[i].value)) ==>
              TextOf(v) == [123] + WithCommas(texts) + [125]
    ensures v.Str? ==> TextOf(v) == [34] + Escaped(v.text, false) + [34] && Unescaped(Escaped(v.text, false)) == v.text
    ensures v.Null? ==> TextOf(v) == [110, 117, 108, 108]
    ensures v == Bool(true) ==> TextOf(v) == [116, 114, 117, 101]
    ensures v == Bool(false) ==> TextOf(v) == [102, 97, 108, 115, 101]
  {
    if v.Arr? && |texts| == |v.items| && (forall i :: 0 <= i < |texts| ==> texts[i] == TextOf(v.items[i])) {
      ItemsWithCommas(v.items, texts);
    }
    if v.Obj? && |texts| == |v.members|
       && (forall i :: 0 <= i < |texts| ==>
             texts[i] == Quoted(v.members[i].key) + [58] + TextOf(v.members[i].value)) {
      MembersWithCommas(v.members, texts);
    }
    if v.Str? {
      UnescapeInverts(v.text);
    }
  }

  // ---- the digested bytes ----

  /** Escapes are ASCII, also those of lone surrogates. */
  lemma EscapedUnitIsPaired(c: CodeUnit)
    ensures WellPaired(EscapedUnit(c))
  {
    PlainUnitsArePaired(EscapedUnit(c));
  }

  /** Only pairs leave their surrogates as they are. */
  lemma {:induction false} EscapedIsPaired(s: Text)
    ensures WellPaired(Escaped(s, false))
    decreases |s|
  {
    if s == [] {
    } else if OpensPair(s, false) {
      var rest := s[2..];
      EscapedIsPaired(rest);
      OnePair(s[0], s[1]);
      PairedAppend([s[0], s[1]], Escaped(rest, false));
      assert s[1..][1..] == rest && s[1..][0] == s[1];
      assert Escaped(s, false) == [s[0], s[1]] + Escaped(rest, false);
    } else {
      EscapedIsPaired(s[1..]);
      EscapedUnitIsPaired(s[0]);
      PairedAppend(EscapedUnit(s[0]), Escaped(s[1..], false));
    }
  }

  lemma QuotedIsPaired(s: Text)
    ensures WellPaired(Quoted(s))
  {
    EscapedIsPaired(s);
    PlainUnitsArePaired([34]);
    PairedAppend([34], Escaped(s, false));
    PairedAppend([34] + Escaped(s, false), [34]);
  }

  lemma BracketIsPaired(open: CodeUnit, body: Text, close: CodeUnit)
    requires !IsSurrogate(open) && !IsSurrogate(close) && WellPaired(body)
    ensures WellPaired([open] + body + [close])
  {
    PlainUnitsArePaired([open]);
    PlainUnitsArePaired([close]);
    PairedAppend([open], body);
    PairedAppend([open] + body, [close]);
  }

  lemma NumeralIsPaired(n: Text)
    requires IsNumeral(n)
    ensures WellPaired(n)
  {
    forall i | 0 <= i < |n| ensures !IsSurrogate(n[i]) {
      assert n[i] in n;
    }
    PlainUnitsArePaired(n);
  }

  lemma WordsArePaired()
    ensures WellPaired(NULL) && WellPaired(TRUE) && WellPaired(FALSE)
  {
    PlainUnitsArePaired(NULL);
    PlainUnitsArePaired(TRUE);
    PlainUnitsArePaired(FALSE);
  }

  /** The text of a value has no surrogate outside a pair, whatever strings the value holds. */
  lemma {:induction false} TextIsPaired(v: Json)
    requires Plain(v)
    ensures WellPaired(TextOf(v))
    decreases v, 1
  {
    match v
    case Str(s) => QuotedIsPaired(s);
    case Arr(items) =>
      ItemsArePaired(items);
      BracketIsPaired(91, TextOfItems(items), 93);
    case Obj(members) =>
      MembersArePaired(members);
      BracketIsPaired(123, TextOfMembers(members), 125);
    case Number(n) => NumeralIsPaired(n);
    case _ => WordsArePaired();
  }

  lemma {:induction false} ItemsArePaired(items: seq<Json>)
    requires forall i :: 0 <= i < |items| ==> Plain(items[i])
    ensures WellPaired(TextOfItems(items))
    decreases items, 0
  {
    if items != [] {
      var comma: Text := if |items| == 1 then [] else [44];
      TextIsPaired(items[0]);
      ItemsArePaired(items[1..]);
      PlainUnitsArePaired(comma);
      PairedAppend(TextOf(items[0]), comma);
      PairedAppend(TextOf(items[0]) + comma, TextOfItems(items[1..]));
    }
  }

  lemma {:induction false} MembersArePaired(members: seq<Entry<Json>>)
    requires forall i :: 0 <= i < |members| ==> Plain(members[i].value)
    ensures WellPaired(TextOfMembers(members))
    decreases members, 0
  {
    if members != [] {
      var key, value := Quoted(members[0].key), TextOf(members[0].value);
      var comma: Text := if |members| == 1 then [] else [44];
      QuotedIsPaired(members[0].key);
      TextIsPaired(members[0].value);
      MembersArePaired(members[1..]);
      PlainUnitsArePaired([58]);
      PlainUnitsArePaired(comma);
      PairedAppend(key, [58]);
      PairedAppend(key + [58], value);
      PairedAppend(key + [58] + value, comma);
      PairedAppend(key + [58] + value + comma, TextOfMembers(members[1..]));
    }
  }

  /** So the bytes that are digested determine the value as well: two values have the same bytes exactly when they are
    * equal up to object key order.
    */
  lemma DigestedBytesAreCanonical(v: Json, w: Json)
    requires WellFormed(v) && WellFormed(w)
    ensures Encoded(Serialised(v)) == Encoded(Serialised(w)) <==> Denote(v) == Denote(w)
  {
    SerialisationIsCanonical(v, w);
    CanonicalIsPlain(v);
    CanonicalIsPlain(w);
    TextIsPaired(Canonical(v));
    TextIsPaired(Canonical(w));
    if Encoded(Serialised(v)) == Encoded(Serialised(w)) {
      EncodingDetermines(Serialised(v), Serialised(w));
    }
  }
}

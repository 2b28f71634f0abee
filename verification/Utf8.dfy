/** The bytes that a text is digested as: UTF-8, with the replacement character for a surrogate outside a pair. */
module Utf8 {
  import opened Sequences
  import opened JsObjects

  type Byte = n: int | 0 <= n < 256

  predicate IsSurrogate(c: CodeUnit) {
    0xD800 <= c < 0xE000
  }

  predicate IsHigh(c: CodeUnit) {
    0xD800 <= c < 0xDC00
  }

  predicate IsLow(c: CodeUnit) {
    0xDC00 <= c < 0xE000
  }

  predicate BeginsWithPair(t: Text) {
    |t| > 1 && IsHigh(t[0]) && IsLow(t[1])
  }

  /** How many units the first character has. */
  function Width(t: Text): nat
    requires t != []
  {
    if BeginsWithPair(t) then 2 else 1
  }

  /** Every surrogate stands in a pair. */
  predicate WellPaired(t: Text) {
    t == [] || ((BeginsWithPair(t) || !IsSurrogate(t[0])) && WellPaired(t[Width(t)..]))
  }

  /** The code point of a pair. */
  function Joined(high: int, low: int): int {
    0x1_0000 + (high - 0xD800) * 0x400 + (low - 0xDC00)
  }

  function CodePoint(t: Text): (cp: int)
    requires t != []
    ensures 0 <= cp < 0x11_0000
  {
    if BeginsWithPair(t) then Joined(t[0], t[1])
    else if IsSurrogate(t[0]) then 0xFFFD
    else t[0]
  }

  function Bytes(cp: int): seq<Byte>
    requires 0 <= cp < 0x11_0000
  {
    if cp < 0x80 then [cp]
    else if cp < 0x800 then [0xC0 + cp / 0x40, 0x80 + cp % 0x40]
    else if cp < 0x1_0000 then [0xE0 + cp / 0x1000, 0x80 + cp / 0x40 % 0x40, 0x80 + cp % 0x40]
    else [0xF0 + cp / 0x4_0000, 0x80 + cp / 0x1000 % 0x40, 0x80 + cp / 0x40 % 0x40, 0x80 + cp % 0x40]
  }

  function Encoded(t: Text): seq<Byte> {
    if t == [] then [] else Bytes(CodePoint(t)) + Encoded(t[Width(t)..])
  }

  /** The code point that a sequence of bytes begins with. */
  function Decoded(b: seq<Byte>): int
    requires b != []
  {
    var first: int := b[0];
    if first < 0x80 || |b| < 2 then first
    else
      var second: int := b[1];
      if first < 0xE0 || |b| < 3 then (first - 0xC0) * 0x40 + (second - 0x80)
      else
        var third: int := b[2];
        if first < 0xF0 || |b| < 4 then (first - 0xE0) * 0x1000 + (second - 0x80) * 0x40 + (third - 0x80)
        else
          var fourth: int := b[3];
          (first - 0xF0) * 0x4_0000 + (second - 0x80) * 0x1000 + (third - 0x80) * 0x40 + (fourth - 0x80)
  }

  lemma DecodesBytes(cp: int)
    requires 0 <= cp < 0x11_0000
    ensures Decoded(Bytes(cp)) == cp
  {
    assert cp / 0x40 / 0x40 == cp / 0x1000 && cp / 0x1000 / 0x40 == cp / 0x4_0000;
  }

  /** What follows the bytes of a character does not change what they decode to. */
  lemma DecodesFirst(cp: int, rest: seq<Byte>)
    requires 0 <= cp < 0x11_0000
    ensures Decoded(Bytes(cp) + rest) == cp
  {
    DecodesBytes(cp);
    var b := Bytes(cp);
    assert forall i :: 0 <= i < |b| ==> (b + rest)[i] == b[i];
  }

  lemma BytesCancel(a: int, b: int, r: seq<Byte>, q: seq<Byte>)
    requires 0 <= a < 0x11_0000 && 0 <= b < 0x11_0000 && Bytes(a) + r == Bytes(b) + q
    ensures a == b && r == q
  {
    DecodesFirst(a, r);
    DecodesFirst(b, q);
    assert (Bytes(a) + r)[|Bytes(a)|..] == r && (Bytes(b) + q)[|Bytes(b)|..] == q;
  }

  lemma PairOf(h: int, l: int)
    requires 0xD800 <= h < 0xDC00 && 0xDC00 <= l < 0xE000
    ensures var cp := Joined(h, l);
            0x1_0000 <= cp < 0x11_0000 && (cp - 0x1_0000) / 0x400 + 0xD800 == h && (cp - 0x1_0000) % 0x400 + 0xDC00 == l
  {
  }

  /** Well-paired texts that begin with the same code point begin with the same units. */
  lemma CodePointDetermines(s: Text, t: Text)
    requires s != [] && t != [] && WellPaired(s) && WellPaired(t) && CodePoint(s) == CodePoint(t)
    ensures Width(s) == Width(t) && s[..Width(s)] == t[..Width(t)]
  {
    if BeginsWithPair(s) {
      PairOf(s[0], s[1]);
    }
    if BeginsWithPair(t) {
      PairOf(t[0], t[1]);
    }
  }

  /** The encoding is one-to-one on well-paired texts. */
  lemma {:induction false} EncodingDetermines(s: Text, t: Text)
    requires WellPaired(s) && WellPaired(t) && Encoded(s) == Encoded(t)
    ensures s == t
    decreases |s|
  {
    assert (s != [] ==> Bytes(CodePoint(s)) != []) && (t != [] ==> Bytes(CodePoint(t)) != []);
    if s != [] {
      BytesCancel(CodePoint(s), CodePoint(t), Encoded(s[Width(s)..]), Encoded(t[Width(t)..]));
      CodePointDetermines(s, t);
      EncodingDetermines(s[Width(s)..], t[Width(t)..]);
      assert s == s[..Width(s)] + s[Width(s)..] && t == t[..Width(t)] + t[Width(t)..];
    }
  }

  /** Examples of RFC 3629: one, two, three and four bytes, and a surrogate that stands alone. */
  lemma EncodesAsStandard()
    ensures Encoded([0x41]) == [0x41]
    ensures Encoded([0xE9]) == [0xC3, 0xA9]
    ensures Encoded([0x20AC]) == [0xE2, 0x82, 0xAC]
    ensures Encoded([0xD83D, 0xDE00]) == [0xF0, 0x9F, 0x98, 0x80]
    ensures Encoded([0xD800]) == [0xEF, 0xBF, 0xBD]
  {
    assert Encoded([]) == [];
    assert [0x41][1..] == [] && [0xE9][1..] == [] && [0x20AC][1..] == [] && [0xD800][1..] == [];
    assert [0xD83D, 0xDE00][2..] == [];
  }

  // ---- well-paired texts ----

  lemma {:induction false} PairedAppend(a: Text, b: Text)
    requires WellPaired(a) && WellPaired(b)
    ensures WellPaired(a + b)
    decreases |a|
  {
    if a == [] {
      assert a + b == b;
    } else {
      var w := Width(a);
      PairedAppend(a[w..], b);
      assert (a + b)[0] == a[0] && (a + b)[w..] == a[w..] + b;
      assert w == 2 ==> (a + b)[1] == a[1];
      assert Width(a + b) == w;
    }
  }

  lemma {:induction false} PlainUnitsArePaired(t: Text)
    requires forall i :: 0 <= i < |t| ==> !IsSurrogate(t[i])
    ensures WellPaired(t)
  {
    if t != [] {
      PlainUnitsArePaired(t[1..]);
    }
  }

  lemma OnePair(h: CodeUnit, l: CodeUnit)
    requires IsHigh(h) && IsLow(l)
    ensures WellPaired([h, l])
  {
    assert [h, l][2..] == [];
  }
}

/** Which property keys are array indices, and that their order is that of numbers. */
module IndexKeys {
  import opened JsObjects

  function Power(n: nat): nat {
    if n == 0 then 1 else 10 * Power(n - 1)
  }

  /** The number that a text of digits denotes. */
  function Number(t: Text): int {
    if t == [] then 0 else (t[0] - 48) * Power(|t| - 1) + Number(t[1..])
  }

  predicate Digits(t: Text) {
    forall i :: 0 <= i < |t| ==> 48 <= t[i] <= 57
  }

  lemma ScaleInOrder(a: int, b: int, p: nat)
    ensures a <= b ==> a * p <= b * p
    ensures a < b ==> a * p + p <= b * p
  {
    if a < b {
      assert b * p == (a + 1) * p + (b - a - 1) * p;
    }
  }

  lemma {:induction false} NumberBounds(t: Text)
    requires Digits(t)
    ensures 0 <= Number(t) < Power(|t|)
    ensures t != [] && t[0] != 48 ==> Power(|t| - 1) <= Number(t)
  {
    if t != [] {
      var d: int, p := t[0] - 48, Power(|t| - 1);
      NumberBounds(t[1..]);
      ScaleInOrder(0, d, p);
      ScaleInOrder(d, 9, p);
      ScaleInOrder(1, d, p);
    }
  }

  lemma LeadingDigitDecides(x: int, y: int, p: int, u: int, v: int)
    requires 0 <= u < p && 0 <= v < p
    ensures x * p + u < y * p + v <==> x < y || (x == y && u < v)
  {
    ScaleInOrder(x, y, p);
    ScaleInOrder(y, x, p);
  }

  /** Texts of one length compare like their numbers. */
  lemma {:induction false} LessIsNumeric(a: Text, b: Text)
    requires Digits(a) && Digits(b) && |a| == |b|
    ensures Less(a, b) <==> Number(a) < Number(b)
  {
    if a != [] {
      var x: int, y: int := a[0] - 48, b[0] - 48;
      NumberBounds(a[1..]);
      NumberBounds(b[1..]);
      LessIsNumeric(a[1..], b[1..]);
      LeadingDigitDecides(x, y, Power(|a| - 1), Number(a[1..]), Number(b[1..]));
    }
  }

  lemma {:induction false} PowersRise(m: nat, n: nat)
    requires m <= n
    ensures Power(m) <= Power(n)
  {
    if m < n {
      PowersRise(m, n - 1);
    }
  }

  /** Index keys are listed in the order of their numbers. */
  lemma IndexOrderIsNumeric(a: Text, b: Text)
    requires IsIndex(a) && IsIndex(b)
    ensures IndexLess(a, b) <==> Number(a) < Number(b)
  {
    DigitsExactly(a);
    DigitsExactly(b);
    NumberBounds(a);
    NumberBounds(b);
    if |a| == |b| {
      LessIsNumeric(a, b);
    } else if |a| < |b| {
      PowersRise(|a|, |b| - 1);
    } else {
      PowersRise(|b|, |a| - 1);
    }
  }

  lemma Powers()
    ensures Power(1) == 10 && Power(2) == 100 && Power(3) == 1_000 && Power(4) == 10_000 && Power(5) == 100_000
    ensures Power(6) == 1_000_000 && Power(7) == 10_000_000 && Power(8) == 100_000_000 && Power(9) == 1_000_000_000
    ensures Power(10) == 10_000_000_000
  {
    assert Power(0) == 1 && Power(1) == 10 * Power(0) && Power(2) == 10 * Power(1) && Power(3) == 10 * Power(2);
    assert Power(4) == 10 * Power(3) && Power(5) == 10 * Power(4) && Power(6) == 10 * Power(5);
    assert Power(7) == 10 * Power(6) && Power(8) == 10 * Power(7) && Power(9) == 10 * Power(8);
    assert Power(10) == 10 * Power(9);
  }

  /** The number that the text denotes from its `k`-th digit on. */
  lemma FromDigit(t: Text, k: nat)
    requires k < |t|
    ensures Number(t[k..]) == (t[k] - 48) * Power(|t| - k - 1) + Number(t[k + 1..])
  {
    assert t[k..][1..] == t[k + 1..];
  }

  lemma LastThree(t: Text)
    requires |t| == 10 && t[7] == 50 && t[8] == 57 && t[9] == 52
    ensures Number(t[7..]) == 294
  {
    Powers();
    FromDigit(t, 7);
    FromDigit(t, 8);
    FromDigit(t, 9);
    assert t[10..] == [] && Power(0) == 1;
  }

  lemma LastSix(t: Text)
    requires |t| == 10 && t[4] == 57 && t[5] == 54 && t[6] == 55 && Number(t[7..]) == 294
    ensures Number(t[4..]) == 967_294
  {
    Powers();
    FromDigit(t, 4);
    FromDigit(t, 5);
    FromDigit(t, 6);
  }

  lemma AllTen(t: Text)
    requires |t| == 10 && t[0] == 52 && t[1] == 50 && t[2] == 57 && t[3] == 52 && Number(t[4..]) == 967_294
    ensures Number(t) == 4_294_967_294
  {
    Powers();
    FromDigit(t, 0);
    FromDigit(t, 1);
    FromDigit(t, 2);
    FromDigit(t, 3);
    assert t[0..] == t;
  }

  /** 4294967294, digit by digit. */
  predicate IsMax(t: Text) {
    && |t| == 10 && t[0] == 52 && t[1] == 50 && t[2] == 57 && t[3] == 52
    && t[4] == 57 && t[5] == 54 && t[6] == 55 && t[7] == 50 && t[8] == 57 && t[9] == 52
  }

  lemma MaxIndexIs(max: Text)
    requires IsMax(max)
    ensures Digits(max) && Number(max) == 4_294_967_294
  {
    LastThree(max);
    LastSix(max);
    AllTen(max);
  }

  lemma MaxIndexHasDigits()
    ensures IsMax(MAX_INDEX)
  {
  }

  lemma ShortIsSmall(key: Text)
    requires Digits(key) && |key| < 10
    ensures Number(key) < 1_000_000_000
  {
    NumberBounds(key);
    PowersRise(|key|, 9);
    Powers();
  }

  lemma LongIsLarge(key: Text)
    requires Digits(key) && |key| > 10 && key[0] != 48
    ensures Number(key) >= 10_000_000_000
  {
    NumberBounds(key);
    PowersRise(10, |key| - 1);
    Powers();
  }

  lemma ComparesToMax(max: Text, key: Text)
    requires IsMax(max) && Digits(key) && |key| == 10
    ensures !Less(max, key) <==> Number(key) <= 4_294_967_294
  {
    MaxIndexIs(max);
    LessIsNumeric(max, key);
  }

  lemma TenDigitsCompare(key: Text)
    requires Digits(key) && |key| == 10
    ensures !Less(MAX_INDEX, key) <==> Number(key) <= 4_294_967_294
  {
    MaxIndexHasDigits();
    ComparesToMax(MAX_INDEX, key);
  }

  lemma DigitsExactly(key: Text)
    ensures Digits(key) <==> forall c <- key :: IsDigit(c)
  {
    assert forall i :: 0 <= i < |key| ==> key[i] in key;
  }

  /** A key is an index exactly if it is a decimal number below 2^32 - 1 without leading zeros. */
  lemma IndexExactly(key: Text)
    ensures IsIndex(key) <==>
              && key != [] && Digits(key) && (|key| > 1 ==> key[0] != 48) && Number(key) < 4_294_967_295
  {
    DigitsExactly(key);
    if key != [] && Digits(key) && (|key| > 1 ==> key[0] != 48) {
      if |key| < 10 {
        ShortIsSmall(key);
      } else if |key| == 10 {
        TenDigitsCompare(key);
      } else {
        LongIsLarge(key);
      }
    }
  }
}

/** Sequences, finite sets and insertion sort, for every module. */
module Sequences {

  lemma Reassociate<T>(a: seq<T>, b: seq<T>, c: seq<T>)
    ensures (a + b) + c == a + (b + c)
  {
  }

  lemma SubsetBound<T>(a: set<T>, b: set<T>)
    requires a <= b
    ensures |a| <= |b|
  {
    if a != {} {
      var x :| x in a;
      SubsetBound(a - {x}, b - {x});
    }
  }

  // ---- sorting ----

  function Insert<T>(less: (T, T) -> bool, e: T, sorted: seq<T>): seq<T> {
    if sorted == [] || less(e, sorted[0]) then [e] + sorted else [sorted[0]] + Insert(less, e, sorted[1..])
  }

  function Sorted<T>(less: (T, T) -> bool, s: seq<T>): seq<T> {
    if s == [] then [] else Insert(less, s[0], Sorted(less, s[1..]))
  }

  ghost predicate Strict<T(!new)>(less: (T, T) -> bool) {
    && (forall a, b :: less(a, b) ==> !less(b, a))
    && (forall a, b, c :: less(a, b) && less(b, c) ==> less(a, c))
  }

  /** Any two places compare one way or the other. */
  ghost predicate Comparable<T(!new)>(less: (T, T) -> bool, s: seq<T>) {
    forall i, j :: 0 <= i < j < |s| ==> less(s[i], s[j]) || less(s[j], s[i])
  }

  ghost predicate Separates<T(!new)>(less: (T, T) -> bool, e: T, s: seq<T>) {
    forall x <- s :: less(e, x) || less(x, e)
  }

  ghost predicate Ascending<T(!new)>(less: (T, T) -> bool, s: seq<T>) {
    forall i, j :: 0 <= i < j < |s| ==> less(s[i], s[j])
  }

  lemma {:induction false} InsertElements<T>(less: (T, T) -> bool, e: T, sorted: seq<T>)
    ensures multiset(Insert(less, e, sorted)) == multiset(sorted) + multiset{e}
  {
    if sorted != [] && !less(e, sorted[0]) {
      InsertElements(less, e, sorted[1..]);
      assert sorted == [sorted[0]] + sorted[1..];
    }
  }

  lemma {:induction false} SortedElements<T>(less: (T, T) -> bool, s: seq<T>)
    ensures multiset(Sorted(less, s)) == multiset(s)
  {
    if s != [] {
      SortedElements(less, s[1..]);
      InsertElements(less, s[0], Sorted(less, s[1..]));
      assert s == [s[0]] + s[1..];
    }
  }

  lemma InsertFirst<T>(less: (T, T) -> bool, e: T, sorted: seq<T>)
    requires sorted != [] ==> less(e, sorted[0])
    ensures Insert(less, e, sorted) == [e] + sorted
  {
  }

  lemma SortedCons<T>(less: (T, T) -> bool, e: T, s: seq<T>)
    ensures Sorted(less, [e] + s) == Insert(less, e, Sorted(less, s))
  {
    assert ([e] + s)[1..] == s && ([e] + s)[0] == e;
  }

  lemma SortedOne<T>(less: (T, T) -> bool, e: T)
    ensures Sorted(less, [e]) == [e]
  {
    assert [e][1..] == [] && Sorted(less, [e][1..]) == [];
    InsertFirst(less, e, []);
  }

  lemma SameMultiset<T>(a: seq<T>, b: seq<T>)
    requires multiset(a) == multiset(b)
    ensures |a| == |b| && forall x :: x in a <==> x in b
  {
    assert |multiset(a)| == |multiset(b)|;
    assert forall x :: (x in a <==> x in multiset(a)) && (x in b <==> x in multiset(b));
  }

  /** Sorting keeps the elements and the length. */
  lemma SortKeepsElements<T>(less: (T, T) -> bool, s: seq<T>)
    ensures |Sorted(less, s)| == |s| && forall x :: x in Sorted(less, s) <==> x in s
  {
    SortedElements(less, s);
    SameMultiset(Sorted(less, s), s);
  }

  lemma {:induction false} InsertAscends<T(!new)>(less: (T, T) -> bool, e: T, sorted: seq<T>)
    requires Strict(less) && Ascending(less, sorted) && Separates(less, e, sorted)
    ensures Ascending(less, Insert(less, e, sorted))
  {
    if sorted == [] {
    } else if less(e, sorted[0]) {
    } else {
      var rest := Insert(less, e, sorted[1..]);
      assert sorted[0] in sorted && forall x <- sorted[1..] :: x in sorted;
      InsertAscends(less, e, sorted[1..]);
      InsertElements(less, e, sorted[1..]);
      forall i | 0 <= i < |rest| ensures less(sorted[0], rest[i]) {
        assert rest[i] in multiset(rest);
        assert rest[i] == e || rest[i] in sorted[1..];
      }
    }
  }

  lemma {:induction false} SortAscends<T(!new)>(less: (T, T) -> bool, s: seq<T>)
    requires Strict(less) && Comparable(less, s)
    ensures Ascending(less, Sorted(less, s))
  {
    if s != [] {
      SortAscends(less, s[1..]);
      SortKeepsElements(less, s[1..]);
      forall x | x in Sorted(less, s[1..]) ensures less(s[0], x) || less(x, s[0]) {
        assert x in s[1..];
        var j :| 0 <= j < |s[1..]| && s[1..][j] == x;
        assert s[j + 1] == x;
      }
      InsertAscends(less, s[0], Sorted(less, s[1..]));
    }
  }

  lemma HeadIsLeast<T(!new)>(less: (T, T) -> bool, a: seq<T>, x: T)
    requires Strict(less) && Ascending(less, a) && x in a
    ensures x == a[0] || less(a[0], x)
    ensures x in a[1..] <==> x != a[0]
  {
    var i :| 0 <= i < |a| && a[i] == x;
    if i > 0 {
      assert a[1..][i - 1] == x;
    } else {
      forall j | 0 <= j < |a[1..]| ensures a[1..][j] != x {
        assert less(a[0], a[j + 1]);
      }
    }
  }

  /** An ascending sequence is determined by its elements. */
  lemma {:induction false} AscendingUnique<T(!new)>(less: (T, T) -> bool, a: seq<T>, b: seq<T>)
    requires Strict(less) && Ascending(less, a) && Ascending(less, b)
    requires forall x :: x in a <==> x in b
    ensures a == b
  {
    assert (a != [] ==> a[0] in a) && (b != [] ==> b[0] in b);
    if a != [] {
      HeadIsLeast(less, a, b[0]);
      HeadIsLeast(less, b, a[0]);
      forall x ensures x in a[1..] <==> x in b[1..] {
        if x in a {
          HeadIsLeast(less, a, x);
          HeadIsLeast(less, b, x);
        }
      }
      AscendingUnique(less, a[1..], b[1..]);
      assert a == [a[0]] + a[1..] && b == [b[0]] + b[1..];
    }
  }
}

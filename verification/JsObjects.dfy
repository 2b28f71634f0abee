/** Strings, property keys and the order in which an ECMAScript object lists its own properties. */
module JsObjects {
  import opened Sequences

  /** A UTF-16 code unit. */
  type CodeUnit = n: int | 0 <= n < 0x1_0000

  type Text = seq<CodeUnit>

  datatype Entry<+V> = Entry(key: Text, value: V)

  predicate IsDigit(c: CodeUnit) {
    48 <= c <= 57
  }

  /** The order of `toSorted`: by code units. */
  predicate Less(a: Text, b: Text) {
    b != [] && (a == [] || a[0] < b[0] || (a[0] == b[0] && Less(a[1..], b[1..])))
  }

  /** The decimal text of the largest array index, 4294967294. */
  const MAX_INDEX: Text := [52, 50, 57, 52, 57, 54, 55, 50, 57, 52]

  /** An array index in its canonical decimal form. */
  predicate IsIndex(key: Text) {
    && key != []
    && (forall c <- key :: IsDigit(c))
    && (|key| > 1 ==> key[0] != 48)
    && (|key| < |MAX_INDEX| || (|key| == |MAX_INDEX| && !Less(MAX_INDEX, key)))
  }

  /** Numeric order on canonical decimals. */
  predicate IndexLess(a: Text, b: Text) {
    |a| < |b| || (|a| == |b| && Less(a, b))
  }

  /** An order of keys as an order of entries. */
  function ByKey<V(!new)>(less: (Text, Text) -> bool): (order: (Entry<V>, Entry<V>) -> bool)
    ensures forall a, b :: order(a, b) <==> less(a.key, b.key)
  {
    (a: Entry<V>, b: Entry<V>) => less(a.key, b.key)
  }

  /** `toSorted` on the keys. */
  function SortedByKey<V(!new)>(entries: seq<Entry<V>>): seq<Entry<V>> {
    Sorted(ByKey(Less), entries)
  }

  function Keyed<V(!new)>(index: bool, entries: seq<Entry<V>>): seq<Entry<V>> {
    if entries == [] then []
    else (if IsIndex(entries[0].key) == index then [entries[0]] else []) + Keyed(index, entries[1..])
  }

  /** `Object.fromEntries` followed by a listing: index keys in numeric order, then the others as they were inserted. */
  function OwnOrder<V(!new)>(entries: seq<Entry<V>>): seq<Entry<V>> {
    Sorted(ByKey(IndexLess), Keyed(true, entries)) + Keyed(false, entries)
  }

  ghost predicate DistinctKeys<V(!new)>(entries: seq<Entry<V>>) {
    forall i, j :: 0 <= i < j < |entries| ==> entries[i].key != entries[j].key
  }

  /** The entries already stand the way an object lists them. */
  ghost predicate Listed<V(!new)>(entries: seq<Entry<V>>) {
    forall i, j :: 0 <= i < j < |entries| && IsIndex(entries[j].key) ==>
      IsIndex(entries[i].key) && IndexLess(entries[i].key, entries[j].key)
  }

  ghost predicate Total(less: (Text, Text) -> bool) {
    Strict(less) && forall a, b :: a == b || less(a, b) || less(b, a)
  }

  // ---- both orders are total, and sorting by the code-unit order has one result ----

  lemma {:induction false} LessTrichotomy(a: Text, b: Text)
    ensures a == b || Less(a, b) || Less(b, a)
    ensures !(Less(a, b) && Less(b, a)) && !Less(a, a)
    decreases |a| + |b|
  {
    if a != [] && b != [] {
      LessTrichotomy(a[1..], b[1..]);
      assert a == [a[0]] + a[1..] && b == [b[0]] + b[1..];
    }
    if a != [] {
      LessTrichotomy(a[1..], []);
      LessIrreflexive(a);
    }
  }

  lemma {:induction false} LessIrreflexive(a: Text)
    ensures !Less(a, a)
  {
    if a != [] {
      LessIrreflexive(a[1..]);
    }
  }

  lemma {:induction false} LessTransitive(a: Text, b: Text, c: Text)
    requires Less(a, b) && Less(b, c)
    ensures Less(a, c)
  {
    if a != [] && a[0] == b[0] == c[0] {
      LessTransitive(a[1..], b[1..], c[1..]);
    }
  }

  lemma LessIsTotal()
    ensures Total(Less)
  {
    forall a: Text, b: Text ensures a == b || Less(a, b) || Less(b, a) {
      LessTrichotomy(a, b);
    }
    forall a: Text, b: Text | Less(a, b) ensures !Less(b, a) {
      LessTrichotomy(a, b);
    }
    forall a: Text, b: Text, c: Text | Less(a, b) && Less(b, c) ensures Less(a, c) {
      LessTransitive(a, b, c);
    }
  }

  lemma IndexLessIsTotal()
    ensures Total(IndexLess)
  {
    LessIsTotal();
  }

  ghost predicate NewKey<V(!new)>(key: Text, entries: seq<Entry<V>>) {
    forall i :: 0 <= i < |entries| ==> entries[i].key != key
  }

  /** A key that no entry of `a` has is new to every sequence of entries of `a`. */
  lemma NewKeyCarriesOver<V(!new)>(key: Text, a: seq<Entry<V>>, b: seq<Entry<V>>)
    requires NewKey(key, a) && (forall x :: x in b ==> x in a)
    ensures NewKey(key, b)
  {
    forall i | 0 <= i < |b| ensures b[i].key != key {
      assert b[i] in b && b[i] in a;
    }
  }

  lemma DistinctTail<V(!new)>(entries: seq<Entry<V>>)
    requires DistinctKeys(entries) && entries != []
    ensures DistinctKeys(entries[1..]) && NewKey(entries[0].key, entries[1..])
  {
  }

  lemma ByKeyOrders<V(!new)>(less: (Text, Text) -> bool, entries: seq<Entry<V>>)
    requires Total(less) && DistinctKeys(entries)
    ensures Strict(ByKey<V>(less)) && Comparable(ByKey<V>(less), entries)
  {
  }

  lemma SortedHolds<V(!new)>(less: (Text, Text) -> bool, entries: seq<Entry<V>>)
    ensures forall x :: x in Sorted(ByKey(less), entries) <==> x in entries
  {
    var sorted := Sorted(ByKey(less), entries);
    SortedElements(ByKey(less), entries);
    forall x ensures x in sorted <==> x in entries {
      assert x in multiset(sorted) <==> x in multiset(entries);
    }
  }

  /** Sorting entries by key keeps them and puts them in order. */
  lemma SortsByKey<V(!new)>(less: (Text, Text) -> bool, entries: seq<Entry<V>>)
    requires Total(less) && DistinctKeys(entries)
    ensures var sorted := Sorted(ByKey(less), entries);
            && (forall x :: x in sorted <==> x in entries)
            && Ascending(ByKey(less), sorted) && DistinctKeys(sorted)
  {
    ByKeyOrders(less, entries);
    var sorted := Sorted(ByKey(less), entries);
    SortedHolds(less, entries);
    SortAscends(ByKey(less), entries);
    forall i, j | 0 <= i < j < |sorted| ensures sorted[i].key != sorted[j].key {
      assert ByKey<V>(less)(sorted[i], sorted[j]);
      assert less(sorted[i].key, sorted[j].key) && !less(sorted[j].key, sorted[i].key);
    }
  }

  lemma SortedByKeyFacts<V(!new)>(entries: seq<Entry<V>>)
    requires DistinctKeys(entries)
    ensures DistinctKeys(SortedByKey(entries)) && forall x :: x in SortedByKey(entries) <==> x in entries
  {
    LessIsTotal();
    SortsByKey(Less, entries);
  }

  /** Sorting by key forgets the order in which the entries came. */
  lemma SortForgetsOrder<V(!new)>(a: seq<Entry<V>>, b: seq<Entry<V>>)
    requires DistinctKeys(a) && DistinctKeys(b)
    requires forall x :: x in a <==> x in b
    ensures SortedByKey(a) == SortedByKey(b)
  {
    LessIsTotal();
    SortsByKey(Less, a);
    SortsByKey(Less, b);
    ByKeyOrders(Less, a);
    AscendingUnique(ByKey(Less), SortedByKey(a), SortedByKey(b));
  }

  lemma {:induction false} KeyedElements<V(!new)>(index: bool, entries: seq<Entry<V>>, e: Entry<V>)
    ensures e in Keyed(index, entries) <==> e in entries && IsIndex(e.key) == index
  {
    if entries != [] {
      KeyedElements(index, entries[1..], e);
    }
  }

  lemma KeyedFacts<V(!new)>(index: bool, entries: seq<Entry<V>>)
    ensures forall e :: e in Keyed(index, entries) <==> e in entries && IsIndex(e.key) == index
  {
    forall e ensures e in Keyed(index, entries) <==> e in entries && IsIndex(e.key) == index {
      KeyedElements(index, entries, e);
    }
  }

  lemma {:induction false} KeyedKeepsDistinct<V(!new)>(index: bool, entries: seq<Entry<V>>)
    requires DistinctKeys(entries)
    ensures DistinctKeys(Keyed(index, entries))
  {
    if entries != [] {
      DistinctTail(entries);
      KeyedKeepsDistinct(index, entries[1..]);
      KeyedFacts(index, entries[1..]);
      NewKeyCarriesOver(entries[0].key, entries[1..], Keyed(index, entries[1..]));
    }
  }

  /** The two parts of a listing: index keys in numeric order, and the names. */
  lemma PartsOfListing<V(!new)>(entries: seq<Entry<V>>)
    requires DistinctKeys(entries)
    ensures var first, second := Sorted(ByKey(IndexLess), Keyed(true, entries)), Keyed(false, entries);
            && (forall e :: e in first <==> e in entries && IsIndex(e.key))
            && (forall e :: e in second <==> e in entries && !IsIndex(e.key))
            && Ascending(ByKey(IndexLess), first) && DistinctKeys(first) && DistinctKeys(second)
  {
    IndexLessIsTotal();
    KeyedFacts(true, entries);
    KeyedFacts(false, entries);
    KeyedKeepsDistinct(true, entries);
    KeyedKeepsDistinct(false, entries);
    SortsByKey(IndexLess, Keyed(true, entries));
  }

  /** Listing an object loses and repeats nothing. */
  lemma OwnOrderKeepsElements<V(!new)>(entries: seq<Entry<V>>)
    requires DistinctKeys(entries)
    ensures forall x :: x in OwnOrder(entries) <==> x in entries
    ensures DistinctKeys(OwnOrder(entries))
  {
    PartsOfListing(entries);
    var first, second := Sorted(ByKey(IndexLess), Keyed(true, entries)), Keyed(false, entries);
    assert forall i :: 0 <= i < |first| ==> first[i] in first && IsIndex(first[i].key);
    assert forall i :: 0 <= i < |second| ==> second[i] in second && !IsIndex(second[i].key);
  }

  lemma {:induction false} KeyedLength<V(!new)>(entries: seq<Entry<V>>)
    ensures |Keyed(true, entries)| + |Keyed(false, entries)| == |entries|
  {
    if entries != [] {
      KeyedLength(entries[1..]);
    }
  }

  lemma OwnOrderKeepsLength<V(!new)>(entries: seq<Entry<V>>)
    ensures |OwnOrder(entries)| == |entries|
  {
    KeyedLength(entries);
    SortKeepsElements(ByKey(IndexLess), Keyed(true, entries));
  }

  /** Every listing is listed. */
  lemma OwnOrderIsListed<V(!new)>(entries: seq<Entry<V>>)
    requires DistinctKeys(entries)
    ensures Listed(OwnOrder(entries))
  {
    PartsOfListing(entries);
    var first, second := Sorted(ByKey(IndexLess), Keyed(true, entries)), Keyed(false, entries);
    assert forall i :: 0 <= i < |first| ==> first[i] in first && IsIndex(first[i].key);
    assert forall i :: 0 <= i < |second| ==> second[i] in second && !IsIndex(second[i].key);
  }

  /** What is listed stays as it is. */
  lemma {:induction false} ListedStays<V(!new)>(entries: seq<Entry<V>>)
    requires Listed(entries)
    ensures OwnOrder(entries) == entries
  {
    if entries != [] {
      var x, rest := entries[0], entries[1..];
      ListedStays(rest);
      ListedFirst(x, rest);
    }
  }

  lemma ListedFirst<V(!new)>(x: Entry<V>, rest: seq<Entry<V>>)
    requires Listed([x] + rest) && OwnOrder(rest) == rest
    ensures OwnOrder([x] + rest) == [x] + rest
  {
    ListedCons(x, rest);
    if IsIndex(x.key) {
      IndexedHead(rest);
      OwnOrderCons(x, rest);
    } else {
      KeyedOfNames([x] + rest);
    }
  }

  lemma IndexedHead<V(!new)>(rest: seq<Entry<V>>)
    requires OwnOrder(rest) == rest
    ensures var indexed := Sorted(ByKey(IndexLess), Keyed(true, rest));
            indexed != [] ==> rest != [] && indexed[0] == rest[0] && IsIndex(rest[0].key)
  {
    KeyedFacts(true, rest);
    SortedHolds(IndexLess, Keyed(true, rest));
    FirstOfParts(Sorted(ByKey(IndexLess), Keyed(true, rest)), Keyed(false, rest), rest);
  }

  lemma OwnOrderCons<V(!new)>(x: Entry<V>, rest: seq<Entry<V>>)
    requires IsIndex(x.key)
    requires var indexed := Sorted(ByKey(IndexLess), Keyed(true, rest));
             indexed != [] ==> IndexLess(x.key, indexed[0].key)
    ensures OwnOrder([x] + rest) == [x] + OwnOrder(rest)
  {
    var indexed := Sorted(ByKey(IndexLess), Keyed(true, rest));
    KeyedCons(x, rest);
    SortedCons(ByKey(IndexLess), x, Keyed(true, rest));
    InsertFirst(ByKey(IndexLess), x, indexed);
    Reassociate([x], indexed, Keyed(false, rest));
  }

  lemma ListedCons<V(!new)>(x: Entry<V>, rest: seq<Entry<V>>)
    requires Listed([x] + rest)
    ensures rest != [] && IsIndex(rest[0].key) ==> IsIndex(x.key) && IndexLess(x.key, rest[0].key)
    ensures !IsIndex(x.key) ==> Names([x] + rest)
  {
    var all := [x] + rest;
    assert all[0] == x && forall i :: 0 <= i < |rest| ==> all[i + 1] == rest[i];
  }

  lemma FirstOfParts<T>(a: seq<T>, b: seq<T>, s: seq<T>)
    requires a + b == s
    ensures a != [] ==> s != [] && a[0] == s[0] && a[0] in a
  {
  }

  lemma KeyedCons<V(!new)>(x: Entry<V>, rest: seq<Entry<V>>)
    requires IsIndex(x.key)
    ensures Keyed(true, [x] + rest) == [x] + Keyed(true, rest) && Keyed(false, [x] + rest) == Keyed(false, rest)
  {
    assert ([x] + rest)[1..] == rest && ([x] + rest)[0] == x;
  }

  ghost predicate Names<V(!new)>(entries: seq<Entry<V>>) {
    forall i :: 0 <= i < |entries| ==> !IsIndex(entries[i].key)
  }

  lemma {:induction false} KeyedOfNames<V(!new)>(names: seq<Entry<V>>)
    requires Names(names)
    ensures Keyed(true, names) == [] && Keyed(false, names) == names
  {
    if names != [] {
      KeyedOfNames(names[1..]);
    }
  }

  lemma {:induction false} KeyedAppend<V(!new)>(index: bool, entries: seq<Entry<V>>, last: Entry<V>)
    ensures Keyed(index, entries + [last]) == Keyed(index, entries) + if IsIndex(last.key) == index then [last] else []
  {
    var all, tail := entries + [last], if IsIndex(last.key) == index then [last] else [];
    if entries == [] {
      assert all == [last] && all[1..] == [];
    } else {
      var head := if IsIndex(entries[0].key) == index then [entries[0]] else [];
      KeyedAppend(index, entries[1..], last);
      assert all[1..] == entries[1..] + [last] && all[0] == entries[0];
      assert Keyed(index, entries) == head + Keyed(index, entries[1..]);
      Reassociate(head, Keyed(index, entries[1..]), tail);
    }
  }

  /** An index that is inserted after names is listed before them. */
  lemma OneIndexGoesFirst<V(!new)>(names: seq<Entry<V>>, index: Entry<V>)
    requires Names(names) && IsIndex(index.key)
    ensures OwnOrder(names + [index]) == [index] + names
  {
    var all := names + [index];
    KeyedOfNames(names);
    KeyedAppend(true, names, index);
    KeyedAppend(false, names, index);
    assert Keyed(true, all) == [index] && Keyed(false, all) == names;
    SortedOne(ByKey(IndexLess), index);
  }
}

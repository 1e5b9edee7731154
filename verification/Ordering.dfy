/**
 Byte-wise string order and sorting, as Go's `<` on strings and `sort.Slice` define them.

 A sort is specified as a relation: any ordered permutation will do. Nothing downstream may
 therefore depend on how elements with equal keys are arranged, i.e. on the stability of the sort.
 */
module Ordering {

  predicate Less(a: string, b: string) {
    if b == "" then false
    else if a == "" then true
    else a[0] < b[0] || (a[0] == b[0] && Less(a[1..], b[1..]))
  }

  lemma {:induction false} LessTransitive(a: string, b: string, c: string)
    requires Less(a, b) && Less(b, c)
    ensures Less(a, c)
  {
    if a != "" && a[0] == b[0] && b[0] == c[0] {
      LessTransitive(a[1..], b[1..], c[1..]);
    }
  }

  lemma {:induction false} LessTrichotomy(a: string, b: string)
    ensures Less(a, b) || a == b || Less(b, a)
    ensures !(Less(a, b) && Less(b, a))
    ensures a == b ==> !Less(a, b)
  {
    if a != "" && b != "" && a[0] == b[0] {
      LessTrichotomy(a[1..], b[1..]);
      assert a == [a[0]] + a[1..] && b == [b[0]] + b[1..];
    }
  }

  /** `a` does not come after `b`. */
  predicate AtMost(a: string, b: string) {
    !Less(b, a)
  }

  lemma AtMostTransitive(a: string, b: string, c: string)
    requires AtMost(a, b) && AtMost(b, c)
    ensures AtMost(a, c)
  {
    LessTrichotomy(a, b);
    LessTrichotomy(b, c);
    if Less(c, a) {
      if a == b {
      } else {
        LessTransitive(c, a, b);
      }
    }
  }

  ghost predicate Sorted<T(!new)>(items: seq<T>, key: T -> string) {
    forall i, j | 0 <= i < j < |items| :: AtMost(key(items[i]), key(items[j]))
  }

  ghost predicate StrictlySorted<T(!new)>(items: seq<T>, key: T -> string) {
    forall i, j | 0 <= i < j < |items| :: Less(key(items[i]), key(items[j]))
  }

  ghost predicate DistinctKeys<T(!new)>(items: seq<T>, key: T -> string) {
    forall i, j | 0 <= i < j < |items| :: key(items[i]) != key(items[j])
  }

  /** `sorted` is one possible outcome of sorting `items` by `key`. */
  ghost predicate IsSortOf<T(!new)>(sorted: seq<T>, items: seq<T>, key: T -> string) {
    multiset(sorted) == multiset(items) && Sorted(sorted, key)
  }

  lemma SortKeepsMembers<T(!new)>(sorted: seq<T>, items: seq<T>, key: T -> string)
    requires IsSortOf(sorted, items, key)
    ensures |sorted| == |items|
    ensures forall x :: x in sorted <==> x in items
  {
    assert |multiset(sorted)| == |multiset(items)|;
    forall x
      ensures x in sorted <==> x in items
    {
      assert x in sorted <==> x in multiset(sorted);
      assert x in items <==> x in multiset(items);
    }
  }

  /** Two strictly sorted lists with the same members are the same list. */
  lemma {:induction false} StrictlySortedUnique<T(!new)>(a: seq<T>, b: seq<T>, key: T -> string)
    requires StrictlySorted(a, key) && StrictlySorted(b, key)
    requires forall x :: x in a <==> x in b
    ensures a == b
  {
    assert (a != [] ==> a[0] in a) && (b != [] ==> b[0] in b);
    if a != [] {
      LeastAgree(a, b, key);
      forall x
        ensures x in a[1..] <==> x in b[1..]
      {
        TailMembers(a, x, key);
        TailMembers(b, x, key);
      }
      StrictlySortedUnique(a[1..], b[1..], key);
      assert a == [a[0]] + a[1..] && b == [b[0]] + b[1..];
    }
  }

  lemma LeastAgree<T(!new)>(a: seq<T>, b: seq<T>, key: T -> string)
    requires a != [] && b != []
    requires StrictlySorted(a, key) && StrictlySorted(b, key)
    requires a[0] in b && b[0] in a
    ensures a[0] == b[0]
  {
    var i :| 0 <= i < |b| && b[i] == a[0];
    var j :| 0 <= j < |a| && a[j] == b[0];
    LessTrichotomy(key(a[0]), key(b[0]));
  }

  lemma TailMembers<T(!new)>(a: seq<T>, x: T, key: T -> string)
    requires a != [] && StrictlySorted(a, key)
    ensures x in a[1..] <==> x in a && x != a[0]
  {
    if x in a[1..] {
      var i :| 0 <= i < |a[1..]| && a[1..][i] == x;
      LessTrichotomy(key(a[0]), key(a[i + 1]));
    }
    if x in a && x != a[0] {
      var i :| 0 <= i < |a| && a[i] == x;
      assert a[1..][i - 1] == x;
    }
  }

  /** Distinctness of keys does not depend on the arrangement of the list. */
  lemma {:induction false} DistinctKeysPermute<T(!new)>(a: seq<T>, b: seq<T>, key: T -> string)
    requires multiset(a) == multiset(b) && DistinctKeys(a, key)
    ensures DistinctKeys(b, key)
  {
    forall i, j | 0 <= i < j < |b|
      ensures key(b[i]) != key(b[j])
    {
      if key(b[i]) == key(b[j]) {
        assert b[i] in multiset(b) && b[j] in multiset(b);
        assert b[i] in a && b[j] in a;
        var k :| 0 <= k < |a| && a[k] == b[i];
        var l :| 0 <= l < |a| && a[l] == b[j];
        assert k == l && b[i] == b[j];
        OccursTwice(b, i, j);
        OccursOnce(a, k, key);
      }
    }
  }

  lemma OccursTwice<T(!new)>(s: seq<T>, i: nat, j: nat)
    requires i < j < |s| && s[i] == s[j]
    ensures multiset(s)[s[i]] >= 2
  {
    assert s == s[..j] + [s[j]] + s[j + 1..];
    assert s[i] in s[..j];
    assert multiset(s) == multiset(s[..j]) + multiset{s[j]} + multiset(s[j + 1..]);
  }

  lemma OccursOnce<T(!new)>(s: seq<T>, i: nat, key: T -> string)
    requires i < |s| && DistinctKeys(s, key)
    ensures multiset(s)[s[i]] == 1
  {
    assert s == s[..i] + [s[i]] + s[i + 1..];
    assert multiset(s) == multiset(s[..i]) + multiset{s[i]} + multiset(s[i + 1..]);
    assert s[i] !in s[..i] && s[i] !in s[i + 1..];
  }

  lemma SortOfDistinctIsStrict<T(!new)>(sorted: seq<T>, items: seq<T>, key: T -> string)
    requires IsSortOf(sorted, items, key) && DistinctKeys(items, key)
    ensures StrictlySorted(sorted, key) && DistinctKeys(sorted, key)
  {
    DistinctKeysPermute(items, sorted, key);
    forall i, j | 0 <= i < j < |sorted|
      ensures Less(key(sorted[i]), key(sorted[j]))
    {
      LessTrichotomy(key(sorted[i]), key(sorted[j]));
    }
  }

  lemma DistinctPrefix<T(!new)>(items: seq<T>, n: nat, key: T -> string)
    requires DistinctKeys(items, key) && n <= |items|
    ensures DistinctKeys(items[..n], key)
    ensures forall x | x in items[..n] :: x in items
  {
    forall i, j | 0 <= i < j < n
      ensures key(items[..n][i]) != key(items[..n][j])
    {
      assert key(items[i]) != key(items[j]);
    }
  }

  /** An element after a prefix has a key that the prefix lacks. */
  lemma NotInPrefix<T(!new)>(items: seq<T>, n: nat, key: T -> string)
    requires DistinctKeys(items, key) && n < |items|
    ensures forall x | x in items[..n] :: key(x) != key(items[n])
  {
    forall x | x in items[..n]
      ensures key(x) != key(items[n])
    {
      var k :| 0 <= k < n && items[k] == x;
      assert key(items[k]) != key(items[n]);
    }
  }

  /** With distinct keys there is only one way to sort. */
  lemma SortUnique<T(!new)>(a: seq<T>, b: seq<T>, items: seq<T>, other: seq<T>, key: T -> string)
    requires IsSortOf(a, items, key) && IsSortOf(b, other, key)
    requires multiset(items) == multiset(other) && DistinctKeys(items, key)
    ensures a == b
  {
    DistinctKeysPermute(items, other, key);
    SortOfDistinctIsStrict(a, items, key);
    SortOfDistinctIsStrict(b, other, key);
    SortKeepsMembers(a, other, key);
    SortKeepsMembers(b, other, key);
    StrictlySortedUnique(a, b, key);
  }

  /** `sort.Slice` by a string key. */
  method Sort<T(!new, ==)>(items: seq<T>, key: T -> string) returns (sorted: seq<T>)
    ensures IsSortOf(sorted, items, key)
    ensures |sorted| == |items|
  {
    sorted := [];
    for n := 0 to |items|
      invariant multiset(sorted) == multiset(items[..n])
      invariant Sorted(sorted, key)
    {
      var at := 0;
      while at < |sorted| && AtMost(key(sorted[at]), key(items[n]))
        invariant at <= |sorted|
        invariant forall i | 0 <= i < at :: AtMost(key(sorted[i]), key(items[n]))
      {
        at := at + 1;
      }
      InsertKeepsOrder(sorted, at, items[n], key);
      InsertKeepsMembers(sorted, at, items[..n], items[n]);
      assert items[..n + 1] == items[..n] + [items[n]];
      sorted := sorted[..at] + [items[n]] + sorted[at..];
    }
    assert items[..|items|] == items;
    SortKeepsMembers(sorted, items, key);
  }

  lemma InsertKeepsOrder<T(!new)>(sorted: seq<T>, at: nat, x: T, key: T -> string)
    requires Sorted(sorted, key) && at <= |sorted|
    requires forall i | 0 <= i < at :: AtMost(key(sorted[i]), key(x))
    requires at < |sorted| ==> Less(key(x), key(sorted[at]))
    ensures Sorted(sorted[..at] + [x] + sorted[at..], key)
  {
    if at < |sorted| {
      LessTrichotomy(key(x), key(sorted[at]));
      forall j | at <= j < |sorted|
        ensures AtMost(key(x), key(sorted[j]))
      {
        if at < j {
          AtMostTransitive(key(x), key(sorted[at]), key(sorted[j]));
        }
      }
    }
  }

  lemma InsertionPoint<T(!new)>(sorted: seq<T>, x: T, key: T -> string) returns (at: nat)
    ensures at <= |sorted|
    ensures forall i | 0 <= i < at :: AtMost(key(sorted[i]), key(x))
    ensures at < |sorted| ==> Less(key(x), key(sorted[at]))
  {
    at := 0;
    while at < |sorted| && AtMost(key(sorted[at]), key(x))
      invariant at <= |sorted|
      invariant forall i | 0 <= i < at :: AtMost(key(sorted[i]), key(x))
    {
      at := at + 1;
    }
  }

  /** Every list can be sorted. */
  lemma {:induction false} SortExists<T(!new)>(items: seq<T>, key: T -> string) returns (sorted: seq<T>)
    ensures IsSortOf(sorted, items, key)
    decreases |items|
  {
    if items == [] {
      sorted := [];
    } else {
      var n := |items| - 1;
      var rest := SortExists(items[..n], key);
      var at := InsertionPoint(rest, items[n], key);
      InsertKeepsOrder(rest, at, items[n], key);
      sorted := rest[..at] + [items[n]] + rest[at..];
      InsertKeepsMembers(rest, at, items[..n], items[n]);
      assert items == items[..n] + [items[n]];
    }
  }

  lemma InsertKeepsMembers<T(!new)>(rest: seq<T>, at: nat, items: seq<T>, x: T)
    requires multiset(rest) == multiset(items) && at <= |rest|
    ensures multiset(rest[..at] + [x] + rest[at..]) == multiset(items + [x])
  {
    assert rest == rest[..at] + rest[at..];
  }

  ghost function KeySet<T(!new)>(items: seq<T>, key: T -> string): set<string> {
    set x | x in items :: key(x)
  }

  /** A list with distinct keys has as many keys as entries. */
  lemma {:induction false} KeyCount<T(!new)>(items: seq<T>, key: T -> string)
    requires DistinctKeys(items, key)
    ensures |KeySet(items, key)| == |items|
  {
    if items == [] {
      assert KeySet(items, key) == {};
    } else {
      var n := |items| - 1;
      DistinctPrefix(items, n, key);
      NotInPrefix(items, n, key);
      KeyCount(items[..n], key);
      assert items == items[..n] + [items[n]];
      assert KeySet(items, key) == KeySet(items[..n], key) + {key(items[n])};
    }
  }

  /** Two duplicate-free lists of one length, the keys of one among those of the other, have the same keys. */
  lemma SameKeys<A(!new), B(!new)>(a: seq<A>, b: seq<B>, keyA: A -> string, keyB: B -> string)
    requires DistinctKeys(a, keyA) && DistinctKeys(b, keyB) && |a| == |b|
    requires KeySet(a, keyA) <= KeySet(b, keyB)
    ensures KeySet(a, keyA) == KeySet(b, keyB)
  {
    KeyCount(a, keyA);
    KeyCount(b, keyB);
    var rest := KeySet(b, keyB) - KeySet(a, keyA);
    assert |rest| == |KeySet(b, keyB)| - |KeySet(a, keyA)|;
  }
}

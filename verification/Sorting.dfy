/** Sorting by an integer key, as the store and the fetcher use it. */
module Sorting {

  predicate Ascending<T>(s: seq<T>, key: T -> int) {
    forall i, j | 0 <= i < j < |s| :: key(s[i]) <= key(s[j])
  }

  predicate StrictlyAscending<T>(s: seq<T>, key: T -> int) {
    forall i, j | 0 <= i < j < |s| :: key(s[i]) < key(s[j])
  }

  predicate DistinctKeys<T>(s: seq<T>, key: T -> int) {
    forall i, j | 0 <= i < j < |s| :: key(s[i]) != key(s[j])
  }

  function Insert<T>(x: T, s: seq<T>, key: T -> int): (r: seq<T>)
    ensures multiset(r) == multiset(s) + multiset{x}
  {
    if s == [] || key(x) <= key(s[0]) then
      [x] + s
    else
      assert s == [s[0]] + s[1..];
      [s[0]] + Insert(x, s[1..], key)
  }

  function SortBy<T>(s: seq<T>, key: T -> int): (r: seq<T>)
    ensures multiset(r) == multiset(s)
  {
    if s == [] then [] else
    assert s == [s[0]] + s[1..];
    Insert(s[0], SortBy(s[1..], key), key)
  }

  lemma SameElements<T(!new)>(a: seq<T>, b: seq<T>)
    requires multiset(a) == multiset(b)
    ensures forall x :: x in a <==> x in b
    ensures |a| == |b|
  {
    assert forall x :: x in a <==> x in multiset(a);
    assert forall x :: x in b <==> x in multiset(b);
    assert |a| == |multiset(a)| == |multiset(b)| == |b|;
  }

  lemma InsertElements<T(!new)>(x: T, s: seq<T>, key: T -> int)
    ensures forall y :: y in Insert(x, s, key) <==> y in s || y == x
  {
    assert multiset(Insert(x, s, key)) == multiset(s + [x]);
    SameElements(Insert(x, s, key), s + [x]);
  }

  lemma ConsIsAscending<T>(h: T, s: seq<T>, key: T -> int)
    requires forall y | y in s :: key(h) <= key(y)
    ensures Ascending(s, key) ==> Ascending([h] + s, key)
    ensures StrictlyAscending(s, key) && (forall y | y in s :: key(h) != key(y)) ==>
              StrictlyAscending([h] + s, key)
  {
    var r := [h] + s;
    assert forall k | 0 < k < |r| :: r[k] == s[k - 1] && r[k] in s;
  }

  lemma {:induction false} InsertIsAscending<T(!new)>(x: T, s: seq<T>, key: T -> int)
    requires Ascending(s, key)
    ensures Ascending(Insert(x, s, key), key)
    ensures StrictlyAscending(s, key) && (forall y | y in s :: key(y) != key(x)) ==>
              StrictlyAscending(Insert(x, s, key), key)
  {
    if s == [] || key(x) <= key(s[0]) {
      ConsIsAscending(x, s, key);
    } else {
      InsertIsAscending(x, s[1..], key);
      InsertElements(x, s[1..], key);
      assert forall y | y in s[1..] :: y in s;
      ConsIsAscending(s[0], Insert(x, s[1..], key), key);
    }
  }

  /** The result is sorted, and strictly so when no two keys agree. */
  lemma {:induction false} SortIsAscending<T(!new)>(s: seq<T>, key: T -> int)
    ensures Ascending(SortBy(s, key), key)
    ensures DistinctKeys(s, key) ==> StrictlyAscending(SortBy(s, key), key)
  {
    if s != [] {
      SortIsAscending(s[1..], key);
      var rest := SortBy(s[1..], key);
      SameElements(rest, s[1..]);
      InsertIsAscending(s[0], rest, key);
      if DistinctKeys(s, key) {
        assert DistinctKeys(s[1..], key);
        forall y | y in rest ensures key(y) != key(s[0]) {
          assert y in s[1..];
        }
      }
    }
  }

  /** A strictly ascending list is determined by its elements. */
  lemma {:induction false} ListingIsUnique<T(!new)>(a: seq<T>, b: seq<T>, key: T -> int)
    requires StrictlyAscending(a, key) && StrictlyAscending(b, key)
    requires forall x :: x in a <==> x in b
    ensures a == b
  {
    assert b != [] ==> b[0] in a;
    if a != [] {
      assert a[0] in b;
      assert a[0] == b[0];
      forall x ensures x in a[1..] <==> x in b[1..] {
        if x in a[1..] { assert x in b && x != a[0]; }
        if x in b[1..] { assert x in a && x != b[0]; }
      }
      ListingIsUnique(a[1..], b[1..], key);
    }
  }
}

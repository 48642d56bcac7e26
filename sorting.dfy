/**
 * The stable sort of JavaScript's `Array.prototype.sort` with a numeric
 * comparator, as both `processMessages` (ascending id) and `getIntents`
 * (descending timestamp) use it: an insertion sort on an integer key that
 * keeps elements with equal keys in their input order.
 */
module Sorting {

  predicate SortedBy<T>(xs: seq<T>, key: T -> int) {
    forall i, j :: 0 <= i < j < |xs| ==> key(xs[i]) <= key(xs[j])
  }

  /** Inserts `x` before the first element whose key is not smaller. */
  function Insert<T>(x: T, xs: seq<T>, key: T -> int): (r: seq<T>)
    ensures multiset(r) == multiset(xs) + multiset{x}
    ensures SortedBy(xs, key) ==> SortedBy(r, key)
  {
    if xs == [] || key(x) <= key(xs[0]) then
      [x] + xs
    else
      var tail := Insert(x, xs[1..], key);
      InsertStep(x, xs, tail, key);
      [xs[0]] + tail
  }

  /** Putting the head back in front of the tail with `x` inserted. */
  lemma InsertStep<T>(x: T, xs: seq<T>, tail: seq<T>, key: T -> int)
    requires xs != [] && key(xs[0]) < key(x)
    requires multiset(tail) == multiset(xs[1..]) + multiset{x}
    requires SortedBy(xs[1..], key) ==> SortedBy(tail, key)
    ensures multiset([xs[0]] + tail) == multiset(xs) + multiset{x}
    ensures SortedBy(xs, key) ==> SortedBy([xs[0]] + tail, key)
  {
    assert xs == [xs[0]] + xs[1..];
    assert multiset([xs[0]] + tail) == multiset{xs[0]} + multiset(tail);
    if SortedBy(xs, key) {
      SortedTail(xs, key);
      assert forall j :: 0 <= j < |xs[1..]| ==> key(xs[0]) <= key(xs[1..][j]) by {
        forall j | 0 <= j < |xs[1..]| ensures key(xs[0]) <= key(xs[1..][j]) {
          assert xs[1..][j] == xs[j + 1];
        }
      }
      HeadBelowAll(xs[0], x, xs[1..], tail, key);
      SortedCons(xs[0], tail, key);
    }
  }

  /** An element below everything in a collection is below everything in any arrangement of it. */
  lemma HeadBelowAll<T>(h: T, x: T, rest: seq<T>, tail: seq<T>, key: T -> int)
    requires multiset(tail) == multiset(rest) + multiset{x}
    requires key(h) <= key(x)
    requires forall j :: 0 <= j < |rest| ==> key(h) <= key(rest[j])
    ensures forall k :: 0 <= k < |tail| ==> key(h) <= key(tail[k])
  {
    forall k | 0 <= k < |tail| ensures key(h) <= key(tail[k]) {
      assert tail[k] in multiset(tail);
      if tail[k] != x {
        assert tail[k] in multiset(rest);
        var j :| 0 <= j < |rest| && rest[j] == tail[k];
      }
    }
  }

  lemma SortedCons<T>(h: T, tail: seq<T>, key: T -> int)
    requires SortedBy(tail, key)
    requires forall k :: 0 <= k < |tail| ==> key(h) <= key(tail[k])
    ensures SortedBy([h] + tail, key)
  {
    var r := [h] + tail;
    forall i, j | 0 <= i < j < |r| ensures key(r[i]) <= key(r[j]) {
      assert r[j] == tail[j - 1];
      if i > 0 { assert r[i] == tail[i - 1]; }
    }
  }

  /** The sorted permutation of `xs`; equal keys keep their input order. */
  function SortBy<T>(xs: seq<T>, key: T -> int): (r: seq<T>)
    ensures multiset(r) == multiset(xs)
    ensures SortedBy(r, key)
  {
    if xs == [] then []
    else
      assert xs == [xs[0]] + xs[1..];
      Insert(xs[0], SortBy(xs[1..], key), key)
  }

  /** The elements of `xs` whose key is `k`, in their order in `xs`. */
  function WithKey<T>(xs: seq<T>, key: T -> int, k: int): seq<T> {
    if xs == [] then []
    else (if key(xs[0]) == k then [xs[0]] else []) + WithKey(xs[1..], key, k)
  }

  /** Inserting `x` puts it before every element with its key. */
  lemma {:induction false} InsertStable<T>(x: T, xs: seq<T>, key: T -> int, k: int)
    ensures WithKey(Insert(x, xs, key), key, k) == (if key(x) == k then [x] else []) + WithKey(xs, key, k)
  {
    if xs == [] || key(x) <= key(xs[0]) {
      assert ([x] + xs)[1..] == xs;
    } else {
      var tail := Insert(x, xs[1..], key);
      InsertStable(x, xs[1..], key, k);
      var mine: seq<T> := if key(x) == k then [x] else [];
      var head: seq<T> := if key(xs[0]) == k then [xs[0]] else [];
      var rest := WithKey(xs[1..], key, k);
      assert ([xs[0]] + tail)[1..] == tail;
      assert WithKey(Insert(x, xs, key), key, k) == head + (mine + rest);
      assert WithKey(xs, key, k) == head + rest;
      SwapEmpty(head, mine, rest);
    }
  }

  lemma SwapEmpty<T>(a: seq<T>, b: seq<T>, c: seq<T>)
    requires a == [] || b == []
    ensures a + (b + c) == b + (a + c)
  {
  }

  /** `SortBy` is stable: the elements with any one key keep their input order. */
  lemma {:induction false} SortByStable<T>(xs: seq<T>, key: T -> int, k: int)
    ensures WithKey(SortBy(xs, key), key, k) == WithKey(xs, key, k)
  {
    if xs != [] {
      SortByStable(xs[1..], key, k);
      InsertStable(xs[0], SortBy(xs[1..], key), key, k);
    }
  }

  /** No two distinct elements of the collection share a key. */
  ghost predicate KeyIdentifies<T>(m: multiset<T>, key: T -> int) {
    forall x, y :: x in m && y in m && key(x) == key(y) ==> x == y
  }

  /** When keys identify elements, a collection has exactly one sorted arrangement. */
  lemma {:induction false} SortedUnique<T>(a: seq<T>, b: seq<T>, key: T -> int)
    requires SortedBy(a, key) && SortedBy(b, key)
    requires multiset(a) == multiset(b)
    requires KeyIdentifies(multiset(a), key)
    ensures a == b
    decreases |a|
  {
    if a == [] {
      assert |b| == |multiset(b)| == 0;
    } else {
      UniqueStep(a, b, key);
      SortedUnique(a[1..], b[1..], key);
      assert a == [a[0]] + a[1..] && b == [b[0]] + b[1..];
    }
  }

  /** Sorted arrangements of the same non-empty collection agree on their head, and their tails qualify again. */
  lemma UniqueStep<T>(a: seq<T>, b: seq<T>, key: T -> int)
    requires a != []
    requires SortedBy(a, key) && SortedBy(b, key)
    requires multiset(a) == multiset(b)
    requires KeyIdentifies(multiset(a), key)
    ensures b != [] && a[0] == b[0]
    ensures SortedBy(a[1..], key) && SortedBy(b[1..], key)
    ensures multiset(a[1..]) == multiset(b[1..])
    ensures KeyIdentifies(multiset(a[1..]), key)
  {
    assert |b| == |multiset(b)| == |multiset(a)| > 0;
    SameHead(a, b, key);
    SortedTail(a, key);
    SortedTail(b, key);
    SameTails(a, b);
    IdentifiesSub(multiset(a[1..]), multiset(a), key);
  }

  lemma SameTails<T>(a: seq<T>, b: seq<T>)
    requires |a| > 0 && |b| > 0 && a[0] == b[0]
    requires multiset(a) == multiset(b)
    ensures multiset(a[1..]) == multiset(b[1..])
    ensures multiset(a[1..]) <= multiset(a)
  {
    assert a == [a[0]] + a[1..] && b == [b[0]] + b[1..];
    assert multiset(a) == multiset{a[0]} + multiset(a[1..]);
    assert multiset(b) == multiset{a[0]} + multiset(b[1..]);
    forall z ensures multiset(a[1..])[z] == multiset(b[1..])[z] {
      assert multiset(a)[z] == multiset(b)[z];
    }
  }

  lemma SameHead<T>(a: seq<T>, b: seq<T>, key: T -> int)
    requires |a| > 0 && |b| > 0
    requires SortedBy(a, key) && SortedBy(b, key)
    requires multiset(a) == multiset(b)
    requires KeyIdentifies(multiset(a), key)
    ensures a[0] == b[0]
  {
    assert a[0] in multiset(b);
    var j :| 0 <= j < |b| && b[j] == a[0];
    assert b[0] in multiset(a);
    var i :| 0 <= i < |a| && a[i] == b[0];
    assert key(a[0]) <= key(a[i]);
    assert key(b[0]) <= key(b[j]);
    assert a[0] in multiset(a) && b[0] in multiset(a);
  }

  lemma SortedTail<T>(a: seq<T>, key: T -> int)
    requires |a| > 0 && SortedBy(a, key)
    ensures SortedBy(a[1..], key)
  {
    forall p, q | 0 <= p < q < |a| - 1 ensures key(a[1..][p]) <= key(a[1..][q]) {
      assert a[1..][p] == a[p + 1] && a[1..][q] == a[q + 1];
    }
  }

  lemma IdentifiesSub<T>(m: multiset<T>, n: multiset<T>, key: T -> int)
    requires m <= n && KeyIdentifies(n, key)
    ensures KeyIdentifies(m, key)
  {
  }
}

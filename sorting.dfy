/**
  Sorting by a key and the facts about permutations the trace reassembly needs. Rust's
  `sort_unstable_by_key` promises a permutation ordered by the key and nothing about the
  order of equal keys; the insertion sort here keeps that promise.
*/
module Sorting {

  predicate SortedByKey<T>(s: seq<T>, key: T -> int)
  {
    forall i, j :: 0 <= i < j < |s| ==> key(s[i]) <= key(s[j])
  }

  predicate StrictlySortedByKey<T>(s: seq<T>, key: T -> int)
  {
    forall i, j :: 0 <= i < j < |s| ==> key(s[i]) < key(s[j])
  }

  /** Sorted by key up to `hi`, except possibly around the element at `hole`. */
  predicate SortedAround<T>(s: seq<T>, hi: nat, hole: nat, key: T -> int)
    requires hi < |s|
  {
    forall p, q :: 0 <= p < q <= hi && q != hole ==> key(s[p]) <= key(s[q])
  }

  /** Exchanges two elements of the array; nothing else changes. */
  method Swap<T>(a: array<T>, i: nat, j: nat)
    requires i < a.Length && j < a.Length
    modifies a
    ensures a[..] == old(a[..])[i := old(a[j])][j := old(a[i])]
    ensures multiset(a[..]) == multiset(old(a[..]))
  {
    a[i], a[j] := a[j], a[i];
  }

  /** Insertion sort by adjacent swaps. */
  method SortByKey<T>(a: array<T>, key: T -> int)
    modifies a
    ensures SortedByKey(a[..], key)
    ensures multiset(a[..]) == multiset(old(a[..]))
  {
    if a.Length == 0 {
      return;
    }
    var i := 1;
    while i < a.Length
      invariant 1 <= i <= a.Length
      invariant SortedAround(a[..], i - 1, i, key)
      invariant multiset(a[..]) == multiset(old(a[..]))
    {
      var j := i;
      while j > 0 && key(a[j - 1]) > key(a[j])
        invariant 0 <= j <= i
        invariant SortedAround(a[..], i, j, key)
        invariant 0 < j < i ==> key(a[j - 1]) <= key(a[j + 1])
        invariant multiset(a[..]) == multiset(old(a[..]))
      {
        Swap(a, j - 1, j);
        j := j - 1;
      }
      i := i + 1;
    }
  }

  /** Taking one element out of a sequence takes it out of its multiset. */
  lemma MultisetRemove<T>(s: seq<T>, k: nat)
    requires k < |s|
    ensures multiset(s[..k] + s[k + 1..]) == multiset(s) - multiset{s[k]}
  {
    assert s == s[..k] + [s[k]] + s[k + 1..];
  }

  /** The least element of a strictly sorted sequence heads every sorted permutation of it. */
  lemma SortedHeads<T>(x: seq<T>, y: seq<T>, key: T -> int)
    requires x != [] && y != []
    requires x[0] in multiset(y) && y[0] in multiset(x)
    requires StrictlySortedByKey(x, key)
    requires SortedByKey(y, key)
    ensures x[0] == y[0]
  {
    var k :| 0 <= k < |y| && y[k] == x[0];
    var m :| 0 <= m < |x| && x[m] == y[0];
    assert key(x[0]) <= key(x[m]);
    assert key(y[0]) <= key(y[k]);
  }

  /** Equal heads leave equal multisets of tails. */
  lemma TailMultisets<T>(x: seq<T>, y: seq<T>)
    requires x != [] && y != [] && x[0] == y[0]
    requires multiset(x) == multiset(y)
    ensures multiset(x[1..]) == multiset(y[1..])
  {
    assert x == [x[0]] + x[1..];
    assert y == [y[0]] + y[1..];
    assert multiset(x) == multiset{x[0]} + multiset(x[1..]);
    assert multiset(y) == multiset{y[0]} + multiset(y[1..]);
    assert multiset(x[1..]) == multiset(x) - multiset{x[0]};
    assert multiset(y[1..]) == multiset(y) - multiset{y[0]};
  }

  /**
    With distinct keys there is only one order sorted by key: a strictly sorted sequence is
    the only sorted permutation of its elements.
  */
  lemma {:induction false} SortedUnique<T>(x: seq<T>, y: seq<T>, key: T -> int)
    requires multiset(x) == multiset(y)
    requires StrictlySortedByKey(x, key)
    requires SortedByKey(y, key)
    ensures x == y
  {
    assert |y| == |x| by {
      assert |multiset(x)| == |x| && |multiset(y)| == |y|;
    }
    if x != [] {
      assert x[0] in multiset(y) && y[0] in multiset(x);
      SortedHeads(x, y, key);
      TailMultisets(x, y);
      SortedUnique(x[1..], y[1..], key);
    }
  }
}

/** Sequence helpers shared by the aggregator and the mastery map. */
module Seqs {

  /** No element occurs twice. */
  predicate NoDup<T(==)>(s: seq<T>) {
    forall i, j :: 0 <= i < j < |s| ==> s[i] != s[j]
  }

  /** `Array.prototype.indexOf` on values: the first position holding `x`, or -1. */
  function IndexOf<T(==)>(s: seq<T>, x: T): (i: int)
    ensures -1 <= i < |s|
    ensures i == -1 <==> x !in s
    ensures 0 <= i ==> s[i] == x && forall j :: 0 <= j < i ==> s[j] != x
  {
    if |s| == 0 then -1
    else if s[0] == x then 0
    else
      var k := IndexOf(s[1..], x);
      if k == -1 then -1 else k + 1
  }

  /** In a sequence without duplicates, every element is found at its own position. */
  lemma IndexOfDistinct<T>(s: seq<T>, k: nat)
    requires NoDup(s) && k < |s|
    ensures IndexOf(s, s[k]) == k
  {
    var i := IndexOf(s, s[k]);
    assert s[i] == s[k];
  }

  /** Appending an element does not move the first occurrence of anything already present. */
  lemma IndexOfAppend<T>(s: seq<T>, y: T, x: T)
    requires x in s
    ensures IndexOf(s + [y], x) == IndexOf(s, x)
  {
    var i, j := IndexOf(s + [y], x), IndexOf(s, x);
    assert (s + [y])[j] == x;
    assert i < |s| ==> (s + [y])[i] == s[i];
  }

  /** The elements of `r` appear in the order of their first occurrences in `s`. */
  predicate OrderedBy<T(==)>(s: seq<T>, r: seq<T>) {
    forall i, j :: 0 <= i < j < |r| ==> IndexOf(s, r[i]) < IndexOf(s, r[j])
  }

  /** Extending `s` keeps an order taken from it, and a new element may be added at the end. */
  lemma OrderedByAppend<T>(s: seq<T>, r: seq<T>, y: T)
    requires OrderedBy(s, r)
    requires forall x :: x in r ==> x in s
    ensures OrderedBy(s + [y], r)
    ensures y !in s ==> OrderedBy(s + [y], r + [y])
  {
    forall x | x in r ensures IndexOf(s + [y], x) == IndexOf(s, x) < |s| {
      IndexOfAppend(s, y, x);
    }
    if y !in s {
      var s', r' := s + [y], r + [y];
      assert IndexOf(s', y) == |s|;
      forall i, j | 0 <= i < j < |r'| ensures IndexOf(s', r'[i]) < IndexOf(s', r'[j]) {
        assert r'[i] == r[i] && r[i] in r;
        if j < |r| {
          assert r'[j] == r[j] && r[j] in r;
        }
      }
    }
  }

  /** A duplicate-free sequence holds each of its elements once. */
  lemma {:induction false} NoDupCount<T>(s: seq<T>, x: T)
    requires NoDup(s) && x in s
    ensures multiset(s)[x] == 1
    decreases |s|
  {
    assert s == [s[0]] + s[1..];
    if s[0] == x {
      assert x !in s[1..];
    } else {
      NoDupCount(s[1..], x);
    }
  }
}

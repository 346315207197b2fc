/**
 * Sequence facts used by the plotting model, and the deduplication that
 * pandas' `Series.unique().tolist()` performs on a metadata column: every
 * distinct value once, in order of first appearance.
 */
module Unique {

  /** No value occurs twice in `s`. */
  predicate NoDuplicates<T(==)>(s: seq<T>) {
    forall i, j :: 0 <= i < j < |s| ==> s[i] != s[j]
  }

  /** The position of the first occurrence of `x` in `s`. */
  function FirstIndex<T(==)>(s: seq<T>, x: T): (r: nat)
    requires x in s
    ensures r < |s| && s[r] == x
    ensures forall k :: 0 <= k < r ==> s[k] != x
  {
    if s[0] == x then 0 else 1 + FirstIndex(s[1..], x)
  }

  /** The distinct values of `s`, kept where they first appear. */
  function Distinct<T(==, !new)>(s: seq<T>): (d: seq<T>)
    ensures forall x :: x in d <==> x in s
    ensures NoDuplicates(d)
    ensures |d| <= |s|
    decreases |s|
  {
    if s == [] then []
    else
      var n := |s| - 1;
      var p := Distinct(s[..n]);
      assert forall x :: x in s <==> x in s[..n] || x == s[n] by {
        assert s == s[..n] + [s[n]];
      }
      if s[n] in p then p else p + [s[n]]
  }

  /** Extending a sequence does not move the first occurrence of a value already in it. */
  lemma FirstIndexOfPrefix<T>(s: seq<T>, n: nat, x: T)
    requires n <= |s| && x in s[..n]
    ensures x in s && FirstIndex(s, x) == FirstIndex(s[..n], x)
  {
    assert forall k :: 0 <= k < n ==> s[..n][k] == s[k];
  }

  /** A value that occurs only at the last position has its first occurrence there. */
  lemma FirstIndexOfNewLast<T>(s: seq<T>)
    requires |s| > 0 && s[|s| - 1] !in s[..|s| - 1]
    ensures FirstIndex(s, s[|s| - 1]) == |s| - 1
  {
  }

  /** `Distinct` lists the values in the order of their first appearance. */
  lemma {:induction false} DistinctInFirstAppearanceOrder<T(!new)>(s: seq<T>)
    ensures forall i, j :: 0 <= i < j < |Distinct(s)| ==>
      FirstIndex(s, Distinct(s)[i]) < FirstIndex(s, Distinct(s)[j])
  {
    if s != [] {
      var n := |s| - 1;
      var p := Distinct(s[..n]);
      DistinctInFirstAppearanceOrder(s[..n]);
      var d := Distinct(s);
      forall i | 0 <= i < |p|
        ensures FirstIndex(s, p[i]) == FirstIndex(s[..n], p[i])
      {
        FirstIndexOfPrefix(s, n, p[i]);
      }
      if s[n] !in p {
        assert d == p + [s[n]];
        assert s[..n] == s[..|s| - 1];
        FirstIndexOfNewLast(s);
        forall i, j | 0 <= i < j < |d|
          ensures FirstIndex(s, d[i]) < FirstIndex(s, d[j])
        {
          if j == |p| {
            assert d[i] == p[i];
          } else {
            assert d[i] == p[i] && d[j] == p[j];
          }
        }
      }
    }
  }

  /** A sequence without duplicates has as many distinct values as elements. */
  lemma {:induction false} NoDuplicatesCardinality<T>(s: seq<T>)
    requires NoDuplicates(s)
    ensures |set x | x in s| == |s|
  {
    if s != [] {
      var n := |s| - 1;
      NoDuplicatesCardinality(s[..n]);
      assert s == s[..n] + [s[n]];
      assert (set x | x in s) == (set x | x in s[..n]) + {s[n]};
      assert s[n] !in s[..n];
    }
  }
}

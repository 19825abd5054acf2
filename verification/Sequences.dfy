/**
Sequences without duplicates, increasing ones, and the sizes of sets.
 */
module Sequences {

  ghost predicate Distinct<T>(s: seq<T>) {
    forall i, j :: 0 <= i < j < |s| ==> s[i] != s[j]
  }

  ghost predicate Increasing(s: seq<nat>) {
    forall i, j :: 0 <= i < j < |s| ==> s[i] < s[j]
  }

  function Members<T(==)>(s: seq<T>): set<T> {
    set x | x in s
  }

  lemma {:induction false} DistinctCount<T>(s: seq<T>)
    requires Distinct(s)
    ensures |Members(s)| == |s|
  {
    if s == [] {
      assert Members(s) == {};
    } else {
      var n := |s| - 1;
      DistinctCount(s[..n]);
      assert s == s[..n] + [s[n]];
      assert Members(s) == Members(s[..n]) + {s[n]} && s[n] !in Members(s[..n]);
    }
  }

  lemma IncreasingCount(s: seq<nat>)
    requires Increasing(s)
    ensures |Members(s)| == |s|
  {
    DistinctCount(s);
  }

  /** The elements at some positions, in order. */
  ghost predicate IsSelection<T>(s: seq<T>, at: seq<nat>, r: seq<T>) {
    && Increasing(at) && |at| == |r| && forall k :: 0 <= k < |at| ==> at[k] < |s| && r[k] == s[at[k]]
  }

  lemma SelectionGrows<T>(s: seq<T>, at: seq<nat>, r: seq<T>, x: T)
    requires IsSelection(s, at, r)
    ensures IsSelection(s + [x], at, r) && IsSelection(s + [x], at + [|s|], r + [x])
  {
  }

  /** The first `n` natural numbers. */
  function Naturals(n: nat): (s: set<nat>)
    ensures forall i: nat :: i in s <==> i < n
  {
    if n == 0 then {} else Naturals(n - 1) + {n - 1}
  }

  lemma {:induction false} NaturalsCount(n: nat)
    ensures |Naturals(n)| == n
  {
    if n > 0 {
      NaturalsCount(n - 1);
    }
  }

  lemma SubsetSize<T>(a: set<T>, b: set<T>)
    requires a <= b
    ensures |a| <= |b|
  {
    assert b == a + (b - a);
  }
}

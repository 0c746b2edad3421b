/** Permutations of 0..n-1 and the specification every shuffle of the repository meets. */
module Routing {

  ghost predicate IsPermutation(p: seq<int>) {
    && (forall i: nat :: i < |p| ==> 0 <= p[i] < |p|)
    && (forall i: nat, j: nat :: i < j < |p| ==> p[i] != p[j])
  }

  /** out holds data[k] at position perm[k]. */
  ghost predicate Routed(out: seq<int>, perm: seq<int>, data: seq<int>) {
    && |out| == |perm| == |data|
    && forall k: nat :: k < |data| ==> 0 <= perm[k] < |out| && out[perm[k]] == data[k]
  }

  lemma SamePlace(p: seq<int>, a: nat, b: nat)
    requires IsPermutation(p) && a < |p| && b < |p|
    ensures p[a] == p[b] ==> a == b
  {
  }

  ghost function Range(n: nat): set<int> {
    if n == 0 then {} else Range(n - 1) + {n - 1}
  }

  ghost function Values(p: seq<int>): set<int> {
    set i: nat | i < |p| :: p[i]
  }

  lemma {:induction false} RangeHolds(n: nat, v: int)
    ensures v in Range(n) <==> 0 <= v < n
  {
    if n > 0 {
      RangeHolds(n - 1, v);
    }
  }

  lemma {:induction false} RangeSize(n: nat)
    ensures |Range(n)| == n
  {
    if n > 0 {
      RangeSize(n - 1);
      RangeHolds(n - 1, n - 1);
    }
  }

  lemma {:induction false} ValuesSize(p: seq<int>)
    requires forall i: nat, j: nat :: i < j < |p| ==> p[i] != p[j]
    ensures |Values(p)| == |p|
  {
    if p != [] {
      var n := |p| - 1;
      ValuesSize(p[..n]);
      assert Values(p) == Values(p[..n]) + {p[n]};
      assert p[n] !in Values(p[..n]);
    }
  }

  lemma SubsetOfSameSize<T>(a: set<T>, b: set<T>)
    requires a <= b && |a| == |b|
    ensures a == b
  {
    assert |b - a| == |b| - |a|;
  }

  /** A permutation takes every value. */
  lemma Hit(p: seq<int>, v: int) returns (i: nat)
    requires IsPermutation(p) && 0 <= v < |p|
    ensures i < |p| && p[i] == v
  {
    RangeSize(|p|);
    ValuesSize(p);
    forall x | x in Values(p)
      ensures x in Range(|p|)
    {
      RangeHolds(|p|, x);
    }
    SubsetOfSameSize(Values(p), Range(|p|));
    RangeHolds(|p|, v);
    i :| i < |p| && p[i] == v;
  }

  /** The specification fixes the output completely. */
  lemma RoutedUnique(out: seq<int>, out': seq<int>, perm: seq<int>, data: seq<int>)
    requires IsPermutation(perm) && Routed(out, perm, data) && Routed(out', perm, data)
    ensures out == out'
  {
    forall v: nat | v < |out|
      ensures out[v] == out'[v]
    {
      var k := Hit(perm, v);
      assert out[perm[k]] == data[k] == out'[perm[k]];
    }
  }

  lemma {:induction false} ClimbsAtLeast(pos: seq<int>, i: nat, j: nat)
    requires forall i: nat, j: nat :: i < j < |pos| ==> pos[i] < pos[j]
    requires i <= j < |pos|
    ensures pos[j] - pos[i] >= j - i
  {
    if i < j {
      ClimbsAtLeast(pos, i, j - 1);
    }
  }

  /** n strictly increasing values out of 0..n-1 are 0..n-1. */
  lemma StrictlyIncreasingIsIdentity(pos: seq<int>, i: nat)
    requires forall i: nat, j: nat :: i < j < |pos| ==> pos[i] < pos[j]
    requires forall i: nat :: i < |pos| ==> 0 <= pos[i] < |pos|
    requires i < |pos|
    ensures pos[i] == i
  {
    ClimbsAtLeast(pos, 0, i);
    ClimbsAtLeast(pos, i, |pos| - 1);
  }
}

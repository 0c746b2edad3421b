/** The random permutation of the Melbourne shuffle, as a function of the random words drawn. */
module GenRandom {
  import opened Routing

  function Identity(n: nat): (p: seq<int>)
    ensures |p| == n
  {
    seq(n, i => i)
  }

  function Exchanged(p: seq<int>, a: nat, b: nat): (r: seq<int>)
    requires a < |p| && b < |p|
    ensures |r| == |p|
  {
    p[a := p[b]][b := p[a]]
  }

  /** The exchanges from position i on; seeds[i] is the word drawn for position i. */
  function Draw(p: seq<int>, i: nat, seeds: seq<nat>): (r: seq<int>)
    requires |seeds| + 1 >= |p|
    ensures |r| == |p|
    decreases |p| - i
  {
    if i + 1 >= |p| then p else Draw(Exchanged(p, i, i + seeds[i] % (|p| - i)), i + 1, seeds)
  }

  method Swap(p: array<int>, a: nat, b: nat)
    requires a < p.Length && b < p.Length
    modifies p
    ensures p[a] == old(p[b]) && p[b] == old(p[a])
    ensures forall k: nat :: k < p.Length && k != a && k != b ==> p[k] == old(p[k])
    ensures p[..] == Exchanged(old(p[..]), a, b)
  {
    var temp := p[a];
    p[a] := p[b];
    p[b] := temp;
  }

  lemma DrawStep(p: seq<int>, i: nat, seeds: seq<nat>)
    requires |seeds| + 1 >= |p| && i + 1 < |p|
    ensures 0 <= seeds[i] % (|p| - i) < |p| - i
    ensures Draw(p, i, seeds) == Draw(Exchanged(p, i, i + seeds[i] % (|p| - i)), i + 1, seeds)
  {
  }

  lemma DrawEnd(p: seq<int>, i: nat, seeds: seq<nat>)
    requires |seeds| + 1 >= |p| && i + 1 >= |p|
    ensures Draw(p, i, seeds) == p
  {
  }

  method Generate(permutation: array<int>, seeds: seq<nat>)
    requires |seeds| + 1 >= permutation.Length
    modifies permutation
    ensures permutation[..] == Draw(Identity(permutation.Length), 0, seeds)
    ensures IsPermutation(permutation[..])
  {
    hide IsPermutation, Draw, Exchanged;
    FillIdentity(permutation);
    IdentityPermutes(permutation.Length);
    DrawPermutes(Identity(permutation.Length), 0, seeds);
    var n, i := permutation.Length, 0;
    while i <= n - 2
      invariant Draw(permutation[..], i, seeds) == Draw(Identity(n), 0, seeds)
      invariant i <= n - 1 || i == 0
    {
      DrawStep(permutation[..], i, seeds);
      var j := seeds[i] % (n - i);
      assert i + j < n;
      Swap(permutation, i, i + j);
      i := i + 1;
    }
    DrawEnd(permutation[..], i, seeds);
  }

  method FillIdentity(permutation: array<int>)
    modifies permutation
    ensures permutation[..] == Identity(permutation.Length)
  {
    var n, i := permutation.Length, 0;
    while i < n
      invariant i <= n && forall k: nat :: k < i ==> permutation[k] == k
    {
      permutation[i] := i;
      i := i + 1;
    }
  }

  lemma IdentityPermutes(n: nat)
    ensures IsPermutation(Identity(n))
  {
  }

  lemma ExchangePermutes(p: seq<int>, a: nat, b: nat)
    requires IsPermutation(p) && a < |p| && b < |p|
    ensures IsPermutation(Exchanged(p, a, b))
  {
  }

  /** Whatever is drawn, the result is a permutation. */
  lemma {:induction false} DrawPermutes(p: seq<int>, i: nat, seeds: seq<nat>)
    requires IsPermutation(p) && |seeds| + 1 >= |p|
    ensures IsPermutation(Draw(p, i, seeds))
    decreases |p| - i
  {
    if i + 1 < |p| {
      var j := seeds[i] % (|p| - i);
      ExchangePermutes(p, i, i + j);
      DrawPermutes(Exchanged(p, i, i + j), i + 1, seeds);
    }
  }

  /** A word whose remainder is 0 leaves its position alone. */
  lemma {:induction false} DrawIdle(p: seq<int>, i: nat, seeds: seq<nat>)
    requires |seeds| + 1 >= |p| && forall k: nat :: i <= k && k + 1 < |p| ==> seeds[k] == 0
    ensures Draw(p, i, seeds) == p
    decreases |p| - i
  {
    if i + 1 < |p| {
      assert seeds[i] % (|p| - i) == 0;
      assert Exchanged(p, i, i) == p;
      DrawIdle(p, i + 1, seeds);
    }
  }

  /** When every word but that for position i is 0, position i trades places with the one its word names, and that is all. */
  lemma {:induction false} DrawOnce(p: seq<int>, from: nat, i: nat, seeds: seq<nat>)
    requires |seeds| + 1 >= |p| && from <= i && i + 1 < |p|
    requires forall k: nat :: from <= k && k + 1 < |p| && k != i ==> seeds[k] == 0
    ensures
      var j := i + seeds[i] % (|p| - i);
      && i <= j < |p| && Draw(p, from, seeds)[i] == p[j] && Draw(p, from, seeds)[j] == p[i]
      && forall k: nat :: k < |p| && k != i && k != j ==> Draw(p, from, seeds)[k] == p[k]
    decreases i - from
  {
    DrawStep(p, i, seeds);
    if from < i {
      assert seeds[from] % (|p| - from) == 0;
      assert Exchanged(p, from, from) == p;
      DrawOnce(p, from + 1, i, seeds);
    } else {
      DrawIdle(Exchanged(p, i, i + seeds[i] % (|p| - i)), i + 1, seeds);
    }
  }

  /** From the identity: two numbers change places. */
  lemma OneWordDrawn(n: nat, i: nat, seeds: seq<nat>)
    requires |seeds| + 1 >= n && i + 1 < n && forall k: nat :: k + 1 < n && k != i ==> seeds[k] == 0
    ensures
      var j, p := i + seeds[i] % (n - i), Draw(Identity(n), 0, seeds);
      p[i] == j < n && p[j] == i && forall k: nat :: k < n && k != i && k != j ==> p[k] == k
  {
    DrawOnce(Identity(n), 0, i, seeds);
  }

  lemma LastFits(p: seq<int>, q: seq<int>)
    requires IsPermutation(p) && IsPermutation(q) && |p| == |q|
    requires forall k: nat :: k + 1 < |p| ==> p[k] == q[k]
    ensures p == q
  {
    if p != [] {
      var n := |p| - 1;
      var k := Hit(p, q[n]);
      SamePlace(q, k, n);
    }
  }

  /** The draw that brings q[i] to position i of p, which agrees with q before i. */
  lemma DrawFor(p: seq<int>, q: seq<int>, i: nat) returns (j: nat)
    requires IsPermutation(p) && IsPermutation(q) && |p| == |q| && i < |p|
    requires forall k: nat :: k < i ==> p[k] == q[k]
    ensures i + j < |p| && IsPermutation(Exchanged(p, i, i + j))
    ensures forall k: nat :: k <= i ==> Exchanged(p, i, i + j)[k] == q[k]
  {
    var k := Hit(p, q[i]);
    SamePlace(q, k, i);
    j := k - i;
    ExchangePermutes(p, i, k);
  }

  /** From a permutation that agrees with q up to i, some draws lead to q. */
  lemma {:induction false} DrawReaches(p: seq<int>, q: seq<int>, i: nat, drawn: seq<nat>) returns (seeds: seq<nat>)
    requires IsPermutation(p) && IsPermutation(q) && |p| == |q| && i <= |p| && |drawn| == i
    requires forall k: nat :: k < i ==> p[k] == q[k]
    requires forall k: nat :: k < i ==> drawn[k] < |p|
    ensures |seeds| == |p| && seeds[..i] == drawn && Draw(p, i, seeds) == q
    ensures forall k: nat :: k < |p| ==> seeds[k] < |p|
    decreases |p| - i
  {
    hide IsPermutation, Exchanged, Draw;
    if i + 1 >= |p| {
      LastFits(p, q);
      seeds := if i == |p| then drawn else drawn + [0];
      DrawEnd(p, i, seeds);
    } else {
      var j := DrawFor(p, q, i);
      assert j % (|p| - i) == j;
      seeds := DrawReaches(Exchanged(p, i, i + j), q, i + 1, drawn + [j]);
      assert seeds[..i] == seeds[..i + 1][..i] == drawn && seeds[i] == seeds[..i + 1][i] == j;
      DrawStep(p, i, seeds);
    }
  }

  /** Every permutation is drawn by some words, each below the length. */
  lemma EveryPermutationIsDrawn(q: seq<int>) returns (seeds: seq<nat>)
    requires IsPermutation(q)
    ensures |seeds| == |q| && Draw(Identity(|q|), 0, seeds) == q
    ensures forall k: nat :: k < |q| ==> seeds[k] < |q|
  {
    IdentityPermutes(|q|);
    seeds := DrawReaches(Identity(|q|), q, 0, []);
  }
}

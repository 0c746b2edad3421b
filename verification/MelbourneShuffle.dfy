/** The three passes of the Melbourne shuffle and the retry loop around them. */
module MelbourneShuffle {
  import opened Bitonic
  import opened GenRandom
  import opened Melbourne
  import opened MelbourneSpec
  import opened RealLibCoda
  import opened Routing

  /** What a permutation carries along a permutation is a permutation. */
  lemma RoutedPermutation(out: seq<int>, perm: seq<int>, data: seq<int>)
    requires IsPermutation(perm) && IsPermutation(data) && Routed(out, perm, data)
    ensures IsPermutation(out)
  {
    forall i: nat | i < |out|
      ensures 0 <= out[i] < |out| && forall j: nat :: j < |out| && j != i ==> out[i] != out[j]
    {
      var k := Hit(perm, i);
      forall j: nat | j < |out| && j != i
        ensures out[i] != out[j]
      {
        var l := Hit(perm, j);
        SamePlace(data, k, l);
      }
    }
  }

  /** Carrying perm and data along the same permutation and then the data along the carried perm routes data by perm. */
  lemma ThreePasses(r: seq<int>, perm: seq<int>, data: seq<int>, rr: seq<int>, dr: seq<int>, out: seq<int>)
    requires IsPermutation(perm)
    requires Routed(rr, r, perm) && Routed(dr, r, data) && Routed(out, rr, dr)
    ensures Routed(out, perm, data)
  {
    forall k: nat | k < |data|
      ensures 0 <= perm[k] < |out| && out[perm[k]] == data[k]
    {
      assert rr[r[k]] == perm[k] && dr[r[k]] == data[k];
    }
  }

  /** Random permutation r is kept: neither it nor perm carried along it puts more than b items of a row into a bucket. */
  ghost predicate Accepts(r: seq<int>, perm: seq<int>, s: nat, b: nat)
    requires |r| == |perm| == s * s
  {
    NoOverflow(r, s, b) && exists rr: seq<int> :: Routed(rr, r, perm) && NoOverflow(rr, s, b)
  }

  lemma AcceptsBy(r: seq<int>, perm: seq<int>, rr: seq<int>, s: nat, b: nat)
    requires |r| == |perm| == s * s && IsPermutation(r) && NoOverflow(r, s, b) && Routed(rr, r, perm)
    ensures Accepts(r, perm, s, b) <==> NoOverflow(rr, s, b)
  {
    hide NoOverflow;
    if Accepts(r, perm, s, b) {
      var rr' :| Routed(rr', r, perm) && NoOverflow(rr', s, b);
      RoutedUnique(rr, rr', r, perm);
    }
  }

  /**
   * A random permutation is kept exactly when neither carrying data along it nor carrying data along the carried
   * permutation drops an item.
   */
  lemma AcceptsExactly(r: seq<int>, perm: seq<int>, rr: seq<int>, data: seq<int>, s: nat, b: nat)
    requires s > 0 && b > 0 && |r| == |perm| == |data| == s * s
    requires IsPermutation(r) && IsPermutation(perm) && Routed(rr, r, perm)
    ensures Accepts(r, perm, s, b) <==>
              forall k: nat :: k < |r| ==> InItsColumn(data, r, s, b, k) && InItsColumn(data, rr, s, b, k)
  {
    hide NoOverflow, InItsColumn, IsPermutation, Routed;
    RoutedPermutation(rr, r, perm);
    assert |rr| == |r| by {
      RoutedLength(rr, r, perm);
    }
    NoOverflowExactly(data, r, s, b);
    NoOverflowExactly(data, rr, s, b);
    if NoOverflow(r, s, b) {
      AcceptsBy(r, perm, rr, s, b);
    } else {
      RejectedAtOnce(r, perm, s, b);
    }
  }

  lemma RoutedLength(out: seq<int>, perm: seq<int>, data: seq<int>)
    requires Routed(out, perm, data)
    ensures |out| == |perm| == |data|
  {
  }

  /**
   * One round of the loop with random permutation random: false when an overflow check rejects it. aPoint is what
   * verify says about the first pass, 0 when that pass is not reached.
   */
  method Attempt(m: MelShuffle, data: array<int>, perm: array<int>, random: array<int>, output: array<int>)
    returns (accepted: bool, aPoint: int)
    requires m.Valid() && data.Length == perm.Length == random.Length == output.Length == m.s * m.s
    requires m.Apart(data) && m.Apart(perm) && m.Apart(random) && m.Apart(output)
    requires output != data && output != perm
    requires IsPermutation(perm[..]) && IsPermutation(random[..])
    modifies m.coda, m.coda.txmem, m.gInterm, m.msortMem, m.tmpData, output
    ensures m.coda.Valid() && m.coda.Closed() && aPoint == 0
    ensures accepted <==> Accepts(old(random[..]), old(perm[..]), m.s, m.b)
    ensures accepted ==> Routed(output[..], old(perm[..]), old(data[..]))
    ensures !accepted ==> output[..] == old(output[..])
  {
    hide IsPermutation, Routed, NoOverflow, Destinations, PowerOfTwo, RealCoda.Valid, RealCoda.Closed, Accepts;
    ghost var r, p, d := random[..], perm[..], data[..];
    RejectedAtOnce(r, p, m.s, m.b);
    PermutedDestinations(r, m.s);
    var flow := m.CheckOFlow(random);
    if flow != 0 {
      return false, 0;
    }
    var rr := new int[random.Length];
    m.Pass(perm, random, rr);
    RoutedPermutation(rr[..], r, p);
    PermutedDestinations(rr[..], m.s);
    aPoint := m.Verify(perm, random, rr);
    AcceptsBy(r, p, rr[..], m.s, m.b);
    flow := m.CheckOFlow(rr);
    if flow != 0 {
      return false, aPoint;
    }
    var dr := new int[random.Length];
    m.Pass(data, random, dr);
    m.Pass(dr, rr, output);
    ThreePasses(r, p, d, rr[..], dr[..], output[..]);
    accepted := true;
  }

  lemma PermutedDestinations(r: seq<int>, s: nat)
    requires IsPermutation(r) && |r| == s * s && s > 0
    ensures Destinations(r, s) && forall k: nat :: k < |r| ==> 0 <= r[k] < |r|
  {
    DestinationsOf(r, s);
  }

  lemma RejectedAtOnce(r: seq<int>, perm: seq<int>, s: nat, b: nat)
    requires |r| == |perm| == s * s
    ensures Accepts(r, perm, s, b) ==> NoOverflow(r, s, b)
  {
  }

  /**
   * The whole shuffle, the random words of every round given in draws. It ends as soon as a round is accepted, and
   * is out of rounds only when all of them are rejected.
   */
  method Shuffle(m: MelShuffle, data: array<int>, perm: array<int>, output: array<int>, draws: seq<seq<nat>>)
    returns (done: bool)
    requires m.Valid() && data.Length == perm.Length == output.Length == m.s * m.s
    requires m.Apart(data) && m.Apart(perm) && m.Apart(output) && output != data && output != perm
    requires IsPermutation(perm[..]) && forall t: nat :: t < |draws| ==> |draws[t]| + 1 >= perm.Length
    modifies m.coda, m.coda.txmem, m.gInterm, m.msortMem, m.tmpData, output
    ensures done ==> Routed(output[..], old(perm[..]), old(data[..]))
    ensures done <==> exists t: nat :: t < |draws| && Accepts(Draw(Identity(m.s * m.s), 0, draws[t]), old(perm[..]), m.s, m.b)
    ensures !done ==> output[..] == old(output[..])
  {
    hide IsPermutation, Routed, Draw, PowerOfTwo, RealCoda.Valid, RealCoda.Closed, Accepts;
    var random := new int[perm.Length];
    var t := 0;
    while t < |draws|
      invariant t <= |draws| && m.coda.Valid() && m.coda.Closed()
      invariant forall u: nat :: u < t ==> !Accepts(Draw(Identity(m.s * m.s), 0, draws[u]), perm[..], m.s, m.b)
      invariant output[..] == old(output[..])
    {
      Generate(random, draws[t]);
      var accepted, aPoint := Attempt(m, data, perm, random, output);
      if accepted {
        return true;
      }
      t := t + 1;
    }
    done := false;
  }
}

/** When a spary runs out of queue blocks: the lengths of its queues, from the destinations alone. */
module CacheOccupancy {
  import opened Common
  import opened CacheArith
  import opened CacheSpec
  import opened CacheFlow
  import opened QueueWords
  import opened QueueContents

  // ---- the recurrence ----

  /** How many of the destinations are indices; the others are dummies. */
  function Reals(ps: seq<int>): nat {
    if ps == [] then 0 else
      var n := |ps| - 1;
      Reals(ps[..n]) + (if ps[n] != -1 then 1 else 0)
  }

  /** How many of the destinations are in range r. */
  function Arrivals(ps: seq<int>, r: Range): nat {
    if ps == [] then 0 else
      var n := |ps| - 1;
      Arrivals(ps[..n], r) + (if r.lo <= ps[n] < r.hi then 1 else 0)
  }

  function Sum(levels: seq<nat>): nat {
    if levels == [] then 0 else levels[0] + Sum(levels[1..])
  }

  /** One input chunk: each queue takes in what is for its range, and then gives one up if it is not empty. */
  function NextLevels(levels: seq<nat>, chunk: seq<int>, r: Range, w: nat): (next: seq<nat>)
    ensures |next| == |levels|
    ensures forall i: nat :: i < |levels| ==> next[i] == Max(levels[i] + Arrivals(chunk, Chunk(r, w, i)) - 1, 0)
  {
    seq(|levels|, i requires 0 <= i < |levels| => Max(levels[i] + Arrivals(chunk, Chunk(r, w, i)) - 1, 0) as nat)
  }

  /** Read in chunks of inPLen, the destinations at some chunk need more than cap blocks. */
  predicate Overfills(levels: seq<nat>, ps: seq<int>, inPLen: nat, cap: nat, r: Range, w: nat)
    requires inPLen > 0
    decreases |ps|
  {
    && ps != []
    && var k := Min(inPLen, |ps|);
       || Sum(levels) + Reals(ps[..k]) > cap
       || Overfills(NextLevels(levels, ps[..k], r, w), ps[k..], inPLen, cap, r, w)
  }

  function NoneQueued(n: nat): (levels: seq<nat>)
    ensures |levels| == n && forall i: nat :: i < n ==> levels[i] == 0
  {
    seq(n, i => 0)
  }

  /** The same for a spary that starts with empty queues; ps are the destinations of its slots. */
  predicate SprayFills(ps: seq<int>, r: Range, cap: nat, inPartitions: nat, outPartitions: nat) {
    && ps != [] && inPartitions > 0 && outPartitions > 0 && r.lo <= r.hi
    && CeilDiv(|ps|, inPartitions) > 0
    && Overfills(NoneQueued(outPartitions), ps, CeilDiv(|ps|, inPartitions), cap, r, CeilDiv(r.hi - r.lo, outPartitions))
  }

  /** A spary of slots that stay within cap is the rest of its recurrence with one chunk less. */
  lemma OneChunk(levels: seq<nat>, ps: seq<int>, inPLen: nat, cap: nat, r: Range, w: nat, k: nat)
    requires inPLen > 0 && ps != [] && k == Min(inPLen, |ps|)
    ensures k <= |ps|
    ensures Overfills(levels, ps, inPLen, cap, r, w) <==>
              || Sum(levels) + Reals(ps[..k]) > cap
              || Overfills(NextLevels(levels, ps[..k], r, w), ps[k..], inPLen, cap, r, w)
  {
  }

  // ---- the queues it stands for ----

  ghost function Perms(es: seq<Element>): (ps: seq<int>)
    ensures |ps| == |es| && forall k: nat :: k < |es| ==> ps[k] == es[k].perm
  {
    seq(|es|, k requires 0 <= k < |es| => es[k].perm)
  }

  ghost function Levels(qs: seq<seq<Element>>): (levels: seq<nat>)
    ensures |levels| == |qs| && forall i: nat :: i < |qs| ==> levels[i] == |qs[i]|
  {
    seq(|qs|, i requires 0 <= i < |qs| => |qs[i]|)
  }

  lemma {:induction false} SumOfLevels(qs: seq<seq<Element>>)
    ensures Sum(Levels(qs)) == TotalQueued(qs)
  {
    if qs != [] {
      SumOfLevels(qs[1..]);
      assert Levels(qs)[1..] == Levels(qs[1..]);
    }
  }

  lemma {:induction false} LaneCount(es: seq<Element>, r: Range)
    ensures |Lane(es, r)| == Arrivals(Perms(es), r)
  {
    if es != [] {
      var n := |es| - 1;
      LaneCount(es[..n], r);
      assert Perms(es)[..n] == Perms(es[..n]);
    }
  }

  lemma RealsNext(es: seq<Element>, e: Element)
    ensures Reals(Perms(es + [e])) == Reals(Perms(es)) + (if e.perm != -1 then 1 else 0)
  {
    assert Perms(es + [e])[..|es|] == Perms(es);
  }

  lemma {:induction false} RealsPrefix(es: seq<Element>, n: nat)
    requires n <= |es|
    ensures Reals(Perms(es[..n])) <= Reals(Perms(es))
    decreases |es|
  {
    if n < |es| {
      var m := |es| - 1;
      RealsPrefix(es[..m], n);
      assert es[..m][..n] == es[..n];
      RealsNext(es[..m], es[m]);
      assert es[..m] + [es[m]] == es;
    } else {
      assert es[..n] == es;
    }
  }

  /** The blocks do not last for the chunk es. */
  ghost predicate TooMany(qs: seq<seq<Element>>, es: seq<Element>, cap: nat) {
    TotalQueued(qs) + Reals(Perms(es)) > cap
  }

  /** Where the reading of es stands after j elements: each real one is in a queue. */
  ghost predicate Counted(start: seq<seq<Element>>, qs: seq<seq<Element>>, es: seq<Element>, j: nat, cap: nat) {
    j <= |es| && TotalQueued(qs) == TotalQueued(start) + Reals(Perms(es[..j])) <= cap
  }

  lemma CountedNone(qs: seq<seq<Element>>, es: seq<Element>, cap: nat)
    requires TotalQueued(qs) <= cap
    ensures Counted(qs, qs, es, 0, cap)
  {
    assert es[..0] == [];
  }

  lemma CountedPush(start: seq<seq<Element>>, qs: seq<seq<Element>>, es: seq<Element>, j: nat, cap: nat, q: nat)
    requires Counted(start, qs, es, j, cap) && j < |es| && es[j].perm != -1 && TotalQueued(qs) < cap && q < |qs|
    ensures Counted(start, qs[q := qs[q] + [es[j]]], es, j + 1, cap)
  {
    QueuedPlusOne(qs, q, es[j]);
    RealsNext(es[..j], es[j]);
    assert es[..j] + [es[j]] == es[..j + 1];
  }

  lemma CountedSkip(start: seq<seq<Element>>, qs: seq<seq<Element>>, es: seq<Element>, j: nat, cap: nat)
    requires Counted(start, qs, es, j, cap) && j < |es| && es[j].perm == -1
    ensures Counted(start, qs, es, j + 1, cap)
  {
    RealsNext(es[..j], es[j]);
    assert es[..j] + [es[j]] == es[..j + 1];
  }

  lemma CountedStops(start: seq<seq<Element>>, qs: seq<seq<Element>>, es: seq<Element>, j: nat, cap: nat)
    requires Counted(start, qs, es, j, cap) && j < |es| && es[j].perm != -1 && TotalQueued(qs) == cap
    ensures TooMany(start, es, cap)
  {
    RealsNext(es[..j], es[j]);
    assert es[..j] + [es[j]] == es[..j + 1];
    RealsPrefix(es, j + 1);
  }

  lemma CountedEnds(start: seq<seq<Element>>, qs: seq<seq<Element>>, es: seq<Element>, cap: nat)
    requires Counted(start, qs, es, |es|, cap)
    ensures !TooMany(start, es, cap)
  {
    assert es[..|es|] == es;
  }

  /** The queues from a to b - 1 have lost their heads, the others are as they were. */
  ghost predicate Served(before: seq<seq<Element>>, after: seq<seq<Element>>, a: nat, b: nat) {
    && |after| == |before|
    && forall q: nat :: q < |before| ==> after[q] == if a <= q < b then TailOf(before[q]) else before[q]
  }

  lemma ServedNone(qs: seq<seq<Element>>)
    ensures Served(qs, qs, 0, 0)
  {
  }

  lemma ServedJoin(s: seq<seq<Element>>, t: seq<seq<Element>>, u: seq<seq<Element>>, a: nat, b: nat)
    requires Served(s, t, 0, a) && Served(t, u, a, b) && a <= b
    ensures Served(s, u, 0, b)
  {
  }

  /** A round takes the lengths one step on. */
  lemma LevelsRound(before: seq<seq<Element>>, mid: seq<seq<Element>>, after: seq<seq<Element>>, es: seq<Element>,
                    r: Range, w: nat, n: nat)
    requires Lanes(before, mid, es, r, w, n) && Served(mid, after, 0, n)
    ensures Levels(after) == NextLevels(Levels(before), Perms(es), r, w)
  {
    hide Lane, Chunk, Arrivals;
    forall i: nat | i < n
      ensures |after[i]| == Max(|before[i]| + Arrivals(Perms(es), Chunk(r, w, i)) - 1, 0)
    {
      LaneCount(es, Chunk(r, w, i));
    }
  }

  // ---- a spary's run against the recurrence ----

  /** With the queues qs and the slots of all from at on still to come, the run ends as it would from start. */
  ghost predicate SameFate(start: seq<seq<Element>>, qs: seq<seq<Element>>, all: seq<Element>, at: nat, inPLen: nat,
                           cap: nat, r: Range, w: nat)
    requires inPLen > 0 && at <= |all|
  {
    Overfills(Levels(qs), Perms(all[at..]), inPLen, cap, r, w) <==> Overfills(Levels(start), Perms(all), inPLen, cap, r, w)
  }

  lemma SameFateStart(qs: seq<seq<Element>>, all: seq<Element>, inPLen: nat, cap: nat, r: Range, w: nat)
    requires inPLen > 0
    ensures SameFate(qs, qs, all, 0, inPLen, cap, r, w)
  {
    assert all[0..] == all;
  }

  lemma FateStep(qs: seq<seq<Element>>, all: seq<Element>, at: nat, k: nat, inPLen: nat, cap: nat, r: Range, w: nat)
    requires inPLen > 0 && at < |all| && k == Min(inPLen, |all| - at)
    ensures at + k <= |all|
    ensures Overfills(Levels(qs), Perms(all[at..]), inPLen, cap, r, w) <==>
              || TooMany(qs, all[at..at + k], cap)
              || Overfills(NextLevels(Levels(qs), Perms(all[at..at + k]), r, w), Perms(all[at + k..]), inPLen, cap, r, w)
  {
    hide NextLevels;
    var ps := Perms(all[at..]);
    assert ps[..k] == Perms(all[at..at + k]);
    assert ps[k..] == Perms(all[at + k..]);
    SumOfLevels(qs);
    OneChunk(Levels(qs), ps, inPLen, cap, r, w, k);
  }

  lemma FateHalts(start: seq<seq<Element>>, qs: seq<seq<Element>>, all: seq<Element>, at: nat, k: nat, inPLen: nat,
                  cap: nat, r: Range, w: nat)
    requires inPLen > 0 && at < |all| && k == Min(inPLen, |all| - at) && SameFate(start, qs, all, at, inPLen, cap, r, w)
    requires at + k <= |all| && TooMany(qs, all[at..at + k], cap)
    ensures Overfills(Levels(start), Perms(all), inPLen, cap, r, w)
  {
    hide Overfills, TooMany;
    FateStep(qs, all, at, k, inPLen, cap, r, w);
  }

  lemma FateGoesOn(start: seq<seq<Element>>, qs: seq<seq<Element>>, next: seq<seq<Element>>, all: seq<Element>, at: nat,
                   k: nat, inPLen: nat, cap: nat, r: Range, w: nat)
    requires inPLen > 0 && at < |all| && k == Min(inPLen, |all| - at) && SameFate(start, qs, all, at, inPLen, cap, r, w)
    requires at + k <= |all| && !TooMany(qs, all[at..at + k], cap)
    requires Levels(next) == NextLevels(Levels(qs), Perms(all[at..at + k]), r, w)
    ensures SameFate(start, next, all, at + k, inPLen, cap, r, w)
  {
    hide Overfills, TooMany, NextLevels;
    FateStep(qs, all, at, k, inPLen, cap, r, w);
  }

  lemma FateEnds(start: seq<seq<Element>>, qs: seq<seq<Element>>, all: seq<Element>, inPLen: nat, cap: nat, r: Range,
                 w: nat)
    requires inPLen > 0 && SameFate(start, qs, all, |all|, inPLen, cap, r, w)
    ensures !Overfills(Levels(start), Perms(all), inPLen, cap, r, w)
  {
    assert all[|all|..] == [];
  }

  /** What the recurrence says of a spary from its start, with the queues qs just made. */
  lemma FateFromStart(qs: seq<seq<Element>>, es: seq<Element>, r: Range, cap: nat, inPartitions: nat, inPLen: nat,
                      outPartitions: nat, w: nat)
    requires qs == seq(outPartitions, q => []) && inPartitions > 0 && outPartitions > 0 && r.lo <= r.hi
    requires inPLen == CeilDiv(|es|, inPartitions) > 0 && w == CeilDiv(r.hi - r.lo, outPartitions)
    ensures SprayFills(Perms(es), r, cap, inPartitions, outPartitions) <==>
              Overfills(Levels(qs), Perms(es), inPLen, cap, r, w)
  {
    assert Levels(qs) == NoneQueued(outPartitions);
    if es == [] {
      assert Perms(es) == [];
    }
  }

  // ---- inputs that fill the queues ----

  lemma {:induction false} AllArrive(ps: seq<int>, r: Range)
    requires r.lo >= 0 && forall t: nat :: t < |ps| ==> r.lo <= ps[t] < r.hi
    ensures Reals(ps) == Arrivals(ps, r) == |ps|
  {
    if ps != [] {
      AllArrive(ps[..|ps| - 1], r);
    }
  }

  /**
   * Whenever the first m + 1 chunks are all for the first range, the blocks run out once m chunks less a block each
   * and one more chunk are more than cap.
   */
  lemma {:induction false} OneQueueFills(levels: seq<nat>, ps: seq<int>, inPLen: nat, cap: nat, r: Range, w: nat, m: nat)
    requires levels != [] && inPLen > 0 && r.lo >= 0
    requires (m + 1) * inPLen <= |ps|
    requires forall t: nat :: t < (m + 1) * inPLen ==> Chunk(r, w, 0).lo <= ps[t] < Chunk(r, w, 0).hi
    requires levels[0] + m * (inPLen - 1) + inPLen > cap
    ensures Overfills(levels, ps, inPLen, cap, r, w)
    decreases m
  {
    hide Chunk, NextLevels;
    Products(m, inPLen);
    assert |ps| >= inPLen;
    var chunk := ps[..inPLen];
    assert r.lo <= Chunk(r, w, 0).lo by {
      FirstLow(r, w);
    }
    AllArrive(chunk, Chunk(r, w, 0));
    OneChunk(levels, ps, inPLen, cap, r, w, inPLen);
    if m > 0 {
      OneQueueFills(NextLevels(levels, chunk, r, w), ps[inPLen..], inPLen, cap, r, w, m - 1);
    }
  }

  lemma FirstLow(r: Range, w: nat)
    ensures Chunk(r, w, 0).lo == r.lo
  {
  }

  lemma Products(m: nat, inPLen: nat)
    requires inPLen > 0
    ensures (m + 1) * inPLen == m * inPLen + inPLen >= inPLen
    ensures m > 0 ==> m * (inPLen - 1) == (m - 1) * (inPLen - 1) + (inPLen - 1)
  {
  }
}

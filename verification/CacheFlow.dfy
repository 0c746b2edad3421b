/** All output partitions of a spary and their queues, step by step. */
module CacheFlow {
  import opened Common
  import opened CacheArith
  import opened CacheSpec
  import opened QueueWords
  import opened QueueContents

  /** The index range of output partition i: w indices, the last one what is left. */
  function Chunk(r: Range, w: nat, i: nat): Range {
    Range(w * i + r.lo, Min(w * (i + 1) + r.lo, r.hi))
  }

  ghost predicate Cut(r: Range, w: nat, n: nat) {
    0 <= r.lo <= r.hi && CutsEvenly(r.hi - r.lo, n, w)
  }

  lemma ChunkBounds(r: Range, w: nat, n: nat, i: nat)
    requires Cut(r, w, n) && i < n
    ensures r.lo <= Chunk(r, w, i).lo < Chunk(r, w, i).hi <= r.hi
    ensures Chunk(r, w, i).hi - Chunk(r, w, i).lo <= w
    ensures i == 0 ==> Chunk(r, w, i).lo == r.lo
    ensures i == n - 1 ==> Chunk(r, w, i).hi == r.hi
    ensures i < n - 1 ==> Chunk(r, w, i).hi == Chunk(r, w, i + 1).lo
  {
    TimesMonotone(i, n - 1, w);
    if i < n - 1 {
      TimesMonotone(i + 1, n - 1, w);
      Distribute(w, i + 1);
    }
    Distribute(w, i);
  }

  lemma Distribute(w: nat, i: int)
    ensures w * (i + 1) == w * i + w && w * i == i * w
  {
  }

  lemma NextMultiple(i: int, w: nat)
    ensures (i + 1) * w == i * w + w
  {
  }

  /** Index p belongs to the chunk its queue number names and to no other. */
  lemma ChunkOf(r: Range, w: nat, n: nat, p: int)
    requires Cut(r, w, n) && r.lo <= p < r.hi
    ensures 0 <= (p - r.lo) / w < n
    ensures forall i: nat :: i < n ==> (Chunk(r, w, i).lo <= p < Chunk(r, w, i).hi <==> i == (p - r.lo) / w)
  {
    var d, q := p - r.lo, (p - r.lo) / w;
    assert d == q * w + d % w;
    QuotientBelow(d, w, n);
    forall i: nat | i < n
      ensures Chunk(r, w, i).lo <= p < Chunk(r, w, i).hi <==> i == q
    {
      InChunkIff(d, w, i);
    }
  }

  lemma QuotientBelow(d: nat, w: nat, n: nat)
    requires w > 0 && d < n * w
    ensures 0 <= d / w < n
  {
    var q := d / w;
    assert d == q * w + d % w;
    if q >= n {
      TimesMonotone(n, q, w);
    }
    if q < 0 {
      TimesMonotone(q, -1, w);
    }
  }

  lemma InChunkIff(d: nat, w: nat, i: nat)
    requires w > 0
    ensures w * i <= d < w * (i + 1) <==> i == d / w
  {
    var q := d / w;
    assert d == q * w + d % w;
    Distribute(w, i);
    Distribute(w, q);
    if i < q {
      TimesMonotone(i + 1, q, w);
    } else if i > q {
      TimesMonotone(q + 1, i, w);
      Distribute(w, q);
    }
  }

  /**
   * Queues and output slots hold what has been read, each for its own chunk, and the queues together no more than
   * the real elements read.
   */
  ghost predicate Flow(qs: seq<seq<Element>>, slots: seq<seq<Element>>, read: seq<Element>, r: Range, w: nat, n: nat) {
    && |qs| == |slots| == n
    && (forall i: nat :: i < n ==> Conserves(qs[i], slots[i], read, Chunk(r, w, i)))
    && TotalQueued(qs) <= |Bag(read, r)|
  }

  lemma FlowSizes(qs: seq<seq<Element>>, slots: seq<seq<Element>>, read: seq<Element>, r: Range, w: nat, n: nat)
    requires Flow(qs, slots, read, r, w, n)
    ensures |qs| == |slots| == n && TotalQueued(qs) <= |Bag(read, r)|
  {
  }

  /** Nothing read, nothing queued, every slot a dummy. */
  lemma FlowStart(qs: seq<seq<Element>>, slots: seq<seq<Element>>, r: Range, w: nat, n: nat)
    requires Cut(r, w, n) && |qs| == |slots| == n && forall i: nat :: i < n ==> qs[i] == []
    requires forall i: nat, k: nat :: i < n && k < |slots[i]| ==> slots[i][k].perm == -1
    ensures Flow(qs, slots, [], r, w, n)
  {
    NothingQueued(qs);
    forall i: nat | i < n
      ensures Conserves(qs[i], slots[i], [], Chunk(r, w, i))
    {
      ChunkBounds(r, w, n, i);
      NoBag(slots[i], Chunk(r, w, i));
    }
  }

  lemma {:induction false} NoBag(s: seq<Element>, r: Range)
    requires r.lo >= 0 && forall k: nat :: k < |s| ==> s[k].perm == -1
    ensures Bag(s, r) == multiset{}
  {
    if s != [] {
      NoBag(s[..|s| - 1], r);
    }
  }

  lemma FlowSkip(qs: seq<seq<Element>>, slots: seq<seq<Element>>, read: seq<Element>, r: Range, w: nat, n: nat,
                 e: Element)
    requires Flow(qs, slots, read, r, w, n) && e.perm == -1 && r.lo >= 0
    ensures Flow(qs, slots, read + [e], r, w, n)
  {
    hide Conserves, Bag, Chunk;
    BagAppend(read, e, r);
    forall i: nat | i < n
      ensures Conserves(qs[i], slots[i], read + [e], Chunk(r, w, i))
    {
      ReadDummy(qs[i], slots[i], read, Chunk(r, w, i), e);
    }
  }

  lemma ReadDummy(q: seq<Element>, s: seq<Element>, read: seq<Element>, r: Range, e: Element)
    requires Conserves(q, s, read, r) && e.perm == -1
    ensures Conserves(q, s, read + [e], r)
  {
    BagAppend(read, e, r);
  }

  /** The queue an element goes to is that of the one chunk it belongs to. */
  ghost predicate GoesTo(e: Element, r: Range, w: nat, n: nat, q: nat) {
    q < n && forall i: nat :: i < n ==> (InRange(e, Chunk(r, w, i)) <==> i == q)
  }

  lemma QueueOf(e: Element, r: Range, w: nat, n: nat)
    requires Cut(r, w, n) && InRange(e, r)
    ensures w > 0 && 0 <= (e.perm - r.lo) / w && GoesTo(e, r, w, n, (e.perm - r.lo) / w)
  {
    ChunkOf(r, w, n, e.perm);
  }

  lemma FlowPush(qs: seq<seq<Element>>, slots: seq<seq<Element>>, read: seq<Element>, r: Range, w: nat, n: nat,
                 e: Element, q: nat)
    requires Flow(qs, slots, read, r, w, n) && InRange(e, r) && GoesTo(e, r, w, n, q)
    ensures q < |qs| && Flow(qs[q := qs[q] + [e]], slots, read + [e], r, w, n)
  {
    hide Conserves, Bag, Chunk;
    BagAppend(read, e, r);
    QueuedPlusOne(qs, q, e);
    forall i: nat | i < n
      ensures Conserves(qs[q := qs[q] + [e]][i], slots[i], read + [e], Chunk(r, w, i))
    {
      ConservesRead(qs[i], slots[i], read, Chunk(r, w, i), e);
    }
  }

  /** The elements of es for range r, in order. */
  ghost function Lane(es: seq<Element>, r: Range): seq<Element> {
    if es == [] then [] else
      var n := |es| - 1;
      Lane(es[..n], r) + (if InRange(es[n], r) then [es[n]] else [])
  }

  /** Every queue has taken in the elements of es for its chunk, in order. */
  ghost predicate Lanes(before: seq<seq<Element>>, after: seq<seq<Element>>, es: seq<Element>, r: Range, w: nat, n: nat) {
    |before| == |after| == n && forall i: nat :: i < n ==> after[i] == before[i] + Lane(es, Chunk(r, w, i))
  }

  lemma LaneOne(e: Element, r: Range)
    ensures Lane([e], r) == if InRange(e, r) then [e] else []
  {
    LaneNext([], e, r);
    assert [] + [e] == [e];
  }

  /** What is read later comes later. */
  lemma {:induction false} LaneJoin(es: seq<Element>, fs: seq<Element>, r: Range)
    ensures Lane(es + fs, r) == Lane(es, r) + Lane(fs, r)
    decreases |fs|
  {
    hide Lane, InRange;
    LaneNext([], EMPTY, r);
    if fs == [] {
      assert es + fs == es;
    } else {
      var n := |fs| - 1;
      LaneJoin(es, fs[..n], r);
      LaneNext(es + fs[..n], fs[n], r);
      LaneNext(fs[..n], fs[n], r);
      assert es + fs == es + fs[..n] + [fs[n]] && fs == fs[..n] + [fs[n]];
    }
  }

  lemma LaneNext(es: seq<Element>, e: Element, r: Range)
    ensures Lane([], r) == []
    ensures Lane(es + [e], r) == Lane(es, r) + (if InRange(e, r) then [e] else [])
  {
    assert (es + [e])[..|es|] == es;
  }

  lemma LanesNone(qs: seq<seq<Element>>, r: Range, w: nat, n: nat)
    requires |qs| == n
    ensures Lanes(qs, qs, [], r, w, n)
  {
  }

  lemma LanesPush(before: seq<seq<Element>>, after: seq<seq<Element>>, es: seq<Element>, r: Range, w: nat, n: nat,
                  e: Element, q: nat)
    requires Lanes(before, after, es, r, w, n) && GoesTo(e, r, w, n, q)
    ensures q < |after| && Lanes(before, after[q := after[q] + [e]], es + [e], r, w, n)
  {
    hide Lane, Chunk, InRange;
    forall i: nat | i < n
      ensures after[q := after[q] + [e]][i] == before[i] + Lane(es + [e], Chunk(r, w, i))
    {
      LaneNext(es, e, Chunk(r, w, i));
    }
  }

  lemma LanesSkip(before: seq<seq<Element>>, after: seq<seq<Element>>, es: seq<Element>, r: Range, w: nat, n: nat, e: Element)
    requires Lanes(before, after, es, r, w, n) && e.perm == -1 && Cut(r, w, n)
    ensures Lanes(before, after, es + [e], r, w, n)
  {
    hide Lane, Chunk, Cut;
    forall i: nat | i < n
      ensures after[i] == before[i] + Lane(es + [e], Chunk(r, w, i))
    {
      LaneNext(es, e, Chunk(r, w, i));
      SkipsChunk(r, w, n, i);
    }
  }

  lemma SkipsChunk(r: Range, w: nat, n: nat, i: nat)
    requires Cut(r, w, n) && i < n
    ensures 0 <= Chunk(r, w, i).lo
  {
    ChunkBounds(r, w, n, i);
  }

  /** Where the reading of all from off on stands after j elements; start is what the queues held before. */
  ghost predicate Taken(start: seq<seq<Element>>, qs: seq<seq<Element>>, slots: seq<seq<Element>>, all: seq<Element>,
                        off: nat, j: nat, r: Range, w: nat, n: nat)
    requires off + j <= |all|
  {
    Flow(qs, slots, all[..off + j], r, w, n) && Lanes(start, qs, all[off..off + j], r, w, n)
  }

  lemma TakenNone(qs: seq<seq<Element>>, slots: seq<seq<Element>>, all: seq<Element>, off: nat, r: Range, w: nat, n: nat)
    requires off <= |all| && Flow(qs, slots, all[..off], r, w, n)
    ensures Taken(qs, qs, slots, all, off, 0, r, w, n)
  {
    hide Flow, Lanes;
    FlowSizes(qs, slots, all[..off], r, w, n);
    LanesNone(qs, r, w, n);
    assert all[off..off + 0] == [];
  }

  lemma OneMore(all: seq<Element>, off: nat, j: nat)
    requires off + j < |all|
    ensures all[..off + (j + 1)] == all[..off + j] + [all[off + j]]
    ensures all[off..off + (j + 1)] == all[off..off + j] + [all[off + j]]
  {
  }

  lemma TakenPush(start: seq<seq<Element>>, qs: seq<seq<Element>>, slots: seq<seq<Element>>, all: seq<Element>,
                  off: nat, j: nat, r: Range, w: nat, n: nat, e: Element, q: nat)
    requires off + j < |all| && Taken(start, qs, slots, all, off, j, r, w, n)
    requires e == all[off + j] && InRange(e, r) && GoesTo(e, r, w, n, q)
    ensures q < |qs| == n && Taken(start, qs[q := qs[q] + [e]], slots, all, off, j + 1, r, w, n)
  {
    hide Flow, Lanes, GoesTo, InRange;
    OneMore(all, off, j);
    FlowSizes(qs, slots, all[..off + j], r, w, n);
    FlowPush(qs, slots, all[..off + j], r, w, n, e, q);
    LanesPush(start, qs, all[off..off + j], r, w, n, e, q);
  }

  lemma TakenSkip(start: seq<seq<Element>>, qs: seq<seq<Element>>, slots: seq<seq<Element>>, all: seq<Element>,
                  off: nat, j: nat, r: Range, w: nat, n: nat)
    requires off + j < |all| && Taken(start, qs, slots, all, off, j, r, w, n) && all[off + j].perm == -1 && Cut(r, w, n)
    ensures Taken(start, qs, slots, all, off, j + 1, r, w, n)
  {
    var e := all[off + j];
    assert r.lo >= 0;
    hide Flow, Lanes, Cut, Chunk, Bag;
    OneMore(all, off, j);
    FlowSkip(qs, slots, all[..off + j], r, w, n, e);
    LanesSkip(start, qs, all[off..off + j], r, w, n, e);
  }

  lemma FlowPop(qs: seq<seq<Element>>, slots: seq<seq<Element>>, read: seq<Element>, r: Range, w: nat, n: nat,
                i: nat, k: nat)
    requires Flow(qs, slots, read, r, w, n) && i < n && i < |slots| && k < |slots[i]| && slots[i][k].perm == -1
    ensures |qs| == n && Flow(qs[i := TailOf(qs[i])], slots[i := slots[i][k := HeadOf(qs[i])]], read, r, w, n)
  {
    hide Conserves, Bag, Chunk;
    ConservesPop(qs[i], slots[i], read, Chunk(r, w, i), k);
    QueuedNoMore(qs, qs[i := TailOf(qs[i])]);
  }

  lemma {:induction false} BagPrefix(es: seq<Element>, r: Range, n: nat)
    requires n <= |es|
    ensures |Bag(es[..n], r)| <= |Bag(es, r)|
    decreases |es|
  {
    if n < |es| {
      var m := |es| - 1;
      BagPrefix(es[..m], r, n);
      assert es[..m][..n] == es[..n];
      BagGrows(es, r);
    } else {
      assert es[..n] == es;
    }
  }

  lemma BagGrows(es: seq<Element>, r: Range)
    requires es != []
    ensures |Bag(es[..|es| - 1], r)| <= |Bag(es, r)|
  {
  }

  /** A queue with no room means more elements than capacity. */
  lemma FullMeansTooMany(qs: seq<seq<Element>>, slots: seq<seq<Element>>, all: seq<Element>, at: nat, r: Range,
                         w: nat, n: nat,
                         target: seq<int>, cap: nat)
    requires at < |all| && Flow(qs, slots, all[..at], r, w, n) && Complete(all, r, target)
    requires all[at].perm != -1 && TotalQueued(qs) == cap
    ensures cap < r.hi - r.lo
  {
    hide Flow, Bag;
    FlowSizes(qs, slots, all[..at], r, w, n);
    assert all[..at + 1] == all[..at] + [all[at]];
    BagAppend(all[..at], all[at], r);
    BagPrefix(all, r, at + 1);
    CompleteSize(all, r, target);
  }

  lemma FullAfterTaken(start: seq<seq<Element>>, qs: seq<seq<Element>>, slots: seq<seq<Element>>, all: seq<Element>,
                       off: nat, j: nat, r: Range, w: nat, n: nat, target: seq<int>, cap: nat)
    requires off + j < |all| && Taken(start, qs, slots, all, off, j, r, w, n) && Complete(all, r, target)
    requires all[off + j].perm != -1 && TotalQueued(qs) == cap
    ensures cap < r.hi - r.lo
  {
    hide Flow, Lanes, Complete;
    FullMeansTooMany(qs, slots, all, off + j, r, w, n, target, cap);
  }

  lemma TakenAll(start: seq<seq<Element>>, qs: seq<seq<Element>>, slots: seq<seq<Element>>, all: seq<Element>,
                 off: nat, j: nat, r: Range, w: nat, n: nat)
    requires off + j <= |all| && Taken(start, qs, slots, all, off, j, r, w, n)
    ensures Flow(qs, slots, all[..off + j], r, w, n) && Lanes(start, qs, all[off..off + j], r, w, n)
  {
  }

  /** Once everything is read and no slot of partition i can take more, its queue is empty and it is complete. */
  lemma FlowDone(qs: seq<seq<Element>>, slots: seq<seq<Element>>, all: seq<Element>, r: Range, w: nat, n: nat,
                 target: seq<int>, i: nat)
    requires Flow(qs, slots, all, r, w, n) && Cut(r, w, n) && Complete(all, r, target) && i < n && i < |slots| && i < |qs|
    requires |slots[i]| >= w
    requires qs[i] == [] || forall k: nat :: k < |slots[i]| ==> slots[i][k].perm != -1
    ensures qs[i] == [] && Complete(slots[i], Chunk(r, w, i), target)
  {
    ChunkBounds(r, w, n, i);
    hide Bag, Chunk, CutsEvenly;
    SubRange(all, r, target, Chunk(r, w, i));
    assert Conserves(qs[i], slots[i], all, Chunk(r, w, i));
    QueueRunsDry(qs[i], slots[i], all, Chunk(r, w, i));
    assert multiset(qs[i]) == multiset{};
  }
}

/** What a partition of the cache shuffle holds, and what moving elements through the queues keeps. */
module CacheSpec {
  import opened QueueWords
  import opened Routing

  /** The indices lo, ..., hi - 1. */
  datatype Range = Range(lo: int, hi: int)

  const EMPTY := Element(-1, -1)

  ghost predicate InRange(e: Element, r: Range) {
    r.lo <= e.perm < r.hi
  }

  /** The elements of es for range r. */
  ghost function Bag(es: seq<Element>, r: Range): multiset<Element> {
    if es == [] then multiset{} else
      var n := |es| - 1;
      Bag(es[..n], r) + One(es[n], r)
  }

  ghost function One(e: Element, r: Range): multiset<Element> {
    if InRange(e, r) then multiset{e} else multiset{}
  }

  lemma {:induction false} BagCount(es: seq<Element>, r: Range, e: Element)
    ensures Bag(es, r)[e] == if InRange(e, r) then multiset(es)[e] else 0
  {
    if es != [] {
      var n := |es| - 1;
      BagCount(es[..n], r, e);
      assert es == es[..n] + [es[n]];
    }
  }

  lemma BagAppend(es: seq<Element>, e: Element, r: Range)
    ensures Bag(es + [e], r) == Bag(es, r) + One(e, r)
  {
    assert (es + [e])[..|es|] == es;
  }

  lemma BagSet(es: seq<Element>, k: nat, e: Element, r: Range)
    requires k < |es|
    ensures Bag(es[k := e], r) + One(es[k], r) == Bag(es, r) + One(e, r)
  {
    forall x: Element
      ensures (Bag(es[k := e], r) + One(es[k], r))[x] == (Bag(es, r) + One(e, r))[x]
    {
      BagCount(es, r, x);
      BagCount(es[k := e], r, x);
      assert multiset(es[k := e]) == multiset(es) - multiset{es[k]} + multiset{e};
    }
  }

  lemma SameBag(es: seq<Element>, fs: seq<Element>, r: Range)
    requires multiset(es) == multiset(fs)
    ensures Bag(es, r) == Bag(fs, r)
  {
    forall x: Element
      ensures Bag(es, r)[x] == Bag(fs, r)[x]
    {
      BagCount(es, r, x);
      BagCount(fs, r, x);
    }
  }

  lemma {:induction false} BagOfAll(es: seq<Element>, r: Range)
    requires forall k: nat :: k < |es| ==> InRange(es[k], r)
    ensures |Bag(es, r)| == |es|
  {
    if es != [] {
      BagOfAll(es[..|es| - 1], r);
    }
  }

  // ---- complete partitions ----

  /** The elements that belong to range r when the finished output is target. */
  ghost function Targets(target: seq<int>, r: Range): (es: seq<Element>)
    requires 0 <= r.lo <= r.hi <= |target|
    ensures |es| == r.hi - r.lo
    ensures forall t: nat :: t < |es| ==> es[t] == Element(target[r.lo + t], r.lo + t)
  {
    seq(r.hi - r.lo, t requires 0 <= t < r.hi - r.lo => Element(target[r.lo + t], r.lo + t))
  }

  lemma {:induction false} TargetsCount(target: seq<int>, r: Range, e: Element)
    requires 0 <= r.lo <= r.hi <= |target|
    ensures multiset(Targets(target, r))[e] == if InRange(e, r) && e.value == target[e.perm] then 1 else 0
    decreases r.hi - r.lo
  {
    if r.lo < r.hi {
      var less := Range(r.lo, r.hi - 1);
      TargetsCount(target, less, e);
      assert Targets(target, r) == Targets(target, less) + [Element(target[r.hi - 1], r.hi - 1)];
    }
  }

  ghost predicate DummyOrIn(s: seq<Element>, r: Range) {
    forall k: nat :: k < |s| ==> s[k].perm == -1 || InRange(s[k], r)
  }

  /** Each index of r has its element in exactly one slot, and every other slot is a dummy. */
  ghost predicate Complete(slots: seq<Element>, r: Range, target: seq<int>) {
    && 0 <= r.lo <= r.hi <= |target|
    && DummyOrIn(slots, r)
    && Bag(slots, r) == multiset(Targets(target, r))
  }

  lemma CompleteSize(slots: seq<Element>, r: Range, target: seq<int>)
    requires Complete(slots, r, target)
    ensures |Bag(slots, r)| == r.hi - r.lo
  {
  }

  /** A part of a complete partition's range. */
  lemma SubRange(slots: seq<Element>, r: Range, target: seq<int>, sub: Range)
    requires Complete(slots, r, target) && r.lo <= sub.lo <= sub.hi <= r.hi
    ensures Bag(slots, sub) == multiset(Targets(target, sub))
  {
    forall x: Element
      ensures Bag(slots, sub)[x] == multiset(Targets(target, sub))[x]
    {
      BagCount(slots, sub, x);
      BagCount(slots, r, x);
      TargetsCount(target, sub, x);
      TargetsCount(target, r, x);
    }
  }

  lemma ShuffledComplete(slots: seq<Element>, slots': seq<Element>, r: Range, target: seq<int>)
    requires Complete(slots, r, target) && multiset(slots') == multiset(slots)
    ensures Complete(slots', r, target)
  {
    SameBag(slots, slots', r);
    forall k: nat | k < |slots'|
      ensures slots'[k].perm == -1 || InRange(slots'[k], r)
    {
      assert slots'[k] in multiset(slots');
      assert slots'[k] in slots;
    }
  }

  /** A complete partition of one index: every real slot holds that index's value, and there is one. */
  lemma SingleComplete(slots: seq<Element>, i: nat, target: seq<int>)
    requires Complete(slots, Range(i, i + 1), target)
    ensures forall k: nat :: k < |slots| && slots[k].perm != -1 ==> slots[k].value == target[i]
    ensures exists k: nat :: k < |slots| && slots[k].perm != -1
  {
    var r := Range(i, i + 1);
    forall k: nat | k < |slots| && slots[k].perm != -1
      ensures slots[k].value == target[i]
    {
      BagCount(slots, r, slots[k]);
      TargetsCount(target, r, slots[k]);
      assert slots[k] in multiset(slots);
    }
    var e := Element(target[i], i);
    TargetsCount(target, r, e);
    BagCount(slots, r, e);
    assert e in multiset(slots);
    var k: nat :| k < |slots| && slots[k] == e;
  }

  /** The input as one partition. */
  lemma InputComplete(slots: seq<Element>, perm: seq<int>, target: seq<int>)
    requires IsPermutation(perm) && |slots| == |perm| == |target|
    requires forall k: nat :: k < |perm| ==> slots[k] == Element(target[perm[k]], perm[k])
    ensures Complete(slots, Range(0, |perm|), target)
  {
    var r := Range(0, |perm|);
    forall x: Element
      ensures Bag(slots, r)[x] == multiset(Targets(target, r))[x]
    {
      BagCount(slots, r, x);
      TargetsCount(target, r, x);
      if InRange(x, r) && x.value == target[x.perm] {
        var k := Hit(perm, x.perm);
        assert slots[k] == x;
      }
      if x in slots {
        var k: nat :| k < |slots| && slots[k] == x;
        forall l: nat | l < |slots| && l != k
          ensures slots[l] != x
        {
          SamePlace(perm, k, l);
        }
        OnceInMultiset(slots, k);
      }
    }
  }

  lemma OnceInMultiset(es: seq<Element>, k: nat)
    requires k < |es| && forall l: nat :: l < |es| && l != k ==> es[l] != es[k]
    ensures multiset(es)[es[k]] == 1
  {
    assert es == es[..k] + [es[k]] + es[k + 1..];
    assert es[k] !in es[..k] && es[k] !in es[k + 1..];
  }

  // ---- moving elements through a queue ----

  function HeadOf(q: seq<Element>): Element {
    if q == [] then EMPTY else q[0]
  }

  function TailOf(q: seq<Element>): seq<Element> {
    if q == [] then [] else q[1..]
  }

  /** One output partition and its queue together hold what has been read for range r. */
  ghost predicate Conserves(q: seq<Element>, s: seq<Element>, read: seq<Element>, r: Range) {
    && r.lo >= 0
    && (forall x: nat :: x < |q| ==> InRange(q[x], r))
    && DummyOrIn(s, r)
    && Bag(s, r) + multiset(q) == Bag(read, r)
  }

  lemma ConservesRead(q: seq<Element>, s: seq<Element>, read: seq<Element>, r: Range, e: Element)
    requires Conserves(q, s, read, r)
    ensures Conserves(if InRange(e, r) then q + [e] else q, s, read + [e], r)
  {
    BagAppend(read, e, r);
  }

  lemma HeadAndTail(q: seq<Element>, r: Range)
    requires r.lo >= 0 && forall x: nat :: x < |q| ==> InRange(q[x], r)
    ensures One(HeadOf(q), r) + multiset(TailOf(q)) == multiset(q)
  {
    if q != [] {
      assert q == [q[0]] + q[1..];
    }
  }

  lemma ConservesPop(q: seq<Element>, s: seq<Element>, read: seq<Element>, r: Range, k: nat)
    requires Conserves(q, s, read, r) && k < |s| && s[k].perm == -1
    ensures Conserves(TailOf(q), s[k := HeadOf(q)], read, r)
  {
    hide Bag;
    BagSet(s, k, HeadOf(q), r);
    HeadAndTail(q, r);
    assert Bag(s[k := HeadOf(q)], r) == Bag(s, r) + One(HeadOf(q), r);
    hide One;
    assert Bag(s[k := HeadOf(q)], r) + multiset(TailOf(q)) == Bag(s, r) + (One(HeadOf(q), r) + multiset(TailOf(q)));
  }

  /** With no slot left to fill, nothing is left in the queue of a partition that has enough slots. */
  lemma QueueRunsDry(q: seq<Element>, s: seq<Element>, read: seq<Element>, r: Range)
    requires Conserves(q, s, read, r) && |Bag(read, r)| <= |s|
    requires q == [] || forall k: nat :: k < |s| ==> s[k].perm != -1
    ensures q == []
  {
    if forall k: nat :: k < |s| ==> s[k].perm != -1 {
      BagOfAll(s, r);
      assert |Bag(s, r) + multiset(q)| == |s| + |q|;
    }
  }
}

/** One partition of the cache shuffle, and how it is sprayed over smaller ones. */
module CacheSpary {
  import opened Common
  import opened CacheArith
  import opened CacheFlow
  import opened CacheOccupancy
  import opened CachePairs
  import opened CacheSpec
  import opened MultiQueues
  import opened QueueContents
  import opened QueueWords
  import opened RealLibCoda
  import opened TxMemory
  import opened TxRegions

  /** slots with es put into slot i of the partitions from a on. */
  ghost predicate Stored(before: seq<seq<Element>>, after: seq<seq<Element>>, es: seq<Element>, a: nat, i: nat) {
    && |after| == |before| && a + |es| <= |before|
    && forall j: nat :: j < |before| ==>
         if a <= j < a + |es| then i < |before[j]| && after[j] == before[j][i := es[j - a]] else after[j] == before[j]
  }

  lemma StoredNothing(slots: seq<seq<Element>>, a: nat, i: nat)
    requires a <= |slots|
    ensures Stored(slots, slots, [], a, i)
  {
  }

  lemma StoredNext(before: seq<seq<Element>>, after: seq<seq<Element>>, es: seq<Element>, a: nat, i: nat, e: Element)
    requires Stored(before, after, es, a, i) && a + |es| < |before|
    requires |after| == |before| && (i < |before[a + |es|]| || i < |after[a + |es|]|)
    ensures after[a + |es|] == before[a + |es|]
    ensures Stored(before, after[a + |es| := after[a + |es|][i := e]], es + [e], a, i)
  {
  }

  /** The heads of the queues from a on are taken off, and es is what they were. */
  ghost predicate Popped(before: seq<seq<Element>>, after: seq<seq<Element>>, es: seq<Element>, a: nat) {
    && |after| == |before| && a + |es| <= |before|
    && forall q: nat :: q < |before| ==>
         if a <= q < a + |es| then es[q - a] == HeadOf(before[q]) && after[q] == TailOf(before[q]) else after[q] == before[q]
  }

  lemma PoppedNothing(qs: seq<seq<Element>>, a: nat)
    requires a <= |qs|
    ensures Popped(qs, qs, [], a)
  {
  }

  lemma PoppedNext(before: seq<seq<Element>>, after: seq<seq<Element>>, es: seq<Element>, a: nat)
    requires Popped(before, after, es, a) && a + |es| < |before|
    ensures |after| == |before|
    ensures
      var j := a + |es|;
      Popped(before, after[j := TailOf(after[j])], es + [HeadOf(after[j])], a)
  {
  }

  lemma PoppedServed(before: seq<seq<Element>>, after: seq<seq<Element>>, es: seq<Element>, a: nat)
    requires Popped(before, after, es, a)
    ensures Served(before, after, a, a + |es|)
  {
  }

  /** Slots from i on are dummies still, in the first a partitions from i + 1 on. */
  ghost predicate Blank(slots: seq<seq<Element>>, outLen: nat, i: nat, a: nat) {
    forall j: nat :: j < |slots| ==>
      && |slots[j]| == outLen
      && forall k: nat :: (if j < a then i + 1 else i) <= k < outLen ==> slots[j][k].perm == -1
  }

  lemma BlankStored(before: seq<seq<Element>>, after: seq<seq<Element>>, outLen: nat, i: nat, a: nat, es: seq<Element>)
    requires Blank(before, outLen, i, a) && Stored(before, after, es, a, i)
    ensures Blank(after, outLen, i, a + |es|)
  {
    forall j: nat | j < |after|
      ensures |after[j]| == outLen
      ensures forall k: nat :: (if j < a + |es| then i + 1 else i) <= k < outLen ==> after[j][k].perm == -1
    {
      assert |before[j]| == outLen;
    }
  }

  lemma BlankRound(slots: seq<seq<Element>>, outLen: nat, i: nat)
    requires Blank(slots, outLen, i, |slots|)
    ensures Blank(slots, outLen, i + 1, 0)
  {
  }

  // ---- filling dummies up from one queue ----

  /** cur is before with es in place of the slots from a on. */
  ghost predicate Refilled(before: seq<Element>, cur: seq<Element>, es: seq<Element>, a: nat) {
    |cur| == |before| && a + |es| <= |before| && cur == before[..a] + es + before[a + |es|..]
  }

  lemma RefilledNext(before: seq<Element>, cur: seq<Element>, es: seq<Element>, a: nat, e: Element)
    requires Refilled(before, cur, es, a) && a + |es| < |before|
    ensures |cur| == |before| && cur[a + |es|] == before[a + |es|]
    ensures Refilled(before, cur[a + |es| := e], es + [e], a)
  {
  }

  lemma RefilledNone(before: seq<Element>, a: nat)
    requires a <= |before|
    ensures Refilled(before, before, [], a)
  {
  }

  /** What the refill writes for a slot: a dummy gives way to the head of the queue. */
  ghost function Refill(slot: Element, q: seq<Element>): Element {
    if slot.perm == -1 && q != [] then q[0] else slot
  }

  ghost function Unused(slot: Element, q: seq<Element>): seq<Element> {
    if slot.perm == -1 && q != [] then q[1..] else q
  }

  /** The queue is empty or the first n slots are all real. */
  ghost predicate Tight(q: seq<Element>, s: seq<Element>, n: nat) {
    q == [] || forall k: nat :: k < n && k < |s| ==> s[k].perm != -1
  }

  /** What a spary returns: its parts, apart and complete. */
  ghost predicate Sprayed(ps: seq<CacheShuffleData>, r: Range, w: nat, n: nat, target: seq<int>)
    reads Buffers(ps)
  {
    && |ps| == n && Separate(ps)
    && forall i: nat :: i < n ==> ps[i].Indices() == Chunk(r, w, i) && Complete(ps[i].Slots(), ps[i].Indices(), target)
  }

  lemma SprayedParts(ps: seq<CacheShuffleData>, r: Range, w: nat, n: nat, outLen: nat, target: seq<int>)
    requires Parts(ps, r, w, n, outLen) && Separate(ps)
    requires forall j: nat :: j < |ps| ==> Complete(AllSlots(ps)[j], Chunk(r, w, j), target)
    ensures Sprayed(ps, r, w, n, target)
  {
    hide Complete, Chunk;
    forall j: nat | j < |ps|
      ensures ps[j].Indices() == Chunk(r, w, j) && Complete(ps[j].Slots(), ps[j].Indices(), target)
    {
      SlotsAt(ps, j);
    }
  }

  /** Every output partition has a slot for each of its indices. */
  lemma EnoughSlots(slots: seq<Element>, r: Range, target: seq<int>, n: nat)
    requires n > 0 && Complete(slots, r, target)
    ensures CeilDiv(r.hi - r.lo, n) <= CeilDiv(|slots|, n) && r.hi - r.lo <= |slots|
  {
    hide CeilDiv;
    CompleteSize(slots, r, target);
    BagAtMost(slots, r);
    CeilDivMonotone(r.hi - r.lo, |slots|, n);
  }

  lemma RealInRange(slots: seq<Element>, k: nat, r: Range, target: seq<int>)
    requires Complete(slots, r, target) && k < |slots| && slots[k].perm != -1
    ensures InRange(slots[k], r)
  {
  }

  lemma {:induction false} BagAtMost(es: seq<Element>, r: Range)
    ensures |Bag(es, r)| <= |es|
  {
    if es != [] {
      BagAtMost(es[..|es| - 1], r);
    }
  }

  lemma StartFlow(qs: seq<seq<Element>>, ps: seq<CacheShuffleData>, r: Range, w: nat, n: nat, outLen: nat)
    requires Cut(r, w, n) && qs == seq(n, q => []) && Parts(ps, r, w, n, outLen) && Separate(ps)
    requires forall i: nat, k: nat :: i < n && k < outLen ==> AllSlots(ps)[i][k].perm == -1
    ensures Flow(qs, AllSlots(ps), [], r, w, n) && Blank(AllSlots(ps), outLen, 0, 0)
  {
    hide Chunk, Cut;
    forall i: nat | i < n
      ensures |AllSlots(ps)[i]| == outLen
    {
      SlotsAt(ps, i);
    }
    FlowStart(qs, AllSlots(ps), r, w, n);
  }

  // ---- where the input chunks start ----

  ghost predicate StartsAt(off: nat, i: nat, inPLen: nat) {
    off == i * inPLen
  }

  ghost predicate Covers(len: nat, inPartitions: nat, inPLen: nat) {
    len <= inPartitions * inPLen
  }

  lemma StartsAtZero(inPLen: nat)
    ensures StartsAt(0, 0, inPLen)
  {
  }

  lemma Steps(i: nat, inPLen: nat, off: nat, inPartitions: nat, len: nat)
    requires StartsAt(off, i, inPLen) && Covers(len, inPartitions, inPLen)
    ensures StartsAt(off + inPLen, i + 1, inPLen)
    ensures i >= inPartitions ==> off >= len
  {
    NextMultiple(i, inPLen);
    if i >= inPartitions {
      TimesMonotone(inPartitions, i, inPLen);
    }
  }

  // ---- the random index ----

  const INT32_MIN := -0x8000_0000

  predicate IsInt32(j: int) {
    INT32_MIN <= j <= 0x7FFF_FFFF
  }

  /** abs on 32 bits: the least value has no positive counterpart. */
  function Abs32(j: int): int {
    if j == INT32_MIN then j else if j < 0 then -j else j
  }

  /** abs(j) % len, the remainder taking the sign of the dividend. */
  function ShuffleIndex(j: int, len: nat): int
    requires len > 0
  {
    if Abs32(j) < 0 then -(-Abs32(j) % len) else Abs32(j) % len
  }

  /** The index is in the array for every drawn word but the least, and for that one exactly when len divides it. */
  lemma ShuffleIndexInBounds(j: int, len: nat)
    requires len > 0 && IsInt32(j)
    ensures 0 <= ShuffleIndex(j, len) < len <==> j != INT32_MIN || -INT32_MIN % len == 0
  {
  }

  /** A word whose index is in an array of len. */
  predicate Drawable(j: int, len: nat) {
    len > 0 && IsInt32(j) && 0 <= ShuffleIndex(j, len) < len
  }

  /** Words for a shuffle of len slots. */
  ghost predicate DrawsFit(draws: seq<int>, len: nat) {
    |draws| + 1 >= len && forall k: nat :: k + 1 < len ==> Drawable(draws[k], len)
  }

  ghost function Exchanged(es: seq<Element>, i: nat, j: nat): (fs: seq<Element>)
    requires i < |es| && j < |es|
    ensures |fs| == |es|
  {
    es[i := es[j]][j := es[i]]
  }

  /** The exchanges of random_shuffle from position i on; draws[i] is the word drawn for position i. */
  ghost function Shuffled(es: seq<Element>, i: nat, draws: seq<int>): (fs: seq<Element>)
    requires DrawsFit(draws, |es|)
    ensures |fs| == |es|
    decreases |es| - i
  {
    if i + 1 >= |es| then es else Shuffled(Exchanged(es, i, ShuffleIndex(draws[i], |es|)), i + 1, draws)
  }

  lemma ShuffledStep(es: seq<Element>, i: nat, draws: seq<int>)
    requires DrawsFit(draws, |es|) && i + 1 < |es|
    ensures i < |draws| && 0 <= ShuffleIndex(draws[i], |es|) < |es|
    ensures Shuffled(es, i, draws) == Shuffled(Exchanged(es, i, ShuffleIndex(draws[i], |es|)), i + 1, draws)
  {
  }

  lemma ShuffledEnd(es: seq<Element>, i: nat, draws: seq<int>)
    requires DrawsFit(draws, |es|) && i + 1 >= |es|
    ensures Shuffled(es, i, draws) == es
  {
  }

  lemma ExchangeKeeps(es: seq<Element>, i: nat, j: nat)
    requires i < |es| && j < |es|
    ensures multiset(Exchanged(es, i, j)) == multiset(es)
  {
  }

  /** Whatever is drawn, the shuffle reorders. */
  lemma {:induction false} ShuffledPermutes(es: seq<Element>, i: nat, draws: seq<int>)
    requires DrawsFit(draws, |es|)
    ensures multiset(Shuffled(es, i, draws)) == multiset(es)
    decreases |es| - i
  {
    if i + 1 < |es| {
      var j := ShuffleIndex(draws[i], |es|);
      ExchangeKeeps(es, i, j);
      ShuffledPermutes(Exchanged(es, i, j), i + 1, draws);
    }
  }

  // ---- which exchanges the drawn words make ----

  /** A word stands for the index it is, for that of its opposite and for that of the word a length further. */
  lemma ShuffleIndexLaws(j: int, len: nat)
    requires len > 0 && IsInt32(j) && j != INT32_MIN
    ensures 0 <= j < len ==> ShuffleIndex(j, len) == j
    ensures ShuffleIndex(-j, len) == ShuffleIndex(j, len)
    ensures j >= 0 && IsInt32(j + len) ==> ShuffleIndex(j + len, len) == ShuffleIndex(j, len)
  {
    if j >= 0 {
      Period(j, len);
    }
  }

  lemma Period(j: nat, len: nat)
    requires len > 0
    ensures (j + len) % len == j % len && (j < len ==> j % len == j)
  {
    var q := j / len;
    InChunkIff(j, len, q);
    InChunkIff(j + len, len, q + 1);
    Distribute(len, q);
    Distribute(len, q + 1);
    assert j == q * len + j % len && j + len == (q + 1) * len + (j + len) % len;
    NextMultiple(q, len);
    if j < len {
      InChunkIff(j, len, 0);
    }
  }

  /** A word that is an index leaves the slot there for position i. */
  lemma {:induction false} ShuffledIdle(es: seq<Element>, i: nat, draws: seq<int>)
    requires DrawsFit(draws, |es|) && |es| <= -INT32_MIN
    requires forall k: nat :: i <= k && k + 1 < |es| ==> draws[k] == k
    ensures Shuffled(es, i, draws) == es
    decreases |es| - i
  {
    if i + 1 < |es| {
      ShuffleIndexLaws(draws[i], |es|);
      assert Exchanged(es, i, i) == es;
      ShuffledIdle(es, i + 1, draws);
    }
  }

  /** When every word but that for position i names its own position, just slots i and its index trade places. */
  lemma {:induction false} ShuffledOnce(es: seq<Element>, from: nat, i: nat, draws: seq<int>)
    requires DrawsFit(draws, |es|) && |es| <= -INT32_MIN && from <= i && i + 1 < |es|
    requires forall k: nat :: from <= k && k + 1 < |es| && k != i ==> draws[k] == k
    ensures
      var j := ShuffleIndex(draws[i], |es|);
      && 0 <= j < |es| && Shuffled(es, from, draws)[i] == es[j] && Shuffled(es, from, draws)[j] == es[i]
      && forall k: nat :: k < |es| && k != i && k != j ==> Shuffled(es, from, draws)[k] == es[k]
    decreases i - from
  {
    if from < i {
      ShuffleIndexLaws(draws[from], |es|);
      assert Exchanged(es, from, from) == es;
      ShuffledOnce(es, from + 1, i, draws);
    } else {
      ShuffledIdle(Exchanged(es, i, ShuffleIndex(draws[i], |es|)), i + 1, draws);
    }
  }

  /** Where the slot for position i of fs is in a reordering that agrees with fs before i. */
  lemma SlotFor(es: seq<Element>, fs: seq<Element>, i: nat) returns (j: nat)
    requires multiset(es) == multiset(fs) && |es| == |fs| && i < |es| && es[..i] == fs[..i]
    ensures i <= j < |es| && es[j] == fs[i]
  {
    assert es == es[..i] + es[i..] && fs == fs[..i] + fs[i..];
    assert multiset(es[i..]) == multiset(es) - multiset(es[..i]) == multiset(fs[i..]);
    assert fs[i..][0] in multiset(es[i..]);
    var k: nat :| k < |es[i..]| && es[i..][k] == fs[i];
    j := i + k;
  }

  lemma SameBut(es: seq<Element>, fs: seq<Element>, i: nat)
    requires multiset(es) == multiset(fs) && |es| == |fs| <= i + 1 && i <= |es| && es[..i] == fs[..i]
    ensures es == fs
  {
    if i < |es| {
      var j := SlotFor(es, fs, i);
    }
  }

  /** From an order that agrees with fs before i, some words lead to fs. */
  lemma {:induction false} ShuffledReaches(es: seq<Element>, fs: seq<Element>, i: nat, drawn: seq<int>)
    returns (draws: seq<int>)
    requires multiset(es) == multiset(fs) && |es| == |fs| <= -INT32_MIN && i <= |es| && es[..i] == fs[..i]
    requires |drawn| == i && forall k: nat :: k < i ==> Drawable(drawn[k], |es|)
    ensures DrawsFit(draws, |es|) && |draws| >= i && draws[..i] == drawn && Shuffled(es, i, draws) == fs
    decreases |es| - i
  {
    if i + 1 < |es| {
      var j := SlotFor(es, fs, i);
      ShuffleIndexLaws(j, |es|);
      ExchangeKeeps(es, i, j);
      draws := ShuffledReaches(Exchanged(es, i, j), fs, i + 1, drawn + [j]);
      assert draws[i] == draws[..i + 1][i] == j;
      assert draws[..i] == draws[..i + 1][..i] == drawn;
    } else {
      draws := drawn;
      SameBut(es, fs, i);
    }
  }

  /** The shuffle reaches every reordering of the slots. */
  lemma EveryOrderIsDrawn(es: seq<Element>, fs: seq<Element>) returns (draws: seq<int>)
    requires multiset(es) == multiset(fs) && |es| <= -INT32_MIN
    ensures DrawsFit(draws, |es|) && Shuffled(es, 0, draws) == fs
  {
    assert |multiset(es)| == |es| && |multiset(fs)| == |fs|;
    draws := ShuffledReaches(es, fs, 0, []);
  }

  /** The words sgx_read_rand yields: any of those whose index is in the array. */
  method DrawWords(len: nat) returns (draws: seq<int>)
    ensures DrawsFit(draws, len)
  {
    draws := [];
    while |draws| + 1 < len
      invariant forall k: nat :: k < |draws| ==> Drawable(draws[k], len)
    {
      assert ShuffleIndex(0, len) == 0;
      var draw :| Drawable(draw, len);
      draws := draws + [draw];
    }
  }

  // ---- lists of partitions ----

  ghost function Buffers(ps: seq<CacheShuffleData>): set<array<int>> {
    (set i | 0 <= i < |ps| :: ps[i].arr) + (set i | 0 <= i < |ps| :: ps[i].perm)
  }

  lemma BuffersAppend(ps: seq<CacheShuffleData>, part: CacheShuffleData)
    ensures Buffers(ps + [part]) == Buffers(ps) + {part.arr, part.perm}
  {
    var qs := ps + [part];
    assert qs[|ps|] == part;
    forall b | b in Buffers(ps)
      ensures b in Buffers(qs)
    {
      var i :| 0 <= i < |ps| && (ps[i].arr == b || ps[i].perm == b);
      assert qs[i] == ps[i];
    }
  }

  /** No two arrays of the list are the same. */
  ghost predicate Separate(ps: seq<CacheShuffleData>) {
    && (forall i: nat :: i < |ps| ==> ps[i].Sized())
    && (forall i: nat, j: nat :: i < j < |ps| ==> ps[i].arr != ps[j].arr && ps[i].perm != ps[j].perm)
    && (forall i: nat, j: nat :: i < |ps| && j < |ps| ==> ps[i].arr != ps[j].perm)
  }

  ghost function AllSlots(ps: seq<CacheShuffleData>): (all: seq<seq<Element>>)
    requires Separate(ps)
    reads Buffers(ps)
    ensures |all| == |ps|
  {
    seq(|ps|, i requires 0 <= i < |ps| reads Buffers(ps) => ps[i].Slots())
  }

  lemma InBuffers(ps: seq<CacheShuffleData>, i: nat)
    requires i < |ps|
    ensures ps[i].arr in Buffers(ps) && ps[i].perm in Buffers(ps)
  {
  }

  lemma SlotsAt(ps: seq<CacheShuffleData>, i: nat)
    requires Separate(ps) && i < |ps|
    ensures ps[i].Sized() && AllSlots(ps)[i] == ps[i].Slots()
  {
  }

  /** The output partitions of one spary: a chunk of the indices each, outLen slots each. */
  ghost predicate Parts(ps: seq<CacheShuffleData>, r: Range, w: nat, n: nat, outLen: nat) {
    |ps| == n && forall i: nat :: i < n ==> ps[i].len == outLen && ps[i].Indices() == Chunk(r, w, i)
  }

  /** ps[j].arr[i] = v; ps[j].perm[i] = p; */
  method PutSlot(ps: seq<CacheShuffleData>, j: nat, i: nat, v: int, p: int)
    requires Separate(ps) && j < |ps| && i < ps[j].len
    modifies ps[j].arr, ps[j].perm
    ensures AllSlots(ps) == old(AllSlots(ps))[j := old(AllSlots(ps))[j][i := Element(v, p)]]
  {
    ps[j].SetSlot(i, v, p);
    forall k: nat | k < |ps| && k != j
      ensures ps[k].Slots() == old(ps[k].Slots())
    {
    }
  }

  lemma StoredOnce(before: seq<seq<Element>>, after: seq<seq<Element>>, after': seq<seq<Element>>, es: seq<Element>,
                   a: nat, i: nat)
    requires Stored(before, after, es, a, i) && Stored(before, after', es, a, i)
    ensures after == after'
  {
  }

  class CacheShuffleData {
    const len: nat
    const beginIdx: int
    const endIdx: int
    const arr: array<int>
    const perm: array<int>

    ghost predicate Sized() {
      arr.Length == perm.Length == len && arr != perm
    }

    /** The slots, dummies included. */
    ghost function Slots(): (es: seq<Element>)
      requires Sized()
      reads arr, perm
      ensures |es| == len
      ensures forall k: nat :: k < len ==> es[k] == Element(arr[k], perm[k])
    {
      seq(len, k requires 0 <= k < len reads arr, perm => Element(arr[k], perm[k]))
    }

    ghost function Indices(): Range {
      Range(beginIdx, endIdx)
    }

    constructor (len: nat, beginIdx: int, endIdx: int)
      ensures this.len == len && this.beginIdx == beginIdx && this.endIdx == endIdx
      ensures Sized() && fresh(arr) && fresh(perm)
      ensures forall k: nat :: k < len ==> Slots()[k].perm == -1
    {
      this.len, this.beginIdx, this.endIdx := len, beginIdx, endIdx;
      arr := new int[len];
      perm := new int[len];
      new;
      var i := 0;
      while i < len
        invariant i <= len && Sized() && fresh(arr) && fresh(perm)
        invariant forall k: nat :: k < i ==> perm[k] == -1
      {
        perm[i] := -1;
        i := i + 1;
      }
    }

    constructor FromInput(len: nat, beginIdx: int, endIdx: int, arrIn: array<int>, permIn: array<int>)
      requires arrIn.Length >= len && permIn.Length >= len
      ensures this.len == len && this.beginIdx == beginIdx && this.endIdx == endIdx
      ensures Sized() && fresh(arr) && fresh(perm)
      ensures forall k: nat :: k < len ==> Slots()[k] == Element(arrIn[k], permIn[k])
    {
      this.len, this.beginIdx, this.endIdx := len, beginIdx, endIdx;
      arr := new int[len];
      perm := new int[len];
      new;
      var i := 0;
      while i < len
        invariant i <= len && Sized() && fresh(arr) && fresh(perm)
        invariant forall k: nat :: k < i ==> arr[k] == arrIn[k] && perm[k] == permIn[k]
      {
        arr[i] := arrIn[i];
        perm[i] := permIn[i];
        i := i + 1;
      }
    }

    /** Two read iterators over obLen slots. */
    method InitReadOb(coda: RealCoda, obOffset: nat, obLen: nat) returns (arrOb: nat, permOb: nat)
      requires Sized() && obOffset + obLen <= len && coda.Valid()
      requires 3 * coda.Next() + 6 <= META_WORDS && coda.curOb + 2 * obLen <= Limit(ReadOnly)
      modifies coda, coda.txmem
      ensures coda.Valid() && arrOb == old(coda.Next()) && permOb == arrOb + 1 && coda.Next() == permOb + 1
      ensures |coda.regions| == permOb + 1 && coda.regions[..arrOb] == old(coda.regions)[..arrOb]
      ensures arr != coda.txmem && perm != coda.txmem ==>
                Source(coda.regions[arrOb], coda.regions[permOb], Slots()[obOffset..obOffset + obLen], 0)
      ensures coda.curObRw == old(coda.curObRw) && coda.curNob == old(coda.curNob)
    {
      hide Laid;
      arrOb := coda.InitializeObIterator(arr[obOffset..obOffset + obLen]);
      permOb := coda.InitializeObIterator(perm[obOffset..obOffset + obLen]);
    }

    /** Two read/write iterators of obLen words, loaded with the slots they will replace. */
    method InitRwOb(coda: RealCoda, obOffset: nat, obLen: nat) returns (arrOb: nat, permOb: nat)
      requires Sized() && obOffset + obLen <= len && coda.Valid()
      requires 3 * coda.Next() + 6 <= META_WORDS && coda.curObRw + 2 * obLen <= Limit(ReadWrite)
      modifies coda, coda.txmem
      ensures coda.Valid() && arrOb == old(coda.Next()) && permOb == arrOb + 1 && coda.Next() == permOb + 1
      ensures |coda.regions| == permOb + 1 && coda.regions[..arrOb] == old(coda.regions)[..arrOb]
      ensures Sink(coda.regions[arrOb], coda.regions[permOb], [], obLen)
      ensures arr != coda.txmem && perm != coda.txmem ==>
                Split(coda.regions[arrOb].data, coda.regions[permOb].data, Slots()[obOffset..obOffset + obLen])
      ensures coda.curOb == old(coda.curOb) && coda.curNob == old(coda.curNob)
    {
      hide Laid;
      arrOb := coda.InitializeObRwIterator(arr[obOffset..obOffset + obLen]);
      permOb := coda.InitializeObRwIterator(perm[obOffset..obOffset + obLen]);
    }

    /** arr[i] = v; perm[i] = p; */
    method SetSlot(i: nat, v: int, p: int)
      requires Sized() && i < len
      modifies arr, perm
      ensures Slots() == old(Slots())[i := Element(v, p)]
    {
      arr[i] := v;
      perm[i] := p;
    }

    /** Reads the elements es back from two iterators into the slots from obOffset on. */
    method ResetRwOb(coda: RealCoda, obOffset: nat, obLen: nat, arrOb: nat, permOb: nat, ghost es: seq<Element>)
      requires Sized() && obOffset + obLen <= len && arr != coda.txmem && perm != coda.txmem && |es| == obLen
      requires coda.Valid() && 1 <= arrOb <= 3 && permOb == arrOb + 1 < |coda.regions|
      requires Drain(coda.regions[arrOb], coda.regions[permOb], es, 0)
      modifies arr, perm, coda`regions, coda.txmem
      ensures coda.Valid() && Refilled(old(Slots()), Slots(), es, obOffset)
    {
      hide Laid, Drain, Refilled, CacheShuffleData.Slots;
      ghost var before := Slots();
      RefilledNone(before, obOffset);
      assert es[..0] == [];
      var i := obOffset;
      while i < obOffset + obLen
        invariant obOffset <= i <= obOffset + obLen && coda.Valid() && permOb < |coda.regions|
        invariant Drain(coda.regions[arrOb], coda.regions[permOb], es, i - obOffset)
        invariant Refilled(before, Slots(), es[..i - obOffset], obOffset)
      {
        var v, p := DrainPair(coda, arrOb, permOb, es, i - obOffset);
        RefilledNext(before, Slots(), es[..i - obOffset], obOffset, Element(v, p));
        assert es[..i - obOffset] + [Element(v, p)] == es[..i + 1 - obOffset];
        SetSlot(i, v, p);
        i := i + 1;
      }
      assert es[..obLen] == es;
    }

    /** The exchanges the drawn words determine. */
    method RandomShuffle(draws: seq<int>)
      requires Sized() && DrawsFit(draws, len)
      modifies arr, perm
      ensures Slots() == Shuffled(old(Slots()), 0, draws)
    {
      hide Shuffled, Exchanged, DrawsFit;
      var i := 0;
      while i < len - 1
        invariant Shuffled(Slots(), i, draws) == Shuffled(old(Slots()), 0, draws) && (i <= len - 1 || i == 0)
      {
        ShuffledStep(Slots(), i, draws);
        Exchange(i, ShuffleIndex(draws[i], len));
        i := i + 1;
      }
      ShuffledEnd(Slots(), i, draws);
    }

    /** Slots i and j trade places. */
    method Exchange(i: nat, j: nat)
      requires Sized() && i < len && j < len
      modifies arr, perm
      ensures arr[i] == old(arr[j]) && arr[j] == old(arr[i]) && perm[i] == old(perm[j]) && perm[j] == old(perm[i])
      ensures forall k: nat :: k < len && k != i && k != j ==> arr[k] == old(arr[k]) && perm[k] == old(perm[k])
      ensures Slots() == Exchanged(old(Slots()), i, j)
    {
      var temp := arr[i];
      arr[i] := arr[j];
      arr[j] := temp;
      temp := perm[i];
      perm[i] := perm[j];
      perm[j] := temp;
      assert Slots() == Exchanged(old(Slots()), i, j);
    }

    /** The output partitions, all dummies; an empty index range would end the run. */
    method MakeParts(outPartitions: nat, outPLen: nat, outPIdxLen: nat) returns (r: Result<seq<CacheShuffleData>>)
      requires Cut(Indices(), outPIdxLen, outPartitions)
      ensures r.Ok? && Parts(r.value, Indices(), outPIdxLen, outPartitions, outPLen) && Separate(r.value)
      ensures fresh(Buffers(r.value))
      ensures forall i: nat, k: nat :: i < outPartitions && k < outPLen ==> AllSlots(r.value)[i][k].perm == -1
    {
      hide CutsEvenly;
      var result: seq<CacheShuffleData> := [];
      var i := 0;
      while i < outPartitions
        invariant i <= outPartitions && Parts(result, Indices(), outPIdxLen, i, outPLen) && Separate(result)
        invariant fresh(Buffers(result))
        invariant forall j: nat, k: nat :: j < i && k < outPLen ==> result[j].Slots()[k].perm == -1
      {
        var resultIBeginIdx := outPIdxLen * i + beginIdx;
        var resultIEndIdx := Min(outPIdxLen * (i + 1) + beginIdx, endIdx);
        ChunkBounds(Indices(), outPIdxLen, outPartitions, i);
        var part := new CacheShuffleData(outPLen, resultIBeginIdx, resultIEndIdx);
        BuffersAppend(result, part);
        result := result + [part];
        if part.beginIdx >= part.endIdx {
          return Halted(InvalidPartition);
        }
        i := i + 1;
      }
      r := Ok(result);
    }

    /** The transaction that reads one input chunk into the queues: only a full multi-queue ends it early. */
    method ReadItems(coda: RealCoda, queues: MultiQueue, readObLen: nat, outPIdxLen: nat,
                     ghost all: seq<Element>, ghost off: nat, ghost slots: seq<seq<Element>>, ghost target: seq<int>)
      returns (st: Status)
      requires Ready(coda, queues, 1) && off + readObLen <= |all|
      requires Source(coda.regions[1], coda.regions[2], all[off..off + readObLen], 0)
      requires Cut(Indices(), outPIdxLen, queues.num) && Complete(all, Indices(), target)
      requires Flow(queues.queues, slots, all[..off], Indices(), outPIdxLen, queues.num)
      modifies queues`lists, queues`queues, coda`regions, coda.txmem
      ensures coda.Valid()
      ensures st.Done? ==> queues.InTx() && Flow(queues.queues, slots, all[..off + readObLen], Indices(), outPIdxLen, queues.num)
      ensures
        st.Done? ==> Lanes(old(queues.queues), queues.queues, all[off..off + readObLen], Indices(), outPIdxLen, queues.num)
      ensures st.Halt? ==> st.reason == QueuesFull && queues.cap < endIdx - beginIdx
      ensures st.Halt? <==> TooMany(old(queues.queues), all[off..off + readObLen], queues.cap)
    {
      hide MultiQueue.InTx, Source, Taken, GoesTo, Cut, Complete, Flow, Lanes, Bag, InRange, Counted, TooMany;
      ghost var r, n, es, start := Indices(), queues.num, all[off..off + readObLen], queues.queues;
      TakenNone(start, slots, all, off, r, outPIdxLen, n);
      queues.QueuesFit();
      CountedNone(start, es, queues.cap);
      var j := 0;
      while j < readObLen
        invariant j <= readObLen && Ready(coda, queues, 1)
        invariant Source(coda.regions[1], coda.regions[2], es, j)
        invariant Taken(start, queues.queues, slots, all, off, j, r, outPIdxLen, n)
        invariant Counted(start, queues.queues, es, j, queues.cap)
      {
        var v, p := ReadPair(coda, queues, 1, 2, es, j);
        ghost var e := Element(v, p);
        assert e == all[off + j];
        if p != -1 {
          RealInRange(all, off + j, r, target);
          var full := queues.Full();
          if full {
            FullAfterTaken(start, queues.queues, slots, all, off, j, r, outPIdxLen, n, target, queues.cap);
            CountedStops(start, queues.queues, es, j, queues.cap);
            ReadyValid(coda, queues, 1);
            return Halt(QueuesFull);
          }
          QueueOf(e, r, outPIdxLen, n);
          var q := (p - beginIdx) / outPIdxLen;
          TakenPush(start, queues.queues, slots, all, off, j, r, outPIdxLen, n, e, q);
          CountedPush(start, queues.queues, es, j, queues.cap, q);
          queues.PushBack(q, Element(v, p));
        } else {
          TakenSkip(start, queues.queues, slots, all, off, j, r, outPIdxLen, n);
          CountedSkip(start, queues.queues, es, j, queues.cap);
        }
        j := j + 1;
      }
      TakenAll(start, queues.queues, slots, all, off, j, r, outPIdxLen, n);
      CountedEnds(start, queues.queues, es, queues.cap);
      ReadyValid(coda, queues, 1);
      st := Done;
    }

    /** One input chunk: transaction and write-back of the queues. */
    method ReadChunk(coda: RealCoda, queues: MultiQueue, off: nat, readObLen: nat, outPIdxLen: nat,
                     ghost slots: seq<seq<Element>>, ghost target: seq<int>)
      returns (st: Status)
      requires Sized() && off + readObLen <= len && arr != coda.txmem && perm != coda.txmem && arr != queues.data
      requires perm != queues.data
      requires coda.Valid() && coda.Closed() && queues.coda == coda && queues.Home()
      requires 2 * readObLen <= Limit(ReadOnly) && WordCount(queues.num, queues.cap) <= Limit(Random)
      requires Cut(Indices(), outPIdxLen, queues.num) && Complete(Slots(), Indices(), target)
      requires Flow(queues.queues, slots, Slots()[..off], Indices(), outPIdxLen, queues.num)
      modifies queues`nob, queues`lists, queues`queues, queues.data, coda, coda.txmem
      ensures coda.Valid() && coda.Closed()
      ensures st.Done? ==> queues.Home() && Flow(queues.queues, slots, Slots()[..off + readObLen], Indices(), outPIdxLen, queues.num)
      ensures
        st.Done? ==>
          Lanes(old(queues.queues), queues.queues, Slots()[off..off + readObLen], Indices(), outPIdxLen, queues.num)
      ensures st.Halt? ==> st.reason == QueuesFull && queues.cap < endIdx - beginIdx
      ensures st.Halt? <==> TooMany(old(queues.queues), old(Slots())[off..off + readObLen], queues.cap)
    {
      hide Source, Flow, Lanes, TooMany, CutsEvenly, Complete, Laid, MultiQueue.Holds;
      queues.InitNob();
      var inArrOb, inPermOb := InitReadOb(coda, off, readObLen);
      assert coda.regions[..1][0] == coda.regions[0];
      st := ReadItems(coda, queues, readObLen, outPIdxLen, Slots(), off, slots, target);
      coda.TxEnd();
      if st.Halt? {
        return;
      }
      queues.ResetNob();
    }

    /** The transaction that takes the heads of step queues, a dummy from an empty one. */
    method PopItems(coda: RealCoda, queues: MultiQueue, i: nat, writeLen: nat, step: nat, ghost before: seq<seq<Element>>,
                    ghost read: seq<Element>, ghost outPIdxLen: nat, ghost outLen: nat)
      returns (ghost es: seq<Element>, ghost slots: seq<seq<Element>>)
      requires Ready(coda, queues, 1) && Sink(coda.regions[1], coda.regions[2], [], step)
      requires Flow(queues.queues, before, read, Indices(), outPIdxLen, queues.num)
      requires writeLen + step <= queues.num == |before| && i < outLen && Blank(before, outLen, i, writeLen)
      modifies queues`lists, queues`queues, coda`regions, coda.txmem
      ensures Ready(coda, queues, 1) && Sink(coda.regions[1], coda.regions[2], es, step) && |es| == step
      ensures Flow(queues.queues, slots, read, Indices(), outPIdxLen, queues.num)
      ensures Stored(before, slots, es, writeLen, i) && Popped(old(queues.queues), queues.queues, es, writeLen)
    {
      hide MultiQueue.InTx, Sink, Flow, Stored, Popped;
      ghost var r, n, start := Indices(), queues.num, queues.queues;
      es, slots := [], before;
      FlowSizes(start, before, read, r, outPIdxLen, n);
      StoredNothing(before, writeLen, i);
      PoppedNothing(start, writeLen);
      var j := writeLen;
      while j < step + writeLen
        invariant writeLen <= j <= step + writeLen && |es| == j - writeLen && Ready(coda, queues, 1)
        invariant Sink(coda.regions[1], coda.regions[2], es, step)
        invariant Flow(queues.queues, slots, read, r, outPIdxLen, n) && Stored(before, slots, es, writeLen, i)
        invariant Popped(start, queues.queues, es, writeLen)
      {
        FlowSizes(queues.queues, slots, read, r, outPIdxLen, n);
        ghost var e := HeadOf(queues.queues[j]);
        StoredNext(before, slots, es, writeLen, i, e);
        PoppedNext(start, queues.queues, es, writeLen);
        FlowPop(queues.queues, slots, read, r, outPIdxLen, n, j, i);
        TakeFront(coda, queues, j, es, step);
        es, slots := es + [e], slots[j := slots[j][i := e]];
        j := j + 1;
      }
    }

    /** The head of queue j, or a dummy, goes out. */
    static method TakeFront(coda: RealCoda, queues: MultiQueue, j: nat, ghost es: seq<Element>, ghost step: nat)
      requires Ready(coda, queues, 1) && Sink(coda.regions[1], coda.regions[2], es, step) && |es| < step
      requires j < queues.num == |queues.queues|
      modifies queues`lists, queues`queues, coda`regions, coda.txmem
      ensures Ready(coda, queues, 1)
      ensures Sink(coda.regions[1], coda.regions[2], es + [HeadOf(old(queues.queues)[j])], step)
      ensures queues.queues == old(queues.queues)[j := TailOf(old(queues.queues)[j])]
      ensures old(queues.queues)[j] == [] ==> queues.queues == old(queues.queues)
      ensures old(queues.queues)[j] == [] ==> Sink(coda.regions[1], coda.regions[2], es + [Element(-1, -1)], step)
      ensures old(queues.queues)[j] != [] ==> old(queues.queues)[j] == [old(queues.queues)[j][0]] + queues.queues[j]
      ensures
        old(queues.queues)[j] != [] ==> Sink(coda.regions[1], coda.regions[2], es + [old(queues.queues)[j][0]], step)
    {
      hide MultiQueue.InTx, Sink;
      var v, p := -1, -1;
      var empty := queues.Empty(j);
      if !empty {
        var e := queues.Front(j);
        v := e.value;
        p := e.perm;
        queues.PopFront(j);
      }
      WritePair(coda, queues, 1, 2, v, p, es, step);
    }

    /** result[j]->arr[i] and perm[i], read back from the iterators. */
    static method StoreOne(coda: RealCoda, ps: seq<CacheShuffleData>, i: nat, j: nat, ghost es: seq<Element>,
                           ghost t: nat)
      requires coda.Valid() && 2 < |coda.regions| && Drain(coda.regions[1], coda.regions[2], es, t) && t < |es|
      requires Separate(ps) && coda.txmem !in Buffers(ps) && j < |ps| && i < ps[j].len
      modifies ps[j].arr, ps[j].perm, coda`regions, coda.txmem
      ensures coda.Valid() && 2 < |coda.regions| && Drain(coda.regions[1], coda.regions[2], es, t + 1)
      ensures i < |old(AllSlots(ps))[j]| && AllSlots(ps) == old(AllSlots(ps))[j := old(AllSlots(ps))[j][i := es[t]]]
    {
      hide Laid, Drain, Separate;
      SlotsAt(ps, j);
      ghost var before := AllSlots(ps);
      var v, p := DrainPair(coda, 1, 2, es, t);
      assert AllSlots(ps) == before;
      PutSlot(ps, j, i, v, p);
    }

    /** The same for step partitions from writeLen on. */
    static method StoreBack(coda: RealCoda, ps: seq<CacheShuffleData>, i: nat, writeLen: nat, step: nat,
                            ghost es: seq<Element>)
      requires coda.Valid() && 2 < |coda.regions| && Drain(coda.regions[1], coda.regions[2], es, 0) && |es| == step
      requires Separate(ps) && coda.txmem !in Buffers(ps) && writeLen + step <= |ps|
      requires forall j: nat :: j < |ps| ==> i < ps[j].len
      modifies Buffers(ps), coda`regions, coda.txmem
      ensures coda.Valid() && Stored(old(AllSlots(ps)), AllSlots(ps), es, writeLen, i)
    {
      hide Laid, Drain, Stored, Separate, AllSlots, Buffers;
      ghost var before := AllSlots(ps);
      StoredNothing(before, writeLen, i);
      var j := writeLen;
      assert es[..0] == [];
      while j < step + writeLen
        invariant writeLen <= j <= step + writeLen && coda.Valid() && 2 < |coda.regions|
        invariant Drain(coda.regions[1], coda.regions[2], es, j - writeLen)
        invariant Stored(before, AllSlots(ps), es[..j - writeLen], writeLen, i)
      {
        InBuffers(ps, j);
        ghost var was := AllSlots(ps);
        StoreOne(coda, ps, i, j, es, j - writeLen);
        StoredNext(before, was, es[..j - writeLen], writeLen, i, es[j - writeLen]);
        assert es[..j - writeLen] + [es[j - writeLen]] == es[..j + 1 - writeLen];
        j := j + 1;
      }
      assert es[..step] == es;
    }

    /** What a step of the spary needs from its surroundings: queues at home, memory free, all arrays apart. */
    static ghost predicate Stage(coda: RealCoda, queues: MultiQueue, ps: seq<CacheShuffleData>, outLen: nat)
      reads coda, coda.txmem, queues, queues.data
    {
      && coda.Valid() && coda.Closed() && queues.coda == coda && queues.Home()
      && WordCount(queues.num, queues.cap) <= Limit(Random)
      && Apart(coda, queues, ps) && Long(ps, queues.num, outLen)
    }

    static ghost predicate Apart(coda: RealCoda, queues: MultiQueue, ps: seq<CacheShuffleData>) {
      Separate(ps) && coda.txmem !in Buffers(ps) && queues.data !in Buffers(ps)
    }

    static ghost predicate Long(ps: seq<CacheShuffleData>, n: nat, outLen: nat) {
      |ps| == n && forall j: nat :: j < n ==> ps[j].len == outLen
    }

    /** The initializers of a write step. */
    static method OpenWrite(coda: RealCoda, queues: MultiQueue, step: nat)
      requires coda.Valid() && coda.Closed() && queues.coda == coda && queues.Home()
      requires WordCount(queues.num, queues.cap) <= Limit(Random) && step <= MAX_OB_WRITE
      modifies queues`nob, coda, coda.txmem
      ensures Ready(coda, queues, 1) && Sink(coda.regions[1], coda.regions[2], [], step)
    {
      hide Laid, MultiQueue.Holds;
      queues.InitNob();
      var outArr, outPerm := new int[step], new int[step];
      var outArrOb := coda.InitializeObRwIterator(outArr[..]);
      var outPermOb := coda.InitializeObRwIterator(outPerm[..]);
      assert coda.regions[..1][0] == coda.regions[0];
    }

    /** The transaction of a write step, from the queues' array into two iterators of step words. */
    method PopOut(coda: RealCoda, queues: MultiQueue, i: nat, writeLen: nat, step: nat, ghost before: seq<seq<Element>>,
                  ghost read: seq<Element>, ghost outPIdxLen: nat, ghost outLen: nat)
      returns (ghost es: seq<Element>, ghost slots: seq<seq<Element>>)
      requires coda.Valid() && coda.Closed() && queues.coda == coda && queues.Home()
      requires WordCount(queues.num, queues.cap) <= Limit(Random) && step <= MAX_OB_WRITE
      requires Flow(queues.queues, before, read, Indices(), outPIdxLen, queues.num)
      requires writeLen + step <= queues.num == |before| && i < outLen && Blank(before, outLen, i, writeLen)
      modifies queues`nob, queues`lists, queues`queues, queues.data, coda, coda.txmem
      ensures coda.Valid() && coda.Closed() && queues.Home()
      ensures 2 < |coda.regions| && Drain(coda.regions[1], coda.regions[2], es, 0) && |es| == step
      ensures Flow(queues.queues, slots, read, Indices(), outPIdxLen, queues.num)
      ensures Stored(before, slots, es, writeLen, i)
      ensures Served(old(queues.queues), queues.queues, writeLen, writeLen + step)
    {
      hide Laid, MultiQueue.Holds, Drain, Stored, Flow, Blank, Popped, Served;
      ghost var start := queues.queues;
      OpenWrite(coda, queues, step);
      es, slots := PopItems(coda, queues, i, writeLen, step, before, read, outPIdxLen, outLen);
      PoppedServed(start, queues.queues, es, writeLen);
      SinkDrains(coda.regions[1], coda.regions[2], es, step);
      coda.TxEnd();
      queues.ResetNob();
    }

    /** One step of the write phase: step heads leave the queues for slot i of their partitions. */
    method DealOut(coda: RealCoda, queues: MultiQueue, ps: seq<CacheShuffleData>, i: nat, writeLen: nat, step: nat,
                   ghost read: seq<Element>, ghost outPIdxLen: nat, ghost outLen: nat)
      requires Stage(coda, queues, ps, outLen)
      requires writeLen + step <= queues.num && step <= MAX_OB_WRITE && i < outLen
      requires Flow(queues.queues, AllSlots(ps), read, Indices(), outPIdxLen, queues.num)
      requires Blank(AllSlots(ps), outLen, i, writeLen)
      modifies queues`nob, queues`lists, queues`queues, queues.data, coda, coda.txmem, Buffers(ps)
      ensures Stage(coda, queues, ps, outLen)
      ensures Flow(queues.queues, AllSlots(ps), read, Indices(), outPIdxLen, queues.num)
      ensures Blank(AllSlots(ps), outLen, i, writeLen + step)
      ensures Served(old(queues.queues), queues.queues, writeLen, writeLen + step)
    {
      hide Drain, Stored, Served, Separate, AllSlots, Flow, Blank, Laid, MultiQueue.Holds;
      ghost var before := AllSlots(ps);
      ghost var es, slots := PopOut(coda, queues, i, writeLen, step, before, read, outPIdxLen, outLen);
      assert AllSlots(ps) == before;
      StoreBack(coda, ps, i, writeLen, step, es);
      StoredOnce(before, slots, AllSlots(ps), es, writeLen, i);
      BlankStored(before, AllSlots(ps), outLen, i, writeLen, es);
    }

    /** The write phase of one input chunk: slot i of every output partition, MAX_OB_WRITE partitions at a time. */
    method WriteRound(coda: RealCoda, queues: MultiQueue, ps: seq<CacheShuffleData>, i: nat, outPartitions: nat,
                      ghost read: seq<Element>, ghost outPIdxLen: nat, ghost outLen: nat)
      requires Stage(coda, queues, ps, outLen) && outPartitions == queues.num && i < outLen
      requires Flow(queues.queues, AllSlots(ps), read, Indices(), outPIdxLen, queues.num)
      requires Blank(AllSlots(ps), outLen, i, 0)
      modifies queues`nob, queues`lists, queues`queues, queues.data, coda, coda.txmem, Buffers(ps)
      ensures Stage(coda, queues, ps, outLen)
      ensures Flow(queues.queues, AllSlots(ps), read, Indices(), outPIdxLen, queues.num)
      ensures Blank(AllSlots(ps), outLen, i + 1, 0)
      ensures Served(old(queues.queues), queues.queues, 0, queues.num)
    {
      hide AllSlots, Flow, Blank, Served, Separate, Buffers, MultiQueue.Home, RealCoda.Valid;
      ghost var start := queues.queues;
      ServedNone(start);
      var writeLen := 0;
      while writeLen < outPartitions
        invariant writeLen <= outPartitions && Stage(coda, queues, ps, outLen)
        invariant Flow(queues.queues, AllSlots(ps), read, Indices(), outPIdxLen, queues.num)
        invariant Blank(AllSlots(ps), outLen, i, writeLen) && Served(start, queues.queues, 0, writeLen)
      {
        var step := Min(outPartitions - writeLen, MAX_OB_WRITE);
        ghost var was := queues.queues;
        DealOut(coda, queues, ps, i, writeLen, step, read, outPIdxLen, outLen);
        ServedJoin(start, was, queues.queues, writeLen, writeLen + step);
        writeLen := writeLen + step;
      }
      BlankRound(AllSlots(ps), outLen, i);
    }

    /** Where the refill of partition i stands: es has replaced its slots from a on. */
    static ghost predicate Refilling(qs: seq<seq<Element>>, before: seq<seq<Element>>, cur: seq<Element>,
                                     es: seq<Element>, a: nat, i: nat,
                                     read: seq<Element>, r: Range, w: nat, n: nat)
    {
      && i < n == |qs| == |before| && Refilled(before[i], cur, es, a) && Tight(qs[i], cur, a + |es|)
      && Flow(qs, before[i := cur], read, r, w, n)
    }

    /** A dummy whose queue has something is replaced, anything else kept. */
    static lemma RefillNext(qs: seq<seq<Element>>, before: seq<seq<Element>>, cur: seq<Element>, es: seq<Element>,
                            a: nat, i: nat,
                            read: seq<Element>, r: Range, w: nat, n: nat)
      returns (e: Element)
      requires Refilling(qs, before, cur, es, a, i, read, r, w, n) && a + |es| < |before[i]|
      ensures i < |qs| == n && e == Refill(before[i][a + |es|], qs[i])
      ensures |cur| == |before[i]|
      ensures Refilling(qs[i := Unused(before[i][a + |es|], qs[i])], before, cur[a + |es| := e], es + [e], a, i, read, r, w, n)
    {
      hide Flow, Refilled;
      var k, o := a + |es|, before[i][a + |es|];
      if o.perm == -1 && qs[i] != [] {
        e := qs[i][0];
        RefilledNext(before[i], cur, es, a, e);
        FlowPop(qs, before[i := cur], read, r, w, n, i, k);
        assert before[i := cur][i := cur[k := e]] == before[i := cur[k := e]];
        FlowHead(qs, before[i := cur], read, r, w, n, i);
      } else {
        e := o;
        RefilledNext(before[i], cur, es, a, e);
        assert qs[i := qs[i]] == qs;
        assert cur[k := e] == cur;
      }
    }

    static lemma FlowHead(qs: seq<seq<Element>>, slots: seq<seq<Element>>, read: seq<Element>, r: Range, w: nat,
                          n: nat, i: nat)
      requires Flow(qs, slots, read, r, w, n) && i < n && qs[i] != []
      ensures qs[i][0].perm != -1
    {
      assert Conserves(qs[i], slots[i], read, Chunk(r, w, i));
    }

    /** The transaction of a refill step: step slots of partition i pass, dummies replaced while queue i lasts. */
    method RefillItems(coda: RealCoda, queues: MultiQueue, i: nat, writeLen: nat, step: nat,
                       ghost before: seq<seq<Element>>, ghost read: seq<Element>, ghost outPIdxLen: nat)
      returns (ghost es: seq<Element>, ghost cur: seq<Element>)
      requires Ready(coda, queues, 1) && 4 < |coda.regions| && i < queues.num == |before|
      requires writeLen + step <= |before[i]|
      requires Source(coda.regions[1], coda.regions[2], before[i][writeLen..writeLen + step], 0)
      requires Sink(coda.regions[3], coda.regions[4], [], step)
      requires Flow(queues.queues, before, read, Indices(), outPIdxLen, queues.num)
      requires Tight(queues.queues[i], before[i], writeLen)
      modifies queues`lists, queues`queues, coda`regions, coda.txmem
      ensures Ready(coda, queues, 3) && Sink(coda.regions[3], coda.regions[4], es, step) && |es| == step
      ensures Refilling(queues.queues, before, cur, es, writeLen, i, read, Indices(), outPIdxLen, queues.num)
    {
      hide MultiQueue.InTx, Source, Sink, Refilling;
      es, cur := [], before[i];
      RefillStart(queues.queues, before, writeLen, i, read, Indices(), outPIdxLen, queues.num);
      ghost var window := before[i][writeLen..writeLen + step];
      var j := writeLen;
      while j < step + writeLen
        invariant writeLen <= j <= step + writeLen && |es| == j - writeLen && Ready(coda, queues, 1) && 4 < |coda.regions|
        invariant Source(coda.regions[1], coda.regions[2], window, j - writeLen)
        invariant Sink(coda.regions[3], coda.regions[4], es, step)
        invariant Refilling(queues.queues, before, cur, es, writeLen, i, read, Indices(), outPIdxLen, queues.num)
      {
        ghost var e := RefillNext(queues.queues, before, cur, es, writeLen, i, read, Indices(), outPIdxLen, queues.num);
        RefillOne(coda, queues, i, window, es, step, j - writeLen, e);
        es, cur := es + [e], cur[j := e];
        j := j + 1;
      }
    }

    static lemma RefillStart(qs: seq<seq<Element>>, before: seq<seq<Element>>, a: nat, i: nat,
                             read: seq<Element>, r: Range, w: nat, n: nat)
      requires i < n == |before| && a <= |before[i]| && Flow(qs, before, read, r, w, n) && i < |qs|
      requires Tight(qs[i], before[i], a)
      ensures Refilling(qs, before, before[i], [], a, i, read, r, w, n)
    {
      FlowSizes(qs, before, read, r, w, n);
      RefilledNone(before[i], a);
      assert before[i := before[i]] == before;
    }

    /** One slot: read it, replace a dummy by the head of queue i if there is one, write it. */
    static method RefillOne(coda: RealCoda, queues: MultiQueue, i: nat, ghost window: seq<Element>,
                            ghost es: seq<Element>,
                            ghost step: nat, ghost t: nat, ghost out: Element)
      requires Ready(coda, queues, 1) && 4 < |coda.regions| && i < queues.num == |queues.queues| && t < |window|
      requires Source(coda.regions[1], coda.regions[2], window, t) && Sink(coda.regions[3], coda.regions[4], es, step)
      requires |es| < step
      requires out == Refill(window[t], queues.queues[i])
      modifies queues`lists, queues`queues, coda`regions, coda.txmem
      ensures Ready(coda, queues, 1) && 4 < |coda.regions|
      ensures Source(coda.regions[1], coda.regions[2], window, t + 1)
      ensures Sink(coda.regions[3], coda.regions[4], es + [out], step)
      ensures queues.queues == old(queues.queues)[i := Unused(window[t], old(queues.queues)[i])]
      ensures
        if window[t].perm == -1 && old(queues.queues)[i] != []
        then old(queues.queues)[i] == [out] + queues.queues[i]
        else out == window[t] && queues.queues == old(queues.queues)
    {
      hide MultiQueue.InTx, Source, Sink;
      var v, p := ReadPair(coda, queues, 1, 2, window, t);
      if p == -1 {
        var empty := queues.Empty(i);
        if !empty {
          var e := queues.Front(i);
          v := e.value;
          p := e.perm;
          queues.PopFront(i);
        }
      }
      WritePair(coda, queues, 3, 4, v, p, es, step);
    }

    /** One step of the refill phase on partition i. */
    method RefillStep(coda: RealCoda, queues: MultiQueue, ps: seq<CacheShuffleData>, i: nat, writeLen: nat, step: nat,
                             ghost read: seq<Element>, ghost outPIdxLen: nat, ghost outLen: nat)
      requires Stage(coda, queues, ps, outLen) && i < queues.num && writeLen + step <= outLen && step <= MAX_OB_WRITE
      requires Flow(queues.queues, AllSlots(ps), read, Indices(), outPIdxLen, queues.num)
      requires i < |queues.queues| && Tight(queues.queues[i], AllSlots(ps)[i], writeLen)
      modifies queues`nob, queues`lists, queues`queues, queues.data, coda, coda.txmem, ps[i].arr, ps[i].perm
      ensures Stage(coda, queues, ps, outLen)
      ensures Flow(queues.queues, AllSlots(ps), read, Indices(), outPIdxLen, queues.num)
      ensures i < |queues.queues| && Tight(queues.queues[i], AllSlots(ps)[i], writeLen + step)
      ensures forall j: nat :: j < |ps| && j != i ==> AllSlots(ps)[j] == old(AllSlots(ps))[j]
    {
      hide Flow, Drain, Separate, AllSlots, Tight, Laid, MultiQueue.Holds;
      ghost var before := AllSlots(ps);
      ghost var es, cur := RefillOut(coda, queues, ps, i, writeLen, step, read, outPIdxLen, outLen);
      PutBack(coda, ps, i, writeLen, step, before, es, cur);
    }

    /** The first half of a refill step: the new slots are in two iterators. */
    method RefillOut(coda: RealCoda, queues: MultiQueue, ps: seq<CacheShuffleData>, i: nat, writeLen: nat, step: nat,
                     ghost read: seq<Element>, ghost outPIdxLen: nat, ghost outLen: nat)
      returns (ghost es: seq<Element>, ghost cur: seq<Element>)
      requires Stage(coda, queues, ps, outLen) && i < queues.num && writeLen + step <= outLen && step <= MAX_OB_WRITE
      requires Flow(queues.queues, AllSlots(ps), read, Indices(), outPIdxLen, queues.num)
      requires i < |queues.queues| && Tight(queues.queues[i], AllSlots(ps)[i], writeLen)
      modifies queues`nob, queues`lists, queues`queues, queues.data, coda, coda.txmem
      ensures Stage(coda, queues, ps, outLen) && AllSlots(ps) == old(AllSlots(ps))
      ensures 4 < |coda.regions| && Drain(coda.regions[3], coda.regions[4], es, 0) && |es| == step
      ensures Refilling(queues.queues, old(AllSlots(ps)), cur, es, writeLen, i, read, Indices(), outPIdxLen, queues.num)
    {
      hide Flow, Drain, Source, Sink, Separate, AllSlots, Tight, Refilling, Laid, MultiQueue.Holds;
      SlotsAt(ps, i);
      InBuffers(ps, i);
      OpenRefill(coda, queues, ps[i], writeLen, step);
      es, cur := RefillItems(coda, queues, i, writeLen, step, old(AllSlots(ps)), read, outPIdxLen);
      SinkDrains(coda.regions[3], coda.regions[4], es, step);
      coda.TxEnd();
      queues.ResetNob();
    }

    /** The initializers of a refill step. */
    static method OpenRefill(coda: RealCoda, queues: MultiQueue, part: CacheShuffleData, writeLen: nat, step: nat)
      requires coda.Valid() && coda.Closed() && queues.coda == coda && queues.Home()
      requires WordCount(queues.num, queues.cap) <= Limit(Random) && step <= MAX_OB_WRITE
      requires part.Sized() && writeLen + step <= part.len && part.arr != coda.txmem && part.perm != coda.txmem
      modifies queues`nob, coda, coda.txmem
      ensures Ready(coda, queues, 1) && 4 < |coda.regions|
      ensures Source(coda.regions[1], coda.regions[2], part.Slots()[writeLen..writeLen + step], 0)
      ensures Sink(coda.regions[3], coda.regions[4], [], step)
    {
      hide Source, Sink, Laid, MultiQueue.Holds;
      queues.InitNob();
      var inArrOb, inPermOb := part.InitReadOb(coda, writeLen, step);
      assert coda.regions[..1][0] == coda.regions[0];
      ghost var afterRead := coda.regions;
      var outArrOb, outPermOb := part.InitRwOb(coda, writeLen, step);
      assert forall h: nat :: h < 3 ==> coda.regions[..3][h] == afterRead[..3][h];
    }

    /** reset_rw_ob on partition i, seen over the whole list. */
    static method PutBack(coda: RealCoda, ps: seq<CacheShuffleData>, i: nat, writeLen: nat, step: nat,
                          ghost before: seq<seq<Element>>, ghost es: seq<Element>, ghost cur: seq<Element>)
      requires coda.Valid() && 4 < |coda.regions| && Drain(coda.regions[3], coda.regions[4], es, 0) && |es| == step
      requires Separate(ps) && coda.txmem !in Buffers(ps) && i < |ps| && writeLen + step <= ps[i].len
      requires before == AllSlots(ps) && Refilled(before[i], cur, es, writeLen)
      modifies ps[i].arr, ps[i].perm, coda`regions, coda.txmem
      ensures coda.Valid() && AllSlots(ps) == before[i := cur]
    {
      hide Drain, Laid;
      SlotsAt(ps, i);
      InBuffers(ps, i);
      ps[i].ResetRwOb(coda, writeLen, step, 3, 4, es);
      assert ps[i].Slots() == cur;
      forall k: nat | k < |ps| && k != i
        ensures ps[k].Slots() == old(ps[k].Slots())
      {
      }
    }

    /** The refill phase of partition i; an element left in its queue would end the run. */
    method RefillPart(coda: RealCoda, queues: MultiQueue, ps: seq<CacheShuffleData>, i: nat, outPLen: nat,
                      ghost all: seq<Element>, ghost outPIdxLen: nat, ghost target: seq<int>)
      returns (st: Status)
      requires Stage(coda, queues, ps, outPLen) && i < queues.num && outPIdxLen <= outPLen
      requires Flow(queues.queues, AllSlots(ps), all, Indices(), outPIdxLen, queues.num)
      requires Cut(Indices(), outPIdxLen, queues.num) && Complete(all, Indices(), target)
      modifies queues`nob, queues`lists, queues`queues, queues.data, coda, coda.txmem, ps[i].arr, ps[i].perm
      ensures st.Done? && Stage(coda, queues, ps, outPLen)
      ensures Flow(queues.queues, AllSlots(ps), all, Indices(), outPIdxLen, queues.num)
      ensures Complete(AllSlots(ps)[i], Chunk(Indices(), outPIdxLen, i), target)
      ensures forall j: nat :: j < |ps| && j != i ==> AllSlots(ps)[j] == old(AllSlots(ps))[j]
    {
      hide Flow, Separate, AllSlots, Buffers, Complete, Cut, MultiQueue.Home, RealCoda.Valid, RealCoda.Closed, Chunk;
      FlowSizes(queues.queues, AllSlots(ps), all, Indices(), outPIdxLen, queues.num);
      var writeLen := 0;
      while writeLen < outPLen
        invariant writeLen <= outPLen && Stage(coda, queues, ps, outPLen)
        invariant Flow(queues.queues, AllSlots(ps), all, Indices(), outPIdxLen, queues.num)
        invariant i < |queues.queues| && Tight(queues.queues[i], AllSlots(ps)[i], writeLen)
        invariant forall j: nat :: j < |ps| && j != i ==> AllSlots(ps)[j] == old(AllSlots(ps))[j]
      {
        var step := Min(outPLen - writeLen, MAX_OB_WRITE);
        RefillStep(coda, queues, ps, i, writeLen, step, all, outPIdxLen, outPLen);
        writeLen := writeLen + step;
      }
      SlotsAt(ps, i);
      FlowDone(queues.queues, AllSlots(ps), all, Indices(), outPIdxLen, queues.num, target, i);
      FlowSizes(queues.queues, AllSlots(ps), all, Indices(), outPIdxLen, queues.num);
      var nobEmpty := CheckEmpty(coda, queues, ps, i, outPLen);
      st := if !nobEmpty then Halt(QueueNotEmpty) else Done;
    }

    /** The transaction that asks whether queue i is empty; its array is not copied back. */
    static method CheckEmpty(coda: RealCoda, queues: MultiQueue, ps: seq<CacheShuffleData>, i: nat, ghost outLen: nat)
      returns (nobEmpty: bool)
      requires Stage(coda, queues, ps, outLen) && i < queues.num == |queues.queues|
      modifies queues`nob, coda, coda.txmem
      ensures Stage(coda, queues, ps, outLen) && (nobEmpty <==> queues.queues[i] == [])
      ensures AllSlots(ps) == old(AllSlots(ps))
    {
      hide Separate, AllSlots, Represents, Queues, Laid;
      queues.InitNob();
      nobEmpty := queues.Empty(i);
      coda.TxEnd();
    }

    /** The refill phase of every partition in turn. */
    method RefillPhase(coda: RealCoda, queues: MultiQueue, ps: seq<CacheShuffleData>, outPartitions: nat, outPLen: nat,
                       ghost all: seq<Element>, ghost outPIdxLen: nat, ghost target: seq<int>)
      returns (st: Status)
      requires Stage(coda, queues, ps, outPLen) && outPartitions == queues.num && outPIdxLen <= outPLen
      requires Flow(queues.queues, AllSlots(ps), all, Indices(), outPIdxLen, queues.num)
      requires Cut(Indices(), outPIdxLen, queues.num) && Complete(all, Indices(), target)
      modifies queues`nob, queues`lists, queues`queues, queues.data, coda, coda.txmem, Buffers(ps)
      ensures st.Done? && Stage(coda, queues, ps, outPLen)
      ensures forall j: nat :: j < |ps| ==> Complete(AllSlots(ps)[j], Chunk(Indices(), outPIdxLen, j), target)
    {
      hide Flow, Separate, AllSlots, Buffers, Complete, Cut, MultiQueue.Home, RealCoda.Valid, RealCoda.Closed, Chunk;
      var i := 0;
      while i < outPartitions
        invariant i <= outPartitions && Stage(coda, queues, ps, outPLen)
        invariant Flow(queues.queues, AllSlots(ps), all, Indices(), outPIdxLen, queues.num)
        invariant forall j: nat :: j < i ==> Complete(AllSlots(ps)[j], Chunk(Indices(), outPIdxLen, j), target)
      {
        InBuffers(ps, i);
        st := RefillPart(coda, queues, ps, i, outPLen, all, outPIdxLen, target);
        if st.Halt? {
          return;
        }
        i := i + 1;
      }
      st := Done;
    }

    /** The first phase: every input chunk through the queues, one element a partition and chunk. */
    method ReadPhase(coda: RealCoda, queues: MultiQueue, ps: seq<CacheShuffleData>, inPartitions: nat, inPLen: nat,
                     outPartitions: nat, outPIdxLen: nat, ghost outLen: nat, ghost target: seq<int>)
      returns (st: Status)
      requires Stage(coda, queues, ps, outLen) && Beside(coda, queues, ps) && outPartitions == queues.num
      requires inPartitions <= outLen && 0 < inPLen && Covers(len, inPartitions, inPLen) && 2 * inPLen <= Limit(ReadOnly)
      requires Cut(Indices(), outPIdxLen, queues.num) && Complete(Slots(), Indices(), target)
      requires Flow(queues.queues, AllSlots(ps), [], Indices(), outPIdxLen, queues.num)
      requires Blank(AllSlots(ps), outLen, 0, 0)
      modifies queues`nob, queues`lists, queues`queues, queues.data, coda, coda.txmem, Buffers(ps)
      ensures coda.Valid() && coda.Closed()
      ensures st.Done? ==> Stage(coda, queues, ps, outLen) && Slots() == old(Slots())
      ensures st.Done? ==> Flow(queues.queues, AllSlots(ps), Slots(), Indices(), outPIdxLen, queues.num)
      ensures st.Halt? ==> st.reason == QueuesFull && queues.cap < endIdx - beginIdx
      ensures
        st.Halt? <==>
        Overfills(Levels(old(queues.queues)), Perms(old(Slots())), inPLen, queues.cap, Indices(), outPIdxLen)
    {
      hide Flow, Separate, AllSlots, Blank, Complete, Cut;
      hide MultiQueue.Home, RealCoda.Valid, RealCoda.Closed, StartsAt, Covers, Overfills, SameFate, TooMany;
      ghost var all, start := Slots(), queues.queues;
      SameFateStart(start, all, inPLen, queues.cap, Indices(), outPIdxLen);
      var i := 0;
      ghost var off: nat := 0;
      StartsAtZero(inPLen);
      assert all[..0] == [];
      while i < inPartitions
        invariant i <= inPartitions && StartsAt(off, i, inPLen)
        invariant Stage(coda, queues, ps, outLen) && Slots() == all
        invariant Flow(queues.queues, AllSlots(ps), all[..Min(off, len)], Indices(), outPIdxLen, queues.num)
        invariant Blank(AllSlots(ps), outLen, i, 0)
        invariant SameFate(start, queues.queues, all, Min(off, len), inPLen, queues.cap, Indices(), outPIdxLen)
      {
        var at, readObLen := ChunkAt(i, inPLen, off);
        if readObLen <= 0 {
          break;
        }
        ghost var qs := queues.queues;
        st := ReadRound(coda, queues, ps, i, at, readObLen, outPartitions, outPIdxLen, outLen, target);
        if st.Halt? {
          FateHalts(start, qs, all, off, readObLen, inPLen, queues.cap, Indices(), outPIdxLen);
          return;
        }
        FateGoesOn(start, qs, queues.queues, all, off, readObLen, inPLen, queues.cap, Indices(), outPIdxLen);
        Steps(i, inPLen, off, inPartitions, len);
        i, off := i + 1, off + inPLen;
      }
      Steps(i, inPLen, off, inPartitions, len);
      assert all[..len] == all;
      FateEnds(start, queues.queues, all, inPLen, queues.cap, Indices(), outPIdxLen);
      st := Done;
    }

    /** The bounds of input chunk i, which starts at off. */
    method ChunkAt(i: nat, inPLen: nat, ghost off: nat) returns (at: nat, readObLen: int)
      requires StartsAt(off, i, inPLen)
      ensures at == off && readObLen == Min(inPLen, Max(len - off, 0))
    {
      at := i * inPLen;
      readObLen := Min(inPLen, Max(len - i * inPLen, 0));
    }

    /** One input chunk: read into the queues, then one slot of every output partition written. */
    method ReadRound(coda: RealCoda, queues: MultiQueue, ps: seq<CacheShuffleData>, i: nat, off: nat, readObLen: nat,
                     outPartitions: nat, outPIdxLen: nat, ghost outLen: nat, ghost target: seq<int>)
      returns (st: Status)
      requires Stage(coda, queues, ps, outLen) && Beside(coda, queues, ps) && outPartitions == queues.num
      requires i < outLen && off + readObLen <= len && 2 * readObLen <= Limit(ReadOnly)
      requires Cut(Indices(), outPIdxLen, queues.num) && Complete(Slots(), Indices(), target)
      requires Flow(queues.queues, AllSlots(ps), Slots()[..off], Indices(), outPIdxLen, queues.num)
      requires Blank(AllSlots(ps), outLen, i, 0)
      modifies queues`nob, queues`lists, queues`queues, queues.data, coda, coda.txmem, Buffers(ps)
      ensures coda.Valid() && coda.Closed()
      ensures st.Done? ==> Stage(coda, queues, ps, outLen) && Slots() == old(Slots())
      ensures st.Done? ==> Flow(queues.queues, AllSlots(ps), old(Slots())[..off + readObLen], Indices(), outPIdxLen, queues.num)
      ensures st.Done? ==> Blank(AllSlots(ps), outLen, i + 1, 0)
      ensures st.Halt? ==> st.reason == QueuesFull && queues.cap < endIdx - beginIdx
      ensures st.Halt? <==> TooMany(old(queues.queues), old(Slots())[off..off + readObLen], queues.cap)
      ensures
        st.Done? ==>
          Levels(queues.queues) ==
          NextLevels(Levels(old(queues.queues)), Perms(old(Slots())[off..off + readObLen]), Indices(), outPIdxLen)
    {
      hide Flow, Lanes, Served, TooMany, NextLevels, AllSlots, Complete, Cut, Blank, Separate;
      hide MultiQueue.Home, RealCoda.Valid, RealCoda.Closed;
      ghost var all, start := Slots(), queues.queues;
      st := ReadChunkBeside(coda, queues, ps, off, readObLen, outPIdxLen, target);
      if st.Halt? {
        return;
      }
      ghost var mid := queues.queues;
      WriteRound(coda, queues, ps, i, outPartitions, all[..off + readObLen], outPIdxLen, outLen);
      assert Slots() == all;
      LevelsRound(start, mid, queues.queues, all[off..off + readObLen], Indices(), outPIdxLen, queues.num);
    }

    /** The arrays of this partition are none of the others in use. */
    ghost predicate Beside(coda: RealCoda, queues: MultiQueue, ps: seq<CacheShuffleData>) {
      && Sized() && arr != coda.txmem && perm != coda.txmem && arr != queues.data && perm != queues.data
      && arr !in Buffers(ps) && perm !in Buffers(ps)
    }

    /** ReadChunk leaves the output partitions alone. */
    method ReadChunkBeside(coda: RealCoda, queues: MultiQueue, ghost ps: seq<CacheShuffleData>, off: nat, readObLen: nat,
                           outPIdxLen: nat, ghost target: seq<int>)
      returns (st: Status)
      requires Beside(coda, queues, ps) && off + readObLen <= len && 2 * readObLen <= Limit(ReadOnly)
      requires coda.Valid() && coda.Closed() && queues.coda == coda && queues.Home()
      requires WordCount(queues.num, queues.cap) <= Limit(Random) && Apart(coda, queues, ps)
      requires Cut(Indices(), outPIdxLen, queues.num) && Complete(Slots(), Indices(), target)
      requires Flow(queues.queues, AllSlots(ps), Slots()[..off], Indices(), outPIdxLen, queues.num)
      modifies queues`nob, queues`lists, queues`queues, queues.data, coda, coda.txmem
      ensures coda.Valid() && coda.Closed() && Slots() == old(Slots()) && AllSlots(ps) == old(AllSlots(ps))
      ensures st.Done? ==> queues.Home() && Flow(queues.queues, AllSlots(ps), Slots()[..off + readObLen], Indices(), outPIdxLen, queues.num)
      ensures
        st.Done? ==>
          Lanes(old(queues.queues), queues.queues, Slots()[off..off + readObLen], Indices(), outPIdxLen, queues.num)
      ensures st.Halt? ==> st.reason == QueuesFull && queues.cap < endIdx - beginIdx
      ensures st.Halt? <==> TooMany(old(queues.queues), old(Slots())[off..off + readObLen], queues.cap)
    {
      hide Flow, Lanes, TooMany, AllSlots, Complete, Cut, MultiQueue.Home, RealCoda.Valid, RealCoda.Closed;
      st := ReadChunk(coda, queues, off, readObLen, outPIdxLen, AllSlots(ps), target);
    }

    /** The sizes a spary works with: chunks that fit the iterators, queues that fit their array. */
    ghost predicate Sizing(queueCap: nat, inPartitions: nat, outPartitions: nat) {
      && 0 < inPartitions && 0 < outPartitions && beginIdx < endIdx
      && 2 * CeilDiv(len, inPartitions) <= Limit(ReadOnly)
      && Cut(Indices(), CeilDiv(endIdx - beginIdx, outPartitions), outPartitions)
      && 2 <= queueCap && Addressable(outPartitions, queueCap)
    }

    /**
     * The elements of this partition over outPartitions smaller ones, each complete for its part of the indices. It
     * ends early exactly when the destinations of its slots overfill the queues.
     */
    method Spary(coda: RealCoda, queueCap: nat, inPartitions: nat, outPartitions: nat, ghost target: seq<int>)
      returns (r: Result<seq<CacheShuffleData>>)
      requires Sized() && arr != coda.txmem && perm != coda.txmem && coda.Valid() && coda.Closed()
      requires Complete(Slots(), Indices(), target) && Sizing(queueCap, inPartitions, outPartitions)
      modifies coda, coda.txmem
      ensures coda.Valid() && coda.Closed()
      ensures r.Ok? ==> Sprayed(r.value, Indices(), CeilDiv(endIdx - beginIdx, outPartitions), outPartitions, target)
      ensures r.Ok? ==> fresh(Buffers(r.value))
      ensures r.Ok? ==> forall i: nat :: i < outPartitions ==> r.value[i].len == Max(CeilDiv(len, outPartitions), inPartitions)
      ensures r.Halted? ==> r.reason == QueuesFull && queueCap < endIdx - beginIdx
      ensures r.Halted? <==> SprayFills(old(perm[..]), Indices(), queueCap, inPartitions, outPartitions)
    {
      hide Flow, Complete, Cut, Chunk, MultiQueue.Home, RealCoda.Valid;
      hide RealCoda.Closed, AllSlots, CeilDiv, Blank, Separate, Overfills, SprayFills, NoneQueued;
      var inPLen := CeilDiv(len, inPartitions);
      var outPLen := Max(CeilDiv(len, outPartitions), inPartitions);
      var outPIdxLen := CeilDiv(endIdx - beginIdx, outPartitions);
      EnoughSlots(Slots(), Indices(), target, outPartitions);
      CeilDivPositive(len, inPartitions);
      var made := MakeParts(outPartitions, outPLen, outPIdxLen);
      var result := made.value;
      var created := MultiQueue.Create(coda, queueCap, outPartitions);
      var queues := created.value;
      StartFlow(queues.queues, result, Indices(), outPIdxLen, outPartitions, outPLen);
      FateFromStart(queues.queues, Slots(), Indices(), queueCap, inPartitions, inPLen, outPartitions, outPIdxLen);
      assert Perms(Slots()) == perm[..];
      var st := Phases(coda, queues, result, inPartitions, inPLen, outPartitions, outPLen, outPIdxLen, target);
      if st.Halt? {
        return Halted(st.reason);
      }
      SprayedParts(result, Indices(), outPIdxLen, outPartitions, outPLen, target);
      r := Ok(result);
    }

    /** Read phase, then refill phase. */
    method Phases(coda: RealCoda, queues: MultiQueue, ps: seq<CacheShuffleData>, inPartitions: nat, inPLen: nat,
                  outPartitions: nat, outPLen: nat, outPIdxLen: nat, ghost target: seq<int>)
      returns (st: Status)
      requires Stage(coda, queues, ps, outPLen) && Beside(coda, queues, ps) && outPartitions == queues.num
      requires inPartitions <= outPLen && outPIdxLen <= outPLen
      requires 0 < inPLen && Covers(len, inPartitions, inPLen) && 2 * inPLen <= Limit(ReadOnly)
      requires Cut(Indices(), outPIdxLen, queues.num) && Complete(Slots(), Indices(), target)
      requires Flow(queues.queues, AllSlots(ps), [], Indices(), outPIdxLen, queues.num)
      requires Blank(AllSlots(ps), outPLen, 0, 0)
      modifies queues`nob, queues`lists, queues`queues, queues.data, coda, coda.txmem, Buffers(ps)
      ensures coda.Valid() && coda.Closed()
      ensures st.Done? ==> forall j: nat :: j < |ps| ==> Complete(AllSlots(ps)[j], Chunk(Indices(), outPIdxLen, j), target)
      ensures st.Halt? ==> st.reason == QueuesFull && queues.cap < endIdx - beginIdx
      ensures
        st.Halt? <==>
        Overfills(Levels(old(queues.queues)), Perms(old(Slots())), inPLen, queues.cap, Indices(), outPIdxLen)
    {
      hide Flow, Complete, Cut, Chunk, MultiQueue.Home, RealCoda.Valid;
      hide RealCoda.Closed, AllSlots, Blank, Separate, Buffers, Covers, Overfills;
      st := ReadPhase(coda, queues, ps, inPartitions, inPLen, outPartitions, outPIdxLen, outPLen, target);
      if st.Halt? {
        return;
      }
      st := RefillPhase(coda, queues, ps, outPartitions, outPLen, Slots(), outPIdxLen, target);
    }
  }
}

/** The cache shuffle: spray until every partition has one index, then pick the one real element of each. */
module CacheShuffle {
  import opened Common
  import opened CacheArith
  import opened CacheFlow
  import opened CacheOccupancy
  import opened CacheSpary
  import opened CacheSpec
  import opened CacheTiles
  import opened QueueWords
  import opened RealLibCoda
  import opened Routing

  /** Q = ceil((1 + EPSILON) * S) with EPSILON = 2. */
  const EPSILON := 2

  /** The capacity the source gives the multi-queue of every spary. */
  const QUEUE_CAP := 1000

  /** Some output meets the specification. */
  lemma RoutedExists(perm: seq<int>, data: seq<int>) returns (out: seq<int>)
    requires IsPermutation(perm) && |perm| == |data|
    ensures Routed(out, perm, data)
  {
    out := [];
    while |out| < |perm|
      invariant |out| <= |perm|
      invariant forall k: nat :: k < |perm| && perm[k] < |out| ==> out[perm[k]] == data[k]
    {
      var i := Hit(perm, |out|);
      forall k: nat | k < |perm| && perm[k] == |out|
        ensures k == i
      {
        SamePlace(perm, k, i);
      }
      out := out + [data[i]];
    }
  }

  ghost function RangesOf(ps: seq<CacheShuffleData>): (rs: seq<Range>)
    ensures |rs| == |ps|
    ensures forall i: nat :: i < |ps| ==> rs[i] == ps[i].Indices()
  {
    seq(|ps|, i requires 0 <= i < |ps| => ps[i].Indices())
  }

  lemma RangesJoin(a: seq<CacheShuffleData>, b: seq<CacheShuffleData>)
    ensures RangesOf(a + b) == RangesOf(a) + RangesOf(b)
  {
  }

  /** Partitions with arrays of their own, each complete for its range. */
  ghost predicate AllComplete(ps: seq<CacheShuffleData>, target: seq<int>)
    reads Buffers(ps)
  {
    Separate(ps) && forall i: nat :: i < |ps| ==> Complete(ps[i].Slots(), ps[i].Indices(), target)
  }

  /** The parameters a run works with: a 32-bit length, and queues whose block addresses fit. */
  ghost predicate Runs(queueCap: nat, len: nat) {
    1 <= len < 0x8000_0000 && 2 <= queueCap && Addressable(90, queueCap)
  }

  /** 32-bit lengths need at most 30 and 90 partitions a step. */
  lemma PartitionCounts(len: nat)
    requires 1 <= len < 0x8000_0000
    ensures Max(1, FloorLog2(len)) <= 30
    ensures len >= 4 ==> FloorLog2(len) >= 2
  {
    assert Pow2(10) == 1024 && Pow2(20) == 1024 * Pow2(10) by {
      assert Pow2(15) == 32 * Pow2(10);
    }
    assert Pow2(25) == 32 * Pow2(20);
    assert Pow2(31) == 64 * Pow2(25);
    FloorLog2Below(len, 31);
  }

  /** Up to three elements the first spary already isolates all of them. */
  lemma FewAreSingled(len: nat)
    requires 2 <= len <= 3
    ensures FloorLog2(len) == 1 && OutPartitions(len, 3) == len
  {
  }

  // ---- one partition split ----

  /** The loop body for one partition: kept when it does not split, else shuffled and sprayed. */
  method SplitPart(coda: RealCoda, queueCap: nat, part: CacheShuffleData, s: nat, ghost target: seq<int>)
    returns (r: Result<seq<CacheShuffleData>>)
    requires coda.Valid() && coda.Closed() && 1 <= s <= 90 && 2 <= queueCap && Addressable(90, queueCap)
    requires part.Sized() && part.arr != coda.txmem && part.perm != coda.txmem && part.beginIdx < part.endIdx
    requires Complete(part.Slots(), part.Indices(), target)
    modifies coda, coda.txmem, part.arr, part.perm
    ensures coda.Valid() && coda.Closed()
    ensures r.Ok? ==> |r.value| == OutPartitions(part.endIdx - part.beginIdx, s)
    ensures r.Ok? ==> AllComplete(r.value, target) && Tiles(RangesOf(r.value), part.beginIdx, part.endIdx)
    ensures r.Ok? ==> r.value == [part] || fresh(Buffers(r.value))
    ensures r.Halted? ==> r.reason == QueuesFull && queueCap < part.endIdx - part.beginIdx
    ensures
      var n := OutPartitions(part.endIdx - part.beginIdx, s);
      r.Halted? <==> n > 1 && SprayFills(part.perm[..], part.Indices(), queueCap, InPartitions(part.len, n), n)
  {
    hide Complete, Separate, OutPartitions, InPartitions, CeilDiv, RealCoda.Valid, RealCoda.Closed, CutsEvenly, Tiles;
    hide DrawsFit, Shuffled, SprayFills;
    var outPartitions := OutPartitions(part.endIdx - part.beginIdx, s);
    OutPartitionsCut(part.endIdx - part.beginIdx, s);
    EnoughSlots(part.Slots(), part.Indices(), target, outPartitions);
    InPartitionsCut(part.len, outPartitions);
    var inPartitions := InPartitions(part.len, outPartitions);
    if outPartitions == 1 {
      OnePart(part, target);
      return Ok([part]);
    }
    ghost var before := part.Slots();
    var draws := DrawWords(part.len);
    part.RandomShuffle(draws);
    ShuffledPermutes(before, 0, draws);
    ShuffledComplete(before, part.Slots(), part.Indices(), target);
    r := SprayPart(coda, queueCap, part, inPartitions, outPartitions, target);
  }

  lemma OnePart(part: CacheShuffleData, target: seq<int>)
    requires part.Sized() && part.beginIdx < part.endIdx && Complete(part.Slots(), part.Indices(), target)
    ensures AllComplete([part], target) && Tiles(RangesOf([part]), part.beginIdx, part.endIdx)
  {
    assert RangesOf([part])[1..] == [];
  }

  /** A spary whose result is a list of complete partitions over the same indices. */
  method SprayPart(coda: RealCoda, queueCap: nat, part: CacheShuffleData, inPartitions: nat, outPartitions: nat,
                   ghost target: seq<int>)
    returns (r: Result<seq<CacheShuffleData>>)
    requires coda.Valid() && coda.Closed() && part.Sized() && part.arr != coda.txmem && part.perm != coda.txmem
    requires Complete(part.Slots(), part.Indices(), target) && part.Sizing(queueCap, inPartitions, outPartitions)
    modifies coda, coda.txmem
    ensures coda.Valid() && coda.Closed()
    ensures r.Ok? ==> |r.value| == outPartitions && fresh(Buffers(r.value))
    ensures r.Ok? ==> Narrow(RangesOf(r.value), CeilDiv(part.endIdx - part.beginIdx, outPartitions))
    ensures r.Ok? ==> AllComplete(r.value, target) && Tiles(RangesOf(r.value), part.beginIdx, part.endIdx)
    ensures r.Halted? ==> r.reason == QueuesFull && queueCap < part.endIdx - part.beginIdx
    ensures r.Halted? <==> SprayFills(old(part.perm[..]), part.Indices(), queueCap, inPartitions, outPartitions)
  {
    hide Complete, Separate, CeilDiv, RealCoda.Valid, RealCoda.Closed, CutsEvenly, Tiles, Narrow, Chunk, SprayFills;
    r := part.Spary(coda, queueCap, inPartitions, outPartitions, target);
    if r.Ok? {
      ghost var w := CeilDiv(part.endIdx - part.beginIdx, outPartitions);
      ChunksTile(part.Indices(), w, outPartitions, 0);
      ChunkBounds(part.Indices(), w, outPartitions, 0);
      ChunksNarrow(part.Indices(), w, outPartitions);
      assert RangesOf(r.value) == Chunks(part.Indices(), w, outPartitions);
      assert RangesOf(r.value) == Chunks(part.Indices(), w, outPartitions)[0..];
    }
  }

  // ---- lists of partitions, taken apart and put together ----

  lemma BuffersJoin(a: seq<CacheShuffleData>, b: seq<CacheShuffleData>)
    ensures Buffers(a + b) == Buffers(a) + Buffers(b)
  {
    var ab := a + b;
    forall x | x in Buffers(a)
      ensures x in Buffers(ab)
    {
      var i :| 0 <= i < |a| && (a[i].arr == x || a[i].perm == x);
      assert ab[i] == a[i];
    }
    forall x | x in Buffers(b)
      ensures x in Buffers(ab)
    {
      var i :| 0 <= i < |b| && (b[i].arr == x || b[i].perm == x);
      assert ab[|a| + i] == b[i];
    }
  }

  lemma SeparateJoin(a: seq<CacheShuffleData>, b: seq<CacheShuffleData>)
    requires Separate(a) && Separate(b) && Buffers(a) !! Buffers(b)
    ensures Separate(a + b)
  {
    forall i: nat, j: nat | i < |a| && j < |b|
      ensures a[i].arr != b[j].arr && a[i].perm != b[j].perm && a[i].arr != b[j].perm && a[i].perm != b[j].arr
    {
      InBuffers(a, i);
      InBuffers(b, j);
    }
  }

  lemma SeparateParts(a: seq<CacheShuffleData>, b: seq<CacheShuffleData>)
    requires Separate(a + b)
    ensures Separate(a) && Separate(b) && Buffers(a) !! Buffers(b)
  {
    var ab := a + b;
    assert forall i: nat :: i < |a| ==> ab[i] == a[i];
    assert forall j: nat :: j < |b| ==> ab[|a| + j] == b[j];
  }

  lemma CompleteJoin(a: seq<CacheShuffleData>, b: seq<CacheShuffleData>, target: seq<int>)
    requires AllComplete(a, target) && AllComplete(b, target) && Buffers(a) !! Buffers(b)
    ensures AllComplete(a + b, target)
  {
    hide Complete, Separate, Buffers;
    SeparateJoin(a, b);
  }

  lemma CompleteParts(a: seq<CacheShuffleData>, b: seq<CacheShuffleData>, target: seq<int>)
    requires AllComplete(a + b, target)
    ensures AllComplete(a, target) && AllComplete(b, target) && Buffers(a) !! Buffers(b)
  {
    hide Complete, Separate, Buffers;
    SeparateParts(a, b);
    assert forall i: nat :: i < |a| ==> (a + b)[i] == a[i];
    assert forall j: nat :: j < |b| ==> (a + b)[|a| + j] == b[j];
  }

  /** A list of partitions whose middle one is split, the others left alone. */
  method SplitOne(coda: RealCoda, queueCap: nat, ghost before: seq<CacheShuffleData>, part: CacheShuffleData,
                  ghost after: seq<CacheShuffleData>, s: nat, ghost target: seq<int>)
    returns (r: Result<seq<CacheShuffleData>>)
    requires coda.Valid() && coda.Closed() && 1 <= s <= 90 && 2 <= queueCap && Addressable(90, queueCap)
    requires AllComplete(before + ([part] + after), target) && coda.txmem !in Buffers(before + ([part] + after))
    requires part.beginIdx < part.endIdx
    modifies coda, coda.txmem, part.arr, part.perm
    ensures coda.Valid() && coda.Closed()
    ensures r.Ok? ==> |r.value| == OutPartitions(part.endIdx - part.beginIdx, s)
    ensures r.Ok? ==> AllComplete(before + (r.value + after), target)
    ensures r.Ok? ==> Tiles(RangesOf(r.value), part.beginIdx, part.endIdx)
    ensures r.Ok? ==> forall b :: b in Buffers(before + (r.value + after)) ==> b in Buffers(before + ([part] + after)) || fresh(b)
    ensures r.Halted? ==> r.reason == QueuesFull && queueCap < part.endIdx - part.beginIdx
  {
    hide Complete, Separate, OutPartitions, RealCoda.Valid, RealCoda.Closed, Tiles, AllComplete;
    CompleteParts(before, [part] + after, target);
    CompleteParts([part], after, target);
    BuffersJoin(before, [part] + after);
    BuffersJoin([part], after);
    Alone(part, target);
    r := SplitPart(coda, queueCap, part, s, target);
    if r.Ok? {
      BuffersJoin(before, r.value + after);
      BuffersJoin(r.value, after);
      CompleteJoin(r.value, after, target);
      CompleteJoin(before, r.value + after, target);
    }
  }

  lemma Alone(part: CacheShuffleData, target: seq<int>)
    requires AllComplete([part], target)
    ensures part.Sized() && Complete(part.Slots(), part.Indices(), target) && Buffers([part]) == {part.arr, part.perm}
  {
    BuffersAppend([], part);
    assert [] + [part] == [part];
  }

  // ---- the refinement loop ----

  /** Complete partitions that tile all the indices. */
  ghost predicate Refines(ps: seq<CacheShuffleData>, target: seq<int>)
    reads Buffers(ps)
  {
    AllComplete(ps, target) && Tiles(RangesOf(ps), 0, |target|)
  }

  lemma RangesInOrder(ps: seq<CacheShuffleData>, target: seq<int>)
    requires Refines(ps, target)
    ensures |ps| <= |target| && Tiles(RangesOf(ps), 0, |target|)
    ensures forall i: nat :: i < |ps| ==> 0 <= ps[i].beginIdx < ps[i].endIdx <= |target|
  {
    TilesBounds(RangesOf(ps), 0, |target|);
    forall i: nat | i < |ps|
      ensures 0 <= ps[i].beginIdx < ps[i].endIdx <= |target|
    {
      assert RangesOf(ps)[i] == ps[i].Indices();
    }
  }

  /** How many partitions the next round will have. */
  method CountNext(temp: seq<CacheShuffleData>, s: nat, ghost target: seq<int>) returns (newTempLen: nat)
    requires s > 0 && Refines(temp, target) && forall i: nat :: i < |temp| ==> temp[i].beginIdx < temp[i].endIdx
    ensures newTempLen == OutSum(RangesOf(temp), s) && Refines(temp, target)
  {
    hide OutPartitions, Tiles, Complete;
    ghost var rs := RangesOf(temp);
    newTempLen := 0;
    var i := 0;
    assert rs[0..] == rs;
    while i < |temp|
      invariant i <= |temp| && newTempLen + OutSum(rs[i..], s) == OutSum(rs, s)
    {
      OutSumStep(rs, s, i);
      newTempLen := newTempLen + OutPartitions(temp[i].endIdx - temp[i].beginIdx, s);
      i := i + 1;
    }
  }

  /** The partitions from i on will give left more. */
  ghost predicate StillLeft(temp: seq<CacheShuffleData>, s: nat, i: nat, left: nat)
    requires s > 0 && i <= |temp| && forall i: nat :: i < |temp| ==> temp[i].beginIdx < temp[i].endIdx
  {
    left == OutSum(RangesOf(temp)[i..], s)
  }

  lemma AllLeft(temp: seq<CacheShuffleData>, s: nat)
    requires s > 0 && forall i: nat :: i < |temp| ==> temp[i].beginIdx < temp[i].endIdx
    ensures StillLeft(temp, s, 0, OutSum(RangesOf(temp), s)) && [] + temp[0..] == temp
  {
    assert RangesOf(temp)[0..] == RangesOf(temp);
  }

  lemma OutLeft(temp: seq<CacheShuffleData>, s: nat, i: nat, left: nat)
    requires s > 0 && i < |temp| && forall i: nat :: i < |temp| ==> temp[i].beginIdx < temp[i].endIdx
    requires StillLeft(temp, s, i, left)
    ensures OutPartitions(temp[i].endIdx - temp[i].beginIdx, s) <= left
    ensures StillLeft(temp, s, i + 1, left - OutPartitions(temp[i].endIdx - temp[i].beginIdx, s))
  {
    OutSumStep(RangesOf(temp), s, i);
  }

  lemma NoneLeft(temp: seq<CacheShuffleData>, s: nat, left: nat)
    requires s > 0 && forall i: nat :: i < |temp| ==> temp[i].beginIdx < temp[i].endIdx
    requires StillLeft(temp, s, |temp|, left)
    ensures left == 0
  {
    assert RangesOf(temp)[|temp|..] == [];
  }

  /** Element i of a list between what is before and behind it. */
  lemma Around<T>(done: seq<T>, rest: seq<T>, i: nat)
    requires i < |rest|
    ensures done + rest[i..] == done + ([rest[i]] + rest[i + 1..])
  {
    assert rest[i..] == [rest[i]] + rest[i + 1..];
  }

  /** The refined list still tiles, as narrowly, when one range is replaced by its parts. */
  lemma RefinedTiles(done: seq<CacheShuffleData>, part: CacheShuffleData, rest: seq<CacheShuffleData>,
                     parts: seq<CacheShuffleData>, n: nat, width: nat)
    requires Tiles(RangesOf(done + ([part] + rest)), 0, n) && Tiles(RangesOf(parts), part.beginIdx, part.endIdx)
    requires Narrow(RangesOf(done + ([part] + rest)), width)
    ensures Tiles(RangesOf(done + (parts + rest)), 0, n) && Narrow(RangesOf(done + (parts + rest)), width)
  {
    hide Tiles, Narrow;
    RangesJoin(done, [part] + rest);
    RangesJoin([part], rest);
    RangesJoin(done, parts + rest);
    RangesJoin(parts, rest);
    var a, x, b, p := RangesOf(done), part.Indices(), RangesOf(rest), RangesOf(parts);
    assert RangesOf([part]) == [x];
    assert a + ([x] + b) == a + [x] + b && a + (p + b) == a + p + b;
    TilesReplace(a, x, b, p, 0, n);
    NarrowReplace(a, x, b, p, width);
  }

  lemma NarrowAt(done: seq<CacheShuffleData>, part: CacheShuffleData, rest: seq<CacheShuffleData>, width: nat)
    requires Narrow(RangesOf(done + ([part] + rest)), width)
    ensures part.endIdx - part.beginIdx <= width
  {
    var list := done + ([part] + rest);
    assert list[|done|] == part;
    assert RangesOf(list)[|done|] == part.Indices();
  }

  /** The body of the round's loop: partition i gives way to its parts. */
  method RoundStep(coda: RealCoda, queueCap: nat, ghost newTemp: seq<CacheShuffleData>, temp: seq<CacheShuffleData>,
                   i: nat, s: nat,
                   ghost target: seq<int>, ghost width: nat)
    returns (r: Result<seq<CacheShuffleData>>)
    requires coda.Valid() && coda.Closed() && 1 <= s <= 90 && 2 <= queueCap && Addressable(90, queueCap) && i < |temp|
    requires Refines(newTemp + temp[i..], target) && coda.txmem !in Buffers(newTemp + temp[i..])
    requires Narrow(RangesOf(newTemp + temp[i..]), width)
    requires 0 <= temp[i].beginIdx < temp[i].endIdx <= |target|
    modifies coda, coda.txmem, temp[i].arr, temp[i].perm
    ensures coda.Valid() && coda.Closed()
    ensures r.Ok? ==> |r.value| == OutPartitions(temp[i].endIdx - temp[i].beginIdx, s)
    ensures r.Ok? ==> Refines(newTemp + r.value + temp[i + 1..], target)
    ensures r.Ok? ==> Narrow(RangesOf(newTemp + r.value + temp[i + 1..]), width)
    ensures r.Ok? ==> forall b :: b in Buffers(newTemp + r.value + temp[i + 1..]) ==> b in Buffers(newTemp + temp[i..]) || fresh(b)
    ensures r.Halted? ==> r.reason == QueuesFull && queueCap < width
  {
    hide OutPartitions, RealCoda.Valid, RealCoda.Closed, Tiles, Narrow, AllComplete, Buffers;
    Around(newTemp, temp, i);
    NarrowAt(newTemp, temp[i], temp[i + 1..], width);
    r := SplitOne(coda, queueCap, newTemp, temp[i], temp[i + 1..], s, target);
    if r.Ok? {
      RefinedTiles(newTemp, temp[i], temp[i + 1..], r.value, |target|, width);
      assert newTemp + r.value + temp[i + 1..] == newTemp + (r.value + temp[i + 1..]);
    }
  }

  /** One round: every partition that can split does, and the list never outgrows what was counted for it. */
  method Round(coda: RealCoda, queueCap: nat, temp: seq<CacheShuffleData>, s: nat, ghost target: seq<int>,
               ghost width: nat)
    returns (r: Result<seq<CacheShuffleData>>)
    requires coda.Valid() && coda.Closed() && 1 <= s <= 90 && 2 <= queueCap && Addressable(90, queueCap)
    requires Narrow(RangesOf(temp), width) && Refines(temp, target) && coda.txmem !in Buffers(temp)
    requires forall i: nat :: i < |temp| ==> temp[i].beginIdx < temp[i].endIdx
    modifies coda, coda.txmem, Buffers(temp)
    ensures coda.Valid() && coda.Closed()
    ensures r.Ok? ==> Narrow(RangesOf(r.value), width)
    ensures r.Ok? ==> Refines(r.value, target) && |r.value| == OutSum(RangesOf(temp), s)
    ensures r.Ok? ==> forall b :: b in Buffers(r.value) ==> b in Buffers(temp) || fresh(b)
    ensures r.Halted? ==> r.reason == QueuesFull && queueCap < width
  {
    hide OutPartitions, RealCoda.Valid, RealCoda.Closed, Refines, OutSum, Buffers, StillLeft, Narrow;
    RangesInOrder(temp, target);
    var newTempLen := CountNext(temp, s, target);
    var newTemp: seq<CacheShuffleData> := [];
    ghost var left: nat, list, home := newTempLen, temp, Buffers(temp);
    var i := 0;
    AllLeft(temp, s);
    while i < |temp|
      invariant i <= |temp| && coda.Valid() && coda.Closed() && list == newTemp + temp[i..]
      invariant Narrow(RangesOf(list), width) && Refines(list, target) && forall b :: b in Buffers(list) ==> b in home || fresh(b)
      invariant |newTemp| + left == newTempLen && StillLeft(temp, s, i, left)
    {
      OutLeft(temp, s, i, left);
      InBuffers(temp, i);
      var parts :- RoundStep(coda, queueCap, newTemp, temp, i, s, target, width);
      newTemp, left, list := newTemp + parts, left - |parts|, newTemp + parts + temp[i + 1..];
      i := i + 1;
    }
    NoneLeft(temp, s, left);
    assert list == newTemp;
    r := Ok(newTemp);
  }

  // ---- the result ----

  /** cmove_int32 as the conditional move of one 32-bit value. */
  method CmoveInt32(cond: bool, src: int, dest: int) returns (r: int)
    ensures r == if cond then src else dest
  {
    r := dest;
    if cond {
      r := src;
    }
  }

  /** The value of the one real slot of a partition of one index; the variable starts out undefined. */
  method PickReal(part: CacheShuffleData, ghost i: nat, ghost target: seq<int>) returns (realV: int)
    requires part.Sized() && Complete(part.Slots(), Range(i, i + 1), target)
    ensures i < |target| && realV == target[i]
  {
    SingleComplete(part.Slots(), i, target);
    realV := *;
    var j := 0;
    while j < part.len
      invariant j <= part.len
      invariant realV == target[i] || forall k: nat :: k < j ==> part.Slots()[k].perm == -1
    {
      var v, p := part.arr[j], part.perm[j];
      assert part.Slots()[j] == Element(v, p);
      realV := CmoveInt32(p != -1, v, realV);
      j := j + 1;
    }
  }

  lemma SingleAt(ps: seq<CacheShuffleData>, i: nat, target: seq<int>)
    requires Refines(ps, target) && |ps| == |target| && i < |ps|
    ensures ps[i].Sized() && Complete(ps[i].Slots(), Range(i, i + 1), target)
  {
    hide Tiles, Complete, Buffers;
    TilesSingles(RangesOf(ps), 0, |target|, i);
  }

  method Collect(temp: seq<CacheShuffleData>, arrOut: array<int>, ghost target: seq<int>)
    requires Refines(temp, target) && |temp| == |target| == arrOut.Length && arrOut !in Buffers(temp)
    modifies arrOut
    ensures arrOut[..] == target
  {
    hide Complete, Tiles, Separate;
    var i := 0;
    while i < |temp|
      invariant i <= |temp| && Refines(temp, target)
      invariant forall k: nat :: k < i ==> arrOut[k] == target[k]
    {
      SingleAt(temp, i, target);
      arrOut[i] := PickReal(temp[i], i, target);
      i := i + 1;
    }
  }

  // ---- cache_shuffle ----

  lemma OnlyOne(perm: seq<int>, data: seq<int>)
    requires IsPermutation(perm) && |perm| == |data| == 1
    ensures Routed(data, perm, data)
  {
  }

  lemma SlotPerms(part: CacheShuffleData, ps: seq<int>)
    requires part.Sized() && |ps| == part.len && forall k: nat :: k < part.len ==> part.Slots()[k].perm == ps[k]
    ensures part.perm[..] == ps
  {
    forall k: nat | k < part.len
      ensures part.perm[k] == ps[k]
    {
      assert part.Slots()[k].perm == part.perm[k];
    }
  }

  /** The first spary of the permutation ps, into FirstParts partitions, runs out of queue blocks. */
  predicate FirstFills(ps: seq<int>, cap: nat) {
    && |ps| >= 2
    && var s := Max(1, FloorLog2(|ps|));
       SprayFills(ps, Range(0, |ps|), cap, InPartitions(|ps|, s), FirstParts(|ps|))
  }

  function FirstParts(len: nat): (n: nat)
    requires len > 0
    ensures n > 0
  {
    OutPartitionsCut(len, (1 + EPSILON) * Max(1, FloorLog2(len)));
    OutPartitions(len, (1 + EPSILON) * Max(1, FloorLog2(len)))
  }

  /** With k the integer part of log2(len): the greatest even cut of len indices into at most 3 * k parts. */
  lemma FirstPartsExactly(len: nat, k: nat, n: nat)
    requires k >= 1 && Pow2(k) <= len < Pow2(k + 1)
    requires 1 <= n <= 3 * k && CutsEvenly(len, n, CeilDiv(len, n))
    ensures n <= FirstParts(len) <= 3 * k && CutsEvenly(len, FirstParts(len), CeilDiv(len, FirstParts(len)))
  {
    hide FloorLog2, CeilDiv, CutsEvenly;
    LogBetween(len, k);
    OutPartitionsCut(len, 3 * k);
    OutPartitionsGreatest(len, 3 * k, n);
  }

  /** The most indices a partition has after the first spary. */
  function FirstWidth(len: nat): (w: nat)
    requires len > 0
    ensures w <= len
  {
    CeilDivPositive(len, FirstParts(len));
    CeilDiv(len, FirstParts(len))
  }

  // ---- inputs that fill the queues of the first spary ----

  /** Every element is at its destination already. */
  ghost function InPlace(len: nat): (ps: seq<int>)
    ensures |ps| == len && forall k: nat :: k < len ==> ps[k] == k
  {
    seq(len, k => k)
  }

  lemma InPlacePermutes(len: nat)
    ensures IsPermutation(InPlace(len))
  {
  }

  lemma FirstRange(len: nat, w: nat)
    requires w <= len
    ensures Chunk(Range(0, len), w, 0) == Range(0, w)
  {
  }

  /** Queue 0 gets all of the first m + 1 chunks, and only m blocks of it are given back. */
  lemma InPlaceFills(len: nat, cap: nat, s: nat, inPLen: nat, m: nat)
    requires len >= 2 && s == Max(1, FloorLog2(len)) && inPLen == CeilDiv(len, InPartitions(len, s)) > 0
    requires (m + 1) * inPLen <= FirstWidth(len) && m * (inPLen - 1) + inPLen > cap
    ensures FirstFills(InPlace(len), cap)
  {
    var w, n, span := FirstWidth(len), FirstParts(len), (m + 1) * inPLen;
    assert w == CeilDiv(len, n) && InPartitions(len, s) > 0;
    hide FloorLog2, FirstParts, Overfills, CeilDiv, FirstWidth, InPartitions, Chunk;
    FirstRange(len, w);
    assert forall t: nat :: t < span ==> 0 <= InPlace(len)[t] < w;
    OneQueueFills(NoneQueued(n), InPlace(len), inPLen, cap, Range(0, len), w, m);
  }

  /** No capacity the queues can address is enough for every input: 1048576 elements in place need more. */
  lemma EveryCapacityFills(cap: nat)
    requires Runs(cap, 1048576)
    ensures IsPermutation(InPlace(1048576)) && FirstFills(InPlace(1048576), cap)
  {
    InPlacePermutes(1048576);
    assert Pow2(20) == 1048576 by {
      assert Pow2(10) == 1024;
    }
    LogOfPow2(20);
    assert FirstParts(1048576) == 60 && FirstWidth(1048576) == 17477;
    assert InPartitions(1048576, 20) == 52429;
    InPlaceFills(1048576, cap, 20, 20, 870);
  }

  /** For QUEUE_CAP, 65536 elements in place do. */
  lemma QueueCapFills()
    ensures IsPermutation(InPlace(65536)) && FirstFills(InPlace(65536), QUEUE_CAP)
  {
    InPlacePermutes(65536);
    assert Pow2(16) == 65536 by {
      assert Pow2(8) == 256;
    }
    LogOfPow2(16);
    assert FirstParts(65536) == 48 && FirstWidth(65536) == 1366;
    assert InPartitions(65536, 16) == 4096;
    InPlaceFills(65536, QUEUE_CAP, 16, 16, 66);
  }

  /** The input as one partition, sprayed over at most q. */
  method First(coda: RealCoda, queueCap: nat, arrIn: array<int>, permIn: array<int>, len: nat, s: nat, q: nat,
               ghost target: seq<int>)
    returns (r: Result<seq<CacheShuffleData>>)
    requires 2 <= len == arrIn.Length == permIn.Length && IsPermutation(permIn[..])
    requires Routed(target, permIn[..], arrIn[..])
    requires coda.Valid() && coda.Closed() && 1 <= s <= 90 && 1 <= q <= 90 && 2 <= queueCap && Addressable(90, queueCap)
    modifies coda, coda.txmem
    ensures coda.Valid() && coda.Closed()
    ensures r.Ok? ==> Refines(r.value, target) && fresh(Buffers(r.value)) && |r.value| == OutPartitions(len, q)
    ensures r.Ok? ==> Narrow(RangesOf(r.value), CeilDiv(len, OutPartitions(len, q)))
    ensures r.Halted? ==> r.reason == QueuesFull && queueCap < len
    ensures r.Halted? <==> SprayFills(old(permIn[..]), Range(0, len), queueCap, InPartitions(len, s), OutPartitions(len, q))
  {
    hide Complete, Separate, OutPartitions, InPartitions, CeilDiv, RealCoda.Valid;
    hide RealCoda.Closed, CutsEvenly, Tiles, Narrow, IsPermutation, AllComplete, SprayFills;
    var data := new CacheShuffleData.FromInput(len, 0, len, arrIn, permIn);
    InputComplete(data.Slots(), permIn[..], target);
    assert data.perm[..] == permIn[..] by {
      SlotPerms(data, permIn[..]);
    }
    var tempLen := OutPartitions(len, q);
    OutPartitionsCut(len, q);
    InPartitionsCut(len, s);
    r := SprayPart(coda, queueCap, data, InPartitions(len, s), tempLen, target);
  }

  /**
   * arrOut[permIn[k]] == arrIn[k] for all k, unless the multi-queue is full. It is when the permutation overfills it
   * in the first spary, and in no other case when it has as many blocks as a partition then has indices at most.
   */
  method Shuffle(coda: RealCoda, queueCap: nat, arrIn: array<int>, permIn: array<int>, arrOut: array<int>, len: nat)
    returns (st: Status)
    requires Runs(queueCap, len) && arrIn.Length == permIn.Length == arrOut.Length == len && IsPermutation(permIn[..])
    requires coda.Valid() && coda.Closed() && arrOut != coda.txmem
    modifies coda, coda.txmem, arrOut
    ensures st.Done? ==> Routed(arrOut[..], old(permIn[..]), old(arrIn[..]))
    ensures st.Halt? ==> st.reason == QueuesFull && queueCap < len
    ensures FirstFills(old(permIn[..]), queueCap) ==> st.Halt?
    ensures FirstWidth(len) <= queueCap ==> (st.Halt? <==> FirstFills(old(permIn[..]), queueCap))
  {
    hide RealCoda.Valid, RealCoda.Closed, IsPermutation, Routed, FloorLog2, OutPartitions;
    hide OutSum, Refines, Complete, Buffers, Separate, Narrow, SprayFills, CeilDiv, InPartitions;
    ghost var target := RoutedExists(permIn[..], arrIn[..]);
    if len == 1 {
      ghost var only := arrIn[..];
      OnlyOne(permIn[..], only);
      arrOut[0] := arrIn[0];
      assert arrOut[..] == only;
      return Done;
    }
    PartitionCounts(len);
    var s := Max(1, FloorLog2(len));
    var q := (1 + EPSILON) * s;
    var r := First(coda, queueCap, arrIn, permIn, len, s, q, target);
    if r.Halted? {
      return Halt(r.reason);
    }
    var temp := r.value;
    RangesInOrder(temp, target);
    if len <= 3 {
      FewAreSingled(len);
    }
    while |temp| < len
      invariant Narrow(RangesOf(temp), FirstWidth(len))
      invariant coda.Valid() && coda.Closed() && Refines(temp, target) && fresh(Buffers(temp)) && |temp| <= len
      invariant |temp| < len ==> s >= 2
      decreases len - |temp|
    {
      RangesInOrder(temp, target);
      OutSumGrows(RangesOf(temp), s, 0, len);
      r := Round(coda, queueCap, temp, s, target, FirstWidth(len));
      if r.Halted? {
        return Halt(r.reason);
      }
      temp := r.value;
      RangesInOrder(temp, target);
    }
    if |temp| != len {
      return Halt(InvalidPartitionSize);
    }
    Collect(temp, arrOut, target);
    st := Done;
  }
}

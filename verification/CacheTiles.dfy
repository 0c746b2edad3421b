/** Index ranges that lie end to end. */
module CacheTiles {
  import opened CacheArith
  import opened CacheFlow
  import opened CacheSpec

  /** The ranges cover lo, ..., hi - 1 in order, none of them empty. */
  ghost predicate Tiles(rs: seq<Range>, lo: int, hi: int) {
    if rs == [] then lo == hi else rs[0].lo == lo && lo < rs[0].hi && Tiles(rs[1..], rs[0].hi, hi)
  }

  lemma {:induction false} TilesJoin(a: seq<Range>, b: seq<Range>, lo: int, mid: int, hi: int)
    requires Tiles(a, lo, mid) && Tiles(b, mid, hi)
    ensures Tiles(a + b, lo, hi)
  {
    if a == [] {
      assert a + b == b;
    } else {
      TilesJoin(a[1..], b, a[0].hi, mid, hi);
      assert (a + b)[1..] == a[1..] + b;
    }
  }

  lemma {:induction false} TilesPart(a: seq<Range>, b: seq<Range>, lo: int, hi: int) returns (mid: int)
    requires Tiles(a + b, lo, hi)
    ensures Tiles(a, lo, mid) && Tiles(b, mid, hi)
  {
    if a == [] {
      assert a + b == b;
      mid := lo;
    } else {
      assert (a + b)[1..] == a[1..] + b;
      mid := TilesPart(a[1..], b, a[0].hi, hi);
    }
  }

  /** A range replaced by smaller ones that tile it. */
  lemma TilesReplace(a: seq<Range>, x: Range, b: seq<Range>, parts: seq<Range>, lo: int, hi: int)
    requires Tiles(a + [x] + b, lo, hi) && Tiles(parts, x.lo, x.hi)
    ensures Tiles(a + parts + b, lo, hi)
  {
    assert a + [x] + b == a + ([x] + b);
    var mid := TilesPart(a, [x] + b, lo, hi);
    assert ([x] + b)[1..] == b;
    TilesJoin(parts, b, x.lo, x.hi, hi);
    TilesJoin(a, parts + b, lo, mid, hi);
    assert a + parts + b == a + (parts + b);
  }

  lemma {:induction false} TilesBounds(rs: seq<Range>, lo: int, hi: int)
    requires Tiles(rs, lo, hi)
    ensures |rs| <= hi - lo
    ensures forall i: nat :: i < |rs| ==> lo <= rs[i].lo < rs[i].hi <= hi
  {
    if rs != [] {
      TilesBounds(rs[1..], rs[0].hi, hi);
      forall i: nat | i < |rs|
        ensures lo <= rs[i].lo < rs[i].hi <= hi
      {
        if i > 0 {
          assert rs[i] == rs[1..][i - 1];
        }
      }
    }
  }

  /** As many ranges as indices: each range is one index. */
  lemma {:induction false} TilesSingles(rs: seq<Range>, lo: int, hi: int, i: nat)
    requires Tiles(rs, lo, hi) && |rs| == hi - lo && i < |rs|
    ensures rs[i] == Range(lo + i, lo + i + 1)
  {
    TilesBounds(rs[1..], rs[0].hi, hi);
    if i > 0 {
      TilesSingles(rs[1..], rs[0].hi, hi, i - 1);
    }
  }

  /** No range holds more than width indices. */
  ghost predicate Narrow(rs: seq<Range>, width: int) {
    forall i: nat :: i < |rs| ==> rs[i].hi - rs[i].lo <= width
  }

  /** Cutting a range up leaves the ranges as narrow as they were. */
  lemma NarrowReplace(a: seq<Range>, x: Range, b: seq<Range>, parts: seq<Range>, width: int)
    requires Narrow(a + [x] + b, width) && Tiles(parts, x.lo, x.hi)
    ensures Narrow(a + parts + b, width)
  {
    hide Tiles;
    TilesBounds(parts, x.lo, x.hi);
    var before, after := a + [x] + b, a + parts + b;
    assert before[|a|] == x;
    forall i: nat | i < |after|
      ensures after[i].hi - after[i].lo <= width
    {
      if i < |a| {
        assert before[i] == after[i];
      } else if i >= |a| + |parts| {
        assert before[i - |parts| + 1] == after[i];
      }
    }
  }

  /** How many partitions the next round makes of the ranges. */
  function OutSum(rs: seq<Range>, s: nat): nat
    requires s > 0 && forall i: nat :: i < |rs| ==> rs[i].lo < rs[i].hi
  {
    if rs == [] then 0 else OutPartitions(rs[0].hi - rs[0].lo, s) + OutSum(rs[1..], s)
  }

  lemma {:induction false} OutSumAtLeast(rs: seq<Range>, s: nat)
    requires s > 0 && forall i: nat :: i < |rs| ==> rs[i].lo < rs[i].hi
    ensures OutSum(rs, s) >= |rs|
  {
    hide OutPartitions, CutsEvenly, CeilDiv;
    if rs != [] {
      OutPartitionsCut(rs[0].hi - rs[0].lo, s);
      OutSumAtLeast(rs[1..], s);
    }
  }

  /** A round adds partitions as long as there are fewer than indices. */
  lemma {:induction false} OutSumGrows(rs: seq<Range>, s: nat, lo: int, hi: int)
    requires s >= 2 && Tiles(rs, lo, hi) && |rs| < hi - lo
    ensures forall i: nat :: i < |rs| ==> rs[i].lo < rs[i].hi
    ensures OutSum(rs, s) > |rs|
  {
    hide OutPartitions, CutsEvenly, CeilDiv;
    TilesBounds(rs, lo, hi);
    OutPartitionsCut(rs[0].hi - rs[0].lo, s);
    OutSumAtLeast(rs[1..], s);
    if rs[0].hi - rs[0].lo >= 2 {
      SplitsIff(rs[0].hi - rs[0].lo, s);
    } else {
      OutSumGrows(rs[1..], s, rs[0].hi, hi);
    }
  }

  lemma {:induction false} OutSumStep(rs: seq<Range>, s: nat, i: nat)
    requires s > 0 && (forall i: nat :: i < |rs| ==> rs[i].lo < rs[i].hi) && i < |rs|
    ensures OutSum(rs[i..], s) == OutPartitions(rs[i].hi - rs[i].lo, s) + OutSum(rs[i + 1..], s)
  {
    assert rs[i..][1..] == rs[i + 1..];
  }

  ghost function Chunks(r: Range, w: nat, n: nat): (rs: seq<Range>)
    ensures |rs| == n
    ensures forall i: nat :: i < n ==> rs[i] == Chunk(r, w, i)
  {
    seq(n, i requires 0 <= i < n => Chunk(r, w, i))
  }

  lemma ChunksNarrow(r: Range, w: nat, n: nat)
    requires Cut(r, w, n)
    ensures Narrow(Chunks(r, w, n), w)
  {
    hide Chunk, Cut;
    forall i: nat | i < n
      ensures Chunk(r, w, i).hi - Chunk(r, w, i).lo <= w
    {
      ChunkBounds(r, w, n, i);
    }
  }

  /** The parts of a spary tile its range. */
  lemma {:induction false} ChunksTile(r: Range, w: nat, n: nat, k: nat)
    requires Cut(r, w, n) && k <= n
    ensures Tiles(Chunks(r, w, n)[k..], if k < n then Chunk(r, w, k).lo else r.hi, r.hi)
    decreases n - k
  {
    hide Chunk, Cut;
    if k < n {
      ChunkBounds(r, w, n, k);
      ChunksTile(r, w, n, k + 1);
      assert Chunks(r, w, n)[k..][1..] == Chunks(r, w, n)[k + 1..];
    }
  }
}

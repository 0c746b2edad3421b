/** The transaction memory itself: one flat array, four cursors and a handle counter. */
module RealLibCoda {
  import opened TxMemory
  import opened TxRegions

  const TWO_32 := 0x1_0000_0000

  /** How many words a read/write iterator may take inside one transaction. */
  const MAX_OB_WRITE := 48

  class RealCoda {
    const txmem: array<int>
    var curOb: nat
    var curObRw: nat
    var curNob: nat
    var curMeta: nat
    /** An unsigned 32-bit counter; its start value is all ones, and the first handle wraps it to 0. */
    var handle: nat

    /** What the handles stand for. A transaction end keeps them readable until the next initializer. */
    ghost var regions: seq<Region>

    /** The handle the next initializer will give out. */
    ghost function Next(): nat
      reads this
    {
      (handle + 1) % TWO_32
    }

    ghost function Used(strip: Strip): nat
      reads this
    {
      match strip
      case Meta => 3 * Next()
      case ReadOnly => curOb
      case ReadWrite => curObRw
      case Random => curNob
    }

    ghost predicate Valid()
      reads this, txmem
    {
      && handle < TWO_32
      && Next() <= |regions|
      && Laid(txmem[..], regions)
      && curMeta == Addr(Meta, 3 * Next())
      && (forall h: nat :: h < Next() ==> regions[h].start + regions[h].len <= Used(regions[h].strip))
    }

    /** No handle has been given out since the last transaction end. */
    ghost predicate Closed()
      reads this
    {
      Next() == 0 && curOb == 0 && curObRw == 0 && curNob == 0
    }

    constructor ()
      ensures Valid() && Closed() && fresh(txmem)
    {
      txmem := new int[MEMORY_WORDS](_ => 0);
      curOb, curObRw, curNob, curMeta := 0, 0, 0, 0;
      handle := TWO_32 - 1;
      regions := [];
    }

    /** theCoda.handle++ on an unsigned 32-bit counter. */
    method NewHandle() returns (h: nat)
      requires handle < TWO_32 && Next() < META_WORDS
      modifies this`handle
      ensures h == old(Next()) == handle && Next() == h + 1
    {
      handle := (handle + 1) % TWO_32;
      h := handle;
    }

    /** The part the three initializers share: a handle, its metadata and the copied words. */
    method Initialize(strip: Strip, start: nat, data: seq<int>) returns (h: nat)
      requires Valid() && strip != Meta && start == Used(strip)
      requires 3 * Next() + 3 <= META_WORDS && start + |data| <= Limit(strip)
      modifies this`handle, this`curMeta, this`regions, txmem
      ensures h == old(Next()) == Next() - 1 && handle == h
      ensures regions == old(regions)[..h] + [Region(strip, start, |data|, data, 0, 0)]
      ensures Laid(txmem[..], regions) && curMeta == Addr(Meta, 3 * Next())
    {
      ghost var keep := regions[..Next()];
      ghost var r := Region(strip, start, |data|, [], 0, 0);
      hide Addr, Laid, RealCoda.Next;
      LaidPrefix(txmem[..], regions, Next());
      h := NewHandle();

      OpenMeta(h, start, if strip == ReadWrite then 0 else |data|, 0, keep, r);
      OpenRegion(txmem[..], keep, r);
      CopyIn(data, keep, r, strip, start);
      regions := keep + [r.(data := data)];
    }

    /** Copies data to the words of the newest region, front to back. */
    method CopyIn(data: seq<int>, ghost keep: seq<Region>, ghost r: Region, strip: Strip, start: nat)
      requires r == Region(strip, start, |data|, [], 0, 0) && Laid(txmem[..], keep + [r])
      modifies txmem
      ensures Laid(txmem[..], keep + [r.(data := data)])
    {
      hide Addr;
      var i := 0;
      while i < |data|
        invariant i <= |data| && Laid(txmem[..], keep + [r.(data := data[..i])])
      {
        AppendData(txmem[..], keep, r.(data := data[..i]), data[i]);
        ghost var before := txmem[..];
        txmem[Addr(strip, start + i)] := data[i];
        assert txmem[..] == before[Addr(strip, start + i) := data[i]];
        assert data[..i] + [data[i]] == data[..i + 1];
        i := i + 1;
      }
      assert data[..i] == data;
    }

    /** The three metadata stores of an initializer, the cursor moving on after each. */
    method OpenMeta(h: nat, word0: nat, word1: nat, word2: nat, ghost keep: seq<Region>, ghost r: Region)
      requires |keep| == h && 3 * h + 3 <= META_WORDS && Laid(txmem[..], keep)
      requires curMeta == Addr(Meta, 3 * h)
      requires word0 == r.start && word1 == Word1(r) && word2 == Word2(r)
      modifies this`curMeta, txmem
      ensures Laid(txmem[..], keep) && MetaStored(txmem[..], h, r)
      ensures curMeta == Addr(Meta, 3 * h + 3)
    {
      hide Addr;
      AddrInBounds();
      var meta := curMeta;
      StoreNewMeta(txmem[..], keep, 3 * h, word0);
      ghost var m0 := txmem[..];
      txmem[meta] := word0;
      ghost var m1 := txmem[..];
      assert m1 == m0[Addr(Meta, 3 * h) := word0];
      IncrementMetaStep(3 * h);
      meta := IncrementMeta(meta);
      StoreNewMeta(txmem[..], keep, 3 * h + 1, word1);
      txmem[meta] := word1;
      ghost var m2 := txmem[..];
      assert m2 == m1[Addr(Meta, 3 * h + 1) := word1];
      IncrementMetaStep(3 * h + 1);
      meta := IncrementMeta(meta);
      StoreNewMeta(txmem[..], keep, 3 * h + 2, word2);
      txmem[meta] := word2;
      assert txmem[..] == m2[Addr(Meta, 3 * h + 2) := word2];
      IncrementMetaStep(3 * h + 2);
      meta := IncrementMeta(meta);
      curMeta := meta;
      AddrInjective(Meta, 3 * h, Meta, 3 * h + 1);
      AddrInjective(Meta, 3 * h, Meta, 3 * h + 2);
      AddrInjective(Meta, 3 * h + 1, Meta, 3 * h + 2);
    }

    method InitializeObIterator(data: seq<int>) returns (h: nat)
      requires Valid()
      requires 3 * Next() + 3 <= META_WORDS && curOb + |data| <= Limit(ReadOnly)
      modifies this, txmem
      ensures Valid() && h == old(Next()) == Next() - 1
      ensures regions == old(regions)[..h] + [Region(ReadOnly, old(curOb), |data|, data, 0, 0)]
      ensures curOb == old(curOb) + |data| && curObRw == old(curObRw) && curNob == old(curNob)
    {
      h := Initialize(ReadOnly, curOb, data);
      curOb := curOb + |data|;
    }

    method InitializeObRwIterator(data: seq<int>) returns (h: nat)
      requires Valid()
      requires 3 * Next() + 3 <= META_WORDS && curObRw + |data| <= Limit(ReadWrite)
      modifies this, txmem
      ensures Valid() && h == old(Next()) == Next() - 1
      ensures regions == old(regions)[..h] + [Region(ReadWrite, old(curObRw), |data|, data, 0, 0)]
      ensures curOb == old(curOb) && curObRw == old(curObRw) + |data| && curNob == old(curNob)
    {
      h := Initialize(ReadWrite, curObRw, data);
      curObRw := curObRw + |data|;
    }

    method InitializeNobArray(data: seq<int>) returns (h: nat)
      requires Valid()
      requires 3 * Next() + 3 <= META_WORDS && curNob + |data| <= Limit(Random)
      modifies this, txmem
      ensures Valid() && h == old(Next()) == Next() - 1
      ensures regions == old(regions)[..h] + [Region(Random, old(curNob), |data|, data, 0, 0)]
      ensures curOb == old(curOb) && curObRw == old(curObRw) && curNob == old(curNob) + |data|
    {
      h := Initialize(Random, curNob, data);
      curNob := curNob + |data|;
    }

    /** Reads word pos behind the start of array h. That is word k of array g; inside h itself, g is h and k is pos. */
    method NobReadAt(h: nat, pos: nat, ghost g: nat := h, ghost k: nat := pos) returns (d: int)
      requires Valid() && Allowed(regions, ArrayRead(g, k)) && SameWord(regions, h, pos, g, k)
      ensures d == regions[g].data[k]
    {
      hide Laid;
      ArrayAlias(txmem[..], regions, h, pos, g, k, 0);
      var offset := HandleSlot(h);
      var start := txmem[offset];
      d := txmem[CalNob(start + pos)];
    }

    /** The same for a store: no bound is checked, so it changes whatever array has the word. */
    method NobWriteAt(h: nat, pos: nat, d: int, ghost g: nat := h, ghost k: nat := pos)
      requires Valid() && Allowed(regions, ArrayWrite(g, k, d)) && SameWord(regions, h, pos, g, k)
      modifies this`regions, txmem
      ensures Valid() && regions == FlatStep(old(regions), ArrayWrite(g, k, d)).1
    {
      hide Laid;
      ArrayAlias(txmem[..], regions, h, pos, g, k, d);
      var offset := HandleSlot(h);
      var start := txmem[offset];
      var target := CalNob(start + pos);
      txmem[target] := d;
      assert txmem[..] == MemStep(old(txmem[..]), ArrayWrite(h, pos, d)).1;
      regions := FlatStep(regions, ArrayWrite(g, k, d)).1;
    }

    method ObReadNext(h: nat) returns (d: int)
      requires Valid() && Allowed(regions, IterRead(h))
      modifies this`regions, txmem
      ensures Valid() && (d, regions) == FlatStep(old(regions), IterRead(h))
    {
      hide Laid;
      StepRefines(txmem[..], regions, IterRead(h));
      var offset := HandleSlot(h);
      var start, cur := txmem[offset], txmem[offset + 2];
      var target := CalOb(start + cur);
      txmem[offset + 2] := txmem[offset + 2] + 1;
      d := txmem[target];
      assert txmem[..] == MemStep(old(txmem[..]), IterRead(h)).1;
      regions := FlatStep(regions, IterRead(h)).1;
    }

    method ObRwWriteNext(h: nat, d: int)
      requires Valid() && Allowed(regions, RwWrite(h, d))
      modifies this`regions, txmem
      ensures Valid() && regions == FlatStep(old(regions), RwWrite(h, d)).1
    {
      hide Laid;
      StepRefines(txmem[..], regions, RwWrite(h, d));
      var offset := HandleSlot(h);
      var start, writePointer := txmem[offset], txmem[offset + 2];
      var target := CalObRw(start + writePointer);
      txmem[offset + 2] := txmem[offset + 2] + 1;
      txmem[target] := d;
      assert txmem[..] == MemStep(old(txmem[..]), RwWrite(h, d)).1;
      regions := FlatStep(regions, RwWrite(h, d)).1;
    }

    method ObRwReadNext(h: nat) returns (d: int)
      requires Valid() && Allowed(regions, RwRead(h))
      modifies this`regions, txmem
      ensures Valid() && (d, regions) == FlatStep(old(regions), RwRead(h))
    {
      hide Laid;
      StepRefines(txmem[..], regions, RwRead(h));
      var offset := HandleSlot(h);
      var start, readPointer := txmem[offset], txmem[offset + 1];
      var target := CalObRw(start + readPointer);
      txmem[offset + 1] := txmem[offset + 1] + 1;
      d := txmem[target];
      assert txmem[..] == MemStep(old(txmem[..]), RwRead(h)).1;
      regions := FlatStep(regions, RwRead(h)).1;
    }

    /** Ends a transaction: every cursor is reset, the words and what the handles stand for stay. */
    method TxEnd()
      requires Valid()
      modifies this
      ensures Valid() && Closed() && regions == old(regions)
    {
      curOb, curObRw, curNob, curMeta := 0, 0, 0, 0;
      handle := TWO_32 - 1;
    }
  }
}

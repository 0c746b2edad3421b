/**
 * What happens on handles whose metadata a page boundary cuts: the accessors take a word of the read strip for the
 * position. A call is right on every laid-out memory exactly when its metadata is not cut.
 */
module TxStraddle {
  import opened TxMemory
  import opened TxRegions

  /** Some read iterator's data covers word k of the read strip. */
  ghost predicate Covered(rs: seq<Region>, k: nat) {
    exists g: nat :: g < |rs| && Covers(rs[g], k)
  }

  ghost predicate Covers(r: Region, k: nat) {
    r.strip == ReadOnly && r.start <= k < r.start + |r.data|
  }

  /** Memory holds the data of all regions, wherever their positions stand. */
  ghost predicate AllStored(mem: seq<int>, rs: seq<Region>) {
    |mem| == MEMORY_WORDS && forall g: nat :: g < |rs| ==> WellSized(rs[g]) && DataStored(mem, rs[g])
  }

  /** The call stays in bounds, yields what the sequence yields and leaves every sequence's data in memory. */
  ghost predicate Agrees(mem: seq<int>, rs: seq<Region>, op: Op)
    requires Sensible(rs, op)
  {
    && InBounds(mem, op)
    && MemStep(mem, op).0 == FlatStep(rs, op).0
    && AllStored(MemStep(mem, op).1, FlatStep(rs, op).1)
  }

  /** The word of the read strip a cut call uses as its position. */
  function Stray(op: Op): nat
    requires !InPage(op.h, LastMeta(op))
  {
    StrayWord(op.h, LastMeta(op))
  }

  lemma StrayFound(mem: seq<int>, rs: seq<Region>, op: Op)
    requires Laid(mem, rs) && op.h < |rs| && !InPage(op.h, LastMeta(op))
    ensures Stray(op) < Limit(ReadOnly) && Addr(ReadOnly, Stray(op)) < |mem|
    ensures HandleSlot(op.h) + LastMeta(op) == Addr(ReadOnly, Stray(op))
    ensures HandleSlot(op.h) < |mem| && mem[HandleSlot(op.h)] == rs[op.h].start
  {
    hide Laid, Addr, HandleSlot;
    MetaFound(mem, rs, op.h);
    MetaWordExactly(op.h, LastMeta(op));
    AddrInjective(ReadOnly, Stray(op), ReadOnly, Stray(op));
    LaidLength(mem, rs);
  }

  lemma LaidLength(mem: seq<int>, rs: seq<Region>)
    requires Laid(mem, rs)
    ensures |mem| == MEMORY_WORDS && 3 * |rs| <= META_WORDS
  {
  }

  function CountUp(mem: seq<int>, c: nat): (mem': seq<int>)
    requires c < |mem|
  {
    mem[c := mem[c] + 1]
  }

  /** Counting up word k of the read strip spoils exactly the iterators that cover it. */
  lemma CountedUp(mem: seq<int>, rs: seq<Region>, k: nat)
    requires AllStored(mem, rs) && k < Limit(ReadOnly)
    ensures Addr(ReadOnly, k) < |mem|
    ensures AllStored(CountUp(mem, Addr(ReadOnly, k)), rs) <==> !Covered(rs, k)
  {
    hide Addr;
    AddrInBounds();
    AddrMisses(ReadOnly, k);
    var c := Addr(ReadOnly, k);
    var mem' := mem[c := mem[c] + 1];
    forall g: nat | g < |rs|
      ensures DataStored(mem', rs[g]) <==> !Covers(rs[g], k)
    {
      assert DataStored(mem, rs[g]);
      if Covers(rs[g], k) {
        var i: nat := k - rs[g].start;
        assert mem[Addr(ReadOnly, rs[g].start + i)] == rs[g].data[i];
        assert mem'[Addr(ReadOnly, rs[g].start + i)] == rs[g].data[i] + 1;
      }
    }
  }

  /** The call on region r takes its position from word c, counts that word up and yields the word at the position. */
  ghost predicate ReadsBy(mem: seq<int>, op: Op, r: Region, c: nat) {
    && InBounds(mem, op) && c < |mem| && mem[c] >= 0 && Addr(r.strip, r.start + mem[c]) < |mem|
    && MemStep(mem, op) == (mem[c := mem[c] + 1][Addr(r.strip, r.start + mem[c])], mem[c := mem[c] + 1])
  }

  lemma StraddledStep(mem: seq<int>, r: Region, op: Op, c: nat)
    requires (op.IterRead? && r.strip == ReadOnly) || (op.RwRead? && r.strip == ReadWrite)
    requires InBounds(mem, op) && c < |mem| && c == HandleSlot(op.h) + LastMeta(op) && mem[HandleSlot(op.h)] == r.start
    ensures ReadsBy(mem, op, r, c)
  {
    hide HandleSlot, CalOb, CalObRw;
  }

  /** A read on a cut handle of a laid-out memory that stays in bounds. */
  ghost predicate CutRead(mem: seq<int>, rs: seq<Region>, op: Op) {
    && Laid(mem, rs) && Sensible(rs, op) && (op.IterRead? || op.RwRead?)
    && !InPage(op.h, LastMeta(op)) && InBounds(mem, op)
  }

  /**
   * A read on a cut handle takes its position from the stray word and counts that word up; so all data stays in
   * memory exactly when no read iterator covers it.
   */
  lemma StraddledRead(mem: seq<int>, rs: seq<Region>, op: Op)
    requires CutRead(mem, rs, op)
    ensures ReadsBy(mem, op, rs[op.h], Addr(ReadOnly, Stray(op)))
    ensures AllStored(MemStep(mem, op).1, FlatStep(rs, op).1) <==> !Covered(rs, Stray(op))
  {
    hide Laid, HandleSlot, Addr, InBounds, MemStep, Covered, AllStored, Stray, InPage, ReadsBy;
    StrayFound(mem, rs, op);
    AllLaid(mem, rs);
    StraddledStep(mem, rs[op.h], op, Addr(ReadOnly, Stray(op)));
    CountedUp(mem, rs, Stray(op));
    SameData(CountUp(mem, Addr(ReadOnly, Stray(op))), rs, FlatStep(rs, op).1);
    LeavesCountedUp(mem, op, rs[op.h], Addr(ReadOnly, Stray(op)));
  }

  lemma LeavesCountedUp(mem: seq<int>, op: Op, r: Region, c: nat)
    requires ReadsBy(mem, op, r, c)
    ensures MemStep(mem, op).1 == CountUp(mem, c)
  {
  }

  lemma AllLaid(mem: seq<int>, rs: seq<Region>)
    requires Laid(mem, rs)
    ensures AllStored(mem, rs)
  {
  }

  /** Only positions differ. */
  lemma SameData(mem: seq<int>, rs: seq<Region>, rs': seq<Region>)
    requires |rs| == |rs'| && forall g: nat :: g < |rs| ==> rs'[g] == rs[g].(rd := rs'[g].rd, wr := rs'[g].wr)
    ensures AllStored(mem, rs) <==> AllStored(mem, rs')
  {
  }

  /** The next read of an iterator whose next word is the stray one then yields one too much. */
  lemma StraddledReadShows(mem: seq<int>, rs: seq<Region>, op: Op, g: nat)
    requires CutRead(mem, rs, op) && Allowed(rs, IterRead(g)) && rs[g].start + rs[g].rd == Stray(op)
    ensures InBounds(MemStep(mem, op).1, IterRead(g))
    ensures MemStep(MemStep(mem, op).1, IterRead(g)).0 == rs[g].data[rs[g].rd] + 1
  {
    hide Laid, HandleSlot, AllStored, Covered, Addr;
    StraddledRead(mem, rs, op);
    MetaFound(mem, rs, g);
    DataFound(mem, rs, g, rs[g].rd);
    hide MemStep, InBounds, Stray, InPage;
    CountedRead(mem, rs[g], g, Addr(ReadOnly, Stray(op)));
  }

  lemma CountedRead(mem: seq<int>, r: Region, g: nat, c: nat)
    requires HandleSlot(g) == Addr(Meta, 3 * g) && HandleSlot(g) + 2 == Addr(Meta, 3 * g + 2) < |mem|
    requires mem[HandleSlot(g)] == r.start && mem[HandleSlot(g) + 2] == r.rd && c == Addr(ReadOnly, r.start + r.rd) < |mem|
    ensures InBounds(mem[c := mem[c] + 1], IterRead(g))
    ensures MemStep(mem[c := mem[c] + 1], IterRead(g)).0 == mem[c] + 1
  {
    AddrInjective(Meta, 3 * g + 2, ReadOnly, r.start + r.rd);
    AddrInjective(Meta, 3 * g, ReadOnly, r.start + r.rd);
    hide HandleSlot, CalOb, CalObRw, CalNob;
  }

  /** Every read/write region that covers word k of its strip has d there. */
  ghost predicate HasAlready(rs: seq<Region>, k: nat, d: int) {
    forall g: nat :: g < |rs| && rs[g].strip == ReadWrite && rs[g].start <= k < rs[g].start + |rs[g].data| ==>
      rs[g].data[k - rs[g].start] == d
  }

  /** Storing d at word k of the read/write strip keeps all data exactly where d was there anyway. */
  lemma StoredOver(mem: seq<int>, rs: seq<Region>, k: nat, d: int)
    requires AllStored(mem, rs) && k < Limit(ReadWrite)
    ensures Addr(ReadWrite, k) < |mem|
    ensures AllStored(mem[Addr(ReadWrite, k) := d], rs) <==> HasAlready(rs, k, d)
  {
    hide Addr;
    AddrInBounds();
    AddrMisses(ReadWrite, k);
    var mem' := mem[Addr(ReadWrite, k) := d];
    forall g: nat | g < |rs|
      ensures DataStored(mem', rs[g]) <==>
              (rs[g].strip == ReadWrite && rs[g].start <= k < rs[g].start + |rs[g].data| ==> rs[g].data[k - rs[g].start] == d)
    {
      assert DataStored(mem, rs[g]);
      if rs[g].strip == ReadWrite && rs[g].start <= k < rs[g].start + |rs[g].data| {
        var i: nat := k - rs[g].start;
        assert mem'[Addr(ReadWrite, rs[g].start + i)] == d;
      }
    }
  }

  /** The call takes its position from word c, counts that word up and stores d at the position. */
  ghost predicate WritesBy(mem: seq<int>, op: Op, r: Region, c: nat)
    requires op.RwWrite?
  {
    && InBounds(mem, op) && c < |mem| && mem[c] >= 0 && Addr(r.strip, r.start + mem[c]) < |mem|
    && MemStep(mem, op).1 == mem[c := mem[c] + 1][Addr(r.strip, r.start + mem[c]) := op.d]
  }

  lemma StraddledStore(mem: seq<int>, r: Region, op: Op, c: nat)
    requires op.RwWrite? && r.strip == ReadWrite
    requires InBounds(mem, op) && c < |mem| && c == HandleSlot(op.h) + 2 && mem[HandleSlot(op.h)] == r.start
    ensures WritesBy(mem, op, r, c)
  {
    hide HandleSlot, CalOb;
  }

  ghost predicate CutWrite(mem: seq<int>, rs: seq<Region>, op: Op) {
    && Laid(mem, rs) && Sensible(rs, op) && op.RwWrite?
    && !InPage(op.h, LastMeta(op)) && InBounds(mem, op)
  }

  /** The word goes to position cur of region h instead of its write position, and that changes nothing. */
  ghost predicate LandsWell(rs: seq<Region>, h: nat, cur: nat, d: int)
    requires h < |rs| && rs[h].wr < |rs[h].data|
  {
    cur == rs[h].wr || (rs[h].data[rs[h].wr] == d && HasAlready(rs, rs[h].start + cur, d))
  }

  /** Storing d where it belongs. */
  lemma StoredThere(mem: seq<int>, rs: seq<Region>, h: nat, pos: nat, d: int, r: Region)
    requires AllStored(mem, rs) && Apart(rs) && h < |rs| && rs[h].strip == ReadWrite && pos < |rs[h].data|
    requires r == rs[h].(data := rs[h].data[pos := d], wr := r.wr)
    ensures Addr(ReadWrite, rs[h].start + pos) < |mem|
    ensures AllStored(mem[Addr(ReadWrite, rs[h].start + pos) := d], rs[h := r])
  {
    hide Addr;
    AddrInBounds();
    AddrMisses(ReadWrite, rs[h].start + pos);
    var mem', rs' := mem[Addr(ReadWrite, rs[h].start + pos) := d], rs[h := r];
    forall g: nat | g < |rs'|
      ensures WellSized(rs'[g]) && DataStored(mem', rs'[g])
    {
      assert WellSized(rs[g]) && DataStored(mem, rs[g]);
      if g < h || g > h {
        assert rs[g].strip == ReadWrite ==> rs[g].start + rs[g].len <= rs[h].start || rs[h].start + rs[h].len <= rs[g].start;
      }
    }
  }

  /** Storing d at another word keeps all data, the new word included, exactly when it was there already. */
  lemma StoredBeside(mem: seq<int>, rs: seq<Region>, h: nat, cur: nat, d: int, r: Region)
    requires AllStored(mem, rs) && h < |rs| && rs[h].strip == ReadWrite && rs[h].wr < |rs[h].data| && cur != rs[h].wr
    requires r == rs[h].(data := rs[h].data[rs[h].wr := d], wr := r.wr) && rs[h].start + cur < Limit(ReadWrite)
    ensures Addr(ReadWrite, rs[h].start + cur) < |mem|
    ensures AllStored(mem[Addr(ReadWrite, rs[h].start + cur) := d], rs[h := r]) <==> LandsWell(rs, h, cur, d)
  {
    hide Addr;
    AddrInBounds();
    StoredOver(mem, rs, rs[h].start + cur, d);
    var mem', rs', w := mem[Addr(ReadWrite, rs[h].start + cur) := d], rs[h := r], rs[h].wr;
    if rs[h].data[w] == d {
      assert rs[h].data[w := d] == rs[h].data;
      SameData(mem', rs, rs');
    } else {
      AddrInjective(ReadWrite, rs[h].start + cur, ReadWrite, rs[h].start + w);
      assert DataStored(mem, rs[h]);
      assert mem'[Addr(ReadWrite, rs[h].start + w)] == rs[h].data[w] != rs'[h].data[w];
    }
  }

  /** A store to the read/write strip does not mend a spoiled read iterator. */
  lemma StillSpoiled(mem: seq<int>, rs: seq<Region>, rs': seq<Region>, k: nat, t: nat, d: int)
    requires AllStored(mem, rs) && k < Limit(ReadOnly) && t < Limit(ReadWrite) && Covered(rs, k) && |rs'| == |rs|
    requires forall g: nat :: g < |rs| && rs[g].strip == ReadOnly ==> rs'[g] == rs[g]
    ensures Addr(ReadOnly, k) < |mem| && Addr(ReadWrite, t) < |mem|
    ensures !AllStored(mem[Addr(ReadOnly, k) := mem[Addr(ReadOnly, k)] + 1][Addr(ReadWrite, t) := d], rs')
  {
    hide Addr;
    AddrInBounds();
    AddrInjective(ReadOnly, k, ReadWrite, t);
    var g: nat :| g < |rs| && Covers(rs[g], k);
    var i: nat := k - rs[g].start;
    var mem' := mem[Addr(ReadOnly, k) := mem[Addr(ReadOnly, k)] + 1][Addr(ReadWrite, t) := d];
    assert DataStored(mem, rs[g]);
    assert mem'[Addr(ReadOnly, rs[g].start + i)] == rs[g].data[i] + 1;
    assert rs'[g] == rs[g] && !DataStored(mem', rs'[g]);
  }

  lemma CountedAndStored(mem: seq<int>, rs: seq<Region>, h: nat, k: nat, d: int, r: Region)
    requires AllStored(mem, rs) && Apart(rs) && h < |rs| && rs[h].strip == ReadWrite && rs[h].wr < |rs[h].data|
    requires k < Limit(ReadOnly) && Addr(ReadOnly, k) < |mem| && mem[Addr(ReadOnly, k)] >= 0
    requires Addr(ReadWrite, rs[h].start + mem[Addr(ReadOnly, k)]) < |mem|
    requires r == rs[h].(data := rs[h].data[rs[h].wr := d], wr := r.wr)
    ensures
      var c := Addr(ReadOnly, k);
      AllStored(mem[c := mem[c] + 1][Addr(ReadWrite, rs[h].start + mem[c]) := d], rs[h := r]) <==>
      !Covered(rs, k) && LandsWell(rs, h, mem[c], d)
  {
    var c := Addr(ReadOnly, k);
    StoredLength(mem, rs);
    AddrInjective(ReadWrite, rs[h].start + mem[c], ReadWrite, rs[h].start + mem[c]);
    hide Addr, Covered, AllStored, LandsWell, Apart;
    CountedUp(mem, rs, k);
    if Covered(rs, k) {
      StillSpoiled(mem, rs, rs[h := r], k, rs[h].start + mem[c], d);
    } else if mem[c] == rs[h].wr {
      StoredThere(mem[c := mem[c] + 1], rs, h, rs[h].wr, d, r);
      LandsThere(rs, h, d);
    } else {
      StoredBeside(mem[c := mem[c] + 1], rs, h, mem[c], d, r);
    }
  }

  lemma StoredLength(mem: seq<int>, rs: seq<Region>)
    requires AllStored(mem, rs)
    ensures |mem| == MEMORY_WORDS
  {
  }

  /**
   * A write on a cut handle does the same with the word it takes for its write position; so memory holds what the
   * sequences hold exactly when no read iterator covers that word and the value lands where it changes nothing else.
   */
  lemma StraddledWrite(mem: seq<int>, rs: seq<Region>, op: Op)
    requires CutWrite(mem, rs, op)
    ensures WritesBy(mem, op, rs[op.h], Addr(ReadOnly, Stray(op)))
    ensures AllStored(MemStep(mem, op).1, FlatStep(rs, op).1) <==>
            !Covered(rs, Stray(op)) && LandsWell(rs, op.h, mem[Addr(ReadOnly, Stray(op))], op.d)
  {
    StrayFound(mem, rs, op);
    AllLaid(mem, rs);
    ApartLaid(mem, rs);
    StraddledStore(mem, rs[op.h], op, Addr(ReadOnly, Stray(op)));
    hide Laid, HandleSlot, Addr, InBounds, MemStep, Covered, AllStored, Stray, InPage, LandsWell, Apart;
    CountedAndStored(mem, rs, op.h, Stray(op), op.d, FlatStep(rs, op).1[op.h]);
  }

  lemma ApartLaid(mem: seq<int>, rs: seq<Region>)
    requires Laid(mem, rs)
    ensures Apart(rs)
  {
  }

  lemma LandsThere(rs: seq<Region>, h: nat, d: int)
    requires h < |rs| && rs[h].wr < |rs[h].data|
    ensures LandsWell(rs, h, rs[h].wr, d)
  {
  }

  // ---- any list of regions can be in memory ----

  ghost predicate Possible(rs: seq<Region>) {
    3 * |rs| <= META_WORDS && (forall h: nat :: h < |rs| ==> WellSized(rs[h])) && Apart(rs)
  }

  lemma LaidEmpty() returns (mem: seq<int>)
    ensures Laid(mem, [])
  {
    mem := seq(MEMORY_WORDS, _ => 0);
  }

  /** The newest region's data, word by word. */
  lemma {:induction false} LayData(mem: seq<int>, rs: seq<Region>, r: Region, data: seq<int>) returns (mem': seq<int>)
    requires |r.data| <= |data| <= r.len && r.data == data[..|r.data|] && Laid(mem, rs + [r])
    ensures Laid(mem', rs + [r.(data := data)])
    decreases |data| - |r.data|
  {
    var k := |r.data|;
    if k == |data| {
      assert r.data == data;
      mem' := mem;
    } else {
      AppendData(mem, rs, r, data[k]);
      assert data[..k + 1] == r.data + [data[k]];
      mem' := LayData(mem[Addr(r.strip, r.start + k) := data[k]], rs, r.(data := r.data + [data[k]]), data);
    }
  }

  /** The metadata of one more handle. */
  lemma LayMeta(mem: seq<int>, rs: seq<Region>, r: Region) returns (mem': seq<int>)
    requires Laid(mem, rs) && 3 * |rs| + 3 <= META_WORDS
    ensures Laid(mem', rs) && MetaStored(mem', |rs|, r)
  {
    hide Addr, Laid;
    var n := |rs|;
    LaidLength(mem, rs);
    AddrInBounds();
    StoreNewMeta(mem, rs, 3 * n, r.start);
    var m1 := mem[Addr(Meta, 3 * n) := r.start];
    StoreNewMeta(m1, rs, 3 * n + 1, Word1(r));
    var m2 := m1[Addr(Meta, 3 * n + 1) := Word1(r)];
    StoreNewMeta(m2, rs, 3 * n + 2, Word2(r));
    mem' := m2[Addr(Meta, 3 * n + 2) := Word2(r)];
    AddrInjective(Meta, 3 * n, Meta, 3 * n + 1);
    AddrInjective(Meta, 3 * n, Meta, 3 * n + 2);
    AddrInjective(Meta, 3 * n + 1, Meta, 3 * n + 2);
  }

  /** Every list of regions that fit their strips one behind the other is the content of some memory. */
  lemma {:induction false} LayOut(rs: seq<Region>) returns (mem: seq<int>)
    requires Possible(rs)
    ensures Laid(mem, rs)
  {
    if rs == [] {
      mem := LaidEmpty();
    } else {
      var n := |rs| - 1;
      var keep, r := rs[..n], rs[n];
      mem := LayOut(keep);
      mem := LayMeta(mem, keep, r);
      var r0 := r.(data := []);
      LaidLength(mem, keep);
      OpenRegion(mem, keep, r0);
      mem := LayData(mem, keep, r0, r.data);
      assert rs == keep + [r] && r0.(data := r.data) == r;
    }
  }

  // ---- exactly the handles a call is right on ----

  /** Where the initializers' cursor of a strip stands after the first h regions. */
  function CursorAfter(rs: seq<Region>, h: nat, strip: Strip): nat
    requires h <= |rs|
  {
    if h == 0 then 0
    else if rs[h - 1].strip == strip then rs[h - 1].start + rs[h - 1].len
    else CursorAfter(rs, h - 1, strip)
  }

  /** The regions initializers on a new memory give out: each behind the last of its strip, filled, positions 0. */
  ghost predicate Initialized(rs: seq<Region>) {
    forall h: nat :: h < |rs| ==>
      rs[h] == Region(rs[h].strip, CursorAfter(rs, h, rs[h].strip), |rs[h].data|, rs[h].data, 0, 0)
  }

  /** As many read iterators as it takes to reach handle op.h, the first covering the stray word, and that handle. */
  function FailingRegions(op: Op): (rs: seq<Region>)
    requires !InPage(op.h, LastMeta(op))
    ensures |rs| == op.h + 1
  {
    var k := Stray(op) + 1;
    var last := if op.IterRead? then Region(ReadOnly, k, 1, [0], 0, 0) else Region(ReadWrite, 0, 1, [0], 0, 0);
    [Region(ReadOnly, 0, k, seq(k, _ => 0), 0, 0)] + seq(op.h - 1, _ => Region(ReadOnly, k, 0, [], 0, 0)) + [last]
  }

  lemma {:induction false} NoneReadWrite(rs: seq<Region>, h: nat)
    requires h <= |rs| && forall g: nat :: g < h ==> rs[g].strip == ReadOnly
    ensures CursorAfter(rs, h, ReadWrite) == 0
  {
    if h > 0 {
      NoneReadWrite(rs, h - 1);
    }
  }

  lemma FailingShape(op: Op)
    requires !InPage(op.h, LastMeta(op)) && 3 * op.h + 3 <= META_WORDS
    ensures
      var rs, k := FailingRegions(op), Stray(op) + 1;
      && k < Limit(ReadOnly) && Covers(rs[0], Stray(op))
      && rs[0] == Region(ReadOnly, 0, k, rs[0].data, 0, 0) && |rs[0].data| == k
      && (forall g: nat :: 0 < g < op.h ==> rs[g] == Region(ReadOnly, k, 0, [], 0, 0))
      && rs[op.h] == if op.IterRead? then Region(ReadOnly, k, 1, [0], 0, 0) else Region(ReadWrite, 0, 1, [0], 0, 0)
  {
    assert Stray(op) <= 3 * op.h + 1;
    hide InPage, StrayWord;
  }

  lemma FailingIsInitialized(op: Op)
    requires !InPage(op.h, LastMeta(op)) && 3 * op.h + 3 <= META_WORDS
    ensures Initialized(FailingRegions(op)) && Possible(FailingRegions(op)) && Sensible(FailingRegions(op), op)
    ensures Covers(FailingRegions(op)[0], Stray(op))
  {
    var rs := FailingRegions(op);
    FailingShape(op);
    assert op.h > 0 && (op.IterRead? || op.RwWrite? || op.RwRead?);
    hide FailingRegions, Stray, InPage;
    NoneReadWrite(rs, op.h);
    FailingFits(rs, op.h, Stray(op) + 1);
    forall h: nat | h < |rs|
      ensures rs[h] == Region(rs[h].strip, CursorAfter(rs, h, rs[h].strip), |rs[h].data|, rs[h].data, 0, 0)
    {
      if h > 0 {
        assert rs[h - 1].strip == ReadOnly && rs[h - 1].start + rs[h - 1].len == Stray(op) + 1;
      }
    }
  }

  lemma FailingFits(rs: seq<Region>, n: nat, k: nat)
    requires 0 < n == |rs| - 1 && 3 * n + 3 <= META_WORDS && k < Limit(ReadOnly)
    requires rs[0] == Region(ReadOnly, 0, k, rs[0].data, 0, 0) && |rs[0].data| == k
    requires forall g: nat :: 0 < g < n ==> rs[g] == Region(ReadOnly, k, 0, [], 0, 0)
    requires rs[n] == Region(ReadOnly, k, 1, [0], 0, 0) || rs[n] == Region(ReadWrite, 0, 1, [0], 0, 0)
    ensures Possible(rs)
  {
  }

  /** On every cut handle a call goes wrong in a memory the initializers lay out. */
  lemma CutHandleFails(op: Op) returns (mem: seq<int>, rs: seq<Region>)
    requires !InPage(op.h, LastMeta(op)) && 3 * op.h + 3 <= META_WORDS
    ensures Laid(mem, rs) && Initialized(rs) && Sensible(rs, op) && !Agrees(mem, rs, op)
  {
    rs := FailingRegions(op);
    FailingIsInitialized(op);
    mem := LayOut(rs);
    assert Covered(rs, Stray(op));
    hide FailingRegions, Laid, AllStored, Covered, Initialized, Possible, MemStep;
    if InBounds(mem, op) {
      if op.RwWrite? {
        StraddledWrite(mem, rs, op);
      } else {
        StraddledRead(mem, rs, op);
      }
    }
  }

  /**
   * A call yields and leaves what the sequences do, on every laid-out memory, if and only if the metadata it uses is
   * not cut: for the arrays always, for the two calls at the third word on handles other than 5 and 10 modulo 16,
   * for the read of a read/write iterator on handles other than 5.
   */
  lemma RefinesExactly(op: Op)
    requires 3 * op.h + 3 <= META_WORDS
    ensures (forall mem, rs :: Laid(mem, rs) && Sensible(rs, op) ==> Agrees(mem, rs, op)) <==> InPage(op.h, LastMeta(op))
  {
    hide Laid, Agrees;
    if InPage(op.h, LastMeta(op)) {
      forall mem, rs | Laid(mem, rs) && Sensible(rs, op)
        ensures Agrees(mem, rs, op)
      {
        AllowedAgrees(mem, rs, op);
      }
    } else {
      var mem, rs := CutHandleFails(op);
    }
  }

  lemma AllowedAgrees(mem: seq<int>, rs: seq<Region>, op: Op)
    requires Laid(mem, rs) && Allowed(rs, op)
    ensures Agrees(mem, rs, op)
  {
    StepRefines(mem, rs, op);
    hide MemStep, FlatStep;
    AllLaid(MemStep(mem, op).1, FlatStep(rs, op).1);
  }
}

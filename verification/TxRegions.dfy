/**
 * The meaning of the transaction memory: one independent sequence per handle.
 *
 * The accessors are written as functions on the flat word array, exactly as they compute it; Laid relates an
 * array to the regions it stores, and the accessors are shown to act on those regions alone.
 */
module TxRegions {
  import opened TxMemory

  /**
   * What one handle stands for: len words of a strip from start on, holding data. A read iterator advances
   * rd, a read/write iterator has a read and a write position, an array has neither.
   */
  datatype Region = Region(strip: Strip, start: nat, len: nat, data: seq<int>, rd: nat, wr: nat)

  /** The second and third metadata word of a region. */
  function Word1(r: Region): int {
    if r.strip == ReadWrite then r.rd else r.len
  }

  function Word2(r: Region): int {
    match r.strip
    case ReadOnly => r.rd
    case ReadWrite => r.wr
    case _ => 0
  }

  ghost predicate MetaStored(mem: seq<int>, h: nat, r: Region)
    requires |mem| == MEMORY_WORDS && 3 * h + 2 < META_WORDS
  {
    AddrInBounds();
    && mem[Addr(Meta, 3 * h)] == r.start
    && mem[Addr(Meta, 3 * h + 1)] == Word1(r)
    && mem[Addr(Meta, 3 * h + 2)] == Word2(r)
  }

  ghost predicate WellSized(r: Region) {
    r.strip != Meta && |r.data| <= r.len && r.start + r.len <= Limit(r.strip)
  }

  ghost predicate DataStored(mem: seq<int>, r: Region)
    requires |mem| == MEMORY_WORDS && WellSized(r)
  {
    AddrInBounds();
    forall k: nat :: k < |r.data| ==> mem[Addr(r.strip, r.start + k)] == r.data[k]
  }

  /** Memory mem holds the regions rs, handle h standing for rs[h]. */
  ghost predicate Laid(mem: seq<int>, rs: seq<Region>) {
    && |mem| == MEMORY_WORDS
    && 3 * |rs| <= META_WORDS
    && (forall h: nat :: h < |rs| ==> WellSized(rs[h]))
    && (forall h: nat :: h < |rs| ==> MetaStored(mem, h, rs[h]))
    && (forall h: nat :: h < |rs| ==> DataStored(mem, rs[h]))
    && Apart(rs)
  }

  /** Regions of one strip follow each other without overlap. */
  ghost predicate Apart(rs: seq<Region>) {
    forall g: nat, h: nat :: g < h < |rs| && rs[g].strip == rs[h].strip ==> rs[g].start + rs[g].len <= rs[h].start
  }

  // ---- the accessors on the flat array ----

  function NobReadAt(mem: seq<int>, h: nat, pos: nat): int
    requires HandleSlot(h) < |mem| && mem[HandleSlot(h)] >= 0
    requires CalNob(mem[HandleSlot(h)] + pos) < |mem|
  {
    mem[CalNob(mem[HandleSlot(h)] + pos)]
  }

  function NobWriteAt(mem: seq<int>, h: nat, pos: nat, d: int): seq<int>
    requires HandleSlot(h) < |mem| && mem[HandleSlot(h)] >= 0
    requires CalNob(mem[HandleSlot(h)] + pos) < |mem|
  {
    mem[CalNob(mem[HandleSlot(h)] + pos) := d]
  }

  /** The value read and the memory with the cursor in the third metadata word moved on. */
  function ObReadNext(mem: seq<int>, h: nat): (int, seq<int>)
    requires HandleSlot(h) + 2 < |mem| && mem[HandleSlot(h)] >= 0 && mem[HandleSlot(h) + 2] >= 0
    requires CalOb(mem[HandleSlot(h)] + mem[HandleSlot(h) + 2]) < |mem|
  {
    var target := CalOb(mem[HandleSlot(h)] + mem[HandleSlot(h) + 2]);
    var mem' := mem[HandleSlot(h) + 2 := mem[HandleSlot(h) + 2] + 1];
    (mem'[target], mem')
  }

  function ObRwWriteNext(mem: seq<int>, h: nat, d: int): seq<int>
    requires HandleSlot(h) + 2 < |mem| && mem[HandleSlot(h)] >= 0 && mem[HandleSlot(h) + 2] >= 0
    requires CalObRw(mem[HandleSlot(h)] + mem[HandleSlot(h) + 2]) < |mem|
  {
    var target := CalObRw(mem[HandleSlot(h)] + mem[HandleSlot(h) + 2]);
    mem[HandleSlot(h) + 2 := mem[HandleSlot(h) + 2] + 1][target := d]
  }

  function ObRwReadNext(mem: seq<int>, h: nat): (int, seq<int>)
    requires HandleSlot(h) + 2 < |mem| && mem[HandleSlot(h)] >= 0 && mem[HandleSlot(h) + 1] >= 0
    requires CalObRw(mem[HandleSlot(h)] + mem[HandleSlot(h) + 1]) < |mem|
  {
    var target := CalObRw(mem[HandleSlot(h)] + mem[HandleSlot(h) + 1]);
    var mem' := mem[HandleSlot(h) + 1 := mem[HandleSlot(h) + 1] + 1];
    (mem'[target], mem')
  }

  // ---- single-word updates and the regions ----

  /** A store to a word that region r of handle g does not own leaves r as it was. */
  lemma StoreElsewhere(mem: seq<int>, g: nat, r: Region, s: Strip, k: nat, v: int)
    requires |mem| == MEMORY_WORDS && 3 * g + 2 < META_WORDS && WellSized(r) && k < Limit(s)
    requires MetaStored(mem, g, r) && DataStored(mem, r)
    requires s == Meta ==> k < 3 * g || 3 * g + 2 < k
    requires s == r.strip ==> k < r.start || r.start + |r.data| <= k
    ensures Addr(s, k) < |mem|
    ensures MetaStored(mem[Addr(s, k) := v], g, r) && DataStored(mem[Addr(s, k) := v], r)
  {
    hide Addr;
    AddrInBounds();
    AddrMisses(s, k);
  }

  /** Storing metadata word j of handle h anew changes nothing but the metadata of h. */
  lemma StoreMeta(mem: seq<int>, rs: seq<Region>, h: nat, j: nat, v: int, r: Region)
    requires Laid(mem, rs) && h < |rs| && j < 3
    requires r == rs[h].(rd := r.rd, wr := r.wr)
    requires j == 0 ==> v == r.start
    requires if j == 1 then v == Word1(r) else Word1(r) == Word1(rs[h])
    requires if j == 2 then v == Word2(r) else Word2(r) == Word2(rs[h])
    ensures Addr(Meta, 3 * h + j) < |mem|
    ensures Laid(mem[Addr(Meta, 3 * h + j) := v], rs[h := r])
  {
    hide Addr;
    AddrInBounds();
    AddrMisses(Meta, 3 * h + j);
    var mem', rs' := mem[Addr(Meta, 3 * h + j) := v], rs[h := r];
    assert MetaStored(mem, h, rs[h]) && DataStored(mem, rs[h]);
    assert MetaStored(mem', h, r) && DataStored(mem', r);
    forall g: nat | g < |rs'|
      ensures MetaStored(mem', g, rs'[g]) && DataStored(mem', rs'[g])
    {
      if g != h {
        StoreElsewhere(mem, g, rs[g], Meta, 3 * h + j, v);
      }
    }
  }

  /** Storing word pos of handle h changes that word of that region and nothing else. */
  lemma StoreData(mem: seq<int>, rs: seq<Region>, h: nat, pos: nat, v: int)
    requires Laid(mem, rs) && h < |rs| && pos < |rs[h].data|
    ensures Addr(rs[h].strip, rs[h].start + pos) < |mem|
    ensures Laid(mem[Addr(rs[h].strip, rs[h].start + pos) := v], rs[h := rs[h].(data := rs[h].data[pos := v])])
  {
    hide Addr;
    var r := rs[h];
    AddrInBounds();
    AddrMisses(r.strip, r.start + pos);
    var mem' := mem[Addr(r.strip, r.start + pos) := v];
    var r' := r.(data := r.data[pos := v]);
    var rs' := rs[h := r'];
    assert MetaStored(mem, h, r) && DataStored(mem, r);
    assert MetaStored(mem', h, r') && DataStored(mem', r');
    forall g: nat | g < |rs'|
      ensures MetaStored(mem', g, rs'[g]) && DataStored(mem', rs'[g])
    {
      if g != h {
        StoreElsewhere(mem, g, rs[g], r.strip, r.start + pos, v);
      }
    }
  }

  /** The initializers fill the newest region front to back. */
  lemma AppendData(mem: seq<int>, rs: seq<Region>, r: Region, v: int)
    requires Laid(mem, rs + [r]) && |r.data| < r.len
    ensures Addr(r.strip, r.start + |r.data|) < |mem|
    ensures Laid(mem[Addr(r.strip, r.start + |r.data|) := v], rs + [r.(data := r.data + [v])])
  {
    hide Addr;
    var h := |rs|;
    var r' := r.(data := r.data + [v]);
    assert (rs + [r])[h] == r;
    AddrInBounds();
    AddrMisses(r.strip, r.start + |r.data|);
    var mem' := mem[Addr(r.strip, r.start + |r.data|) := v];
    assert MetaStored(mem, h, r) && DataStored(mem, r);
    assert MetaStored(mem', h, r') && DataStored(mem', r');
    forall g: nat | g <= h
      ensures WellSized((rs + [r'])[g])
    {
      assert WellSized((rs + [r])[g]);
    }
    forall g: nat | g <= h
      ensures MetaStored(mem', g, (rs + [r'])[g]) && DataStored(mem', (rs + [r'])[g])
    {
      if g != h {
        assert (rs + [r])[g] == rs[g];
        StoreElsewhere(mem, g, rs[g], r.strip, r.start + |r.data|, v);
      }
    }
    forall g: nat, f: nat | g < f <= h && (rs + [r'])[g].strip == (rs + [r'])[f].strip
      ensures (rs + [r'])[g].start + (rs + [r'])[g].len <= (rs + [r'])[f].start
    {
      assert (rs + [r])[g].start + (rs + [r])[g].len <= (rs + [r])[f].start;
    }
  }

  /** A store to a metadata word no handle owns yet keeps every region. */
  lemma StoreNewMeta(mem: seq<int>, rs: seq<Region>, k: nat, v: int)
    requires Laid(mem, rs) && 3 * |rs| <= k < META_WORDS
    ensures Addr(Meta, k) < |mem|
    ensures Laid(mem[Addr(Meta, k) := v], rs)
  {
    AddrInBounds();
    forall g: nat | g < |rs|
      ensures MetaStored(mem[Addr(Meta, k) := v], g, rs[g]) && DataStored(mem[Addr(Meta, k) := v], rs[g])
    {
      StoreElsewhere(mem, g, rs[g], Meta, k, v);
    }
  }

  /** A handle whose metadata is in place and that starts behind its strip's earlier regions can be added. */
  lemma OpenRegion(mem: seq<int>, rs: seq<Region>, r: Region)
    requires Laid(mem, rs) && 3 * |rs| + 3 <= META_WORDS
    requires WellSized(r) && r.data == [] && MetaStored(mem, |rs|, r)
    requires forall h: nat :: h < |rs| && rs[h].strip == r.strip ==> rs[h].start + rs[h].len <= r.start
    ensures Laid(mem, rs + [r])
  {
  }

  /** The regions given out first stay laid out when later ones are forgotten. */
  lemma LaidPrefix(mem: seq<int>, rs: seq<Region>, n: nat)
    requires Laid(mem, rs) && n <= |rs|
    ensures Laid(mem, rs[..n])
  {
    forall h: nat | h < n
      ensures MetaStored(mem, h, rs[..n][h]) && WellSized(rs[..n][h]) && DataStored(mem, rs[..n][h])
    {
      assert MetaStored(mem, h, rs[h]) && WellSized(rs[h]) && DataStored(mem, rs[h]);
    }
  }

  // ---- any run of accessor calls ----

  datatype Op =
    | ArrayRead(h: nat, pos: nat)
    | ArrayWrite(h: nat, pos: nat, d: int)
    | IterRead(h: nat)
    | RwWrite(h: nat, d: int)
    | RwRead(h: nat)

  /** The calls that make sense: the right kind of handle, an index or position inside the sequence. */
  predicate Sensible(rs: seq<Region>, op: Op) {
    && op.h < |rs|
    && match op {
         case ArrayRead(h, pos) => rs[h].strip == Random && pos < |rs[h].data|
         case ArrayWrite(h, pos, _) => rs[h].strip == Random && pos < |rs[h].data|
         case IterRead(h) => rs[h].strip == ReadOnly && rs[h].rd < |rs[h].data|
         case RwWrite(h, _) => rs[h].strip == ReadWrite && rs[h].wr < |rs[h].data|
         case RwRead(h) => rs[h].strip == ReadWrite && rs[h].rd < |rs[h].data|
       }
  }

  /** The last metadata word a call uses: an array needs the start only, the others their position too. */
  function LastMeta(op: Op): nat {
    match op
    case ArrayRead(_, _) => 0
    case ArrayWrite(_, _, _) => 0
    case IterRead(_) => 2
    case RwWrite(_, _) => 2
    case RwRead(_) => 1
  }

  /** The sensible calls whose metadata the accessor finds. */
  predicate Allowed(rs: seq<Region>, op: Op) {
    Sensible(rs, op) && InPage(op.h, LastMeta(op))
  }

  /** What a call means on independent sequences: the value it yields (0 for a write) and the new regions. */
  function FlatStep(rs: seq<Region>, op: Op): (res: (int, seq<Region>))
    requires Sensible(rs, op)
  {
    var r := rs[op.h];
    match op {
      case ArrayRead(h, pos) => (r.data[pos], rs)
      case ArrayWrite(h, pos, d) => (0, rs[h := r.(data := r.data[pos := d])])
      case IterRead(h) => (r.data[r.rd], rs[h := r.(rd := r.rd + 1)])
      case RwWrite(h, d) => (0, rs[h := r.(data := r.data[r.wr := d], wr := r.wr + 1)])
      case RwRead(h) => (r.data[r.rd], rs[h := r.(rd := r.rd + 1)])
    }
  }

  /** Every address the accessor computes is in bounds. */
  ghost predicate InBounds(mem: seq<int>, op: Op) {
    && HandleSlot(op.h) + 2 < |mem|
    && mem[HandleSlot(op.h)] >= 0
    && match op {
         case ArrayRead(h, pos) => CalNob(mem[HandleSlot(h)] + pos) < |mem|
         case ArrayWrite(h, pos, _) => CalNob(mem[HandleSlot(h)] + pos) < |mem|
         case IterRead(h) => mem[HandleSlot(h) + 2] >= 0 && CalOb(mem[HandleSlot(h)] + mem[HandleSlot(h) + 2]) < |mem|
         case RwWrite(h, _) => mem[HandleSlot(h) + 2] >= 0 && CalObRw(mem[HandleSlot(h)] + mem[HandleSlot(h) + 2]) < |mem|
         case RwRead(h) => mem[HandleSlot(h) + 1] >= 0 && CalObRw(mem[HandleSlot(h)] + mem[HandleSlot(h) + 1]) < |mem|
       }
  }

  ghost function MemStep(mem: seq<int>, op: Op): (int, seq<int>)
    requires InBounds(mem, op)
  {
    match op
    case ArrayRead(h, pos) => (NobReadAt(mem, h, pos), mem)
    case ArrayWrite(h, pos, d) => (0, NobWriteAt(mem, h, pos, d))
    case IterRead(h) => ObReadNext(mem, h)
    case RwWrite(h, d) => (0, ObRwWriteNext(mem, h, d))
    case RwRead(h) => ObRwReadNext(mem, h)
  }

  /** The accessors find word j of the metadata of a laid-out handle exactly where the page has room for it. */
  lemma MetaFound(mem: seq<int>, rs: seq<Region>, h: nat)
    requires Laid(mem, rs) && h < |rs|
    ensures HandleSlot(h) + 2 < |mem| == MEMORY_WORDS && HandleSlot(h) == Addr(Meta, 3 * h) && WellSized(rs[h])
    ensures mem[HandleSlot(h)] == rs[h].start
    ensures InPage(h, 1) ==> HandleSlot(h) + 1 == Addr(Meta, 3 * h + 1) && mem[HandleSlot(h) + 1] == Word1(rs[h])
    ensures InPage(h, 2) ==> HandleSlot(h) + 2 == Addr(Meta, 3 * h + 2) && mem[HandleSlot(h) + 2] == Word2(rs[h])
  {
    AddrInBounds();
    MetaWordExactly(h, 0);
    MetaWordExactly(h, 1);
    MetaWordExactly(h, 2);
    assert MetaStored(mem, h, rs[h]);
  }

  lemma DataFound(mem: seq<int>, rs: seq<Region>, h: nat, k: nat)
    requires Laid(mem, rs) && h < |rs| && k < |rs[h].data|
    ensures Addr(rs[h].strip, rs[h].start + k) < |mem|
    ensures mem[Addr(rs[h].strip, rs[h].start + k)] == rs[h].data[k]
  {
    AddrInBounds();
    assert WellSized(rs[h]) && DataStored(mem, rs[h]);
  }

  lemma ArrayReadRefines(mem: seq<int>, rs: seq<Region>, op: Op)
    requires Laid(mem, rs) && op.ArrayRead? && Allowed(rs, op)
    ensures InBounds(mem, op)
    ensures MemStep(mem, op).0 == FlatStep(rs, op).0
    ensures Laid(MemStep(mem, op).1, FlatStep(rs, op).1)
  {
    hide Laid, CalOb, CalObRw, CalNob, HandleSlot, InPage;
    var h, r := op.h, rs[op.h];
    MetaFound(mem, rs, h);
    DataFound(mem, rs, h, op.pos);
  }

  lemma ArrayWriteRefines(mem: seq<int>, rs: seq<Region>, op: Op)
    requires Laid(mem, rs) && op.ArrayWrite? && Allowed(rs, op)
    ensures InBounds(mem, op)
    ensures MemStep(mem, op).0 == FlatStep(rs, op).0
    ensures Laid(MemStep(mem, op).1, FlatStep(rs, op).1)
  {
    hide Laid, CalOb, CalObRw, CalNob, HandleSlot, InPage;
    var h, r := op.h, rs[op.h];
    MetaFound(mem, rs, h);
    StoreData(mem, rs, h, op.pos, op.d);
  }

  lemma IterReadRefines(mem: seq<int>, rs: seq<Region>, op: Op)
    requires Laid(mem, rs) && op.IterRead? && Allowed(rs, op)
    ensures InBounds(mem, op)
    ensures MemStep(mem, op).0 == FlatStep(rs, op).0
    ensures Laid(MemStep(mem, op).1, FlatStep(rs, op).1)
  {
    hide Laid, CalOb, CalObRw, CalNob, HandleSlot, InPage;
    var h, r := op.h, rs[op.h];
    MetaFound(mem, rs, h);
    DataFound(mem, rs, h, r.rd);
    AddrInjective(Meta, 3 * h + 2, ReadOnly, r.start + r.rd);
    StoreMeta(mem, rs, h, 2, r.rd + 1, r.(rd := r.rd + 1));
  }

  lemma RwWriteRefines(mem: seq<int>, rs: seq<Region>, op: Op)
    requires Laid(mem, rs) && op.RwWrite? && Allowed(rs, op)
    ensures InBounds(mem, op)
    ensures MemStep(mem, op).0 == FlatStep(rs, op).0
    ensures Laid(MemStep(mem, op).1, FlatStep(rs, op).1)
  {
    hide Laid, CalOb, CalObRw, CalNob, HandleSlot, InPage;
    var h, r := op.h, rs[op.h];
    MetaFound(mem, rs, h);
    var r' := r.(wr := r.wr + 1);
    StoreMeta(mem, rs, h, 2, r.wr + 1, r');
    StoreData(mem[Addr(Meta, 3 * h + 2) := r.wr + 1], rs[h := r'], h, r.wr, op.d);
    assert rs[h := r'][h := r'.(data := r.data[r.wr := op.d])] == FlatStep(rs, op).1;
  }

  lemma RwReadRefines(mem: seq<int>, rs: seq<Region>, op: Op)
    requires Laid(mem, rs) && op.RwRead? && Allowed(rs, op)
    ensures InBounds(mem, op)
    ensures MemStep(mem, op).0 == FlatStep(rs, op).0
    ensures Laid(MemStep(mem, op).1, FlatStep(rs, op).1)
  {
    hide Laid, CalOb, CalObRw, CalNob, HandleSlot, InPage;
    var h, r := op.h, rs[op.h];
    MetaFound(mem, rs, h);
    DataFound(mem, rs, h, r.rd);
    AddrInjective(Meta, 3 * h + 1, ReadWrite, r.start + r.rd);
    StoreMeta(mem, rs, h, 1, r.rd + 1, r.(rd := r.rd + 1));
  }

  /** One call on the flat array is that call on the sequences. */
  lemma StepRefines(mem: seq<int>, rs: seq<Region>, op: Op)
    requires Laid(mem, rs) && Allowed(rs, op)
    ensures InBounds(mem, op)
    ensures MemStep(mem, op).0 == FlatStep(rs, op).0
    ensures Laid(MemStep(mem, op).1, FlatStep(rs, op).1)
  {
    match op
    case ArrayRead(_, _) => ArrayReadRefines(mem, rs, op);
    case ArrayWrite(_, _, _) => ArrayWriteRefines(mem, rs, op);
    case IterRead(_) => IterReadRefines(mem, rs, op);
    case RwWrite(_, _) => RwWriteRefines(mem, rs, op);
    case RwRead(_) => RwReadRefines(mem, rs, op);
  }

  /** Word pos behind the start of array h is word k of array g: the accessors only ever see the sum. */
  ghost predicate SameWord(rs: seq<Region>, h: nat, pos: nat, g: nat, k: nat) {
    && h < |rs| && g < |rs| && rs[h].strip == Random && rs[g].strip == Random
    && rs[h].start + pos == rs[g].start + k
  }

  lemma AlwaysAllowed(rs: seq<Region>, g: nat, k: nat, d: int)
    requires g < |rs| && rs[g].strip == Random && k < |rs[g].data|
    ensures Allowed(rs, ArrayRead(g, k)) && Allowed(rs, ArrayWrite(g, k, d))
    ensures FlatStep(rs, ArrayRead(g, k)).0 == rs[g].data[k]
  {
  }

  /** An array access past the end of h is an access to the array that has the word. */
  lemma ArrayAlias(mem: seq<int>, rs: seq<Region>, h: nat, pos: nat, g: nat, k: nat, d: int)
    requires Laid(mem, rs) && SameWord(rs, h, pos, g, k) && k < |rs[g].data|
    ensures InBounds(mem, ArrayRead(h, pos)) && MemStep(mem, ArrayRead(h, pos)).0 == rs[g].data[k]
    ensures InBounds(mem, ArrayWrite(h, pos, d))
    ensures Laid(MemStep(mem, ArrayWrite(h, pos, d)).1, FlatStep(rs, ArrayWrite(g, k, d)).1)
  {
    hide Laid, HandleSlot, CalNob, CalOb, CalObRw, InPage, FlatStep;
    MetaFound(mem, rs, h);
    MetaFound(mem, rs, g);
    AlwaysAllowed(rs, g, k, d);
    ArrayReadRefines(mem, rs, ArrayRead(g, k));
    ArrayWriteRefines(mem, rs, ArrayWrite(g, k, d));
  }

  ghost predicate AllowedRun(rs: seq<Region>, ops: seq<Op>)
    decreases |ops|
  {
    ops != [] ==> Allowed(rs, ops[0]) && AllowedRun(FlatStep(rs, ops[0]).1, ops[1..])
  }

  /** The values a run yields, and the regions it leaves. */
  ghost function FlatRun(rs: seq<Region>, ops: seq<Op>): (seq<int>, seq<Region>)
    requires AllowedRun(rs, ops)
    decreases |ops|
  {
    if ops == [] then ([], rs) else
      var (v, rs') := FlatStep(rs, ops[0]);
      var (vs, rs'') := FlatRun(rs', ops[1..]);
      ([v] + vs, rs'')
  }

  /** mem yields vs under ops and ends as mem'. */
  ghost predicate MemRun(mem: seq<int>, ops: seq<Op>, vs: seq<int>, mem': seq<int>)
    decreases |ops|
  {
    if ops == [] then vs == [] && mem' == mem else
      && vs != []
      && InBounds(mem, ops[0])
      && MemStep(mem, ops[0]).0 == vs[0]
      && MemRun(MemStep(mem, ops[0]).1, ops[1..], vs[1..], mem')
  }

  /** Any run of calls on any number of handles reads what independent sequences would, in bounds throughout. */
  lemma {:induction false} RunRefines(mem: seq<int>, rs: seq<Region>, ops: seq<Op>) returns (mem': seq<int>)
    requires Laid(mem, rs) && AllowedRun(rs, ops)
    ensures MemRun(mem, ops, FlatRun(rs, ops).0, mem')
    ensures Laid(mem', FlatRun(rs, ops).1)
    decreases |ops|
  {
    if ops == [] {
      mem' := mem;
    } else {
      StepRefines(mem, rs, ops[0]);
      mem' := RunRefines(MemStep(mem, ops[0]).1, FlatStep(rs, ops[0]).1, ops[1..]);
      assert FlatRun(rs, ops).0[1..] == FlatRun(FlatStep(rs, ops[0]).1, ops[1..]).0;
    }
  }
}

/** The oblivious merge sort: iterators over both halves, two ring queues and a write buffer, in bounded transactions. */
module ObliMergeSort {
  import opened Common
  import opened TxMemory
  import opened TxRegions
  import opened RealLibCoda
  import opened RingQueue
  import Spec = MergeSpec
  import opened MergeProofs

  /** The handles and counters of one merge, the ones reset_tx takes by address. */
  datatype Cursors = Cursors(lhsOb: nat, rhsOb: nat, outOb: nat, obWrite: nat, lhsIdx: nat, rhsIdx: nat, outIdx: nat)

  /** The objects of a merge are different ones. */
  ghost predicate Separate(coda: RealCoda, lq: Queue, rq: Queue, arrOut: array<int>) {
    && lq != rq && lq.coda == coda && rq.coda == coda
    && lq.data != rq.data && arrOut != lq.data && arrOut != rq.data && arrOut != coda.txmem
  }

  /** A read iterator with the rest of src from idx on ahead of it. */
  ghost predicate Ahead(r: Region, src: seq<int>, idx: nat) {
    r.strip == ReadOnly && idx <= |src| && r.rd <= |r.data| && r.data[r.rd..] == src[idx..]
  }

  /** A read/write iterator that holds the values written and has room for as many more. */
  ghost predicate Buffered(r: Region, written: seq<int>, room: nat) {
    && r.strip == ReadWrite && r.rd == 0 && r.wr == |written|
    && r.wr + room == |r.data| && r.data[..r.wr] == written
  }

  /** Inside a transaction: m is the state of the merge, its emitted part flushed or buffered. */
  ghost predicate InMerge(coda: RealCoda, lq: Queue, rq: Queue, lhs: seq<int>, rhs: seq<int>, arrOut: array<int>,
                          c: Cursors, m: Spec.Merge)
    reads coda, coda.txmem, lq, lq.data, rq, rq.data, arrOut
  {
    && Separate(coda, lq, rq, arrOut) && lq.InTx() && rq.InTx()
    && lq.items == m.lq && rq.items == m.rq
    && c.lhsOb == 0 && c.rhsOb == 1 && c.outOb == 2 && lq.nob == 3 && rq.nob == 4 && |coda.regions| == 5
    && Ahead(coda.regions[0], lhs, c.lhsIdx) && Ahead(coda.regions[1], rhs, c.rhsIdx)
    && |m.out| + |m.lq| + |m.rq| == c.lhsIdx + c.rhsIdx
    && c.outIdx == |m.out| <= |lhs| + |rhs| == arrOut.Length && c.obWrite <= c.outIdx && c.obWrite <= MAX_OB_WRITE
    && arrOut[..c.outIdx - c.obWrite] == m.out[..c.outIdx - c.obWrite]
    && Buffered(coda.regions[2], m.out[c.outIdx - c.obWrite..], |lhs| + |rhs| - c.outIdx)
  }

  /** Sizes one merge needs from the transaction memory. */
  predicate Fits(n: nat, maxLen: nat) {
    n <= Limit(ReadOnly) && 2 * (maxLen + 3) <= Limit(Random)
  }

  /** The five initializers that open every transaction of a merge, in the order of reset_tx. */
  method OpenTx(coda: RealCoda, lq: Queue, rq: Queue, lhs: seq<int>, rhs: seq<int>, arrOut: array<int>,
                lhsIdx: nat, rhsIdx: nat, outIdx: nat, ghost m: Spec.Merge) returns (c: Cursors)
    requires Separate(coda, lq, rq, arrOut) && lq.Home() && rq.Home() && coda.Valid() && coda.Closed()
    requires lq.items == m.lq && rq.items == m.rq && lq.maxLen == rq.maxLen
    requires lhsIdx <= |lhs| && rhsIdx <= |rhs| && outIdx == |m.out| <= |lhs| + |rhs| == arrOut.Length
    requires |m.out| + |m.lq| + |m.rq| == lhsIdx + rhsIdx
    requires arrOut[..outIdx] == m.out && Fits(arrOut.Length, lq.maxLen)
    modifies lq`nob, rq`nob, coda, coda.txmem
    ensures InMerge(coda, lq, rq, lhs, rhs, arrOut, c, m)
    ensures c.obWrite == 0 && c.lhsIdx == lhsIdx && c.rhsIdx == rhsIdx && c.outIdx == outIdx
  {
    hide Laid, Ring;
    var lhsOb, rhsOb, outOb := OpenIterators(coda, lhs, rhs, arrOut, lhsIdx, rhsIdx, outIdx);
    ghost var rs := coda.regions;
    OpenQueues(coda, lq, rq);
    assert forall h: nat :: h < 3 ==> coda.regions[h] == coda.regions[..3][h] == rs[h];
    c := Cursors(lhsOb, rhsOb, outOb, 0, lhsIdx, rhsIdx, outIdx);
  }

  method OpenIterators(coda: RealCoda, lhs: seq<int>, rhs: seq<int>, arrOut: array<int>, lhsIdx: nat, rhsIdx: nat,
                       outIdx: nat)
    returns (lhsOb: nat, rhsOb: nat, outOb: nat)
    requires coda.Valid() && coda.Closed() && arrOut != coda.txmem
    requires lhsIdx <= |lhs| && rhsIdx <= |rhs| && outIdx <= |lhs| + |rhs| == arrOut.Length <= Limit(ReadOnly)
    modifies coda, coda.txmem
    ensures coda.Valid() && coda.Next() == 3 == |coda.regions| && coda.curNob == 0
    ensures lhsOb == 0 && rhsOb == 1 && outOb == 2
    ensures Ahead(coda.regions[0], lhs, lhsIdx) && Ahead(coda.regions[1], rhs, rhsIdx)
    ensures Buffered(coda.regions[2], [], |lhs| + |rhs| - outIdx)
  {
    hide Laid;
    lhsOb := coda.InitializeObIterator(lhs[lhsIdx..]);
    rhsOb := coda.InitializeObIterator(rhs[rhsIdx..]);
    outOb := coda.InitializeObRwIterator(arrOut[outIdx..]);
  }

  method OpenQueues(coda: RealCoda, lq: Queue, rq: Queue)
    requires lq != rq && lq.coda == coda && rq.coda == coda && lq.data != rq.data && lq.Home() && rq.Home()
    requires coda.Valid() && coda.Next() == 3 == |coda.regions| && coda.curNob == 0
    requires lq.maxLen == rq.maxLen && 2 * (lq.maxLen + 3) <= Limit(Random)
    modifies lq`nob, rq`nob, coda, coda.txmem
    ensures lq.InTx() && rq.InTx() && lq.nob == 3 && rq.nob == 4
    ensures |coda.regions| == 5 && coda.regions[..3] == old(coda.regions)
  {
    hide Laid, Ring;
    lq.InitNob();
    ghost var rs := coda.regions;
    rq.InitNob();
    assert coda.regions[3] == coda.regions[..4][3] == rs[3];
    assert coda.regions[..3] == coda.regions[..4][..3] == rs[..3];
  }

  /** The values waiting in the read/write iterator go to their place in arrOut. */
  method Flush(coda: RealCoda, arrOut: array<int>, c: Cursors, ghost out: seq<int>, ghost room: nat)
    requires coda.Valid() && arrOut != coda.txmem
    requires c.obWrite <= c.outIdx == |out| <= arrOut.Length
    requires arrOut[..c.outIdx - c.obWrite] == out[..c.outIdx - c.obWrite]
    requires c.outOb < |coda.regions| && Admissible(c.outOb)
    requires Buffered(coda.regions[c.outOb], out[c.outIdx - c.obWrite..], room)
    modifies arrOut, coda`regions, coda.txmem
    ensures coda.Valid() && arrOut[..c.outIdx] == out
    ensures |coda.regions| == |old(coda.regions)|
    ensures forall h: nat :: h < |coda.regions| && h != c.outOb ==> coda.regions[h] == old(coda.regions)[h]
  {
    hide Laid;
    ghost var base, data := c.outIdx - c.obWrite, coda.regions[c.outOb].data;
    var i := 0;
    while i < c.obWrite
      invariant i <= c.obWrite && coda.Valid() && |coda.regions| == |old(coda.regions)|
      invariant forall h: nat :: h < |coda.regions| && h != c.outOb ==> coda.regions[h] == old(coda.regions)[h]
      invariant coda.regions[c.outOb].strip == ReadWrite && coda.regions[c.outOb].rd == i
      invariant coda.regions[c.outOb].data == data
      invariant arrOut[..base + i] == out[..base + i]
    {
      var v := coda.ObRwReadNext(c.outOb);
      assert v == data[..c.obWrite][i] == out[base + i];
      arrOut[c.outIdx - c.obWrite + i] := v;
      i := i + 1;
    }
  }

  /**
   * reset_tx: the transaction ends, queues and write buffer go home and everything is opened anew. The state of
   * the merge is what it was, only nothing is buffered any more.
   */
  method ResetTx(coda: RealCoda, lq: Queue, rq: Queue, lhs: seq<int>, rhs: seq<int>, arrOut: array<int>,
                 c: Cursors, ghost m: Spec.Merge) returns (c': Cursors)
    requires InMerge(coda, lq, rq, lhs, rhs, arrOut, c, m) && lq.maxLen == rq.maxLen && Fits(arrOut.Length, lq.maxLen)
    modifies lq`nob, rq`nob, lq.data, rq.data, arrOut, coda, coda.txmem
    ensures InMerge(coda, lq, rq, lhs, rhs, arrOut, c', m)
    ensures c'.obWrite == 0 && c'.lhsIdx == c.lhsIdx && c'.rhsIdx == c.rhsIdx && c'.outIdx == c.outIdx
  {
    hide Laid, Ring, Ahead;
    coda.TxEnd();
    lq.ResetNob();
    rq.ResetNob();
    AheadInRange(coda.regions[0], lhs, c.lhsIdx);
    AheadInRange(coda.regions[1], rhs, c.rhsIdx);
    Flush(coda, arrOut, c, m.out, |lhs| + |rhs| - c.outIdx);
    c' := OpenTx(coda, lq, rq, lhs, rhs, arrOut, c.lhsIdx, c.rhsIdx, c.outIdx, m);
  }

  lemma AheadInRange(r: Region, src: seq<int>, idx: nat)
    requires Ahead(r, src, idx)
    ensures idx <= |src|
  {
  }

  /** The next value of a half enters its queue, which may be full. */
  method Take(coda: RealCoda, q: Queue, ob: nat, ghost src: seq<int>, ghost idx: nat) returns (st: Status)
    requires q.coda == coda && q.InTx() && ob != q.nob && ob < |coda.regions| && Admissible(ob)
    requires Ahead(coda.regions[ob], src, idx) && idx < |src|
    modifies q`items, coda, coda.txmem
    ensures st == if |old(q.items)| == q.maxLen then Halt(QueueFull) else Done
    ensures st.Done? ==> q.InTx() && q.items == old(q.items) + [src[idx]]
    ensures st.Done? ==> |coda.regions| == |old(coda.regions)| && Ahead(coda.regions[ob], src, idx + 1)
    ensures st.Done? ==> forall h: nat :: h < |coda.regions| && h != ob && h != q.nob ==> coda.regions[h] == old(coda.regions)[h]
    ensures st.Halt? ==> coda.Valid() && coda.Closed()
  {
    hide Laid, Ring;
    ghost var r := coda.regions[ob];
    assert r.data[r.rd] == r.data[r.rd..][0] == src[idx];
    assert r.data[r.rd + 1..] == r.data[r.rd..][1..] == src[idx..][1..] == src[idx + 1..];
    var v := coda.ObReadNext(ob);
    st := q.Enqueue(v);
  }

  /** The two feeding statements of a step. */
  method FeedBoth(coda: RealCoda, lq: Queue, rq: Queue, lhs: seq<int>, rhs: seq<int>, arrOut: array<int>,
                  c: Cursors, i: nat, ghost m: Spec.Merge) returns (st: Status, c': Cursors, ghost m': Spec.Merge)
    requires InMerge(coda, lq, rq, lhs, rhs, arrOut, c, m) && lq.maxLen == rq.maxLen
    requires c.lhsIdx == Fed(lhs, i) && c.rhsIdx == Fed(rhs, i)
    modifies lq`items, rq`items, coda, coda.txmem
    ensures st.ToResult(m') == Spec.FeedBoth(lhs, rhs, lq.maxLen, i, m)
    ensures st.Done? ==> InMerge(coda, lq, rq, lhs, rhs, arrOut, c', m')
    ensures st.Done? ==> c' == c.(lhsIdx := Fed(lhs, i + 1), rhsIdx := Fed(rhs, i + 1))
    ensures st.Halt? ==> coda.Valid() && coda.Closed()
  {
    hide Laid, Ring, Ahead, Buffered;
    c', m' := c, m;
    if i < |lhs| {
      st := Take(coda, lq, c.lhsOb, lhs, c.lhsIdx);
      if st.Halt? {
        return;
      }
      m' := m'.(lq := m'.lq + [lhs[i]]);
      c' := c'.(lhsIdx := c'.lhsIdx + 1);
    }
    if i < |rhs| {
      st := Take(coda, rq, c.rhsOb, rhs, c.rhsIdx);
      if st.Halt? {
        return;
      }
      m' := m'.(rq := m'.rq + [rhs[i]]);
      c' := c'.(rhsIdx := c'.rhsIdx + 1);
    }
    st := Done;
  }

  /** One value goes out through the write buffer: it has left one of the queues already. */
  method Write(coda: RealCoda, c: Cursors, outVal: int, ghost out: seq<int>, ghost room: nat) returns (c': Cursors)
    requires coda.Valid() && c.outOb < |coda.regions| && Admissible(c.outOb) && room > 0
    requires c.obWrite <= c.outIdx == |out| && Buffered(coda.regions[c.outOb], out[c.outIdx - c.obWrite..], room)
    modifies coda`regions, coda.txmem
    ensures coda.Valid() && c' == c.(outIdx := c.outIdx + 1, obWrite := c.obWrite + 1)
    ensures |coda.regions| == |old(coda.regions)|
    ensures Buffered(coda.regions[c.outOb], (out + [outVal])[c'.outIdx - c'.obWrite..], room - 1)
    ensures forall h: nat :: h < |coda.regions| && h != c.outOb ==> coda.regions[h] == old(coda.regions)[h]
  {
    hide Laid;
    coda.ObRwWriteNext(c.outOb, outVal);
    c' := c.(outIdx := c.outIdx + 1, obWrite := c.obWrite + 1);
    ghost var written := out[c.outIdx - c.obWrite..];
    assert (out + [outVal])[c'.outIdx - c'.obWrite..] == written + [outVal];
    ghost var r, r' := old(coda.regions)[c.outOb], coda.regions[c.outOb];
    assert r'.data[..r'.wr] == r.data[..r.wr] + [outVal];
  }

  /** Both queues have an item: the one the merge rule picks leaves its queue. */
  method Pick(coda: RealCoda, lq: Queue, rq: Queue, ghost m: Spec.Merge) returns (outVal: int)
    requires lq != rq && lq.coda == coda && rq.coda == coda && lq.data != rq.data && lq.nob != rq.nob
    requires lq.InTx() && rq.InTx() && m.lq == lq.items && m.rq == rq.items && Spec.Ready(m)
    modifies lq`items, rq`items, coda, coda.txmem
    ensures lq.InTx() && rq.InTx() && Spec.Emit(m) == Spec.Merge(lq.items, rq.items, m.out + [outVal])
    ensures
      if m.lq[0] < m.rq[0] || (m.lq[0] == m.rq[0] && |m.lq| > |m.rq|)
      then m.lq == [outVal] + lq.items && rq.items == m.rq
      else lq.items == m.lq && m.rq == [outVal] + rq.items
    ensures |coda.regions| == |old(coda.regions)|
    ensures forall h: nat :: h < |coda.regions| && h != lq.nob && h != rq.nob ==> coda.regions[h] == old(coda.regions)[h]
  {
    hide Laid, Ring;
    var l := lq.Front();
    var r := rq.Front();
    var lhsVal, rhsVal := l.value, r.value;
    if lhsVal < rhsVal {
      outVal := lhsVal;
      var st := lq.Dequeue();
    } else if lhsVal == rhsVal {
      outVal := lhsVal;
      var lhsLen := lq.GetCurLen();
      var rhsLen := rq.GetCurLen();
      if lhsLen > rhsLen {
        var st := lq.Dequeue();
      } else {
        var st := rq.Dequeue();
      }
    } else {
      outVal := rhsVal;
      var st := rq.Dequeue();
    }
  }

  method EmitOne(coda: RealCoda, lq: Queue, rq: Queue, lhs: seq<int>, rhs: seq<int>, arrOut: array<int>,
                 c: Cursors, ghost m: Spec.Merge) returns (c': Cursors)
    requires InMerge(coda, lq, rq, lhs, rhs, arrOut, c, m) && Spec.Ready(m) && c.obWrite < MAX_OB_WRITE
    modifies lq`items, rq`items, coda, coda.txmem
    ensures InMerge(coda, lq, rq, lhs, rhs, arrOut, c', Spec.Emit(m))
    ensures c'.obWrite == c.obWrite + 1 && c'.lhsIdx == c.lhsIdx && c'.rhsIdx == c.rhsIdx
  {
    hide Laid, Ring, Buffered;
    AheadInRange(coda.regions[0], lhs, c.lhsIdx);
    AheadInRange(coda.regions[1], rhs, c.rhsIdx);
    var outVal := Pick(coda, lq, rq, m);
    c' := Write(coda, c, outVal, m.out, |lhs| + |rhs| - c.outIdx);
    assert (m.out + [outVal])[..c'.outIdx - c'.obWrite] == m.out[..c.outIdx - c.obWrite];
  }

  /** One value of a draining queue goes out; the other queue is q's partner. */
  method DrainOne(coda: RealCoda, lq: Queue, rq: Queue, lhs: seq<int>, rhs: seq<int>, arrOut: array<int>,
                  c: Cursors, left: bool, ghost m: Spec.Merge) returns (c': Cursors)
    requires InMerge(coda, lq, rq, lhs, rhs, arrOut, c, m) && c.obWrite < MAX_OB_WRITE
    requires if left then m.lq != [] else m.rq != []
    modifies lq`items, rq`items, coda, coda.txmem
    ensures InMerge(coda, lq, rq, lhs, rhs, arrOut, c', Moved(m, left))
    ensures c'.obWrite == c.obWrite + 1 && c'.lhsIdx == c.lhsIdx && c'.rhsIdx == c.rhsIdx
  {
    hide Laid, Ring, Buffered;
    AheadInRange(coda.regions[0], lhs, c.lhsIdx);
    AheadInRange(coda.regions[1], rhs, c.rhsIdx);
    var outVal;
    if left {
      var l := lq.Front();
      outVal := l.value;
      var st := lq.Dequeue();
    } else {
      var r := rq.Front();
      outVal := r.value;
      var st := rq.Dequeue();
    }
    c' := Write(coda, c, outVal, m.out, |lhs| + |rhs| - c.outIdx);
    assert (m.out + [outVal])[..c'.outIdx - c'.obWrite] == m.out[..c.outIdx - c.obWrite];
  }

  /** The head of one queue moved behind what is out. */
  ghost function Moved(m: Spec.Merge, left: bool): Spec.Merge
    requires if left then m.lq != [] else m.rq != []
  {
    if left then Spec.Merge(m.lq[1..], m.rq, m.out + [m.lq[0]]) else Spec.Merge(m.lq, m.rq[1..], m.out + [m.rq[0]])
  }

  /** The preload loop. */
  method Preload(coda: RealCoda, lq: Queue, rq: Queue, lhs: seq<int>, rhs: seq<int>, arrOut: array<int>,
                 c: Cursors, halfS: nat, ghost m: Spec.Merge) returns (st: Status, c': Cursors, ghost m': Spec.Merge)
    requires InMerge(coda, lq, rq, lhs, rhs, arrOut, c, m) && lq.maxLen == rq.maxLen && halfS == lq.maxLen / 2
    requires c.lhsIdx == 0 && c.rhsIdx == 0
    modifies lq`items, rq`items, coda, coda.txmem
    ensures st.ToResult(m') == Spec.Preload(lhs, rhs, lq.maxLen, 0, m)
    ensures st.Done? ==> InMerge(coda, lq, rq, lhs, rhs, arrOut, c', m')
    ensures st.Done? ==> c' == c.(lhsIdx := Fed(lhs, halfS), rhsIdx := Fed(rhs, halfS))
    ensures st.Halt? ==> coda.Valid() && coda.Closed()
  {
    hide Laid, Ring, InMerge;
    c', m' := c, m;
    var i := 0;
    while i < halfS
      invariant i <= halfS && InMerge(coda, lq, rq, lhs, rhs, arrOut, c', m')
      invariant c' == c.(lhsIdx := Fed(lhs, i), rhsIdx := Fed(rhs, i))
      invariant Spec.Preload(lhs, rhs, lq.maxLen, i, m') == Spec.Preload(lhs, rhs, lq.maxLen, 0, m)
    {
      st, c', m' := FeedBoth(coda, lq, rq, lhs, rhs, arrOut, c', i, m');
      if st.Halt? {
        return;
      }
      i := i + 1;
    }
    st := Done;
  }

  /** The transaction is renewed when the write buffer is full. */
  method MaybeReset(coda: RealCoda, lq: Queue, rq: Queue, lhs: seq<int>, rhs: seq<int>, arrOut: array<int>,
                    c: Cursors, maxWrite: nat, ghost m: Spec.Merge) returns (c': Cursors)
    requires InMerge(coda, lq, rq, lhs, rhs, arrOut, c, m) && lq.maxLen == rq.maxLen && Fits(arrOut.Length, lq.maxLen)
    requires maxWrite == MAX_OB_WRITE
    modifies lq`nob, rq`nob, lq.data, rq.data, arrOut, coda, coda.txmem
    ensures InMerge(coda, lq, rq, lhs, rhs, arrOut, c', m)
    ensures c'.obWrite < MAX_OB_WRITE && c'.lhsIdx == c.lhsIdx && c'.rhsIdx == c.rhsIdx
  {
    c' := c;
    if c.obWrite >= maxWrite {
      c' := ResetTx(coda, lq, rq, lhs, rhs, arrOut, c, m);
    }
  }

  /** One round of the emission loop of a step; stop says that the run leaves for the draining. */
  method EmitStep(coda: RealCoda, lq: Queue, rq: Queue, lhs: seq<int>, rhs: seq<int>, arrOut: array<int>,
                  c: Cursors, i: nat, j: nat, ghost m: Spec.Merge)
    returns (st: Status, stop: bool, c': Cursors, ghost m': Spec.Merge)
    requires InMerge(coda, lq, rq, lhs, rhs, arrOut, c, m) && lq.maxLen == rq.maxLen && Fits(arrOut.Length, lq.maxLen)
    requires i < |rhs| + lq.maxLen / 2 && j < 2
    modifies lq`nob, rq`nob, lq`items, rq`items, lq.data, rq.data, arrOut, coda, coda.txmem
    ensures st.Halt? ==> coda.Valid() && coda.Closed() && Spec.EmitSteps(lhs, rhs, lq.maxLen, i, m, j) == Halted(st.reason)
    ensures st.Done? ==> InMerge(coda, lq, rq, lhs, rhs, arrOut, c', m') && c'.lhsIdx == c.lhsIdx && c'.rhsIdx == c.rhsIdx
    ensures st.Done? && stop ==>
              i >= |lhs| && i >= |rhs| && Spec.EmitSteps(lhs, rhs, lq.maxLen, i, m, j) == Ok(Spec.Drain(m'))
    ensures st.Done? && !stop ==>
              Spec.EmitSteps(lhs, rhs, lq.maxLen, i, m, j) == Spec.EmitSteps(lhs, rhs, lq.maxLen, i, m', j + 1)
  {
    hide Laid, Ring, Ahead, Buffered;
    st, stop, m' := Done, false, m;
    c' := MaybeReset(coda, lq, rq, lhs, rhs, arrOut, c, MAX_OB_WRITE, m);
    var lhsLen := lq.GetCurLen();
    var rhsLen := rq.GetCurLen();
    if lhsLen > 0 && rhsLen > 0 {
      c' := EmitOne(coda, lq, rq, lhs, rhs, arrOut, c', m);
      m' := Spec.Emit(m);
    } else if i < |lhs| || i < |rhs| {
      coda.TxEnd();
      st := Halt(QueueEmpty);
    } else {
      stop := true;
    }
  }

  /** Step i: feed one item of each half, emit two. */
  method RunStep(coda: RealCoda, lq: Queue, rq: Queue, lhs: seq<int>, rhs: seq<int>, arrOut: array<int>,
                 c: Cursors, i: nat, ghost m: Spec.Merge)
    returns (st: Status, stop: bool, c': Cursors, ghost m': Spec.Merge)
    requires InMerge(coda, lq, rq, lhs, rhs, arrOut, c, m) && lq.maxLen == rq.maxLen && Fits(arrOut.Length, lq.maxLen)
    requires c.lhsIdx == Fed(lhs, i) && c.rhsIdx == Fed(rhs, i) && i < |rhs| + lq.maxLen / 2
    modifies lq`nob, rq`nob, lq`items, rq`items, lq.data, rq.data, arrOut, coda, coda.txmem
    ensures st.Halt? ==> coda.Valid() && coda.Closed() && Spec.MainLoop(lhs, rhs, lq.maxLen, i, m) == Halted(st.reason)
    ensures st.Done? ==> InMerge(coda, lq, rq, lhs, rhs, arrOut, c', m') && c'.lhsIdx == Fed(lhs, i + 1) && c'.rhsIdx == Fed(rhs, i + 1)
    ensures st.Done? && stop ==>
              i >= |lhs| && i >= |rhs| && Spec.MainLoop(lhs, rhs, lq.maxLen, i, m) == Ok(Spec.Drain(m'))
    ensures st.Done? && !stop ==>
              Spec.MainLoop(lhs, rhs, lq.maxLen, i, m) == Spec.MainLoop(lhs, rhs, lq.maxLen, i + 1, m')
  {
    hide Laid, Ring, InMerge;
    stop := false;
    st, c', m' := FeedBoth(coda, lq, rq, lhs, rhs, arrOut, c, i, m);
    if st.Halt? {
      return;
    }
    ghost var fed := m';
    var j := 0;
    while j < 2
      invariant j <= 2 && st.Done? && InMerge(coda, lq, rq, lhs, rhs, arrOut, c', m')
      invariant c'.lhsIdx == Fed(lhs, i + 1) && c'.rhsIdx == Fed(rhs, i + 1)
      invariant Spec.EmitSteps(lhs, rhs, lq.maxLen, i, fed, 0) == Spec.EmitSteps(lhs, rhs, lq.maxLen, i, m', j)
    {
      st, stop, c', m' := EmitStep(coda, lq, rq, lhs, rhs, arrOut, c', i, j, m');
      if st.Halt? || stop {
        return;
      }
      j := j + 1;
    }
    stop := false;
  }

  /** The main loop and the check behind it. */
  method MainLoop(coda: RealCoda, lq: Queue, rq: Queue, lhs: seq<int>, rhs: seq<int>, arrOut: array<int>,
                  c: Cursors, halfS: nat, ghost m: Spec.Merge) returns (st: Status, c': Cursors, ghost m': Spec.Merge)
    requires InMerge(coda, lq, rq, lhs, rhs, arrOut, c, m) && lq.maxLen == rq.maxLen && Fits(arrOut.Length, lq.maxLen)
    requires halfS == lq.maxLen / 2 && c.lhsIdx == Fed(lhs, halfS) && c.rhsIdx == Fed(rhs, halfS) && |lhs| <= |rhs|
    modifies lq`nob, rq`nob, lq`items, rq`items, lq.data, rq.data, arrOut, coda, coda.txmem
    ensures st.Halt? ==> coda.Valid() && coda.Closed() && Spec.MainLoop(lhs, rhs, lq.maxLen, halfS, m) == Halted(st.reason)
    ensures st.Done? ==> Spec.MainLoop(lhs, rhs, lq.maxLen, halfS, m) == Ok(Spec.Drain(m'))
    ensures st.Done? ==> InMerge(coda, lq, rq, lhs, rhs, arrOut, c', m') && c'.lhsIdx == |lhs| && c'.rhsIdx == |rhs|
  {
    hide Laid, Ring, InMerge, Spec.EmitSteps;
    c', m' := c, m;
    var i, stop := halfS, false;
    while i < |rhs| + halfS
      invariant halfS <= i <= |rhs| + halfS && InMerge(coda, lq, rq, lhs, rhs, arrOut, c', m')
      invariant c'.lhsIdx == Fed(lhs, i) && c'.rhsIdx == Fed(rhs, i)
      invariant Spec.MainLoop(lhs, rhs, lq.maxLen, halfS, m) == Spec.MainLoop(lhs, rhs, lq.maxLen, i, m')
    {
      st, stop, c', m' := RunStep(coda, lq, rq, lhs, rhs, arrOut, c', i, m');
      if st.Halt? || stop {
        return;
      }
      i := i + 1;
    }
    st := CheckDrained(coda, lq, rq, lhs, rhs, arrOut, c', m');
  }

  method CheckDrained(coda: RealCoda, lq: Queue, rq: Queue, lhs: seq<int>, rhs: seq<int>, arrOut: array<int>,
                      c: Cursors, ghost m: Spec.Merge) returns (st: Status)
    requires InMerge(coda, lq, rq, lhs, rhs, arrOut, c, m)
    modifies coda
    ensures st == if Spec.Ready(m) then Halt(UnprocessedData) else Done
    ensures st.Halt? ==> coda.Valid() && coda.Closed()
    ensures st.Done? ==> InMerge(coda, lq, rq, lhs, rhs, arrOut, c, m)
  {
    var lhsLen := lq.GetCurLen();
    var rhsLen := rq.GetCurLen();
    st := Done;
    if lhsLen > 0 && rhsLen > 0 {
      coda.TxEnd();
      st := Halt(UnprocessedData);
    }
  }

  /** Both draining loops. */
  method DrainQueues(coda: RealCoda, lq: Queue, rq: Queue, lhs: seq<int>, rhs: seq<int>, arrOut: array<int>,
                     c: Cursors, ghost m: Spec.Merge) returns (c': Cursors, ghost m': Spec.Merge)
    requires InMerge(coda, lq, rq, lhs, rhs, arrOut, c, m) && lq.maxLen == rq.maxLen && Fits(arrOut.Length, lq.maxLen)
    modifies lq`nob, rq`nob, lq`items, rq`items, lq.data, rq.data, arrOut, coda, coda.txmem
    ensures InMerge(coda, lq, rq, lhs, rhs, arrOut, c', m') && c'.lhsIdx == c.lhsIdx && c'.rhsIdx == c.rhsIdx
    ensures m' == Spec.Merge([], [], Spec.Drain(m))
  {
    hide Laid, Ring, Ahead, Buffered;
    c', m' := c, m;
    var curLen := lq.GetCurLen();
    while curLen > 0
      invariant InMerge(coda, lq, rq, lhs, rhs, arrOut, c', m') && c'.lhsIdx == c.lhsIdx && c'.rhsIdx == c.rhsIdx
      invariant curLen == |m'.lq| && Spec.Drain(m') == Spec.Drain(m)
      decreases |m'.lq|
    {
      c' := MaybeReset(coda, lq, rq, lhs, rhs, arrOut, c', MAX_OB_WRITE, m');
      c' := DrainOne(coda, lq, rq, lhs, rhs, arrOut, c', true, m');
      DrainMoved(m', true);
      m' := Moved(m', true);
      curLen := lq.GetCurLen();
    }
    curLen := rq.GetCurLen();
    while curLen > 0
      invariant InMerge(coda, lq, rq, lhs, rhs, arrOut, c', m') && c'.lhsIdx == c.lhsIdx && c'.rhsIdx == c.rhsIdx
      invariant m'.lq == [] && curLen == |m'.rq| && Spec.Drain(m') == Spec.Drain(m)
      decreases |m'.rq|
    {
      c' := MaybeReset(coda, lq, rq, lhs, rhs, arrOut, c', MAX_OB_WRITE, m');
      c' := DrainOne(coda, lq, rq, lhs, rhs, arrOut, c', false, m');
      DrainMoved(m', false);
      m' := Moved(m', false);
      curLen := rq.GetCurLen();
    }
    assert m'.out == Spec.Drain(m');
  }

  lemma DrainMoved(m: Spec.Merge, left: bool)
    requires if left then m.lq != [] else m.rq != [] && m.lq == []
    ensures Spec.Drain(Moved(m, left)) == Spec.Drain(m)
  {
  }

  lemma QueueSizeFits(n: nat)
    requires n <= Limit(ReadOnly)
    ensures Fits(n, Spec.QueueSize(n))
  {
    var r := Spec.FloorSqrt(n);
    if r > 128 {
      SquareMonotone(129, r);
    }
  }

  /** (int)sqrt((double)n). */
  method IntSqrt(n: nat) returns (r: nat)
    ensures r == Spec.FloorSqrt(n)
  {
    r := Spec.FloorSqrt(n);
  }

  /** From the first initializer to the last flush. */
  method RunMerge(coda: RealCoda, lq: Queue, rq: Queue, lhs: seq<int>, rhs: seq<int>, arrOut: array<int>, halfS: nat)
    returns (st: Status)
    requires Separate(coda, lq, rq, arrOut) && lq.Home() && rq.Home() && lq.items == [] && rq.items == []
    requires coda.Valid() && coda.Closed()
    requires |lhs| <= |rhs| && |lhs| + |rhs| == arrOut.Length
    requires lq.maxLen == rq.maxLen && halfS == lq.maxLen / 2 && Fits(arrOut.Length, lq.maxLen)
    modifies lq`nob, rq`nob, lq`items, rq`items, lq.data, rq.data, arrOut, coda, coda.txmem
    ensures coda.Valid() && coda.Closed()
    ensures st.ToResult(arrOut[..]) == Level(lhs, rhs, lq.maxLen)
  {
    hide Laid, Ring, InMerge, Spec.MainLoop, Spec.Preload;
    ghost var m := Spec.Merge([], [], []);
    var c := OpenTx(coda, lq, rq, lhs, rhs, arrOut, 0, 0, 0, m);
    st, c, m := Preload(coda, lq, rq, lhs, rhs, arrOut, c, halfS, m);
    if st.Halt? {
      return;
    }
    st, c, m := MainLoop(coda, lq, rq, lhs, rhs, arrOut, c, halfS, m);
    if st.Halt? {
      return;
    }
    c, m := DrainQueues(coda, lq, rq, lhs, rhs, arrOut, c, m);
    CloseTx(coda, lq, rq, lhs, rhs, arrOut, c, m);
    st := Done;
  }

  /** The last transaction ends and the buffered values go home. */
  method CloseTx(coda: RealCoda, lq: Queue, rq: Queue, lhs: seq<int>, rhs: seq<int>, arrOut: array<int>,
                 c: Cursors, ghost m: Spec.Merge)
    requires InMerge(coda, lq, rq, lhs, rhs, arrOut, c, m) && m.lq == [] && m.rq == []
    requires c.lhsIdx == |lhs| && c.rhsIdx == |rhs|
    modifies arrOut, coda, coda.txmem
    ensures coda.Valid() && coda.Closed() && arrOut[..] == m.out
  {
    hide Laid, Ring, Ahead;
    coda.TxEnd();
    Flush(coda, arrOut, c, m.out, |lhs| + |rhs| - c.outIdx);
    assert arrOut[..c.outIdx] == arrOut[..];
  }

  /** A merge level with queues of size s. */
  ghost function Level(lhs: seq<int>, rhs: seq<int>, s: nat): Result<seq<int>> {
    var m :- Spec.Preload(lhs, rhs, s, 0, Spec.Merge([], [], []));
    Spec.MainLoop(lhs, rhs, s, s / 2, m)
  }

  lemma LevelIs(lhs: seq<int>, rhs: seq<int>)
    ensures Level(lhs, rhs, Spec.QueueSize(|lhs| + |rhs|)) == Spec.MergeLevel(lhs, rhs)
  {
  }

  /** The part of merge_sort behind its two recursive calls. */
  method MergeHalves(coda: RealCoda, lhs: seq<int>, rhs: seq<int>, arrOut: array<int>) returns (st: Status)
    requires coda.Valid() && coda.Closed() && arrOut != coda.txmem
    requires |lhs| <= |rhs| && |lhs| + |rhs| == arrOut.Length <= Limit(ReadOnly)
    modifies arrOut, coda, coda.txmem
    ensures coda.Valid() && coda.Closed()
    ensures st.ToResult(arrOut[..]) == Spec.MergeLevel(lhs, rhs)
  {
    hide Laid, Ring, Spec.FloorSqrt, Level, Spec.MergeLevel;
    var len := |lhs| + |rhs|;
    var root := IntSqrt(len);
    var s := 4 * root;
    QueueSizeFits(len);
    LevelIs(lhs, rhs);
    var lq := new Queue(coda, s);
    var rq := new Queue(coda, s);
    st := RunMerge(coda, lq, rq, lhs, rhs, arrOut, s / 2);
  }

  /**
   * merge_sort: what it leaves in arrOut, or the abort it ends with, is what the function says, wherever the
   * transaction resets fall. So a run that comes back has sorted, and at the safe lengths every run comes back.
   */
  method MergeSort(coda: RealCoda, arrIn: seq<int>, arrOut: array<int>) returns (st: Status)
    requires coda.Valid() && coda.Closed() && arrOut != coda.txmem
    requires arrIn != [] && |arrIn| == arrOut.Length <= Limit(ReadOnly)
    modifies arrOut, coda, coda.txmem
    ensures coda.Valid() && coda.Closed()
    ensures st.ToResult(arrOut[..]) == Spec.MergeSort(arrIn)
    ensures st.Done? ==> Sorted(arrOut[..]) && multiset(arrOut[..]) == multiset(arrIn)
    ensures NeverAborts(|arrIn|) ==> st.Done?
    ensures (exists v: int :: AllAre(arrIn, v)) ==> st.Done? && arrOut[..] == arrIn
    ensures st != Halt(UnprocessedData)
    decreases |arrIn|
  {
    hide Laid, Spec.MergeLevel, Sorted, NeverAborts;
    MergeSortSorts(arrIn);
    if NeverAborts(|arrIn|) {
      SafeRun(arrIn);
    }
    if v :| AllAre(arrIn, v) {
      EqualItemsNeverAbort(arrIn, v);
    }
    var len := |arrIn|;
    if len == 1 {
      arrOut[0] := arrIn[0];
      assert arrOut[..] == arrIn;
      return Done;
    }
    var lhsLen := len / 2;
    var rhsLen := len - lhsLen;
    var lhsOut, rhsOut := new int[lhsLen], new int[rhsLen];
    st := MergeSort(coda, arrIn[..lhsLen], lhsOut);
    if st.Halt? {
      return;
    }
    st := MergeSort(coda, arrIn[lhsLen..], rhsOut);
    if st.Halt? {
      return;
    }
    st := MergeHalves(coda, lhsOut[..], rhsOut[..], arrOut);
  }
}

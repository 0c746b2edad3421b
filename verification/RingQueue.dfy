/** The bounded FIFO of the merge sort: a ring buffer behind three header words, used inside transactions. */
module RingQueue {
  import opened Common
  import opened TxMemory
  import opened TxRegions
  import opened RealLibCoda

  /** The slot k places behind front. */
  function Slot(front: nat, k: nat, maxLen: nat): nat
    requires k < maxLen && front < maxLen
  {
    if front + k < maxLen then front + k else front + k - maxLen
  }

  lemma Quotient(n: nat, q: int, r: int)
    requires n > 0 && 0 <= r < n && 0 <= q * n + r < 2 * n
    ensures q == 0 || q == 1
  {
    assert q >= 2 ==> q * n >= 2 * n;
    assert q <= -1 ==> q * n <= -1 * n;
  }

  lemma SlotIsModulo(front: nat, k: nat, maxLen: nat)
    requires k < maxLen && front < maxLen
    ensures (front + k) % maxLen == Slot(front, k, maxLen)
  {
    var q, r := (front + k) / maxLen, (front + k) % maxLen;
    assert front + k == q * maxLen + r;
    Quotient(maxLen, q, r);
  }

  /** The array layout is maximal length, current length, front index, slots; items are the queued values. */
  ghost predicate Ring(words: seq<int>, maxLen: nat, items: seq<int>) {
    && |words| == maxLen + 3 && words[0] == maxLen
    && words[1] == |items| <= maxLen
    && 0 <= words[2] && (words[2] < maxLen || maxLen == 0)
    && forall k: nat :: k < |items| ==> items[k] == words[3 + Slot(words[2], k, maxLen)]
  }

  lemma EnqueueRing(words: seq<int>, maxLen: nat, items: seq<int>, v: int)
    requires Ring(words, maxLen, items) && |items| < maxLen
    ensures
      var t := (words[2] + |items|) % maxLen + 3;
      0 <= t < |words| && Ring(words[t := v][1 := |items| + 1], maxLen, items + [v])
  {
    SlotIsModulo(words[2], |items|, maxLen);
  }

  lemma DequeueRing(words: seq<int>, maxLen: nat, items: seq<int>)
    requires Ring(words, maxLen, items) && items != []
    ensures Ring(words[1 := |items| - 1][2 := (words[2] + 1) % maxLen], maxLen, items[1..])
  {
    if maxLen > 1 {
      SlotIsModulo(words[2], 1, maxLen);
    }
  }

  class Queue {
    const coda: RealCoda
    const data: array<int>
    var nob: nat

    ghost const maxLen: nat
    ghost var items: seq<int>

    ghost predicate Sized()
      reads data
    {
      data != coda.txmem && data.Length == maxLen + 3 && data[0] == maxLen
    }

    ghost predicate Home()
      reads this, data
    {
      Sized() && Ring(data[..], maxLen, items)
    }

    ghost predicate InTx()
      reads this, data, coda, coda.txmem
    {
      && Sized()
      && coda.Valid() && nob < |coda.regions| && coda.regions[nob].strip == Random
      && Ring(coda.regions[nob].data, maxLen, items)
    }

    constructor (coda: RealCoda, maxLen: nat)
      ensures Home() && items == [] && this.coda == coda && this.maxLen == maxLen && fresh(data)
    {
      this.coda := coda;
      this.maxLen := maxLen;
      nob := 0;
      items := [];
      data := new int[maxLen + 3];
      new;
      data[0] := maxLen;
      data[1] := 0;
      data[2] := 0;
    }

    method InitNob()
      requires Home() && coda.Valid()
      requires 3 * coda.Next() + 3 <= META_WORDS && coda.curNob + maxLen + 3 <= Limit(Random)
      modifies this`nob, coda, coda.txmem
      ensures InTx() && nob == old(coda.Next()) == coda.Next() - 1
      ensures |coda.regions| == nob + 1 && coda.regions[..nob] == old(coda.regions)[..nob]
      ensures coda.curOb == old(coda.curOb) && coda.curObRw == old(coda.curObRw)
      ensures coda.curNob == old(coda.curNob) + maxLen + 3
    {
      hide Laid;
      nob := coda.InitializeNobArray(data[..data[0] + 3]);
      assert data[..data[0] + 3] == data[..];
    }

    method ResetNob()
      requires InTx()
      modifies data
      ensures Home() && coda.Valid()
    {
      hide Ring, Laid;
      RingSize(coda.regions[nob].data, maxLen, items);
      ghost var words := coda.regions[nob].data;
      var i := 1;
      while i < data[0] + 3
        invariant 1 <= i <= data[0] + 3 == |words| && data[0] == maxLen
        invariant data[..i] == words[..i]
      {
        data[i] := coda.NobReadAt(nob, i);
        i := i + 1;
      }
      assert data[..] == words;
    }

    lemma RingSize(words: seq<int>, maxLen: nat, items: seq<int>)
      requires Ring(words, maxLen, items)
      ensures |words| == maxLen + 3 && words[0] == maxLen
    {
    }

    method GetMaxLen() returns (n: nat)
      requires InTx()
      ensures n == maxLen
    {
      n := coda.NobReadAt(nob, 0);
    }

    method GetCurLen() returns (n: nat)
      requires InTx()
      ensures n == |items|
    {
      n := coda.NobReadAt(nob, 1);
    }

    method GetFrontIdx() returns (n: nat)
      requires InTx()
      ensures n == coda.regions[nob].data[2]
    {
      n := coda.NobReadAt(nob, 2);
    }

    /** A full queue ends the transaction and the run. */
    method Enqueue(val: int) returns (st: Status)
      requires InTx()
      modifies this`items, coda, coda.txmem
      ensures st == if |old(items)| == maxLen then Halt(QueueFull) else Done
      ensures st.Done? ==> InTx() && items == old(items) + [val] && coda.regions == old(coda.regions)[nob := coda.regions[nob]]
      ensures st.Halt? ==> coda.Valid() && coda.Closed() && items == old(items)
    {
      hide Laid;
      var max := GetMaxLen();
      var curLen := GetCurLen();
      var frontIdx := GetFrontIdx();
      if curLen == max {
        coda.TxEnd();
        return Halt(QueueFull);
      }
      ghost var words := coda.regions[nob].data;
      EnqueueRing(words, maxLen, items, val);
      hide Ring;
      RingSize(words, maxLen, items);
      coda.NobWriteAt(nob, (frontIdx + curLen) % max + 3, val);
      curLen := curLen + 1;
      coda.NobWriteAt(nob, 1, curLen);
      items := items + [val];
      st := Done;
    }

    method Front() returns (r: Result<int>)
      requires InTx()
      modifies coda
      ensures r == if old(items) == [] then Halted(QueueEmpty) else Ok(old(items)[0])
      ensures r.Ok? ==> InTx() && coda.regions == old(coda.regions)
      ensures r.Halted? ==> coda.Valid() && coda.Closed()
    {
      hide Laid;
      var curLen := GetCurLen();
      var frontIdx := GetFrontIdx();
      if curLen == 0 {
        coda.TxEnd();
        return Halted(QueueEmpty);
      }
      var v := coda.NobReadAt(nob, frontIdx + 3);
      r := Ok(v);
    }

    method Dequeue() returns (st: Status)
      requires InTx()
      modifies this`items, coda, coda.txmem
      ensures st == if old(items) == [] then Halt(QueueEmpty) else Done
      ensures st.Done? ==> InTx() && items == old(items)[1..] && coda.regions == old(coda.regions)[nob := coda.regions[nob]]
      ensures st.Halt? ==> coda.Valid() && coda.Closed() && items == old(items)
    {
      hide Laid;
      var max := GetMaxLen();
      var curLen := GetCurLen();
      var frontIdx := GetFrontIdx();
      if curLen == 0 {
        coda.TxEnd();
        return Halt(QueueEmpty);
      }
      ghost var words := coda.regions[nob].data;
      DequeueRing(words, maxLen, items);
      hide Ring;
      RingSize(words, maxLen, items);
      curLen := curLen - 1;
      frontIdx := (frontIdx + 1) % max;
      coda.NobWriteAt(nob, 1, curLen);
      coda.NobWriteAt(nob, 2, frontIdx);
      items := items[1..];
      st := Done;
    }
  }
}

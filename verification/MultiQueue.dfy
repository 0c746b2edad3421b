/** The multi-queue object: its array at home, and its image in the transaction memory between init and reset. */
module MultiQueues {
  import opened Common
  import opened TxMemory
  import opened TxRegions
  import opened RealLibCoda
  import opened QueueWords
  import opened QueueContents

  class MultiQueue {
    const coda: RealCoda
    const data: array<int>
    var nob: nat

    ghost const num: nat
    ghost const cap: nat
    /** Block addresses: the free list, then one list per queue. */
    ghost var lists: seq<seq<nat>>
    /** What a caller sees: the elements of each queue. */
    ghost var queues: seq<seq<Element>>

    ghost predicate Holds(words: seq<int>)
      reads this
    {
      && |words| == WordCount(num, cap)
      && Represents(words, num, cap, lists)
      && Queues(words, num, cap, lists) == queues
      && words[0] == WordCount(num, cap)
    }

    ghost predicate Sized()
      reads data
    {
      data != coda.txmem && data.Length == WordCount(num, cap) && data[0] == WordCount(num, cap)
    }

    /** The array data holds the queues. */
    ghost predicate Home()
      reads this, data
    {
      Sized() && Holds(data[..])
    }

    /** The random-access array nob holds the queues. */
    ghost predicate InTx()
      reads this, data, coda, coda.txmem
    {
      && Sized() && Mapped()
      && Holds(coda.regions[nob].data)
    }

    ghost predicate Mapped()
      reads this, coda, coda.txmem
    {
      coda.Valid() && nob < |coda.regions| && coda.regions[nob].strip == Random
    }

    ghost function Words(): seq<int>
      requires nob < |coda.regions|
      reads this, coda
    {
      coda.regions[nob].data
    }

    /** coda holds rs but for the words of nob, which are words. */
    ghost predicate OnlyWords(rs: seq<Region>, words: seq<int>)
      requires nob < |rs|
      reads this, coda, coda.txmem
    {
      && Mapped() && |coda.regions| == |rs| && coda.regions[nob] == rs[nob].(data := words)
      && (forall h: nat :: h < |rs| && h != nob ==> coda.regions[h] == rs[h])
    }

    constructor (coda: RealCoda, capacity: nat, numOfQueue: nat)
      requires WordCount(numOfQueue, capacity) <= TWO_16
      ensures this.coda == coda && num == numOfQueue && cap == capacity && fresh(data)
      ensures InitialLayout(data[..], num, cap)
      ensures lists == FreshLists(num, cap) && queues == seq(num, q => [])
    {
      this.coda := coda;
      nob := 0;
      num, cap := numOfQueue, capacity;
      var dataLen := 2;
      dataLen := dataLen + 1 + numOfQueue;
      dataLen := dataLen + capacity * 3;
      data := new int[dataLen];
      lists := FreshLists(numOfQueue, capacity);
      queues := seq(numOfQueue, q => []);
      new;
      hide Represents, Queues, Pack, InitialLink, FreshLists;
      LayHeader(capacity, numOfQueue, dataLen);
      LayBlocks(capacity, numOfQueue);
    }

    method LayHeader(capacity: nat, numOfQueue: nat, dataLen: nat)
      requires numOfQueue == num && dataLen == data.Length == WordCount(num, capacity)
      modifies data
      ensures data[0] == dataLen && data[1] == Pack(numOfQueue, capacity)
      ensures data[Header(0)] == Pack(3 + num, dataLen - 3)
      ensures forall l: nat :: 0 < l <= num ==> data[Header(l)] == 0
    {
      data[0] := dataLen;
      data[1] := Pack(numOfQueue, capacity);
      data[2] := Pack(3 + numOfQueue, dataLen - 1 - 2);
      var i := 0;
      while i < numOfQueue
        invariant i <= numOfQueue
        invariant data[0] == dataLen && data[1] == Pack(numOfQueue, capacity) && data[2] == Pack(3 + num, dataLen - 3)
        invariant forall l: nat :: 0 < l <= i ==> data[Header(l)] == 0
      {
        data[3 + i] := 0;
        i := i + 1;
      }
    }

    /** The constructor's block loop: each block is linked to its neighbours in address order. */
    method LayBlocks(capacity: nat, numOfQueue: nat)
      requires capacity == cap && numOfQueue == num && data.Length == WordCount(num, cap)
      modifies data
      ensures forall t: nat :: t < cap ==> data[Block(num, t)] == InitialLink(num, cap, t)
      ensures forall a: nat :: a < 3 + num ==> data[a] == old(data[a])
    {
      var i, blockAddr := 0, 3 + numOfQueue;
      while i < capacity
        invariant i <= capacity
        invariant i < capacity ==> blockAddr == Block(num, i)
        invariant forall t: nat :: t < i ==> data[Block(num, t)] == InitialLink(num, cap, t)
        invariant forall a: nat :: a < 3 + num ==> data[a] == old(data[a])
      {
        var prevAddr := blockAddr - 3;
        var nextAddr := blockAddr + 3;
        if i == 0 {
          prevAddr := 0;
        } else if i == capacity - 1 {
          nextAddr := 0;
        }
        data[blockAddr] := Pack(prevAddr, nextAddr);
        blockAddr := nextAddr;
        i := i + 1;
      }
    }

    /** The constructor's checks: too long an array ends the run. */
    static method Create(coda: RealCoda, capacity: nat, numOfQueue: nat) returns (r: Result<MultiQueue>)
      ensures r.Halted? <==> WordCount(numOfQueue, capacity) > TWO_16
      ensures r.Ok? ==> fresh(r.value) && fresh(r.value.data) && r.value.coda == coda
      ensures r.Ok? ==> r.value.num == numOfQueue && r.value.cap == capacity
      ensures r.Ok? ==> InitialLayout(r.value.data[..], numOfQueue, capacity)
      ensures r.Ok? && capacity >= 2 && Addressable(numOfQueue, capacity) ==>
                r.value.Home() && r.value.queues == seq(numOfQueue, q => [])
    {
      if capacity > TWO_16 || numOfQueue > TWO_16 {
        return Halted(BadMultiQueue);
      }
      if 2 + 1 + numOfQueue + capacity * 3 > TWO_16 {
        return Halted(BadMultiQueue);
      }
      var queues := new MultiQueue(coda, capacity, numOfQueue);
      hide Represents, Queues, Linked, FreshLists;
      if capacity >= 2 && Addressable(numOfQueue, capacity) {
        InitialRepresents(queues.data[..], numOfQueue, capacity);
      }
      r := Ok(queues);
    }

    method InitNob()
      requires Home() && coda.Valid()
      requires 3 * coda.Next() + 3 <= META_WORDS && coda.curNob + WordCount(num, cap) <= Limit(Random)
      modifies this`nob, coda, coda.txmem
      ensures InTx() && nob == old(coda.Next()) == coda.Next() - 1
      ensures |coda.regions| == nob + 1 && coda.regions[..nob] == old(coda.regions)[..nob]
      ensures coda.curOb == old(coda.curOb) && coda.curObRw == old(coda.curObRw)
      ensures coda.curNob == old(coda.curNob) + WordCount(num, cap)
    {
      nob := coda.InitializeNobArray(data[..data[0]]);
      assert data[..data[0]] == data[..];
    }

    method ResetNob()
      requires InTx()
      modifies data
      ensures Home() && coda.Valid()
    {
      hide Represents, Queues, Laid;
      var i := 1;
      while i < data[0]
        invariant 1 <= i <= data[0] == WordCount(num, cap) == |Words()|
        invariant data[..i] == Words()[..i]
      {
        data[i] := coda.NobReadAt(nob, i);
        i := i + 1;
      }
      assert data[..] == Words();
    }

    // ---- word access ----

    method Read(addr: nat) returns (v: int)
      requires Mapped() && addr < |Words()|
      ensures v == Words()[addr]
    {
      v := coda.NobReadAt(nob, addr);
    }

    method Write(addr: nat, v: int)
      requires Mapped() && addr < |Words()|
      modifies coda`regions, coda.txmem
      ensures OnlyWords(old(coda.regions), old(Words())[addr := v])
    {
      coda.NobWriteAt(nob, addr, v);
    }

    method GetQueueBeginAddr(queueId: int) returns (addr: int)
      requires -1 <= queueId && Mapped() && Header(queueId + 1) < |Words()|
      ensures addr == Begin(Words(), queueId + 1)
    {
      var w := Read(3 + queueId);
      addr := High(w);
    }

    method GetQueueEndAddr(queueId: int) returns (addr: nat)
      requires -1 <= queueId && Mapped() && Header(queueId + 1) < |Words()|
      ensures addr == End(Words(), queueId + 1)
    {
      var w := Read(3 + queueId);
      addr := Low(w);
    }

    method SetQueueAddr(queueId: int, beginAddr: nat, endAddr: nat)
      requires -1 <= queueId && Mapped() && Header(queueId + 1) < |Words()|
      modifies coda`regions, coda.txmem
      ensures OnlyWords(old(coda.regions), SetQueue(old(Words()), queueId + 1, beginAddr, endAddr))
    {
      Write(3 + queueId, Pack(beginAddr, endAddr));
    }

    method GetBlockPrevAddr(blockAddr: nat) returns (addr: int)
      requires Mapped() && blockAddr < |Words()|
      ensures addr == High(Words()[blockAddr])
    {
      var w := Read(blockAddr);
      addr := High(w);
    }

    method GetBlockNextAddr(blockAddr: nat) returns (addr: nat)
      requires Mapped() && blockAddr < |Words()|
      ensures addr == Low(Words()[blockAddr])
    {
      var w := Read(blockAddr);
      addr := Low(w);
    }

    method SetBlockAddr(blockAddr: nat, prevAddr: nat, nextAddr: nat)
      requires Mapped() && blockAddr < |Words()|
      modifies coda`regions, coda.txmem
      ensures OnlyWords(old(coda.regions), SetBlock(old(Words()), blockAddr, prevAddr, nextAddr))
    {
      Write(blockAddr, Pack(prevAddr, nextAddr));
    }

    method SetBlockPrevAddr(blockAddr: nat, prevAddr: nat)
      requires Mapped() && blockAddr < |Words()|
      modifies coda`regions, coda.txmem
      ensures OnlyWords(old(coda.regions), SetBlock(old(Words()), blockAddr, prevAddr, Low(old(Words())[blockAddr])))
    {
      var next := GetBlockNextAddr(blockAddr);
      SetBlockAddr(blockAddr, prevAddr, next);
    }

    method SetBlockNextAddr(blockAddr: nat, nextAddr: nat)
      requires Mapped() && Readable(Words(), blockAddr)
      modifies coda`regions, coda.txmem
      ensures OnlyWords(old(coda.regions), SetBlock(old(Words()), blockAddr, High(old(Words())[blockAddr]), nextAddr))
    {
      var prev := GetBlockPrevAddr(blockAddr);
      SetBlockAddr(blockAddr, prev, nextAddr);
    }

    method SetQueueBeginAddr(queueId: int, beginAddr: nat)
      requires -1 <= queueId && Mapped() && Header(queueId + 1) < |Words()|
      modifies coda`regions, coda.txmem
      ensures OnlyWords(old(coda.regions), SetQueue(old(Words()), queueId + 1, beginAddr, End(old(Words()), queueId + 1)))
    {
      var end := GetQueueEndAddr(queueId);
      SetQueueAddr(queueId, beginAddr, end);
    }

    method SetQueueEndAddr(queueId: int, endAddr: nat)
      requires -1 <= queueId && Mapped() && Header(queueId + 1) < |Words()| && Readable(Words(), Header(queueId + 1))
      modifies coda`regions, coda.txmem
      ensures OnlyWords(old(coda.regions), SetQueue(old(Words()), queueId + 1, Begin(old(Words()), queueId + 1), endAddr))
    {
      var begin := GetQueueBeginAddr(queueId);
      SetQueueAddr(queueId, begin, endAddr);
    }

    method FetchElement(addr: nat) returns (e: Element)
      requires Mapped() && addr + 2 < |Words()|
      ensures e == ReadElement(Words(), addr)
    {
      var value := Read(addr + 1);
      var perm := Read(addr + 2);
      e := Element(value, perm);
    }

    method StoreElement(addr: nat, e: Element)
      requires Mapped() && addr + 2 < |Words()|
      modifies coda`regions, coda.txmem
      ensures OnlyWords(old(coda.regions), WriteElement(old(Words()), addr, e))
    {
      Write(addr + 1, e.value);
      Write(addr + 2, e.perm);
    }

    method AllocBlock() returns (freeAddr: int)
      requires Mapped() && UnlinkReady(Words(), 0)
      modifies coda`regions, coda.txmem
      ensures freeAddr == Begin(old(Words()), 0)
      ensures OnlyWords(old(coda.regions), UnlinkFront(old(Words()), 0))
    {
      freeAddr := GetQueueBeginAddr(-1);
      var nextAddr := GetBlockNextAddr(freeAddr);
      if nextAddr == 0 {
        SetQueueAddr(-1, 0, 0);
      } else {
        SetBlockPrevAddr(nextAddr, 0);
        SetQueueBeginAddr(-1, nextAddr);
      }
    }

    method FreeBlock(addr: nat)
      requires Mapped() && FrontReady(Words(), 0, addr)
      modifies coda`regions, coda.txmem
      ensures OnlyWords(old(coda.regions), LinkFront(old(Words()), 0, addr))
    {
      var beginAddr := GetQueueBeginAddr(-1);
      if beginAddr == 0 {
        SetBlockAddr(addr, 0, 0);
        SetQueueAddr(-1, addr, addr);
      } else {
        SetBlockPrevAddr(beginAddr, addr);
        SetBlockAddr(addr, 0, beginAddr);
        SetQueueBeginAddr(-1, addr);
      }
    }

    // ---- the part of push and pop that rewires one queue ----

    method PrependBlock(queueId: nat, addr: nat)
      requires Mapped() && FrontReady(Words(), queueId + 1, addr)
      modifies coda`regions, coda.txmem
      ensures OnlyWords(old(coda.regions), LinkFront(old(Words()), queueId + 1, addr))
    {
      var beginAddr := GetQueueBeginAddr(queueId);
      if beginAddr == 0 {
        SetBlockAddr(addr, 0, 0);
        SetQueueAddr(queueId, addr, addr);
      } else {
        SetBlockPrevAddr(beginAddr, addr);
        SetBlockAddr(addr, 0, beginAddr);
        SetQueueBeginAddr(queueId, addr);
      }
    }

    method AppendBlock(queueId: nat, addr: nat)
      requires Mapped() && BackReady(Words(), queueId + 1, addr)
      modifies coda`regions, coda.txmem
      ensures OnlyWords(old(coda.regions), LinkBack(old(Words()), queueId + 1, addr))
    {
      var endAddr := GetQueueEndAddr(queueId);
      if endAddr == 0 {
        SetBlockAddr(addr, 0, 0);
        SetQueueAddr(queueId, addr, addr);
      } else {
        SetBlockNextAddr(endAddr, addr);
        SetBlockAddr(addr, endAddr, 0);
        SetQueueEndAddr(queueId, addr);
      }
    }

    method DetachFirst(queueId: nat) returns (addr: int)
      requires Mapped() && UnlinkReady(Words(), queueId + 1)
      modifies coda`regions, coda.txmem
      ensures addr == Begin(old(Words()), queueId + 1)
      ensures OnlyWords(old(coda.regions), UnlinkFront(old(Words()), queueId + 1))
    {
      addr := GetQueueBeginAddr(queueId);
      var nextAddr := GetBlockNextAddr(addr);
      if nextAddr == 0 {
        SetQueueAddr(queueId, 0, 0);
      } else {
        SetBlockPrevAddr(nextAddr, 0);
        SetQueueBeginAddr(queueId, nextAddr);
      }
    }

    method DetachLast(queueId: nat) returns (addr: nat)
      requires Mapped() && UnlinkBackReady(Words(), queueId + 1)
      modifies coda`regions, coda.txmem
      ensures addr == End(old(Words()), queueId + 1)
      ensures OnlyWords(old(coda.regions), UnlinkBack(old(Words()), queueId + 1))
    {
      addr := GetQueueEndAddr(queueId);
      var prevAddr := GetBlockPrevAddr(addr);
      if prevAddr == 0 {
        SetQueueAddr(queueId, 0, 0);
      } else {
        SetBlockNextAddr(prevAddr, 0);
        SetQueueEndAddr(queueId, prevAddr);
      }
    }

    // ---- the queue operations ----

    method Size(queueId: nat) returns (size: nat)
      requires InTx() && queueId < num
      ensures size == |queues[queueId]|
    {
      hide Represents, Laid, Queues;
      WalkMeaning(Words(), num, cap, lists, queueId);
      ghost var list := lists[queueId + 1];
      var addr := GetQueueBeginAddr(queueId);
      size := 0;
      while addr != 0
        invariant size <= |list|
        invariant addr == if size < |list| then list[size] else 0
        decreases |list| - size
      {
        size := size + 1;
        addr := GetBlockNextAddr(addr);
      }
    }

    method Empty(queueId: nat) returns (b: bool)
      requires InTx() && queueId < num
      ensures b <==> queues[queueId] == []
    {
      hide Represents, Laid, Queues;
      Emptiness(Words(), num, cap, lists, queueId + 1);
      WalkMeaning(Words(), num, cap, lists, queueId);
      var addr := GetQueueBeginAddr(queueId);
      b := addr == 0;
    }

    /** The queues never hold more than the blocks there are. */
    lemma QueuesFit()
      requires InTx()
      ensures TotalQueued(queues) <= cap
    {
      hide Represents, Laid, Queues;
      Conservation(Words(), num, cap, lists);
    }

    /** No free block is left: the queues together hold the whole capacity. */
    method Full() returns (b: bool)
      requires InTx()
      ensures b <==> TotalQueued(queues) == cap
      ensures TotalQueued(queues) <= cap
    {
      hide Represents, Laid, Queues;
      Emptiness(Words(), num, cap, lists, 0);
      Conservation(Words(), num, cap, lists);
      var addr := GetQueueBeginAddr(-1);
      b := addr == 0;
    }

    method Front(queueId: nat) returns (e: Element)
      requires InTx() && queueId < num && queues[queueId] != []
      ensures e == queues[queueId][0]
    {
      hide Represents, Laid, Queues;
      EndsMeaning(Words(), num, cap, lists, queueId);
      var addr := GetQueueBeginAddr(queueId);
      e := FetchElement(addr);
    }

    method Back(queueId: nat) returns (e: Element)
      requires InTx() && queueId < num && queues[queueId] != []
      ensures e == queues[queueId][|queues[queueId]| - 1]
    {
      hide Represents, Laid, Queues;
      EndsMeaning(Words(), num, cap, lists, queueId);
      var addr := GetQueueEndAddr(queueId);
      e := FetchElement(addr);
    }

    method PushFront(queueId: nat, e: Element)
      requires InTx() && queueId < num && TotalQueued(queues) < cap
      modifies this`lists, this`queues, coda`regions, coda.txmem
      ensures InTx() && queues == old(queues)[queueId := [e] + old(queues[queueId])]
      ensures coda.regions == old(coda.regions)[nob := coda.regions[nob]]
    {
      hide Represents, Laid, Queues, Pack, Readable, Begin, End;
      Conservation(Words(), num, cap, lists);
      PushFrontMeaning(Words(), num, cap, lists, queueId, e);
      var addr := AllocBlock();
      StoreElement(addr, e);
      PrependBlock(queueId, addr);
      assert Words() == PushFrontWords(old(Words()), queueId, e);
      lists := lists[0 := lists[0][1..]][queueId + 1 := [lists[0][0]] + lists[queueId + 1]];
      queues := queues[queueId := [e] + queues[queueId]];
    }

    method PushBack(queueId: nat, e: Element)
      requires InTx() && queueId < num && TotalQueued(queues) < cap
      modifies this`lists, this`queues, coda`regions, coda.txmem
      ensures InTx() && queues == old(queues)[queueId := old(queues[queueId]) + [e]]
      ensures coda.regions == old(coda.regions)[nob := coda.regions[nob]]
    {
      hide Represents, Laid, Queues, Pack, Readable, Begin, End;
      Conservation(Words(), num, cap, lists);
      PushBackMeaning(Words(), num, cap, lists, queueId, e);
      var addr := AllocBlock();
      StoreElement(addr, e);
      AppendBlock(queueId, addr);
      assert Words() == PushBackWords(old(Words()), queueId, e);
      lists := lists[0 := lists[0][1..]][queueId + 1 := lists[queueId + 1] + [lists[0][0]]];
      queues := queues[queueId := queues[queueId] + [e]];
    }

    method PopFront(queueId: nat)
      requires InTx() && queueId < num && queues[queueId] != []
      modifies this`lists, this`queues, coda`regions, coda.txmem
      ensures InTx() && queues == old(queues)[queueId := old(queues[queueId])[1..]]
      ensures coda.regions == old(coda.regions)[nob := coda.regions[nob]]
    {
      hide Represents, Laid, Queues, Pack, Readable, Begin, End;
      EndsMeaning(Words(), num, cap, lists, queueId);
      PopFrontMeaning(Words(), num, cap, lists, queueId);
      var addr := DetachFirst(queueId);
      FreeBlock(addr);
      assert Words() == PopFrontWords(old(Words()), queueId);
      lists := lists[queueId + 1 := lists[queueId + 1][1..]][0 := [lists[queueId + 1][0]] + lists[0]];
      queues := queues[queueId := queues[queueId][1..]];
    }

    method PopBack(queueId: nat)
      requires InTx() && queueId < num && queues[queueId] != []
      modifies this`lists, this`queues, coda`regions, coda.txmem
      ensures InTx() && queues == old(queues)[queueId := old(queues[queueId])[..|old(queues[queueId])| - 1]]
      ensures coda.regions == old(coda.regions)[nob := coda.regions[nob]]
    {
      hide Represents, Laid, Queues, Pack, Readable, Begin, End;
      EndsMeaning(Words(), num, cap, lists, queueId);
      PopBackMeaning(Words(), num, cap, lists, queueId);
      var addr := DetachLast(queueId);
      FreeBlock(addr);
      assert Words() == PopBackWords(old(Words()), queueId);
      ghost var n := |lists[queueId + 1]| - 1;
      lists := lists[queueId + 1 := lists[queueId + 1][..n]][0 := [lists[queueId + 1][n]] + lists[0]];
      queues := queues[queueId := queues[queueId][..|queues[queueId]| - 1]];
    }
  }
}

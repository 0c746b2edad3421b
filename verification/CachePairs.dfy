/** Elements in two iterators side by side, one of values and one of destinations. */
module CachePairs {
  import opened MultiQueues
  import opened QueueWords
  import opened RealLibCoda
  import opened TxMemory
  import opened TxRegions

  /** Words of values and of destinations for the elements es. */
  ghost predicate Split(values: seq<int>, perms: seq<int>, es: seq<Element>) {
    && |es| <= |values| && |es| <= |perms|
    && forall t: nat :: t < |es| ==> values[t] == es[t].value && perms[t] == es[t].perm
  }

  /** Two read iterators over es, n elements read. */
  ghost predicate Source(ra: Region, rp: Region, es: seq<Element>, n: nat) {
    && ra.strip == ReadOnly && rp.strip == ReadOnly && ra.rd == n && rp.rd == n
    && |ra.data| == |es| && |rp.data| == |es| && Split(ra.data, rp.data, es)
  }

  /** Two read/write iterators of step words that have taken es. */
  ghost predicate Sink(ra: Region, rp: Region, es: seq<Element>, step: nat) {
    && ra.strip == ReadWrite && rp.strip == ReadWrite && ra.rd == 0 && rp.rd == 0
    && ra.wr == |es| && rp.wr == |es| && |ra.data| == step && |rp.data| == step && Split(ra.data, rp.data, es)
  }

  /** The same two read back from the start, n elements read. */
  ghost predicate Drain(ra: Region, rp: Region, es: seq<Element>, n: nat) {
    && ra.strip == ReadWrite && rp.strip == ReadWrite && ra.rd == n && rp.rd == n && Split(ra.data, rp.data, es)
  }

  lemma SinkDrains(ra: Region, rp: Region, es: seq<Element>, step: nat)
    requires Sink(ra, rp, es, step)
    ensures Drain(ra, rp, es, 0)
  {
  }

  lemma SplitNext(values: seq<int>, perms: seq<int>, es: seq<Element>, v: int, p: int)
    requires Split(values, perms, es) && |es| < |values| && |es| < |perms|
    ensures Split(values[|es| := v], perms[|es| := p], es + [Element(v, p)])
  {
  }

  /** The queues are in the random-access array of handle 0, and ha and ha + 1 are handles of a pair. */
  ghost predicate Ready(coda: RealCoda, queues: MultiQueue, ha: nat)
    reads coda, coda.txmem, queues, queues.data
  {
    queues.coda == coda && queues.InTx() && queues.nob == 0 && 1 <= ha <= 3 && ha + 1 < |coda.regions|
  }

  lemma ReadyValid(coda: RealCoda, queues: MultiQueue, ha: nat)
    requires Ready(coda, queues, ha)
    ensures coda.Valid()
  {
  }

  method ReadPair(coda: RealCoda, queues: MultiQueue, ha: nat, hp: nat, ghost es: seq<Element>, ghost n: nat)
    returns (v: int, p: int)
    requires Ready(coda, queues, ha) && hp == ha + 1 && Source(coda.regions[ha], coda.regions[hp], es, n) && n < |es|
    modifies coda`regions, coda.txmem
    ensures Ready(coda, queues, ha) && Source(coda.regions[ha], coda.regions[hp], es, n + 1)
    ensures coda.regions == old(coda.regions)[ha := coda.regions[ha]][hp := coda.regions[hp]]
    ensures Element(v, p) == es[n]
  {
    hide Laid, MultiQueue.Holds;
    v := coda.ObReadNext(ha);
    p := coda.ObReadNext(hp);
  }

  method WritePair(coda: RealCoda, queues: MultiQueue, ha: nat, hp: nat, v: int, p: int, ghost es: seq<Element>,
                   ghost step: nat)
    requires Ready(coda, queues, ha) && hp == ha + 1 && Sink(coda.regions[ha], coda.regions[hp], es, step) && |es| < step
    modifies coda`regions, coda.txmem
    ensures Ready(coda, queues, ha) && Sink(coda.regions[ha], coda.regions[hp], es + [Element(v, p)], step)
    ensures coda.regions == old(coda.regions)[ha := coda.regions[ha]][hp := coda.regions[hp]]
  {
    hide Laid, MultiQueue.Holds, Split;
    SplitNext(coda.regions[ha].data, coda.regions[hp].data, es, v, p);
    coda.ObRwWriteNext(ha, v);
    coda.ObRwWriteNext(hp, p);
  }

  method DrainPair(coda: RealCoda, ha: nat, hp: nat, ghost es: seq<Element>, ghost n: nat) returns (v: int, p: int)
    requires coda.Valid() && 1 <= ha <= 3 && hp == ha + 1 < |coda.regions|
    requires Drain(coda.regions[ha], coda.regions[hp], es, n) && n < |es|
    modifies coda`regions, coda.txmem
    ensures coda.Valid() && |coda.regions| == |old(coda.regions)| && Drain(coda.regions[ha], coda.regions[hp], es, n + 1)
    ensures Element(v, p) == es[n]
  {
    hide Laid;
    v := coda.ObRwReadNext(ha);
    p := coda.ObRwReadNext(hp);
  }
}

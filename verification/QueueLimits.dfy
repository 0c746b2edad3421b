/** Where the constructor's free list fails: too few blocks, or block addresses a signed shift does not give back. */
module QueueLimits {
  import opened QueueWords
  import opened QueueContents

  /**
   * A single block: the first allocation finds it, takes the address just past the array for that of a second free
   * block, and would go on to read and rewrite the word there.
   */
  lemma OneBlockPointsOut(words: seq<int>, num: nat)
    requires Addressable(num, 1) && InitialLayout(words, num, 1)
    ensures Begin(words, 0) == Block(num, 0) && Low(words[Block(num, 0)]) == |words| != 0
    ensures !UnlinkReady(words, 0)
  {
    PackRoundTrip(3 + num, WordCount(num, 1) - 3);
    PackRoundTrip(0, 6 + num);
    assert words[Block(num, 0)] == InitialLink(num, 1, 0);
  }

  /** No block: the free list does not read as empty, so full() is false, and it begins just past the array. */
  lemma NoBlockReadsAsFree(words: seq<int>, num: nat)
    requires Block(num, 0) < 0x8000 && InitialLayout(words, num, 0)
    ensures Begin(words, 0) == |words| != 0
    ensures !UnlinkReady(words, 0)
  {
    PackRoundTrip(3 + num, WordCount(num, 0) - 3);
  }

  // ---- allocating block after block ----

  /** t allocations in a row stay in the array. */
  ghost predicate AllocsStay(words: seq<int>, t: nat)
    decreases t
  {
    t == 0 || (UnlinkReady(words, 0) && AllocsStay(UnlinkFront(words, 0), t - 1))
  }

  ghost function AfterAllocs(words: seq<int>, t: nat): seq<int>
    requires AllocsStay(words, t)
    decreases t
  {
    if t == 0 then words else AfterAllocs(UnlinkFront(words, 0), t - 1)
  }

  /** The free list after t blocks have been taken off it: block t first, the rest as the constructor linked it. */
  ghost predicate FreeFrom(words: seq<int>, num: nat, cap: nat, t: nat)
    requires t < cap
  {
    && |words| == WordCount(num, cap)
    && words[Header(0)] == Pack(Block(num, t), WordCount(num, cap) - 3)
    && words[Block(num, t)] == Pack(0, if t == cap - 1 then 0 else Block(num, t + 1))
    && forall u: nat :: t < u < cap ==> words[Block(num, u)] == InitialLink(num, cap, u)
  }

  /** What the head of the free list reads back as. */
  function HeadRead(num: nat, t: nat): int {
    if Block(num, t) < 0x8000 then Block(num, t) else Block(num, t) - TWO_16
  }

  lemma FreeFromStart(words: seq<int>, num: nat, cap: nat)
    requires cap >= 2 && InitialLayout(words, num, cap)
    ensures FreeFrom(words, num, cap, 0)
  {
    assert words[Block(num, 0)] == InitialLink(num, cap, 0);
  }

  lemma HeadReads(words: seq<int>, num: nat, cap: nat, t: nat)
    requires t < cap && WordCount(num, cap) <= TWO_16 && FreeFrom(words, num, cap, t)
    ensures Begin(words, 0) == HeadRead(num, t)
  {
    PackRoundTrip(Block(num, t), WordCount(num, cap) - 3);
  }

  lemma FreeFromNext(words: seq<int>, num: nat, cap: nat, t: nat)
    requires t + 1 < cap && WordCount(num, cap) <= TWO_16 && Block(num, t) < 0x8000 && FreeFrom(words, num, cap, t)
    ensures UnlinkReady(words, 0) && FreeFrom(UnlinkFront(words, 0), num, cap, t + 1)
  {
    HeadReads(words, num, cap, t);
    PackRoundTrip(0, Block(num, t + 1));
    PackRoundTrip(Block(num, t), WordCount(num, cap) - 3);
    var after := if t + 1 == cap - 1 then 0 else Block(num, t + 2);
    PackRoundTrip(Block(num, t), after);
    assert words[Block(num, t + 1)] == InitialLink(num, cap, t + 1) == Pack(Block(num, t), after);
    hide Pack, High, Low, InitialLink;
  }

  lemma LastTaken(words: seq<int>, num: nat, cap: nat, t: nat)
    requires t + 1 == cap && WordCount(num, cap) <= TWO_16 && Block(num, t) < 0x8000 && FreeFrom(words, num, cap, t)
    ensures UnlinkReady(words, 0)
  {
    HeadReads(words, num, cap, t);
    PackRoundTrip(0, 0);
  }

  /** From t blocks taken on, as long as the addresses read back, the head is the next block. */
  lemma {:induction false} HeadsRead(words: seq<int>, num: nat, cap: nat, t: nat, n: nat)
    requires t + n < cap && WordCount(num, cap) <= TWO_16 && FreeFrom(words, num, cap, t)
    requires n == 0 || Block(num, t + n - 1) < 0x8000
    ensures AllocsStay(words, n) && FreeFrom(AfterAllocs(words, n), num, cap, t + n)
    ensures Header(0) < |AfterAllocs(words, n)| && Begin(AfterAllocs(words, n), 0) == HeadRead(num, t + n)
    decreases n
  {
    if n > 0 {
      hide FreeFrom;
      FreeFromNext(words, num, cap, t);
      HeadsRead(UnlinkFront(words, 0), num, cap, t + 1, n - 1);
    } else {
      HeadReads(words, num, cap, t);
    }
  }

  lemma {:induction false} StaysLonger(words: seq<int>, n: nat)
    requires AllocsStay(words, n) && UnlinkReady(AfterAllocs(words, n), 0)
    ensures AllocsStay(words, n + 1)
    decreases n
  {
    hide UnlinkFront;
    if n > 0 {
      StaysLonger(UnlinkFront(words, 0), n - 1);
    }
  }

  lemma {:induction false} StayedShorter(words: seq<int>, n: nat, m: nat)
    requires AllocsStay(words, m) && n < m
    ensures AllocsStay(words, n) && UnlinkReady(AfterAllocs(words, n), 0)
    decreases n
  {
    hide UnlinkFront;
    if n > 0 {
      StayedShorter(UnlinkFront(words, 0), n - 1, m - 1);
    }
  }

  /** The first block whose address does not read back. */
  function FirstLost(num: nat): nat {
    if 3 + num >= 0x8000 then 0 else (0x8000 - 3 - num + 2) / 3
  }

  lemma FirstLostIs(num: nat, cap: nat)
    ensures FirstLost(num) < cap <==> cap > 0 && !Addressable(num, cap)
    ensures Block(num, FirstLost(num)) >= 0x8000
    ensures FirstLost(num) > 0 ==> Block(num, FirstLost(num) - 1) < 0x8000
  {
  }

  /**
   * An accepted array too long for the signed shift: up to block FirstLost every allocation finds its block, and
   * then the head of the free list reads back as a negative address.
   */
  lemma HeadTurnsNegative(words: seq<int>, num: nat, cap: nat)
    requires cap >= 2 && WordCount(num, cap) <= TWO_16 && !Addressable(num, cap) && InitialLayout(words, num, cap)
    ensures FirstLost(num) < cap
    ensures forall t: nat :: t <= FirstLost(num) ==>
              && AllocsStay(words, t) && Header(0) < |AfterAllocs(words, t)|
              && Begin(AfterAllocs(words, t), 0) == if t < FirstLost(num) then Block(num, t) else Block(num, t) - TWO_16
    ensures Block(num, FirstLost(num)) - TWO_16 < 0
  {
    FirstLostIs(num, cap);
    FreeFromStart(words, num, cap);
    hide FirstLost, InitialLayout, FreeFrom;
    forall t: nat | t <= FirstLost(num)
      ensures
        && AllocsStay(words, t) && Header(0) < |AfterAllocs(words, t)|
        && Begin(AfterAllocs(words, t), 0) == if t < FirstLost(num) then Block(num, t) else Block(num, t) - TWO_16
    {
      HeadsRead(words, num, cap, 0, t);
    }
  }

  /** All blocks the constructor lays out can be allocated exactly when the last address is below 0x8000. */
  lemma AllBlocksExactly(words: seq<int>, num: nat, cap: nat)
    requires cap >= 2 && WordCount(num, cap) <= TWO_16 && InitialLayout(words, num, cap)
    ensures AllocsStay(words, cap) <==> Addressable(num, cap)
  {
    if Addressable(num, cap) {
      FreeFromStart(words, num, cap);
      HeadsRead(words, num, cap, 0, cap - 1);
      LastTaken(AfterAllocs(words, cap - 1), num, cap, cap - 1);
      StaysLonger(words, cap - 1);
    } else {
      HeadTurnsNegative(words, num, cap);
      assert !UnlinkReady(AfterAllocs(words, FirstLost(num)), 0);
      if AllocsStay(words, cap) {
        StayedShorter(words, FirstLost(num), cap);
      }
    }
  }
}

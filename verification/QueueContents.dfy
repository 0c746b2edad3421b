/**
 * What the multi-queue operations do to the array, and what that means for the queues: each one is the
 * sequence operation on one queue and leaves every other queue alone.
 */
module QueueContents {
  import opened QueueWords

  ghost function Contents(words: seq<int>, num: nat, cap: nat, list: seq<nat>): (c: seq<Element>)
    requires |words| == WordCount(num, cap) && InBlocks(num, cap, list)
    ensures |c| == |list|
  {
    seq(|list|, k requires 0 <= k < |list| => ReadElement(words, list[k]))
  }

  ghost function TotalLength(lists: seq<seq<nat>>): nat {
    if lists == [] then 0 else |lists[0]| + TotalLength(lists[1..])
  }

  /** The array holds these lists and every block is in one of them. */
  ghost predicate Represents(words: seq<int>, num: nat, cap: nat, lists: seq<seq<nat>>) {
    Linked(words, num, cap, lists) && TotalLength(lists) == cap
  }

  /** The elements of every queue, first to last. */
  ghost function Queues(words: seq<int>, num: nat, cap: nat, lists: seq<seq<nat>>): (qs: seq<seq<Element>>)
    requires Linked(words, num, cap, lists)
    ensures |qs| == num
  {
    seq(num, q requires 0 <= q < num => Contents(words, num, cap, lists[q + 1]))
  }

  /** words' holds the queues qs in lists, and the two global words have not changed. */
  ghost predicate Becomes(words: seq<int>, words': seq<int>, num: nat, cap: nat, lists: seq<seq<nat>>,
                          qs: seq<seq<Element>>)
    requires |words| >= 2
  {
    && |words'| == WordCount(num, cap)
    && Represents(words', num, cap, lists) && Queues(words', num, cap, lists) == qs
    && words'[0] == words[0] && words'[1] == words[1]
  }

  lemma {:induction false} TotalAfterUpdate(lists: seq<seq<nat>>, l: nat, list: seq<nat>)
    requires l < |lists|
    ensures TotalLength(lists[l := list]) == TotalLength(lists) - |lists[l]| + |list|
  {
    if l == 0 {
      assert lists[0 := list][1..] == lists[1..];
    } else {
      TotalAfterUpdate(lists[1..], l - 1, list);
      assert lists[l := list][1..] == lists[1..][l - 1 := list];
    }
  }

  // ---- operations on the array ----

  function PushBackWords(words: seq<int>, q: nat, e: Element): seq<int>
    requires PushReady(words, q)
    requires BackReady(Fill(words, e), q + 1, Begin(words, 0))
  {
    LinkBack(Fill(words, e), q + 1, Begin(words, 0))
  }

  function PushFrontWords(words: seq<int>, q: nat, e: Element): seq<int>
    requires PushReady(words, q)
    requires FrontReady(Fill(words, e), q + 1, Begin(words, 0))
  {
    LinkFront(Fill(words, e), q + 1, Begin(words, 0))
  }

  predicate UnlinkReady(words: seq<int>, l: nat) {
    Header(l) < |words| && Readable(words, Begin(words, l)) && Low(words[Begin(words, l)]) < |words|
  }

  predicate PushReady(words: seq<int>, q: nat) {
    UnlinkReady(words, 0) && Begin(words, 0) + 2 < |words| && Header(q + 1) < |words|
  }

  predicate FrontReady(words: seq<int>, l: nat, a: int) {
    0 <= a < |words| <= TWO_16 && Header(l) < |words| && Readable(words, Header(l))
  }

  predicate BackReady(words: seq<int>, l: nat, a: int) {
    && FrontReady(words, l, a)
    && (End(words, l) == 0 || Readable(words, End(words, l)))
    && End(words, l) != Header(l) && a != Header(l)
  }

  /** A free block is taken off the free list and given its payload. */
  function Fill(words: seq<int>, e: Element): seq<int>
    requires UnlinkReady(words, 0) && Begin(words, 0) + 2 < |words|
  {
    WriteElement(UnlinkFront(words, 0), Begin(words, 0), e)
  }

  function PopFrontWords(words: seq<int>, q: nat): seq<int>
    requires UnlinkReady(words, q + 1)
    requires FrontReady(UnlinkFront(words, q + 1), 0, Begin(words, q + 1))
  {
    LinkFront(UnlinkFront(words, q + 1), 0, Begin(words, q + 1))
  }

  predicate UnlinkBackReady(words: seq<int>, l: nat) {
    && Header(l) < |words| && Readable(words, Header(l)) && End(words, l) < |words| && Readable(words, End(words, l))
    && (High(words[End(words, l)]) == 0 || Readable(words, High(words[End(words, l)])))
    && High(words[End(words, l)]) != Header(l)
  }

  function PopBackWords(words: seq<int>, q: nat): seq<int>
    requires UnlinkBackReady(words, q + 1)
    requires FrontReady(UnlinkBack(words, q + 1), 0, End(words, q + 1))
  {
    LinkFront(UnlinkBack(words, q + 1), 0, End(words, q + 1))
  }

  // ---- what they mean ----

  /** Storing the payload of a block that is in no list changes no list. */
  lemma WriteLinked(words: seq<int>, num: nat, cap: nat, lists: seq<seq<nat>>, a: nat, e: Element)
    requires Linked(words, num, cap, lists) && IsBlock(num, cap, a) && Absent(lists, a)
    ensures a + 2 < |words|
    ensures Linked(WriteElement(words, a, e), num, cap, lists)
    ensures Queues(WriteElement(words, a, e), num, cap, lists) == Queues(words, num, cap, lists)
    ensures ReadElement(WriteElement(words, a, e), a) == e
    ensures WriteElement(words, a, e)[0] == words[0] && WriteElement(words, a, e)[1] == words[1]
  {
    hide Pack, IsBlock, AllDistinct, ListStored;
    BlockRange(num, cap, a);
    var words' := WriteElement(words, a, e);
    forall l: nat | l < |lists|
      ensures InBlocks(num, cap, lists[l]) && ListStored(words', num, cap, l, lists[l])
      ensures Contents(words', num, cap, lists[l]) == Contents(words, num, cap, lists[l])
    {
      forall k: nat | k < |lists[l]|
        ensures IsBlock(num, cap, lists[l][k]) && lists[l][k] + 2 < |words| && words'[lists[l][k]] == words[lists[l][k]]
        ensures ReadElement(words', lists[l][k]) == ReadElement(words, lists[l][k])
      {
        assert InBlocks(num, cap, lists[l]);
        BlockRange(num, cap, lists[l][k]);
        BlocksApart(num, cap, a, lists[l][k]);
      }
      ListKept(words, words', num, cap, lists, l);
    }
  }

  lemma BlocksApart(num: nat, cap: nat, a: nat, b: nat)
    requires IsBlock(num, cap, a) && IsBlock(num, cap, b) && a != b
    ensures b >= a + 3 || a >= b + 3
  {
  }

  lemma ContentsKept(words: seq<int>, words': seq<int>, num: nat, cap: nat, list: seq<nat>)
    requires |words| == |words'| == WordCount(num, cap) && InBlocks(num, cap, list)
    requires PayloadKept(words, words', num, cap)
    ensures Contents(words', num, cap, list) == Contents(words, num, cap, list)
  {
    hide IsBlock;
    forall k: nat | k < |list|
      ensures list[k] + 2 < |words| && ReadElement(words', list[k]) == ReadElement(words, list[k])
    {
      BlockRange(num, cap, list[k]);
    }
  }

  lemma Emptiness(words: seq<int>, num: nat, cap: nat, lists: seq<seq<nat>>, l: nat)
    requires Represents(words, num, cap, lists) && l <= num
    ensures |lists| == num + 1
    ensures Header(l) < |words|
    ensures Begin(words, l) == FirstOf(lists[l]) && End(words, l) == LastOf(lists[l])
    ensures Begin(words, l) == 0 <==> lists[l] == []
    ensures End(words, l) == 0 <==> lists[l] == []
  {
    hide Pack, High, Low, IsBlock;
    ListRead(words, num, cap, l, lists[l]);
    LinkRange(num, cap, lists[l]);
  }

  /** A change to the links of one list shows in one queue at most. */
  lemma QueuesAfter(words: seq<int>, words': seq<int>, num: nat, cap: nat, lists: seq<seq<nat>>, l: nat, list: seq<nat>)
    requires Linked(words, num, cap, lists) && l < |lists| && InBlocks(num, cap, list)
    requires Linked(words', num, cap, lists[l := list]) && PayloadKept(words, words', num, cap)
    ensures
      var qs := Queues(words, num, cap, lists);
      Queues(words', num, cap, lists[l := list]) == if l == 0 then qs else qs[l - 1 := Contents(words, num, cap, list)]
  {
    hide Pack, IsBlock, AllDistinct, ListStored, PayloadKept, Contents;
    var qs := Queues(words, num, cap, lists);
    var qs' := Queues(words', num, cap, lists[l := list]);
    ContentsKept(words, words', num, cap, list);
    forall q: nat | q < num
      ensures qs'[q] == if q + 1 == l then Contents(words, num, cap, list) else qs[q]
    {
      assert InBlocks(num, cap, lists[q + 1]);
      ContentsKept(words, words', num, cap, lists[q + 1]);
    }
  }

  /** alloc_block and write_element: the first free block, off the free list, with its payload in place. */
  lemma FillMeaning(words: seq<int>, num: nat, cap: nat, lists: seq<seq<nat>>, e: Element)
    requires Linked(words, num, cap, lists) && lists[0] != []
    ensures UnlinkReady(words, 0) && Begin(words, 0) == lists[0][0] && Begin(words, 0) + 2 < |words|
    ensures
      var a, rest := lists[0][0], lists[0 := lists[0][1..]];
      && IsBlock(num, cap, a) && Absent(rest, a)
      && Linked(Fill(words, e), num, cap, rest)
      && Queues(Fill(words, e), num, cap, rest) == Queues(words, num, cap, lists)
      && ReadElement(Fill(words, e), a) == e
      && Fill(words, e)[0] == words[0] && Fill(words, e)[1] == words[1]
  {
    hide Pack, High, Low, IsBlock, AllDistinct, Absent, ListStored, Contents, Queues, UnlinkFront, Begin;
    var a, rest := lists[0][0], lists[0 := lists[0][1..]];
    UnlinkFrontLinked(words, num, cap, lists, 0);
    assert InBlocks(num, cap, lists[0]) && InBlocks(num, cap, rest[0]);
    BlockRange(num, cap, a);
    WriteLinked(UnlinkFront(words, 0), num, cap, rest, a, e);
    QueuesAfter(words, UnlinkFront(words, 0), num, cap, lists, 0, lists[0][1..]);
  }

  lemma PushBackMeaning(words: seq<int>, num: nat, cap: nat, lists: seq<seq<nat>>, q: nat, e: Element)
    requires Represents(words, num, cap, lists) && lists[0] != [] && q < num
    ensures PushReady(words, q) && BackReady(Fill(words, e), q + 1, Begin(words, 0))
    ensures
      var lists', qs := lists[0 := lists[0][1..]][q + 1 := lists[q + 1] + [lists[0][0]]], Queues(words, num, cap, lists);
      Becomes(words, PushBackWords(words, q, e), num, cap, lists', qs[q := qs[q] + [e]])
  {
    hide Pack, High, Low, IsBlock, AllDistinct, Absent, ListStored, Fill, ReadElement, LinkBack, Begin, End;
    var a, rest := lists[0][0], lists[0 := lists[0][1..]];
    FillMeaning(words, num, cap, lists, e);
    var filled := Fill(words, e);
    LinkBackLinked(filled, num, cap, rest, q + 1, a);
    var list' := rest[q + 1] + [a];
    GrowBlocks(num, cap, rest[q + 1], a);
    QueuesAfter(filled, LinkBack(filled, q + 1, a), num, cap, rest, q + 1, list');
    assert Contents(filled, num, cap, list') == Contents(filled, num, cap, rest[q + 1]) + [e];
    TotalAfterUpdate(lists, 0, lists[0][1..]);
    TotalAfterUpdate(rest, q + 1, list');
  }

  lemma PushFrontMeaning(words: seq<int>, num: nat, cap: nat, lists: seq<seq<nat>>, q: nat, e: Element)
    requires Represents(words, num, cap, lists) && lists[0] != [] && q < num
    ensures PushReady(words, q) && FrontReady(Fill(words, e), q + 1, Begin(words, 0))
    ensures
      var lists', qs := lists[0 := lists[0][1..]][q + 1 := [lists[0][0]] + lists[q + 1]], Queues(words, num, cap, lists);
      Becomes(words, PushFrontWords(words, q, e), num, cap, lists', qs[q := [e] + qs[q]])
  {
    hide Pack, High, Low, IsBlock, AllDistinct, Absent, ListStored, Fill, ReadElement, LinkFront, Begin, End;
    var a, rest := lists[0][0], lists[0 := lists[0][1..]];
    FillMeaning(words, num, cap, lists, e);
    var filled := Fill(words, e);
    LinkFrontLinked(filled, num, cap, rest, q + 1, a);
    var list' := [a] + rest[q + 1];
    GrowBlocks(num, cap, rest[q + 1], a);
    QueuesAfter(filled, LinkFront(filled, q + 1, a), num, cap, rest, q + 1, list');
    assert Contents(filled, num, cap, list') == [e] + Contents(filled, num, cap, rest[q + 1]);
    TotalAfterUpdate(lists, 0, lists[0][1..]);
    TotalAfterUpdate(rest, q + 1, list');
  }

  /** free_block on an array whose block a is in no list. */
  lemma FreeMeaning(words: seq<int>, num: nat, cap: nat, lists: seq<seq<nat>>, a: nat)
    requires Linked(words, num, cap, lists) && IsBlock(num, cap, a) && Absent(lists, a)
    ensures FrontReady(words, 0, a)
    ensures
      var lists' := lists[0 := [a] + lists[0]];
      && Linked(LinkFront(words, 0, a), num, cap, lists')
      && Queues(LinkFront(words, 0, a), num, cap, lists') == Queues(words, num, cap, lists)
      && LinkFront(words, 0, a)[0] == words[0] && LinkFront(words, 0, a)[1] == words[1]
  {
    hide Pack, High, Low, IsBlock, AllDistinct, Absent, ListStored, Contents, Queues, LinkFront, Begin, End;
    LinkFrontLinked(words, num, cap, lists, 0, a);
    GrowBlocks(num, cap, lists[0], a);
    QueuesAfter(words, LinkFront(words, 0, a), num, cap, lists, 0, [a] + lists[0]);
  }

  lemma PopFrontMeaning(words: seq<int>, num: nat, cap: nat, lists: seq<seq<nat>>, q: nat)
    requires Represents(words, num, cap, lists) && q < num && lists[q + 1] != []
    ensures UnlinkReady(words, q + 1) && FrontReady(UnlinkFront(words, q + 1), 0, Begin(words, q + 1))
    ensures
      var list, qs := lists[q + 1], Queues(words, num, cap, lists);
      var lists' := lists[q + 1 := list[1..]][0 := [list[0]] + lists[0]];
      Becomes(words, PopFrontWords(words, q), num, cap, lists', qs[q := qs[q][1..]])
  {
    hide Pack, High, Low, IsBlock, AllDistinct, Absent, ListStored, ReadElement, UnlinkFront, LinkFront, Begin, End;
    var list, rest := lists[q + 1], lists[q + 1 := lists[q + 1][1..]];
    UnlinkFrontLinked(words, num, cap, lists, q + 1);
    assert InBlocks(num, cap, list) && InBlocks(num, cap, rest[q + 1]);
    QueuesAfter(words, UnlinkFront(words, q + 1), num, cap, lists, q + 1, list[1..]);
    assert Contents(words, num, cap, list[1..]) == Contents(words, num, cap, list)[1..];
    FreeMeaning(UnlinkFront(words, q + 1), num, cap, rest, list[0]);
    TotalAfterUpdate(lists, q + 1, list[1..]);
    TotalAfterUpdate(rest, 0, [list[0]] + lists[0]);
  }

  lemma PopBackMeaning(words: seq<int>, num: nat, cap: nat, lists: seq<seq<nat>>, q: nat)
    requires Represents(words, num, cap, lists) && q < num && lists[q + 1] != []
    ensures UnlinkBackReady(words, q + 1) && FrontReady(UnlinkBack(words, q + 1), 0, End(words, q + 1))
    ensures
      var list, qs := lists[q + 1], Queues(words, num, cap, lists);
      var n := |list| - 1;
      var lists' := lists[q + 1 := list[..n]][0 := [list[n]] + lists[0]];
      Becomes(words, PopBackWords(words, q), num, cap, lists', qs[q := qs[q][..n]])
  {
    hide Pack, High, Low, IsBlock, AllDistinct, Absent, ListStored, ReadElement, UnlinkBack, LinkFront, Begin, End;
    var n := |lists[q + 1]| - 1;
    var list, rest := lists[q + 1], lists[q + 1 := lists[q + 1][..n]];
    UnlinkBackLinked(words, num, cap, lists, q + 1);
    assert InBlocks(num, cap, list) && InBlocks(num, cap, rest[q + 1]);
    QueuesAfter(words, UnlinkBack(words, q + 1), num, cap, lists, q + 1, list[..n]);
    assert Contents(words, num, cap, list[..n]) == Contents(words, num, cap, list)[..n];
    FreeMeaning(UnlinkBack(words, q + 1), num, cap, rest, list[n]);
    TotalAfterUpdate(lists, q + 1, list[..n]);
    TotalAfterUpdate(rest, 0, [list[n]] + lists[0]);
  }

  /** Following next addresses from the first block visits the blocks of a queue in order and stops with 0. */
  lemma WalkMeaning(words: seq<int>, num: nat, cap: nat, lists: seq<seq<nat>>, q: nat)
    requires Represents(words, num, cap, lists) && q < num
    ensures |lists| == num + 1 && |lists[q + 1]| == |Queues(words, num, cap, lists)[q]|
    ensures Header(q + 1) < |words| && Begin(words, q + 1) == FirstOf(lists[q + 1])
    ensures
      var list := lists[q + 1];
      forall k: nat :: k < |list| ==> 0 < list[k] < |words| && Low(words[list[k]]) == NextIn(list, k)
  {
    hide Pack, High, Low, IsBlock, AllDistinct, ListStored, Begin, End;
    ListRead(words, num, cap, q + 1, lists[q + 1]);
    LinkRange(num, cap, lists[q + 1]);
  }

  /** Where front and back find their element. */
  lemma EndsMeaning(words: seq<int>, num: nat, cap: nat, lists: seq<seq<nat>>, q: nat)
    requires Represents(words, num, cap, lists) && q < num && Queues(words, num, cap, lists)[q] != []
    ensures |lists| == num + 1 && lists[q + 1] != []
    ensures
      var qs := Queues(words, num, cap, lists);
      && Header(q + 1) < |words| && |qs[q]| == |lists[q + 1]|
      && 0 <= Begin(words, q + 1) && Begin(words, q + 1) + 2 < |words|
      && ReadElement(words, Begin(words, q + 1)) == qs[q][0]
      && End(words, q + 1) + 2 < |words|
      && ReadElement(words, End(words, q + 1)) == qs[q][|qs[q]| - 1]
  {
    hide Pack, High, Low, IsBlock, ReadElement, AllDistinct, ListStored, Begin, End;
    var list := lists[q + 1];
    Emptiness(words, num, cap, lists, q + 1);
    assert InBlocks(num, cap, list);
    BlockRange(num, cap, list[0]);
    BlockRange(num, cap, list[|list| - 1]);
  }

  // ---- conservation ----

  ghost function FreeCount(lists: seq<seq<nat>>): nat
    requires lists != []
  {
    |lists[0]|
  }

  ghost function TotalQueued(qs: seq<seq<Element>>): nat {
    if qs == [] then 0 else |qs[0]| + TotalQueued(qs[1..])
  }

  lemma {:induction false} QueuedPlusOne(qs: seq<seq<Element>>, q: nat, e: Element)
    requires q < |qs|
    ensures TotalQueued(qs[q := qs[q] + [e]]) == TotalQueued(qs) + 1
  {
    if q == 0 {
      assert qs[0 := qs[0] + [e]][1..] == qs[1..];
    } else {
      QueuedPlusOne(qs[1..], q - 1, e);
      assert qs[q := qs[q] + [e]][1..] == qs[1..][q - 1 := qs[1..][q - 1] + [e]];
    }
  }

  lemma {:induction false} NothingQueued(qs: seq<seq<Element>>)
    requires forall q: nat :: q < |qs| ==> qs[q] == []
    ensures TotalQueued(qs) == 0
  {
    if qs != [] {
      NothingQueued(qs[1..]);
    }
  }

  lemma {:induction false} QueuedNoMore(qs: seq<seq<Element>>, qs': seq<seq<Element>>)
    requires |qs| == |qs'| && forall q: nat :: q < |qs| ==> |qs'[q]| <= |qs[q]|
    ensures TotalQueued(qs') <= TotalQueued(qs)
  {
    if qs != [] {
      QueuedNoMore(qs[1..], qs'[1..]);
    }
  }

  lemma {:induction false} SameTotals(lists: seq<seq<nat>>, qs: seq<seq<Element>>)
    requires |lists| == |qs|
    requires forall q: nat :: q < |qs| ==> |qs[q]| == |lists[q]|
    ensures TotalLength(lists) == TotalQueued(qs)
  {
    if qs != [] {
      SameTotals(lists[1..], qs[1..]);
    }
  }

  /** Free blocks and queued elements always make up the capacity. */
  lemma Conservation(words: seq<int>, num: nat, cap: nat, lists: seq<seq<nat>>)
    requires Represents(words, num, cap, lists)
    ensures |lists| == num + 1
    ensures FreeCount(lists) + TotalQueued(Queues(words, num, cap, lists)) == cap
  {
    SameTotals(lists[1..], Queues(words, num, cap, lists));
  }

  ghost function BlocksOf(lists: seq<seq<nat>>): set<nat> {
    set l: nat, k: nat | l < |lists| && k < |lists[l]| :: lists[l][k]
  }

  ghost function Elements(list: seq<nat>): set<nat> {
    set k: nat | k < |list| :: list[k]
  }

  lemma {:induction false} CountElements(list: seq<nat>)
    requires forall j: nat, k: nat :: j < k < |list| ==> list[j] != list[k]
    ensures |Elements(list)| == |list|
  {
    if list != [] {
      var n := |list| - 1;
      CountElements(list[..n]);
      assert Elements(list) == Elements(list[..n]) + {list[n]};
      assert list[n] !in Elements(list[..n]);
    }
  }

  lemma TailDistinct(lists: seq<seq<nat>>)
    requires AllDistinct(lists) && lists != []
    ensures AllDistinct(lists[1..])
  {
    var rest := lists[1..];
    forall l: nat, k: nat, l': nat, k': nat |
      l < |rest| && k < |rest[l]| && l' < |rest| && k' < |rest[l']| && rest[l][k] == rest[l'][k']
      ensures l == l' && k == k'
    {
      assert lists[l + 1][k] == lists[l' + 1][k'];
    }
  }

  lemma BlocksSplit(lists: seq<seq<nat>>)
    requires AllDistinct(lists) && lists != []
    ensures BlocksOf(lists) == Elements(lists[0]) + BlocksOf(lists[1..])
    ensures Elements(lists[0]) !! BlocksOf(lists[1..])
  {
    hide AllDistinct;
    var rest := lists[1..];
    forall b | b in BlocksOf(lists)
      ensures b in Elements(lists[0]) + BlocksOf(rest)
    {
      var l: nat, k: nat :| l < |lists| && k < |lists[l]| && lists[l][k] == b;
      assert l > 0 ==> rest[l - 1][k] == b;
    }
    forall b | b in BlocksOf(rest)
      ensures b in BlocksOf(lists) && b !in Elements(lists[0])
    {
      var l: nat, k: nat :| l < |rest| && k < |rest[l]| && rest[l][k] == b;
      assert lists[l + 1][k] == b;
      OnlyThere(lists, l + 1, k);
    }
  }

  lemma {:induction false} CountBlocks(lists: seq<seq<nat>>)
    requires AllDistinct(lists)
    ensures |BlocksOf(lists)| == TotalLength(lists)
  {
    if lists != [] {
      TailDistinct(lists);
      CountBlocks(lists[1..]);
      CountElements(lists[0]);
      BlocksSplit(lists);
    }
  }

  ghost function AllBlocks(num: nat, cap: nat): set<nat> {
    set t: nat | t < cap :: Block(num, t)
  }

  lemma {:induction false} CountAllBlocks(num: nat, cap: nat)
    ensures |AllBlocks(num, cap)| == cap
  {
    if cap > 0 {
      CountAllBlocks(num, cap - 1);
      assert AllBlocks(num, cap) == AllBlocks(num, cap - 1) + {Block(num, cap - 1)};
    }
  }

  lemma SubsetOfEqualSize<T>(a: set<T>, b: set<T>)
    requires a <= b && |a| == |b|
    ensures a == b
  {
    assert |b - a| == |b| - |a|;
  }

  lemma BlocksAreAll(words: seq<int>, num: nat, cap: nat, lists: seq<seq<nat>>)
    requires Represents(words, num, cap, lists)
    ensures BlocksOf(lists) == AllBlocks(num, cap)
  {
    hide AllDistinct, ListStored;
    CountBlocks(lists);
    CountAllBlocks(num, cap);
    forall b | b in BlocksOf(lists)
      ensures b in AllBlocks(num, cap)
    {
      var l: nat, k: nat :| l < |lists| && k < |lists[l]| && lists[l][k] == b;
      assert InBlocks(num, cap, lists[l]) && IsBlock(num, cap, b);
      assert b == Block(num, (b - 3 - num) / 3);
    }
    SubsetOfEqualSize(BlocksOf(lists), AllBlocks(num, cap));
  }

  /** Every block is in exactly one place of exactly one list: none is lost, none is shared. */
  lemma EveryBlockInOneList(words: seq<int>, num: nat, cap: nat, lists: seq<seq<nat>>, t: nat)
    returns (l: nat, k: nat)
    requires Represents(words, num, cap, lists) && t < cap
    ensures l < |lists| && k < |lists[l]| && lists[l][k] == Block(num, t)
    ensures forall g: nat, j: nat :: g < |lists| && j < |lists[g]| && lists[g][j] == Block(num, t) ==> g == l && j == k
  {
    hide AllDistinct, ListStored, IsBlock;
    BlocksAreAll(words, num, cap, lists);
    assert Block(num, t) in BlocksOf(lists);
    l, k :| l < |lists| && k < |lists[l]| && lists[l][k] == Block(num, t);
    OnlyThere(lists, l, k);
  }

  // ---- the constructor's layout ----

  /** The links the constructor gives block t: an else-if, so the last block is ended only if it is not also the first. */
  function InitialLink(num: nat, cap: nat, t: nat): int
    requires t < cap
  {
    var prev := if t == 0 then 0 else Block(num, t - 1);
    var next := if t != 0 && t == cap - 1 then 0 else Block(num, t + 1);
    Pack(prev, next)
  }

  ghost predicate InitialLayout(words: seq<int>, num: nat, cap: nat) {
    && |words| == WordCount(num, cap)
    && words[0] == WordCount(num, cap)
    && words[Header(0)] == Pack(3 + num, WordCount(num, cap) - 3)
    && (forall l: nat :: 0 < l <= num ==> words[Header(l)] == 0)
    && (forall t: nat :: t < cap ==> words[Block(num, t)] == InitialLink(num, cap, t))
  }

  ghost function AllFree(num: nat, cap: nat): (list: seq<nat>)
    ensures |list| == cap
  {
    seq(cap, t requires 0 <= t < cap => Block(num, t))
  }

  ghost function FreshLists(num: nat, cap: nat): (lists: seq<seq<nat>>)
    ensures |lists| == num + 1 && lists[0] == AllFree(num, cap)
    ensures forall l: nat :: 0 < l <= num ==> lists[l] == []
  {
    [AllFree(num, cap)] + seq(num, q => [])
  }

  lemma {:induction false} TotalOfEmpties(lists: seq<seq<nat>>)
    requires forall l: nat :: l < |lists| ==> lists[l] == []
    ensures TotalLength(lists) == 0
  {
    if lists != [] {
      TotalOfEmpties(lists[1..]);
    }
  }

  lemma FreshBlocks(num: nat, cap: nat)
    ensures InBlocks(num, cap, AllFree(num, cap)) && AllDistinct(FreshLists(num, cap))
  {
    forall t: nat | t < cap
      ensures IsBlock(num, cap, AllFree(num, cap)[t])
    {
      assert (3 * t) % 3 == 0;
    }
  }

  lemma InitialLinkAt(num: nat, cap: nat, t: nat)
    requires t < cap && cap >= 2
    ensures InitialLink(num, cap, t) == Pack(PrevIn(AllFree(num, cap), t), NextIn(AllFree(num, cap), t))
  {
    hide Pack;
  }

  lemma InitialFreeList(words: seq<int>, num: nat, cap: nat)
    requires Addressable(num, cap) && cap >= 2 && InitialLayout(words, num, cap)
    requires InBlocks(num, cap, AllFree(num, cap))
    ensures ListStored(words, num, cap, 0, AllFree(num, cap))
  {
    hide Pack, IsBlock, InBlocks, InitialLink, PrevIn, NextIn;
    forall t: nat | t < cap
      ensures words[Block(num, t)] == Pack(PrevIn(AllFree(num, cap), t), NextIn(AllFree(num, cap), t))
    {
      InitialLinkAt(num, cap, t);
    }
  }

  lemma InitialLinked(words: seq<int>, num: nat, cap: nat)
    requires Addressable(num, cap) && cap >= 2 && InitialLayout(words, num, cap)
    ensures Linked(words, num, cap, FreshLists(num, cap))
  {
    hide Pack, IsBlock, AllDistinct, InitialLink, FreshLists, AllFree;
    PackRoundTrip(0, 0);
    FreshBlocks(num, cap);
    InitialFreeList(words, num, cap);
    var lists := FreshLists(num, cap);
    forall l: nat | l < |lists|
      ensures InBlocks(num, cap, lists[l]) && ListStored(words, num, cap, l, lists[l])
    {
      assert l > 0 ==> words[Header(l)] == 0;
    }
  }

  /** With two blocks or more the constructor leaves every block free and every queue empty. */
  lemma InitialRepresents(words: seq<int>, num: nat, cap: nat)
    requires Addressable(num, cap) && cap >= 2 && InitialLayout(words, num, cap)
    ensures Represents(words, num, cap, FreshLists(num, cap))
    ensures Queues(words, num, cap, FreshLists(num, cap)) == seq(num, q => [])
  {
    hide Linked, InitialLayout;
    InitialLinked(words, num, cap);
    TotalOfEmpties(FreshLists(num, cap)[1..]);
  }

  lemma InitialNotStored(words: seq<int>, num: nat, cap: nat, list: seq<nat>)
    requires Addressable(num, cap) && cap < 2 && InitialLayout(words, num, cap)
    requires InBlocks(num, cap, list) && |list| <= cap
    ensures !ListStored(words, num, cap, 0, list)
  {
    PackRoundTrip(0, 0);
    if list == [] {
      PackRoundTrip(3 + num, WordCount(num, cap) - 3);
      assert words[Header(0)] != Pack(0, 0);
    } else {
      PackRoundTrip(0, 6 + num);
      assert list[0] == Block(num, 0) && words[list[0]] == InitialLink(num, cap, 0) == Pack(0, 6 + num);
      assert words[list[0]] != Pack(PrevIn(list, 0), NextIn(list, 0));
    }
  }

  /** With fewer than two blocks the free list is broken from the start: no assignment of blocks to lists fits. */
  lemma InitialBroken(words: seq<int>, num: nat, cap: nat, lists: seq<seq<nat>>)
    requires Addressable(num, cap) && cap < 2 && InitialLayout(words, num, cap)
    ensures !Represents(words, num, cap, lists)
  {
    if |lists| == num + 1 && InBlocks(num, cap, lists[0]) && |lists[0]| <= cap {
      InitialNotStored(words, num, cap, lists[0]);
    }
  }
}

/**
 * The word format of the multi-queue: many FIFO queues and a free list, each a doubly linked list of
 * three-word blocks inside one array, two 16-bit addresses packed per word.
 *
 * List 0 is the free list (queue id -1 in the code) and list q + 1 is queue q, so the header of list l is
 * word 2 + l. The link surgery is written as functions on the array; Linked relates an array to the block
 * addresses of every list.
 */
module QueueWords {

  /** The two-word payload both users of the multi-queue store. */
  datatype Element = Element(value: int, perm: int)

  const TWO_16 := 0x1_0000
  const TWO_31 := 0x8000_0000
  const TWO_32 := 0x1_0000_0000

  /** (hi << 16) | lo as a signed 32-bit word; the halves do not overlap in any call. */
  function Pack(hi: nat, lo: nat): int {
    var bits := (hi * TWO_16 + lo) % TWO_32;
    if bits < TWO_31 then bits else bits - TWO_32
  }

  /** w >> 16 on a signed word: the sign is shifted in. */
  function High(w: int): int {
    w / TWO_16
  }

  /** w & 0xffff. */
  function Low(w: int): nat {
    w % TWO_16
  }

  /** The low address always survives packing, the high one exactly when it is below 32768. */
  lemma PackRoundTrip(hi: nat, lo: nat)
    requires hi < TWO_16 && lo < TWO_16
    ensures Low(Pack(hi, lo)) == lo
    ensures High(Pack(hi, lo)) == hi <==> hi < 0x8000
    ensures Pack(hi, lo) == 0 <==> hi == 0 && lo == 0
    ensures -TWO_31 <= Pack(hi, lo) < TWO_31
  {
  }

  // ---- addresses ----

  /** Number of words behind the header and how they are used. */
  function WordCount(num: nat, cap: nat): nat {
    3 + num + 3 * cap
  }

  /** Where the begin and end address of list l are kept. */
  function Header(l: nat): nat {
    2 + l
  }

  function Block(num: nat, t: nat): nat {
    3 + num + 3 * t
  }

  predicate IsBlock(num: nat, cap: nat, a: int) {
    3 + num <= a < WordCount(num, cap) && (a - 3 - num) % 3 == 0
  }

  /** Every block address survives in the high half of a word. */
  predicate Addressable(num: nat, cap: nat) {
    num + 3 * cap < 0x8000
  }

  // ---- the link surgery on the array ----

  predicate Readable(words: seq<int>, a: int) {
    0 <= a < |words| && 0 <= High(words[a]) < |words| <= TWO_16
  }

  function Begin(words: seq<int>, l: nat): int
    requires Header(l) < |words|
  {
    High(words[Header(l)])
  }

  function End(words: seq<int>, l: nat): nat
    requires Header(l) < |words|
  {
    Low(words[Header(l)])
  }

  function SetQueue(words: seq<int>, l: nat, begin: nat, end: nat): seq<int>
    requires Header(l) < |words|
  {
    words[Header(l) := Pack(begin, end)]
  }

  function SetBlock(words: seq<int>, a: nat, prev: nat, next: nat): seq<int>
    requires a < |words|
  {
    words[a := Pack(prev, next)]
  }

  /** The first block leaves list l. */
  function UnlinkFront(words: seq<int>, l: nat): seq<int>
    requires Header(l) < |words| && Readable(words, Begin(words, l))
    requires Low(words[Begin(words, l)]) < |words|
  {
    var next := Low(words[Begin(words, l)]);
    if next == 0 then SetQueue(words, l, 0, 0)
    else
      var w := SetBlock(words, next, 0, Low(words[next]));
      SetQueue(w, l, next, End(w, l))
  }

  /** The last block leaves list l. */
  function UnlinkBack(words: seq<int>, l: nat): seq<int>
    requires Header(l) < |words| && Readable(words, Header(l)) && End(words, l) < |words|
    requires Readable(words, End(words, l))
    requires High(words[End(words, l)]) == 0 || Readable(words, High(words[End(words, l)]))
    requires High(words[End(words, l)]) != Header(l)
  {
    var prev := High(words[End(words, l)]);
    if prev == 0 then SetQueue(words, l, 0, 0)
    else
      var w := SetBlock(words, prev, High(words[prev]), 0);
      SetQueue(w, l, Begin(w, l), prev)
  }

  /** Block a becomes the first of list l. */
  function LinkFront(words: seq<int>, l: nat, a: nat): seq<int>
    requires Header(l) < |words| && a < |words| && Readable(words, Header(l))
    requires |words| <= TWO_16
  {
    var begin := Begin(words, l);
    if begin == 0 then SetQueue(SetBlock(words, a, 0, 0), l, a, a)
    else
      var w := SetBlock(SetBlock(words, begin, a, Low(words[begin])), a, 0, begin);
      SetQueue(w, l, a, End(w, l))
  }

  /** Block a becomes the last of list l. */
  function LinkBack(words: seq<int>, l: nat, a: nat): seq<int>
    requires Header(l) < |words| && a < |words| && Readable(words, Header(l))
    requires End(words, l) == 0 || Readable(words, End(words, l))
    requires End(words, l) != Header(l) && a != Header(l)
  {
    var end := End(words, l);
    if end == 0 then SetQueue(SetBlock(words, a, 0, 0), l, a, a)
    else
      var w := SetBlock(SetBlock(words, end, High(words[end]), a), a, end, 0);
      SetQueue(w, l, Begin(w, l), a)
  }

  function WriteElement(words: seq<int>, a: nat, e: Element): seq<int>
    requires a + 2 < |words|
  {
    words[a + 1 := e.value][a + 2 := e.perm]
  }

  function ReadElement(words: seq<int>, a: nat): Element
    requires a + 2 < |words|
  {
    Element(words[a + 1], words[a + 2])
  }

  // ---- what an array stores ----

  function PrevIn(list: seq<nat>, k: nat): nat
    requires k < |list|
  {
    if k == 0 then 0 else list[k - 1]
  }

  function NextIn(list: seq<nat>, k: nat): nat
    requires k < |list|
  {
    if k + 1 == |list| then 0 else list[k + 1]
  }

  function FirstOf(list: seq<nat>): nat {
    if list == [] then 0 else list[0]
  }

  function LastOf(list: seq<nat>): nat {
    if list == [] then 0 else list[|list| - 1]
  }

  ghost predicate InBlocks(num: nat, cap: nat, list: seq<nat>) {
    forall k: nat :: k < |list| ==> IsBlock(num, cap, list[k])
  }

  /** Header and links of list l: begin and end match, prev inverts next, both ends carry address 0. */
  ghost predicate ListStored(words: seq<int>, num: nat, cap: nat, l: nat, list: seq<nat>)
    requires |words| == WordCount(num, cap) && Addressable(num, cap) && l <= num && InBlocks(num, cap, list)
  {
    && words[Header(l)] == Pack(FirstOf(list), LastOf(list))
    && forall k: nat :: k < |list| ==> words[list[k]] == Pack(PrevIn(list, k), NextIn(list, k))
  }

  /** No block occurs twice, in one list or in two. */
  ghost predicate AllDistinct(lists: seq<seq<nat>>) {
    forall l: nat, k: nat, l': nat, k': nat ::
      l < |lists| && k < |lists[l]| && l' < |lists| && k' < |lists[l']| && lists[l][k] == lists[l'][k'] ==> l == l' && k == k'
  }

  ghost predicate Linked(words: seq<int>, num: nat, cap: nat, lists: seq<seq<nat>>) {
    && |words| == WordCount(num, cap) && Addressable(num, cap)
    && |lists| == num + 1
    && (forall l: nat :: l < |lists| ==> InBlocks(num, cap, lists[l]))
    && (forall l: nat :: l < |lists| ==> ListStored(words, num, cap, l, lists[l]))
    && AllDistinct(lists)
  }

  ghost predicate Absent(lists: seq<seq<nat>>, a: nat) {
    forall l: nat, k: nat :: l < |lists| && k < |lists[l]| ==> lists[l][k] != a
  }

  /** words' agrees with words on the two global words and on every payload word. */
  ghost predicate PayloadKept(words: seq<int>, words': seq<int>, num: nat, cap: nat)
    requires |words| == |words'| == WordCount(num, cap)
  {
    && words'[0] == words[0] && words'[1] == words[1]
    && forall a: nat :: IsBlock(num, cap, a) ==> words'[a + 1] == words[a + 1] && words'[a + 2] == words[a + 2]
  }

  // ---- the surgery does what it should ----

  lemma BlockRange(num: nat, cap: nat, a: nat)
    requires IsBlock(num, cap, a)
    ensures 3 + num <= a && a + 2 < WordCount(num, cap)
    ensures forall b: nat :: IsBlock(num, cap, b) ==> b != a + 1 && b != a + 2
  {
  }

  lemma LinkRange(num: nat, cap: nat, list: seq<nat>)
    requires InBlocks(num, cap, list) && Addressable(num, cap)
    ensures FirstOf(list) < 0x8000 && FirstOf(list) < WordCount(num, cap) && LastOf(list) < 0x8000
    ensures LastOf(list) < WordCount(num, cap)
    ensures forall k: nat :: k < |list| ==>
              && 0 < list[k] < 0x8000 && list[k] < WordCount(num, cap)
              && PrevIn(list, k) < 0x8000 && PrevIn(list, k) < WordCount(num, cap)
              && NextIn(list, k) < 0x8000 && NextIn(list, k) < WordCount(num, cap)
  {
    assert list != [] ==> IsBlock(num, cap, list[0]) && IsBlock(num, cap, list[|list| - 1]);
    forall k: nat | k < |list|
      ensures 0 < list[k] < 0x8000 && list[k] < WordCount(num, cap)
    {
      assert IsBlock(num, cap, list[k]);
    }
  }

  lemma ListRead(words: seq<int>, num: nat, cap: nat, l: nat, list: seq<nat>)
    requires |words| == WordCount(num, cap) && Addressable(num, cap) && l <= num && InBlocks(num, cap, list)
    requires ListStored(words, num, cap, l, list)
    ensures Begin(words, l) == FirstOf(list) && End(words, l) == LastOf(list) && Readable(words, Header(l))
    ensures forall k: nat :: k < |list| ==>
              && Readable(words, list[k]) && High(words[list[k]]) == PrevIn(list, k) && Low(words[list[k]]) == NextIn(list, k)
  {
    hide Pack, High, Low, IsBlock;
    LinkRange(num, cap, list);
    PackRoundTrip(FirstOf(list), LastOf(list));
    forall k: nat | k < |list|
      ensures Readable(words, list[k]) && High(words[list[k]]) == PrevIn(list, k)
      ensures Low(words[list[k]]) == NextIn(list, k)
    {
      PackRoundTrip(PrevIn(list, k), NextIn(list, k));
    }
  }

  /** A list whose header and blocks are untouched is still stored. */
  lemma ListKept(words: seq<int>, words': seq<int>, num: nat, cap: nat, lists: seq<seq<nat>>, l: nat)
    requires Linked(words, num, cap, lists) && l < |lists| && |words'| == |words|
    requires words'[Header(l)] == words[Header(l)]
    requires forall k: nat :: k < |lists[l]| ==> IsBlock(num, cap, lists[l][k]) && words'[lists[l][k]] == words[lists[l][k]]
    ensures InBlocks(num, cap, lists[l]) && ListStored(words', num, cap, l, lists[l])
  {
    hide Pack, IsBlock;
    assert ListStored(words, num, cap, l, lists[l]);
  }

  lemma OnlyThere(lists: seq<seq<nat>>, l: nat, k: nat)
    requires AllDistinct(lists) && l < |lists| && k < |lists[l]|
    ensures forall g: nat, j: nat :: g < |lists| && j < |lists[g]| && (g != l || j != k) ==> lists[g][j] != lists[l][k]
  {
  }

  lemma HeaderNotIn(num: nat, cap: nat, list: seq<nat>, l: nat)
    requires InBlocks(num, cap, list) && l <= num
    ensures Header(l) !in list
  {
    forall k: nat | k < |list|
      ensures list[k] != Header(l)
    {
      BlockRange(num, cap, list[k]);
    }
  }

  lemma PayloadNotIn(num: nat, cap: nat, list: seq<nat>, b: nat)
    requires InBlocks(num, cap, list) && IsBlock(num, cap, b)
    ensures b + 1 !in list && b + 2 !in list
  {
    hide IsBlock;
    BlockRange(num, cap, b);
  }

  lemma GlobalsNotIn(num: nat, cap: nat, list: seq<nat>)
    requires InBlocks(num, cap, list)
    ensures 0 !in list && 1 !in list
  {
    forall k: nat | k < |list|
      ensures list[k] > 1
    {
      BlockRange(num, cap, list[k]);
    }
  }

  lemma OthersKept(words: seq<int>, words': seq<int>, num: nat, cap: nat, lists: seq<seq<nat>>, l: nat, a: nat, g: nat)
    requires Linked(words, num, cap, lists) && l < |lists| && g < |lists| && g != l && |words'| == |words|
    requires IsBlock(num, cap, a) && (a in lists[l] || Absent(lists, a))
    requires forall i: nat :: i < |words| && i != Header(l) && i != a && i !in lists[l] ==> words'[i] == words[i]
    ensures InBlocks(num, cap, lists[g]) && ListStored(words', num, cap, g, lists[g])
  {
    hide Pack, IsBlock, AllDistinct;
    BlockRange(num, cap, a);
    HeaderNotIn(num, cap, lists[l], g);
    forall k: nat | k < |lists[g]|
      ensures IsBlock(num, cap, lists[g][k]) && lists[g][k] < |words| && words'[lists[g][k]] == words[lists[g][k]]
    {
      OnlyThere(lists, g, k);
      assert InBlocks(num, cap, lists[g]);
      BlockRange(num, cap, lists[g][k]);
    }
    ListKept(words, words', num, cap, lists, g);
  }

  lemma OnlyOnce(lists: seq<seq<nat>>, l: nat, list: seq<nat>, k: nat)
    requires AllDistinct(lists) && l < |lists| && lists[l] == list && k < |list|
    ensures forall j: nat :: j < |list| && j != k ==> list[j] != list[k]
  {
  }

  /**
   * Rewriting the links of list l, and of one block a that is in l or in no list, keeps the array linked and
   * every payload in place.
   */
  lemma Rewired(words: seq<int>, words': seq<int>, num: nat, cap: nat, lists: seq<seq<nat>>, l: nat, list: seq<nat>,
                a: nat)
    requires Linked(words, num, cap, lists) && l < |lists| && |words'| == |words|
    requires IsBlock(num, cap, a) && (a in lists[l] || Absent(lists, a))
    requires forall i: nat :: i < |words| && i != Header(l) && i != a && i !in lists[l] ==> words'[i] == words[i]
    requires InBlocks(num, cap, list) && ListStored(words', num, cap, l, list)
    requires AllDistinct(lists[l := list])
    ensures Linked(words', num, cap, lists[l := list]) && PayloadKept(words, words', num, cap)
  {
    hide Pack, IsBlock, AllDistinct, Absent, ListStored, InBlocks;
    var lists' := lists[l := list];
    forall g: nat | g < |lists'|
      ensures InBlocks(num, cap, lists'[g]) && ListStored(words', num, cap, g, lists'[g])
    {
      if g != l {
        OthersKept(words, words', num, cap, lists, l, a, g);
      }
    }
    BlockRange(num, cap, a);
    GlobalsNotIn(num, cap, lists[l]);
    forall b: nat | IsBlock(num, cap, b)
      ensures b + 2 < |words| && words'[b + 1] == words[b + 1] && words'[b + 2] == words[b + 2]
    {
      BlockRange(num, cap, b);
      PayloadNotIn(num, cap, lists[l], b);
    }
  }

  lemma NotIn(lists: seq<seq<nat>>, l: nat, a: nat)
    requires l < |lists| && Absent(lists, a)
    ensures a !in lists[l]
  {
  }

  lemma DropFirst(lists: seq<seq<nat>>, l: nat)
    requires AllDistinct(lists) && l < |lists| && lists[l] != []
    ensures AllDistinct(lists[l := lists[l][1..]]) && Absent(lists[l := lists[l][1..]], lists[l][0])
  {
  }

  lemma DropLast(lists: seq<seq<nat>>, l: nat)
    requires AllDistinct(lists) && l < |lists| && lists[l] != []
    ensures
      var n := |lists[l]| - 1;
      AllDistinct(lists[l := lists[l][..n]]) && Absent(lists[l := lists[l][..n]], lists[l][n])
  {
  }

  lemma AddFirst(lists: seq<seq<nat>>, l: nat, a: nat)
    requires AllDistinct(lists) && l < |lists| && Absent(lists, a)
    ensures AllDistinct(lists[l := [a] + lists[l]])
  {
  }

  lemma AddLast(lists: seq<seq<nat>>, l: nat, a: nat)
    requires AllDistinct(lists) && l < |lists| && Absent(lists, a)
    ensures AllDistinct(lists[l := lists[l] + [a]])
  {
  }

  lemma UnlinkFrontLinked(words: seq<int>, num: nat, cap: nat, lists: seq<seq<nat>>, l: nat)
    requires Linked(words, num, cap, lists) && l < |lists| && lists[l] != []
    ensures Header(l) < |words| && Readable(words, Begin(words, l)) && Low(words[Begin(words, l)]) < |words|
    ensures Begin(words, l) == lists[l][0]
    ensures Linked(UnlinkFront(words, l), num, cap, lists[l := lists[l][1..]])
    ensures PayloadKept(words, UnlinkFront(words, l), num, cap)
    ensures Absent(lists[l := lists[l][1..]], lists[l][0])
  {
    hide Pack, High, Low, IsBlock, AllDistinct, Absent;
    var list, rest := lists[l], lists[l][1..];
    LinkRange(num, cap, list);
    ListRead(words, num, cap, l, list);
    DropFirst(lists, l);
    var words' := UnlinkFront(words, l);
    if rest != [] {
      BlockRange(num, cap, list[1]);
      OnlyOnce(lists, l, list, 1);
      assert words' == words[list[1] := Pack(0, NextIn(list, 1))][Header(l) := Pack(list[1], LastOf(list))];
    }
    forall k: nat | k < |rest|
      ensures IsBlock(num, cap, rest[k]) && words'[rest[k]] == Pack(PrevIn(rest, k), NextIn(rest, k))
    {
      assert rest[k] == list[k + 1];
      BlockRange(num, cap, list[k + 1]);
    }
    Rewired(words, words', num, cap, lists, l, rest, list[0]);
  }

  lemma UnlinkBackLinked(words: seq<int>, num: nat, cap: nat, lists: seq<seq<nat>>, l: nat)
    requires Linked(words, num, cap, lists) && l < |lists| && lists[l] != []
    ensures Header(l) < |words| && Readable(words, Header(l)) && End(words, l) < |words| && Readable(words, End(words, l))
    ensures High(words[End(words, l)]) == 0 || Readable(words, High(words[End(words, l)]))
    ensures High(words[End(words, l)]) != Header(l)
    ensures
      var n := |lists[l]| - 1;
      && End(words, l) == lists[l][n]
      && Linked(UnlinkBack(words, l), num, cap, lists[l := lists[l][..n]])
      && PayloadKept(words, UnlinkBack(words, l), num, cap)
      && Absent(lists[l := lists[l][..n]], lists[l][n])
  {
    hide Pack, High, Low, IsBlock, AllDistinct, Absent;
    var n := |lists[l]| - 1;
    var list, rest := lists[l], lists[l][..n];
    LinkRange(num, cap, list);
    ListRead(words, num, cap, l, list);
    DropLast(lists, l);
    if rest != [] {
      BlockRange(num, cap, list[n - 1]);
    }
    var words' := UnlinkBack(words, l);
    if rest != [] {
      OnlyOnce(lists, l, list, n - 1);
      assert words' == words[list[n - 1] := Pack(PrevIn(list, n - 1), 0)][Header(l) := Pack(list[0], list[n - 1])];
    }
    forall k: nat | k < |rest|
      ensures IsBlock(num, cap, rest[k]) && words'[rest[k]] == Pack(PrevIn(rest, k), NextIn(rest, k))
    {
      assert rest[k] == list[k];
      BlockRange(num, cap, list[k]);
    }
    Rewired(words, words', num, cap, lists, l, rest, list[n]);
  }

  ghost predicate InWords(words: seq<int>, list: seq<nat>) {
    forall k: nat :: k < |list| ==> list[k] < |words| && list[k] < TWO_16
  }

  lemma GrowBlocks(num: nat, cap: nat, list: seq<nat>, a: nat)
    requires InBlocks(num, cap, list) && IsBlock(num, cap, a)
    ensures InBlocks(num, cap, [a] + list) && InBlocks(num, cap, list + [a])
  {
    hide IsBlock;
  }

  /** What LinkFront writes when list l holds list. */
  ghost function FrontLinked(words: seq<int>, l: nat, list: seq<nat>, a: nat): seq<int>
    requires Header(l) < |words| && a < |words| && a < TWO_16 && LastOf(list) < TWO_16
    requires InWords(words, list)
  {
    if list == [] then words[a := Pack(0, 0)][Header(l) := Pack(a, a)]
    else words[list[0] := Pack(a, NextIn(list, 0))][a := Pack(0, list[0])][Header(l) := Pack(a, LastOf(list))]
  }

  /** What LinkBack writes when list l holds list. */
  ghost function BackLinked(words: seq<int>, l: nat, list: seq<nat>, a: nat): seq<int>
    requires Header(l) < |words| && a < |words| && a < TWO_16
    requires InWords(words, list)
  {
    if list == [] then words[a := Pack(0, 0)][Header(l) := Pack(a, a)]
    else
      var n := |list| - 1;
      words[list[n] := Pack(PrevIn(list, n), a)][a := Pack(list[n], 0)][Header(l) := Pack(list[0], a)]
  }

  lemma LinkWrites(words: seq<int>, num: nat, cap: nat, lists: seq<seq<nat>>, l: nat, a: nat)
    requires Linked(words, num, cap, lists) && l < |lists| && IsBlock(num, cap, a) && Absent(lists, a)
    ensures |words| <= TWO_16 && Header(l) < a < |words| && a < TWO_16 && LastOf(lists[l]) < TWO_16
    ensures InWords(words, lists[l])
    ensures Readable(words, Header(l)) && Begin(words, l) == FirstOf(lists[l])
    ensures End(words, l) != Header(l) && (End(words, l) == 0 || Readable(words, End(words, l)))
    ensures LinkFront(words, l, a) == FrontLinked(words, l, lists[l], a)
    ensures LinkBack(words, l, a) == BackLinked(words, l, lists[l], a)
  {
    hide Pack, High, Low, IsBlock, AllDistinct, Absent, ListStored;
    var list := lists[l];
    NotIn(lists, l, a);
    LinkRange(num, cap, list);
    ListRead(words, num, cap, l, list);
    BlockRange(num, cap, a);
    if list != [] {
      BlockRange(num, cap, list[0]);
      BlockRange(num, cap, list[|list| - 1]);
    }
  }

  lemma FrontStored(words: seq<int>, num: nat, cap: nat, lists: seq<seq<nat>>, l: nat, a: nat)
    requires Linked(words, num, cap, lists) && l < |lists| && IsBlock(num, cap, a) && Absent(lists, a)
    requires Header(l) < a < |words| && a < TWO_16 && LastOf(lists[l]) < TWO_16
    requires InWords(words, lists[l])
    requires InBlocks(num, cap, [a] + lists[l])
    ensures ListStored(FrontLinked(words, l, lists[l], a), num, cap, l, [a] + lists[l])
  {
    hide Pack, IsBlock, AllDistinct, Absent;
    var list, more := lists[l], [a] + lists[l];
    NotIn(lists, l, a);
    LinkRange(num, cap, list);
    if list != [] {
      OnlyOnce(lists, l, list, 0);
    }
    var words' := FrontLinked(words, l, list, a);
    forall k: nat | k < |more|
      ensures IsBlock(num, cap, more[k]) && words'[more[k]] == Pack(PrevIn(more, k), NextIn(more, k))
    {
      if k > 0 {
        assert more[k] == list[k - 1];
        BlockRange(num, cap, list[k - 1]);
      }
    }
  }

  lemma BackStored(words: seq<int>, num: nat, cap: nat, lists: seq<seq<nat>>, l: nat, a: nat)
    requires Linked(words, num, cap, lists) && l < |lists| && IsBlock(num, cap, a) && Absent(lists, a)
    requires Header(l) < a < |words| && a < TWO_16
    requires InWords(words, lists[l])
    requires InBlocks(num, cap, lists[l] + [a])
    ensures ListStored(BackLinked(words, l, lists[l], a), num, cap, l, lists[l] + [a])
  {
    hide Pack, IsBlock, AllDistinct, Absent;
    var list, more := lists[l], lists[l] + [a];
    NotIn(lists, l, a);
    LinkRange(num, cap, list);
    if list != [] {
      OnlyOnce(lists, l, list, |list| - 1);
    }
    var words' := BackLinked(words, l, list, a);
    forall k: nat | k < |more|
      ensures IsBlock(num, cap, more[k]) && words'[more[k]] == Pack(PrevIn(more, k), NextIn(more, k))
    {
      if k < |list| {
        assert more[k] == list[k];
        BlockRange(num, cap, list[k]);
      }
    }
  }

  lemma LinkFrontLinked(words: seq<int>, num: nat, cap: nat, lists: seq<seq<nat>>, l: nat, a: nat)
    requires Linked(words, num, cap, lists) && l < |lists| && IsBlock(num, cap, a) && Absent(lists, a)
    ensures Header(l) < |words| && a < |words| && Readable(words, Header(l)) && |words| <= TWO_16
    ensures Begin(words, l) == FirstOf(lists[l])
    ensures Linked(LinkFront(words, l, a), num, cap, lists[l := [a] + lists[l]])
    ensures PayloadKept(words, LinkFront(words, l, a), num, cap)
  {
    hide Pack, High, Low, IsBlock, AllDistinct, Absent, InBlocks, ListStored;
    LinkWrites(words, num, cap, lists, l, a);
    AddFirst(lists, l, a);
    GrowBlocks(num, cap, lists[l], a);
    FrontStored(words, num, cap, lists, l, a);
    Rewired(words, LinkFront(words, l, a), num, cap, lists, l, [a] + lists[l], a);
  }

  lemma LinkBackLinked(words: seq<int>, num: nat, cap: nat, lists: seq<seq<nat>>, l: nat, a: nat)
    requires Linked(words, num, cap, lists) && l < |lists| && IsBlock(num, cap, a) && Absent(lists, a)
    ensures Header(l) < |words| && a < |words| && Readable(words, Header(l)) && |words| <= TWO_16
    ensures End(words, l) == 0 || Readable(words, End(words, l))
    ensures End(words, l) != Header(l) && a != Header(l)
    ensures Linked(LinkBack(words, l, a), num, cap, lists[l := lists[l] + [a]])
    ensures PayloadKept(words, LinkBack(words, l, a), num, cap)
  {
    hide Pack, High, Low, IsBlock, AllDistinct, Absent, InBlocks, ListStored;
    LinkWrites(words, num, cap, lists, l, a);
    AddLast(lists, l, a);
    GrowBlocks(num, cap, lists[l], a);
    BackStored(words, num, cap, lists, l, a);
    Rewired(words, LinkBack(words, l, a), num, cap, lists, l, lists[l] + [a], a);
  }
}

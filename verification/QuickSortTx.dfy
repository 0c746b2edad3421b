/** The quicksort inside one transaction: data and stack are random-access arrays of the transaction memory. */
module QuickSortTx {
  import opened QuickSortSpec
  import opened RealLibCoda
  import opened TxMemory
  import opened TxRegions

  ghost predicate Mapped(coda: RealCoda, h: nat)
    reads coda, coda.txmem
  {
    coda.Valid() && h < |coda.regions| && coda.regions[h].strip == Random
  }

  /** coda holds rs but for the words of array h, which are words. */
  ghost predicate OnlyWords(coda: RealCoda, rs: seq<Region>, h: nat, words: seq<int>)
    requires h < |rs|
    reads coda, coda.txmem
  {
    && Mapped(coda, h) && |coda.regions| == |rs| && coda.regions[h] == rs[h].(data := words)
    && (forall g: nat :: g < |rs| && g != h ==> coda.regions[g] == rs[g])
  }

  /** coda holds rs but for the contents of array h, as many words as before. */
  ghost predicate OnlyArray(coda: RealCoda, rs: seq<Region>, h: nat)
    requires h < |rs|
    reads coda, coda.txmem
  {
    && |coda.regions| == |rs| && |coda.regions[h].data| == |rs[h].data|
    && OnlyWords(coda, rs, h, coda.regions[h].data)
  }

  ghost function Words(coda: RealCoda, h: nat): seq<int>
    requires h < |coda.regions|
    reads coda
  {
    coda.regions[h].data
  }

  /** The three-access exchange the partition uses. */
  method Exchange(coda: RealCoda, aData: nat, a: nat, b: nat)
    requires Mapped(coda, aData) && a < |Words(coda, aData)| && b < |Words(coda, aData)|
    modifies coda`regions, coda.txmem
    ensures OnlyWords(coda, old(coda.regions), aData, Swapped(old(Words(coda, aData)), a, b))
  {
    hide Laid;
    var tmp := coda.NobReadAt(aData, b);
    var v := coda.NobReadAt(aData, a);
    coda.NobWriteAt(aData, b, v);
    coda.NobWriteAt(aData, a, tmp);
    ghost var w := old(Words(coda, aData));
    assert w[b := w[a]][a := w[b]] == Swapped(w, a, b);
  }

  method Partition(coda: RealCoda, aData: nat, begin: int, end: int) returns (p: int)
    requires Mapped(coda, aData) && 0 <= begin <= end < |Words(coda, aData)|
    modifies coda`regions, coda.txmem
    ensures OnlyArray(coda, old(coda.regions), aData)
    ensures Partitioned(old(Words(coda, aData)), Words(coda, aData), begin, end, p)
  {
    hide Swapped, Laid;
    ghost var before := Words(coda, aData);
    var res := begin - 1;
    var pivot := coda.NobReadAt(aData, end);
    var i := begin;
    while i <= end - 1
      invariant OnlyArray(coda, old(coda.regions), aData)
      invariant Splitting(before, Words(coda, aData), begin, end, res, i) && pivot == before[end]
    {
      SplitStep(before, Words(coda, aData), begin, end, res, i);
      var v := coda.NobReadAt(aData, i);
      if v < pivot {
        res := res + 1;
        Exchange(coda, aData, i, res);
      }
      i := i + 1;
    }
    SplitEnd(before, Words(coda, aData), begin, end, res);
    Exchange(coda, aData, res + 1, end);
    p := res + 1;
  }

  method Push(coda: RealCoda, aStack: nat, top: int, v: int) returns (top': int)
    requires Mapped(coda, aStack) && 0 <= top + 1 < |Words(coda, aStack)|
    modifies coda`regions, coda.txmem
    ensures top' == top + 1
    ensures OnlyWords(coda, old(coda.regions), aStack, old(Words(coda, aStack))[top' := v])
  {
    top' := top + 1;
    coda.NobWriteAt(aStack, top', v);
  }

  method PushSpan(coda: RealCoda, aStack: nat, top: int, begin: int, end: int, ghost spans: seq<Span>) returns (top': int)
    requires Mapped(coda, aStack) && OnStack(Words(coda, aStack), top, spans) && 2 * |spans| + 2 <= |Words(coda, aStack)|
    modifies coda`regions, coda.txmem
    ensures OnlyArray(coda, old(coda.regions), aStack)
    ensures OnStack(Words(coda, aStack), top', spans + [Span(begin, end)])
  {
    hide Laid;
    top' := Push(coda, aStack, top, begin);
    top' := Push(coda, aStack, top', end);
  }

  /** The two conditional pushes. */
  method PushSpans(coda: RealCoda, aStack: nat, top: int, begin: int, end: int, p: int, ghost rest: seq<Span>)
    returns (top': int)
    requires Mapped(coda, aStack) && OnStack(Words(coda, aStack), top, rest)
    requires 2 * |Pushed(rest, begin, end, p)| <= |Words(coda, aStack)|
    modifies coda`regions, coda.txmem
    ensures OnlyArray(coda, old(coda.regions), aStack)
    ensures OnStack(Words(coda, aStack), top', Pushed(rest, begin, end, p))
  {
    hide Laid, OnStack;
    top' := top;
    ghost var left := if p - 1 > begin then rest + [Span(begin, p - 1)] else rest;
    if p - 1 > begin {
      top' := PushSpan(coda, aStack, top', begin, p - 1, rest);
    }
    if p + 1 < end {
      top' := PushSpan(coda, aStack, top', p + 1, end, left);
    }
  }

  lemma SomethingStacked(coda: RealCoda, aStack: nat, aData: nat, top: int, spans: seq<Span>)
    requires aStack < |coda.regions| && aData < |coda.regions| && Stacked(coda, aStack, aData, top, spans) && top >= 0
    ensures spans != []
  {
  }

  lemma OnOwnWords(coda: RealCoda, aStack: nat, aData: nat, top: int, spans: seq<Span>)
    requires aStack < |coda.regions| && aData < |coda.regions| && OnStack(Words(coda, aStack), top, spans)
    ensures Stacked(coda, aStack, aData, top, spans)
  {
  }

  lemma NothingStacked(coda: RealCoda, aStack: nat, aData: nat, top: int, spans: seq<Span>)
    requires aStack < |coda.regions| && aData < |coda.regions| && Stacked(coda, aStack, aData, top, spans) && top < 0
    ensures spans == []
  {
  }

  /** With two items or more what is pushed fits the stack, with one nothing is pushed. */
  lemma RoomFor(before: seq<int>, s: seq<int>, after: seq<int>, rest: seq<Span>, span: Span, p: int, lo: int, hi: int,
                room: nat)
    requires Sorting(before, s, rest + [span], lo, hi) && Partitioned(s, after, span.lo, span.hi, p) && room >= hi - lo + 1
    requires 2 * |Pushed(rest, span.lo, span.hi, p)| <= StackWords(hi - lo + 1)
    ensures 2 * |rest| <= room && 2 * |Pushed(rest, span.lo, span.hi, p)| <= room
  {
    SpanInside(before, s, rest, span, lo, hi);
    StackIsEnough(rest + [span], lo, hi);
    StackWordsAtLeastTwo(hi - lo + 1);
  }

  /** The data array lies right behind the stack. */
  ghost predicate Arrays(coda: RealCoda, aStack: nat, aData: nat)
    reads coda, coda.txmem
  {
    && Mapped(coda, aStack) && Mapped(coda, aData) && aStack != aData
    && coda.regions[aData].start == coda.regions[aStack].start + |Words(coda, aStack)|
  }

  /** What the stack handle reaches: the stack's own words, then those of the data. */
  ghost function Reach(coda: RealCoda, aStack: nat, aData: nat): seq<int>
    requires aStack < |coda.regions| && aData < |coda.regions|
    reads coda
  {
    Words(coda, aStack) + Words(coda, aData)
  }

  /** The pending spans are on the stack, its top perhaps beyond its own words. */
  ghost predicate Stacked(coda: RealCoda, aStack: nat, aData: nat, top: int, spans: seq<Span>)
    requires aStack < |coda.regions| && aData < |coda.regions|
    reads coda
  {
    if 2 * |spans| <= |Words(coda, aStack)| then OnStack(Words(coda, aStack), top, spans)
    else OnStack(Reach(coda, aStack, aData), top, spans)
  }

  /** nob_write_at(aStack, ++top, v) wherever the word lies. */
  method PushAnywhere(coda: RealCoda, aStack: nat, aData: nat, top: int, v: int) returns (top': int)
    requires Arrays(coda, aStack, aData) && 0 <= top + 1 < |Reach(coda, aStack, aData)|
    modifies coda`regions, coda.txmem
    ensures Arrays(coda, aStack, aData) && |coda.regions| == |old(coda.regions)| && top' == top + 1
    ensures |Words(coda, aStack)| == |old(Words(coda, aStack))|
    ensures Reach(coda, aStack, aData) == old(Reach(coda, aStack, aData))[top' := v]
  {
    hide Laid;
    top' := top + 1;
    ghost var n := |Words(coda, aStack)|;
    coda.NobWriteAt(aStack, top', v, if top' < n then aStack else aData, if top' < n then top' else top' - n);
  }

  /** The two pushes before the loop. With one item the stack has one word and the second push hits the item. */
  method PushRoot(coda: RealCoda, aStack: nat, aData: nat, begin: int, end: int) returns (top: int)
    requires Arrays(coda, aStack, aData) && |Words(coda, aStack)| >= 1 && |Words(coda, aData)| >= 1
    modifies coda`regions, coda.txmem
    ensures Arrays(coda, aStack, aData) && |coda.regions| == |old(coda.regions)|
    ensures |Words(coda, aStack)| == |old(Words(coda, aStack))|
    ensures Words(coda, aData) == if |Words(coda, aStack)| >= 2 then old(Words(coda, aData)) else old(Words(coda, aData))[0 := end]
    ensures Stacked(coda, aStack, aData, top, [Span(begin, end)])
  {
    ghost var n, reach := |Words(coda, aStack)|, Reach(coda, aStack, aData);
    top := PushAnywhere(coda, aStack, aData, -1, begin);
    top := PushAnywhere(coda, aStack, aData, top, end);
    hide Mapped;
    assert Words(coda, aStack) == Reach(coda, aStack, aData)[..n] && Words(coda, aData) == Reach(coda, aStack, aData)[n..];
    assert old(Words(coda, aData)) == reach[n..];
  }

  /** The two reads at the top of the loop. */
  method PopSpan(coda: RealCoda, aStack: nat, aData: nat, top: int, ghost spans: seq<Span>) returns (lo: int, hi: int, top': int)
    requires Arrays(coda, aStack, aData) && spans != [] && Stacked(coda, aStack, aData, top, spans)
    ensures Span(lo, hi) == spans[|spans| - 1] && top' == top - 2 && spans == spans[..|spans| - 1] + [Span(lo, hi)]
    ensures 2 * (|spans| - 1) <= |Words(coda, aStack)| ==> OnStack(Words(coda, aStack), top', spans[..|spans| - 1])
  {
    hide Laid;
    ghost var n := |Words(coda, aStack)|;
    StackTop(Reach(coda, aStack, aData), top, spans);
    top' := top;
    hi := coda.NobReadAt(aStack, top', if top' < n then aStack else aData, if top' < n then top' else top' - n);
    top' := top' - 1;
    lo := coda.NobReadAt(aStack, top', if top' < n then aStack else aData, if top' < n then top' else top' - n);
    top' := top' - 1;
  }

  /**
   * Sorts the first end + 1 words of arr inside the transaction: the words that are the result are those array
   * handle aData holds afterwards, arr itself is not written. The stack of as many words as items holds all
   * pending ranges of two items or more. A single item becomes 0, the end that is pushed onto it.
   */
  method QuickSort(coda: RealCoda, arr: array<int>, begin: int, end: int) returns (aData: nat)
    requires arr != coda.txmem && coda.Valid() && coda.Closed()
    requires begin == 0 && 0 <= end < arr.Length && 2 * (end + 1) <= Limit(Random)
    modifies coda, coda.txmem
    ensures coda.Valid() && coda.Closed() && aData < |coda.regions|
    ensures end == 0 ==> Words(coda, aData) == [0]
    ensures IsSortOf(arr[..end + 1], Words(coda, aData), 0, end) <==> end >= 1 || arr[0] == 0
  {
    hide Laid, StackWords, IsSortOf, Stacked, OnStack;
    var stack := new int[end - begin + 1];
    var aStack := coda.InitializeNobArray(stack[..]);
    aData := coda.InitializeNobArray(arr[..end - begin + 1]);
    var top := PushRoot(coda, aStack, aData, begin, end);
    ghost var pushed := Words(coda, aData);
    SortPending(coda, aStack, aData, top, begin, end);
    coda.TxEnd();
    if end == 0 {
      OneItemSort(arr[..1], pushed, Words(coda, aData));
    }
  }

  /** A sort of one item is that item. */
  lemma OneItemSort(xs: seq<int>, ys: seq<int>, zs: seq<int>)
    requires |xs| == |ys| == 1 && IsSortOf(ys, zs, 0, 0)
    ensures zs == ys
    ensures IsSortOf(xs, zs, 0, 0) <==> xs == zs
  {
    assert ys[0..1] == ys && zs[0..1] == zs && xs[0..1] == xs;
    assert multiset(ys)[zs[0]] == multiset(zs)[zs[0]] == 1;
    if multiset(xs) == multiset(zs) {
      assert multiset(xs)[zs[0]] == 1;
    }
  }

  /** The loop that works off the stack. */
  method SortPending(coda: RealCoda, aStack: nat, aData: nat, top0: int, begin: int, end: int)
    requires Arrays(coda, aStack, aData) && Stacked(coda, aStack, aData, top0, [Span(begin, end)])
    requires 0 <= begin <= end < |Words(coda, aData)| && |Words(coda, aStack)| >= end - begin + 1
    modifies coda`regions, coda.txmem
    ensures Mapped(coda, aData) && |coda.regions| == |old(coda.regions)|
    ensures IsSortOf(old(Words(coda, aData)), Words(coda, aData), begin, end)
  {
    hide Sorting, Stacked, OnStack, Pushed, Partitioned, IsSortOf, Size, Laid, StackWords;
    ghost var before := Words(coda, aData);
    ghost var room, spans := |Words(coda, aStack)|, [Span(begin, end)];
    SortStart(before, begin, end);
    var lo, hi, top := begin, end, top0;
    while top >= 0
      invariant Arrays(coda, aStack, aData) && |coda.regions| == |old(coda.regions)| && |Words(coda, aStack)| == room
      invariant Stacked(coda, aStack, aData, top, spans)
      invariant Sorting(before, Words(coda, aData), spans, begin, end)
      decreases Size(spans), top + 1
    {
      SomethingStacked(coda, aStack, aData, top, spans);
      ghost var rest, span := spans[..|spans| - 1], spans[|spans| - 1];
      lo, hi, top := PopSpan(coda, aStack, aData, top, spans);
      ghost var s := Words(coda, aData);
      SpanInside(before, s, rest, span, begin, end);
      var p := Partition(coda, aData, lo, hi);
      SortStep(before, s, Words(coda, aData), rest, span, p, begin, end);
      RoomFor(before, s, Words(coda, aData), rest, span, p, begin, end, room);
      spans := Pushed(rest, lo, hi, p);
      top := PushSpans(coda, aStack, top, lo, hi, p, rest);
      OnOwnWords(coda, aStack, aData, top, spans);
    }
    NothingStacked(coda, aStack, aData, top, spans);
    SortDone(before, Words(coda, aData), begin, end);
  }

  /** The first word the partition reads, number end of the copy, is in the copy exactly when the range starts at 0. */
  lemma FirstAccessInside(rs: seq<Region>, aData: nat, begin: nat, end: nat)
    requires begin <= end && aData < |rs| && rs[aData].strip == Random && |rs[aData].data| == end - begin + 1
    ensures Allowed(rs, ArrayRead(aData, end)) <==> begin == 0
  {
  }
}

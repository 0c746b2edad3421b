/** The run of the quicksort as a function: what the partition makes of an array, and how high the stack grows. */
module QuickSortRun {
  import opened QuickSortSpec

  /** The partition's loop from position i on; the items up to res are below the pivot at hi. */
  function Scan(s: seq<int>, hi: int, res: int, i: int): (r: (seq<int>, int))
    requires -1 <= res < i <= hi < |s|
    ensures |r.0| == |s| && res <= r.1 < hi
    decreases hi - i
  {
    if i == hi then (s, res)
    else if s[i] < s[hi] then Scan(Swapped(s, i, res + 1), hi, res + 1, i + 1)
    else Scan(s, hi, res, i + 1)
  }

  /** The whole partition: the new array and the place of the pivot. */
  function Split(s: seq<int>, lo: int, hi: int): (r: (seq<int>, int))
    requires 0 <= lo <= hi < |s|
    ensures |r.0| == |s| && lo <= r.1 <= hi
  {
    var (t, res) := Scan(s, hi, lo - 1, lo);
    (Swapped(t, res + 1, hi), res + 1)
  }

  lemma ScanStep(s: seq<int>, hi: int, res: int, i: int)
    requires -1 <= res < i < hi < |s|
    ensures s[i] < s[hi] ==> Scan(s, hi, res, i) == Scan(Swapped(s, i, res + 1), hi, res + 1, i + 1)
    ensures s[i] >= s[hi] ==> Scan(s, hi, res, i) == Scan(s, hi, res, i + 1)
  {
  }

  lemma SplitIs(s: seq<int>, lo: int, hi: int, t: seq<int>, res: int)
    requires 0 <= lo <= hi < |s| == |t| && -1 <= res < hi && Scan(s, hi, lo - 1, lo) == Scan(t, hi, res, hi)
    ensures Split(s, lo, hi) == (Swapped(t, res + 1, hi), res + 1)
  {
  }

  ghost predicate Inside(spans: seq<Span>, n: int) {
    forall k: nat :: k < |spans| ==> 0 <= spans[k].lo <= spans[k].hi < n
  }

  lemma {:induction false} InsideSize(spans: seq<Span>, n: int)
    requires Inside(spans, n)
    ensures Size(spans) >= |spans|
  {
    if spans != [] {
      InsideSize(spans[..|spans| - 1], n);
    }
  }

  lemma PushedInside(rest: seq<Span>, lo: int, hi: int, p: int, n: int)
    requires Inside(rest, n) && 0 <= lo <= p <= hi < n
    ensures Inside(Pushed(rest, lo, hi, p), n)
  {
  }

  /** high_use at the end of the loop, when it is high with spans pending on array s. */
  ghost function HighUse(s: seq<int>, spans: seq<Span>, high: int): (h: int)
    requires Inside(spans, |s|)
    decreases Size(spans)
  {
    if spans == [] then high else
      var n := |spans| - 1;
      var rest, span := spans[..n], spans[n];
      var (s', p) := Split(s, span.lo, span.hi);
      var spans' := Pushed(rest, span.lo, span.hi, p);
      PushedInside(rest, span.lo, span.hi, p, |s|);
      InsideSize(spans', |s|);
      InsideSize(spans, |s|);
      assert spans == rest + [span];
      PushedIsSmaller(rest, span, p);
      HighUse(s', spans', if 2 * |spans'| - 1 > high then 2 * |spans'| - 1 else high)
  }

  lemma HighUseStep(s: seq<int>, rest: seq<Span>, span: Span, high: int)
    requires Inside(rest + [span], |s|)
    ensures 0 <= span.lo <= span.hi < |s|
    ensures
      var (s', p) := Split(s, span.lo, span.hi);
      var spans' := Pushed(rest, span.lo, span.hi, p);
      && Inside(spans', |s'|)
      && HighUse(s, rest + [span], high) == HighUse(s', spans', if 2 * |spans'| - 1 > high then 2 * |spans'| - 1 else high)
  {
    assert (rest + [span])[..|rest|] == rest && (rest + [span])[|rest|] == span;
    var (s', p) := Split(s, span.lo, span.hi);
    assert Inside(rest, |s|);
    PushedInside(rest, span.lo, span.hi, p, |s|);
  }

  lemma HighUseEnd(s: seq<int>, high: int)
    ensures HighUse(s, [], high) == high
  {
  }

  lemma {:induction false} HighUseGrows(s: seq<int>, spans: seq<Span>, high: int)
    requires Inside(spans, |s|)
    ensures HighUse(s, spans, high) >= high
    decreases Size(spans)
  {
    hide Split, Pushed;
    if spans != [] {
      var n := |spans| - 1;
      var rest, span := spans[..n], spans[n];
      assert spans == rest + [span];
      HighUseStep(s, rest, span, high);
      var (s', p) := Split(s, span.lo, span.hi);
      var spans' := Pushed(rest, span.lo, span.hi, p);
      InsideSize(spans', |s'|);
      PushedIsSmaller(rest, span, p);
      HighUseGrows(s', spans', if 2 * |spans'| - 1 > high then 2 * |spans'| - 1 else high);
    }
  }

  /** The bound on the stack is a bound on every run. */
  lemma {:induction false} HighUseBounded(s: seq<int>, spans: seq<Span>, high: int, lo: int, hi: int)
    requires 0 <= lo <= hi < |s| && InOrder(spans, lo, hi) && (TwoOrMore(spans) || |spans| == 1) && Inside(spans, |s|)
    requires high + 1 <= StackWords(hi - lo + 1)
    ensures HighUse(s, spans, high) + 1 <= StackWords(hi - lo + 1)
    decreases Size(spans)
  {
    hide Split, Pushed, StackWords, Size;
    if spans != [] {
      var n := |spans| - 1;
      var rest, span := spans[..n], spans[n];
      assert spans == rest + [span];
      HighUseStep(s, rest, span, high);
      var (s', p) := Split(s, span.lo, span.hi);
      var spans' := Pushed(rest, span.lo, span.hi, p);
      InsideSize(spans', |s'|);
      PushedIsSmaller(rest, span, p);
      PushedInOrder(rest, span, p, lo, hi);
      StackIsEnough(spans', lo, hi);
      HighUseBounded(s', spans', if 2 * |spans'| - 1 > high then 2 * |spans'| - 1 else high, lo, hi);
    }
  }

  // ---- an input that fills the stack ----

  /**
   * After j partitions: three times j items are in place, and of each following three the last is held back so that
   * every pivot is third of what is left.
   */
  function WorstAt(n: nat, j: nat): (s: seq<int>)
    ensures |s| == n
    ensures forall k: nat :: k < n ==>
              s[k] == if k < 3 * j then k else if k == n - 1 then 3 * j + 2 else if k % 3 == 2 then k + 3 else k
  {
    seq(n, k requires 0 <= k < n =>
      if k < 3 * j then k else if k == n - 1 then 3 * j + 2 else if k % 3 == 2 then k + 3 else k)
  }

  /** The ranges of two left pending by j partitions. */
  function Lefts(j: nat): (spans: seq<Span>)
    ensures |spans| == j
    ensures forall k: nat :: k < j ==> spans[k] == Span(3 * k, 3 * k + 1)
  {
    seq(j, k requires 0 <= k < j => Span(3 * k, 3 * k + 1))
  }

  lemma {:induction false} ScanStays(s: seq<int>, hi: int, res: int, i: int)
    requires -1 <= res < i <= hi < |s| && forall k: int :: i <= k < hi ==> s[k] >= s[hi]
    ensures Scan(s, hi, res, i) == (s, res)
    decreases hi - i
  {
    if i < hi {
      ScanStays(s, hi, res, i + 1);
    }
  }

  lemma WorstItems(n: nat, j: nat)
    requires n - 3 * j >= 3
    ensures
      var s, lo, hi := WorstAt(n, j), 3 * j, n - 1;
      && s[lo] == lo && s[lo + 1] == lo + 1 && s[hi] == lo + 2
      && (forall k: int :: lo + 2 <= k < hi ==> s[k] >= s[hi])
      && Swapped(s, lo + 2, hi) == WorstAt(n, j + 1)
  {
  }

  lemma SwappedSelf(s: seq<int>, i: int)
    requires 0 <= i < |s|
    ensures Swapped(s, i, i) == s
  {
  }

  lemma WorstSplits(n: nat, j: nat)
    requires n - 3 * j >= 3
    ensures Split(WorstAt(n, j), 3 * j, n - 1) == (WorstAt(n, j + 1), 3 * j + 2)
  {
    var s, lo, hi := WorstAt(n, j), 3 * j, n - 1;
    WorstItems(n, j);
    SwappedSelf(s, lo);
    SwappedSelf(s, lo + 1);
    ScanStays(s, hi, lo + 1, lo + 2);
    ScanStays(s, hi, lo + 1, hi);
    hide Scan, Swapped, WorstAt, Split;
    ScanStep(s, hi, lo - 1, lo);
    ScanStep(s, hi, lo, lo + 1);
    SplitIs(s, lo, hi, s, lo + 1);
  }

  lemma WorstPushes(n: nat, j: nat)
    requires n - 3 * j >= 3
    ensures Pushed(Lefts(j), 3 * j, n - 1, 3 * j + 2) ==
            if n - 3 * j >= 5 then Lefts(j + 1) + [Span(3 * (j + 1), n - 1)] else Lefts(j + 1)
  {
    assert Lefts(j) + [Span(3 * j, 3 * j + 1)] == Lefts(j + 1);
  }

  lemma WorstInside(n: nat, j: nat)
    requires n - 3 * j >= 1
    ensures Inside(Lefts(j) + [Span(3 * j, n - 1)], n)
  {
  }

  lemma {:induction false} WorstFills(n: nat, j: nat, high: int, m: nat)
    requires n - 3 * j >= 3 && 3 * m <= n + 1 < 3 * m + 3
    ensures Inside(Lefts(j) + [Span(3 * j, n - 1)], n)
    ensures HighUse(WorstAt(n, j), Lefts(j) + [Span(3 * j, n - 1)], high) + 1 >= 2 * m
    decreases n - 3 * j
  {
    hide Split, WorstAt, Pushed, Lefts, HighUse, Inside;
    WorstInside(n, j);
    HighUseStep(WorstAt(n, j), Lefts(j), Span(3 * j, n - 1), high);
    WorstSplits(n, j);
    WorstPushes(n, j);
    var spans' := Pushed(Lefts(j), 3 * j, n - 1, 3 * j + 2);
    var high' := if 2 * |spans'| - 1 > high then 2 * |spans'| - 1 else high;
    if n - 3 * j >= 6 {
      WorstFills(n, j + 1, high', m);
    } else {
      HighUseGrows(WorstAt(n, j + 1), spans', high');
    }
  }

  /** From three items on some input needs the whole bound. */
  lemma StackBoundIsAttained(n: nat)
    requires n >= 3
    ensures Inside([Span(0, n - 1)], n)
    ensures HighUse(WorstAt(n, 0), [Span(0, n - 1)], -1) + 1 == StackWords(n)
  {
    WorstFills(n, 0, -1, (n + 1) / 3);
    assert Lefts(0) + [Span(0, n - 1)] == [Span(0, n - 1)];
    StackWordsAtLeastTwo(n);
    HighUseBounded(WorstAt(n, 0), [Span(0, n - 1)], -1, 0, n - 1);
  }

  /** Eight such items: the right range goes first while the left ones wait, so six words are in use. */
  lemma EightItems()
    ensures Inside([Span(0, 7)], 8)
    ensures HighUse([0, 1, 5, 3, 4, 8, 6, 2], [Span(0, 7)], -1) == 5
  {
    StackBoundIsAttained(8);
    assert WorstAt(8, 0) == [0, 1, 5, 3, 4, 8, 6, 2];
  }

  /** With fewer than three nothing is ever pushed in the loop, so high_use misses the two words pushed before it. */
  lemma FewLeaveNoTrace(s: seq<int>)
    requires 1 <= |s| <= 2
    ensures Inside([Span(0, |s| - 1)], |s|)
    ensures HighUse(s, [Span(0, |s| - 1)], -1) == -1
  {
    assert [] + [Span(0, |s| - 1)] == [Span(0, |s| - 1)];
    HighUseStep(s, [], Span(0, |s| - 1), -1);
  }
}

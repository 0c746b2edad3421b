/** What the explicit-stack quicksort keeps true, whether it sorts an array or the transaction memory. */
module QuickSortSpec {

  /** A range still to be sorted, both ends included. */
  datatype Span = Span(lo: int, hi: int)

  /** after is before with lo..hi permuted so that p holds the pivot, smaller values left of it, the others right. */
  ghost predicate Partitioned(before: seq<int>, after: seq<int>, lo: int, hi: int, p: int) {
    && 0 <= lo <= p <= hi < |before| == |after|
    && SameOutside(before, after, lo, hi)
    && multiset(after[lo..hi + 1]) == multiset(before[lo..hi + 1])
    && after[p] == before[hi]
    && (forall i: int :: lo <= i < p ==> after[i] < after[p])
    && (forall i: int :: p < i <= hi ==> after[i] >= after[p])
  }

  ghost predicate SameOutside(before: seq<int>, after: seq<int>, lo: int, hi: int)
    requires |before| == |after|
  {
    forall i: int :: 0 <= i < |before| && !(lo <= i <= hi) ==> after[i] == before[i]
  }

  /** The pending spans lie in [lo, hi] from left to right with at least one pivot between neighbours. */
  ghost predicate InOrder(spans: seq<Span>, lo: int, hi: int) {
    && (forall k: nat :: k < |spans| ==> lo <= spans[k].lo <= spans[k].hi <= hi)
    && (forall k: nat, l: nat :: k < l < |spans| ==> spans[k].hi + 1 < spans[l].lo)
  }

  ghost predicate Together(spans: seq<Span>, i: int, j: int) {
    exists k: nat :: k < |spans| && spans[k].lo <= i && j <= spans[k].hi
  }

  /** Positions of [lo, hi] are in order except inside a pending span. */
  ghost predicate SortedBut(s: seq<int>, spans: seq<Span>, lo: int, hi: int)
    requires 0 <= lo && hi < |s|
  {
    forall i: int, j: int :: lo <= i < j <= hi && !Together(spans, i, j) ==> s[i] <= s[j]
  }

  /** All pending spans together. */
  ghost function Size(spans: seq<Span>): int {
    if spans == [] then 0 else
      var last := spans[|spans| - 1];
      Size(spans[..|spans| - 1]) + last.hi - last.lo + 1
  }

  lemma {:induction false} SizeIsPositive(spans: seq<Span>, lo: int, hi: int)
    requires InOrder(spans, lo, hi)
    ensures Size(spans) >= |spans|
  {
    if spans != [] {
      SizeIsPositive(spans[..|spans| - 1], lo, hi);
    }
  }

  lemma SizeOfPush(spans: seq<Span>, s: Span)
    ensures Size(spans + [s]) == Size(spans) + s.hi - s.lo + 1
  {
    assert (spans + [s])[..|spans|] == spans;
  }

  ghost predicate TwoOrMore(spans: seq<Span>) {
    forall k: nat :: k < |spans| ==> spans[k].lo < spans[k].hi
  }

  lemma {:induction false} SpansStart(spans: seq<Span>, lo: int, hi: int, k: nat)
    requires InOrder(spans, lo, hi) && TwoOrMore(spans) && k < |spans|
    ensures spans[k].lo >= lo + 3 * k
  {
    if k > 0 {
      SpansStart(spans, lo, hi, k - 1);
      assert spans[k - 1].hi + 1 < spans[k].lo;
    }
  }

  /** How many stack words n items can need: a span of two and a pivot take three positions. */
  function StackWords(n: int): int
    requires n >= 1
  {
    if n == 1 then 2 else 2 * ((n + 1) / 3)
  }

  lemma StackIsEnough(spans: seq<Span>, lo: int, hi: int)
    requires lo <= hi && InOrder(spans, lo, hi)
    requires TwoOrMore(spans) || |spans| <= 1
    ensures 2 * |spans| <= StackWords(hi - lo + 1)
  {
    if TwoOrMore(spans) && spans != [] {
      SpansStart(spans, lo, hi, |spans| - 1);
    }
  }

  /** The spans pushed after a partition at p. */
  function Pushed(rest: seq<Span>, lo: int, hi: int, p: int): seq<Span> {
    var left := if p - 1 > lo then rest + [Span(lo, p - 1)] else rest;
    if p + 1 < hi then left + [Span(p + 1, hi)] else left
  }

  lemma PushedInOrder(rest: seq<Span>, span: Span, p: int, lo: int, hi: int)
    requires InOrder(rest + [span], lo, hi) && (TwoOrMore(rest + [span]) || rest == []) && span.lo <= p <= span.hi
    ensures InOrder(Pushed(rest, span.lo, span.hi, p), lo, hi) && TwoOrMore(Pushed(rest, span.lo, span.hi, p))
  {
    var all := rest + [span];
    assert all[|rest|] == span;
    forall k: nat | k < |rest|
      ensures lo <= rest[k].lo <= rest[k].hi <= hi && rest[k].hi + 1 < span.lo && rest[k].lo < rest[k].hi
    {
      assert all[k] == rest[k];
    }
    forall k: nat, l: nat | k < l < |rest|
      ensures rest[k].hi + 1 < rest[l].lo
    {
      assert all[k] == rest[k] && all[l] == rest[l];
    }
  }

  lemma PushedIsSmaller(rest: seq<Span>, span: Span, p: int)
    requires span.lo <= p <= span.hi
    ensures Size(Pushed(rest, span.lo, span.hi, p)) < Size(rest + [span])
  {
    SizeOfPush(rest, span);
    var left := if p - 1 > span.lo then rest + [Span(span.lo, p - 1)] else rest;
    SizeOfPush(rest, Span(span.lo, p - 1));
    SizeOfPush(left, Span(p + 1, span.hi));
  }

  /** Where the value at position i was before: in the same place, or somewhere in the partitioned range. */
  lemma CameFrom(before: seq<int>, after: seq<int>, lo: int, hi: int, p: int, i: int) returns (j: int)
    requires Partitioned(before, after, lo, hi, p) && 0 <= i < |before|
    ensures 0 <= j < |before| && before[j] == after[i]
    ensures if lo <= i <= hi then lo <= j <= hi else j == i
  {
    j := i;
    if lo <= i <= hi {
      var a, b := after[lo..hi + 1], before[lo..hi + 1];
      assert a[i - lo] in multiset(b);
      var k: nat :| k < |b| && b[k] == a[i - lo];
      j := lo + k;
    }
  }

  /** Two positions of the partitioned span on one side of the pivot are in one of the new spans. */
  lemma SameSideTogether(rest: seq<Span>, span: Span, p: int, i: int, j: int)
    requires span.lo <= i < j <= span.hi && span.lo <= p <= span.hi && (j < p || p < i)
    ensures Together(Pushed(rest, span.lo, span.hi, p), i, j)
  {
    var pushed := Pushed(rest, span.lo, span.hi, p);
    if j < p {
      assert pushed[|rest|] == Span(span.lo, p - 1);
    } else {
      assert pushed[|pushed| - 1] == Span(p + 1, span.hi);
    }
  }

  /** Two positions not both in the partitioned span: if their values came from one pending span, they are in it now. */
  lemma OthersStayTogether(rest: seq<Span>, span: Span, p: int, lo: int, hi: int, i: int, j: int, i': int, j': int)
    requires InOrder(rest + [span], lo, hi) && i < j && !(span.lo <= i && j <= span.hi)
    requires if span.lo <= i <= span.hi then span.lo <= i' <= span.hi else i' == i
    requires if span.lo <= j <= span.hi then span.lo <= j' <= span.hi else j' == j
    ensures i' < j'
    ensures Together(rest + [span], i', j') ==> Together(Pushed(rest, span.lo, span.hi, p), i, j)
  {
    var all, pushed := rest + [span], Pushed(rest, span.lo, span.hi, p);
    assert all[|rest|] == span;
    forall k: nat | k < |rest| && all[k].lo <= i' && j' <= all[k].hi
      ensures Together(pushed, i, j)
    {
      assert all[k].hi + 1 < span.lo && pushed[k] == all[k];
    }
  }

  /** After a partition only the two new spans are unordered inside. */
  lemma PartitionProgress(before: seq<int>, after: seq<int>, rest: seq<Span>, span: Span, p: int, lo: int, hi: int)
    requires 0 <= lo && hi < |before| && InOrder(rest + [span], lo, hi)
    requires SortedBut(before, rest + [span], lo, hi)
    requires Partitioned(before, after, span.lo, span.hi, p)
    ensures SortedBut(after, Pushed(rest, span.lo, span.hi, p), lo, hi)
  {
    hide Pushed, Together;
    assert (rest + [span])[|rest|] == span;
    var pushed := Pushed(rest, span.lo, span.hi, p);
    forall i: int, j: int | lo <= i < j <= hi && !Together(pushed, i, j)
      ensures after[i] <= after[j]
    {
      if span.lo <= i && j <= span.hi {
        if j < p || p < i {
          SameSideTogether(rest, span, p, i, j);
        }
      } else {
        var i' := CameFrom(before, after, span.lo, span.hi, p, i);
        var j' := CameFrom(before, after, span.lo, span.hi, p, j);
        OthersStayTogether(rest, span, p, lo, hi, i, j, i', j');
        assert before[i'] <= before[j'];
      }
    }
  }

  /** s with positions i and j exchanged. */
  function Swapped(s: seq<int>, i: int, j: int): (r: seq<int>)
    requires 0 <= i < |s| && 0 <= j < |s|
    ensures |r| == |s|
  {
    s[i := s[j]][j := s[i]]
  }

  lemma SwapPermutes(s: seq<int>, i: int, j: int, lo: int, hi: int)
    requires 0 <= lo <= i <= hi < |s| && lo <= j <= hi
    ensures SameOutside(s, Swapped(s, i, j), lo, hi)
    ensures multiset(Swapped(s, i, j)[lo..hi + 1]) == multiset(s[lo..hi + 1])
  {
    assert Swapped(s, i, j)[lo..hi + 1] == Swapped(s[lo..hi + 1], i - lo, j - lo);
  }

  /** Permuting a range permutes every larger one. */
  lemma WiderPermutes(before: seq<int>, after: seq<int>, a: int, b: int, lo: int, hi: int)
    requires |after| == |before| && 0 <= lo <= a && a <= b + 1 && b <= hi < |before| && SameOutside(before, after, a, b)
    requires multiset(after[a..b + 1]) == multiset(before[a..b + 1])
    ensures multiset(after[lo..hi + 1]) == multiset(before[lo..hi + 1])
  {
    ThreeSlices(before, a, b, lo, hi);
    ThreeSlices(after, a, b, lo, hi);
    assert after[lo..a] == before[lo..a];
    assert after[b + 1..hi + 1] == before[b + 1..hi + 1];
  }

  lemma ThreeSlices(s: seq<int>, a: int, b: int, lo: int, hi: int)
    requires 0 <= lo <= a && a <= b + 1 && b <= hi < |s|
    ensures s[lo..hi + 1] == s[lo..a] + s[a..b + 1] + s[b + 1..hi + 1]
  {
  }

  // ---- the partition loop on a sequence ----

  /** lo..res holds values below the pivot at hi, res+1..i-1 the others. */
  ghost predicate Splitting(before: seq<int>, s: seq<int>, lo: int, hi: int, res: int, i: int) {
    && 0 <= lo <= hi < |before| == |s| && lo - 1 <= res < i <= hi
    && SameOutside(before, s, lo, hi)
    && multiset(s[lo..hi + 1]) == multiset(before[lo..hi + 1])
    && s[hi] == before[hi]
    && (forall k: int :: lo <= k <= res ==> s[k] < s[hi])
    && (forall k: int :: res < k < i ==> s[k] >= s[hi])
  }

  lemma SplitStep(before: seq<int>, s: seq<int>, lo: int, hi: int, res: int, i: int)
    requires Splitting(before, s, lo, hi, res, i) && i < hi
    ensures s[i] < s[hi] ==> Splitting(before, Swapped(s, i, res + 1), lo, hi, res + 1, i + 1)
    ensures s[i] >= s[hi] ==> Splitting(before, s, lo, hi, res, i + 1)
  {
    SwapPermutes(s, i, res + 1, lo, hi);
    if s[i] < s[hi] {
      SwappedAround(s, i, res + 1, hi);
      SwappedOutside(before, s, Swapped(s, i, res + 1), lo, hi);
      hide Swapped, SameOutside;
    }
  }

  lemma SwappedAround(s: seq<int>, i: int, j: int, hi: int)
    requires 0 <= i < hi < |s| && 0 <= j < hi
    ensures forall k: int :: 0 <= k <= hi && k != i && k != j ==> Swapped(s, i, j)[k] == s[k]
    ensures Swapped(s, i, j)[i] == s[j] && Swapped(s, i, j)[j] == s[i]
  {
  }

  lemma SwappedOutside(before: seq<int>, s: seq<int>, t: seq<int>, lo: int, hi: int)
    requires |before| == |s| == |t| && SameOutside(before, s, lo, hi) && SameOutside(s, t, lo, hi)
    ensures SameOutside(before, t, lo, hi)
  {
  }

  lemma SplitEnd(before: seq<int>, s: seq<int>, lo: int, hi: int, res: int)
    requires Splitting(before, s, lo, hi, res, hi)
    ensures Partitioned(before, Swapped(s, res + 1, hi), lo, hi, res + 1)
  {
    SwapPermutes(s, res + 1, hi, lo, hi);
  }

  // ---- the sorting loop ----

  /** before has become s by permuting lo..hi, which is in order but for the pending spans; stack space suffices. */
  ghost predicate Sorting(before: seq<int>, s: seq<int>, spans: seq<Span>, lo: int, hi: int) {
    && 0 <= lo <= hi < |before| == |s|
    && InOrder(spans, lo, hi) && (TwoOrMore(spans) || |spans| == 1)
    && SortedBut(s, spans, lo, hi)
    && SameOutside(before, s, lo, hi)
    && multiset(s[lo..hi + 1]) == multiset(before[lo..hi + 1])
  }

  lemma SortStart(s: seq<int>, lo: int, hi: int)
    requires 0 <= lo <= hi < |s|
    ensures Sorting(s, s, [Span(lo, hi)], lo, hi)
  {
    assert [Span(lo, hi)][0] == Span(lo, hi);
  }

  lemma SortStep(before: seq<int>, s: seq<int>, after: seq<int>, rest: seq<Span>, span: Span, p: int, lo: int, hi: int)
    requires Sorting(before, s, rest + [span], lo, hi) && Partitioned(s, after, span.lo, span.hi, p)
    ensures Sorting(before, after, Pushed(rest, span.lo, span.hi, p), lo, hi)
    ensures 0 <= Size(Pushed(rest, span.lo, span.hi, p)) < Size(rest + [span])
    ensures 2 * |Pushed(rest, span.lo, span.hi, p)| <= StackWords(hi - lo + 1)
  {
    hide SortedBut, Size, StackWords, Together;
    assert (rest + [span])[|rest|] == span;
    PushedInOrder(rest, span, p, lo, hi);
    PartitionProgress(s, after, rest, span, p, lo, hi);
    WiderPermutes(s, after, span.lo, span.hi, lo, hi);
    PushedIsSmaller(rest, span, p);
    SizeIsPositive(Pushed(rest, span.lo, span.hi, p), lo, hi);
    StackIsEnough(Pushed(rest, span.lo, span.hi, p), lo, hi);
  }

  lemma SortDone(before: seq<int>, s: seq<int>, lo: int, hi: int)
    requires Sorting(before, s, [], lo, hi)
    ensures IsSortOf(before, s, lo, hi)
  {
    forall i: int, j: int | lo <= i < j <= hi
      ensures s[i] <= s[j]
    {
      assert !Together([], i, j);
    }
  }

  /** after is before with lo..hi put in order. */
  ghost predicate IsSortOf(before: seq<int>, after: seq<int>, lo: int, hi: int) {
    && 0 <= lo <= hi < |before| == |after|
    && (forall i: int, j: int :: lo <= i < j <= hi ==> after[i] <= after[j])
    && multiset(after[lo..hi + 1]) == multiset(before[lo..hi + 1])
    && SameOutside(before, after, lo, hi)
  }

  /** The stack words up to top hold the pending spans, two words each. */
  ghost predicate OnStack(words: seq<int>, top: int, spans: seq<Span>) {
    && top + 1 == 2 * |spans| <= |words|
    && forall k: nat :: k < |spans| ==> words[2 * k] == spans[k].lo && words[2 * k + 1] == spans[k].hi
  }

  lemma StackTop(words: seq<int>, top: int, spans: seq<Span>)
    requires OnStack(words, top, spans) && top >= 0
    ensures spans != [] && 1 <= top < |words|
    ensures
      var n := |spans| - 1;
      && words[top] == spans[n].hi && words[top - 1] == spans[n].lo
      && OnStack(words, top - 2, spans[..n]) && spans == spans[..n] + [spans[n]]
  {
  }

  lemma OnEmptyStack(words: seq<int>, top: int, spans: seq<Span>)
    requires OnStack(words, top, spans) && top < 0
    ensures spans == []
  {
  }

  lemma StackWordsAtLeastTwo(n: int)
    requires n >= 1
    ensures 2 <= StackWords(n)
    ensures n >= 2 ==> StackWords(n) <= n
  {
  }

  lemma SpanInside(before: seq<int>, s: seq<int>, rest: seq<Span>, span: Span, lo: int, hi: int)
    requires Sorting(before, s, rest + [span], lo, hi)
    ensures lo <= span.lo <= span.hi <= hi < |s| && 0 <= lo
  {
    assert (rest + [span])[|rest|] == span;
  }
}

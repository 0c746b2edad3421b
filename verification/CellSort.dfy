/** The bottom-up merge sort of the Melbourne cleanup: key/value pairs in two buffers that trade roles per level. */
module CellSort {
  import opened Bitonic
  import opened Cells

  ghost predicate Ascending(cs: seq<Cell>) {
    forall i: nat, j: nat :: i < j < |cs| ==> cs[i].key <= cs[j].key
  }

  /** Two sorted runs merged; of equal keys the second run's goes first. */
  ghost function Merge2(a: seq<Cell>, b: seq<Cell>): (m: seq<Cell>)
    ensures |m| == |a| + |b|
  {
    if a == [] then b
    else if b == [] then a
    else if a[0].key < b[0].key then [a[0]] + Merge2(a[1..], b)
    else [b[0]] + Merge2(a, b[1..])
  }

  /** n is a multiple of w. */
  ghost predicate Multiple(n: int, w: nat)
    requires w > 0
    decreases n
  {
    n == 0 || (n >= w && Multiple(n - w, w))
  }

  /** One level: neighbouring runs of w cells merged. */
  ghost function MergeRuns(cs: seq<Cell>, w: nat): (m: seq<Cell>)
    requires w > 0 && Multiple(|cs|, 2 * w)
    ensures |m| == |cs|
    decreases |cs|
  {
    if cs == [] then [] else Merge2(cs[..w], cs[w..2 * w]) + MergeRuns(cs[2 * w..], w)
  }

  ghost predicate RunsAscend(cs: seq<Cell>, w: nat)
    requires w > 0
    decreases |cs|
  {
    if |cs| <= w then Ascending(cs) else Ascending(cs[..w]) && RunsAscend(cs[w..], w)
  }

  lemma {:induction false} Merge2Permutes(a: seq<Cell>, b: seq<Cell>)
    ensures multiset(Merge2(a, b)) == multiset(a) + multiset(b)
    decreases |a| + |b|
  {
    if a != [] && b != [] {
      if a[0].key < b[0].key {
        Merge2Permutes(a[1..], b);
        assert a == [a[0]] + a[1..];
      } else {
        Merge2Permutes(a, b[1..]);
        assert b == [b[0]] + b[1..];
      }
    }
  }

  lemma HeadIsLeast(a: seq<Cell>)
    requires Ascending(a) && a != []
    ensures forall c :: c in a ==> a[0].key <= c.key
  {
    forall c | c in a
      ensures a[0].key <= c.key
    {
      var k: nat :| k < |a| && a[k] == c;
    }
  }

  /** The head of one of two sorted runs, when it is least, can go in front of the rest merged. */
  lemma TakeHead(a: seq<Cell>, b: seq<Cell>, m: seq<Cell>)
    requires a != [] && Ascending(a) && Ascending(b) && (b != [] ==> a[0].key <= b[0].key)
    requires Ascending(m) && multiset(m) == multiset(a[1..]) + multiset(b)
    ensures Ascending([a[0]] + m)
  {
    HeadIsLeast(a);
    if b != [] {
      HeadIsLeast(b);
    }
    forall k: nat | k < |m|
      ensures a[0].key <= m[k].key
    {
      assert m[k] in multiset(m);
      assert m[k] in a[1..] || m[k] in b;
    }
  }

  lemma TailAscends(a: seq<Cell>)
    requires Ascending(a) && a != []
    ensures Ascending(a[1..])
  {
  }

  lemma {:induction false} Merge2Sorts(a: seq<Cell>, b: seq<Cell>)
    requires Ascending(a) && Ascending(b)
    ensures Ascending(Merge2(a, b))
    decreases |a| + |b|
  {
    hide Ascending;
    if a != [] && b != [] {
      if a[0].key < b[0].key {
        TailAscends(a);
        Merge2Sorts(a[1..], b);
        Merge2Permutes(a[1..], b);
        TakeHead(a, b, Merge2(a[1..], b));
      } else {
        TailAscends(b);
        Merge2Sorts(a, b[1..]);
        Merge2Permutes(a, b[1..]);
        TakeHead(b, a, Merge2(a, b[1..]));
      }
    }
  }

  lemma SplitRuns(cs: seq<Cell>, w: nat)
    requires w > 0 && RunsAscend(cs, w) && |cs| >= 2 * w
    ensures Ascending(cs[..w]) && Ascending(cs[w..2 * w]) && RunsAscend(cs[2 * w..], w)
  {
    hide Ascending;
    assert cs[w..][..w] == cs[w..2 * w] && cs[w..][w..] == cs[2 * w..];
    if |cs| == 2 * w {
      assert cs[w..] == cs[w..2 * w] && cs[2 * w..] == [];
      NothingAscends();
    }
  }

  lemma NothingAscends()
    ensures Ascending([])
  {
  }

  lemma JoinRun(run: seq<Cell>, rest: seq<Cell>, w: nat)
    requires w > 0 && |run| == w && Ascending(run) && RunsAscend(rest, w)
    ensures RunsAscend(run + rest, w)
  {
    hide Ascending;
    assert (run + rest)[..w] == run && (run + rest)[w..] == rest;
    assert rest == [] ==> run + rest == run;
  }

  lemma ThreeParts(cs: seq<Cell>, w: nat)
    requires |cs| >= 2 * w
    ensures multiset(cs) == multiset(cs[..w]) + multiset(cs[w..2 * w]) + multiset(cs[2 * w..])
  {
    assert cs == cs[..w] + cs[w..2 * w] + cs[2 * w..];
  }

  lemma {:induction false} MergeRunsPermute(cs: seq<Cell>, w: nat)
    requires w > 0 && Multiple(|cs|, 2 * w)
    ensures multiset(MergeRuns(cs, w)) == multiset(cs)
    decreases |cs|
  {
    hide Merge2;
    if cs != [] {
      Merge2Permutes(cs[..w], cs[w..2 * w]);
      MergeRunsPermute(cs[2 * w..], w);
      ThreeParts(cs, w);
    }
  }

  /** A level doubles the length of the sorted runs. */
  lemma {:induction false} MergeRunsSort(cs: seq<Cell>, w: nat)
    requires w > 0 && Multiple(|cs|, 2 * w) && RunsAscend(cs, w)
    ensures RunsAscend(MergeRuns(cs, w), 2 * w)
    decreases |cs|
  {
    hide Ascending;
    if cs != [] {
      SplitRuns(cs, w);
      Merge2Sorts(cs[..w], cs[w..2 * w]);
      MergeRunsSort(cs[2 * w..], w);
      JoinRun(Merge2(cs[..w], cs[w..2 * w]), MergeRuns(cs[2 * w..], w), 2 * w);
    } else {
      NothingAscends();
    }
  }

  // ---- cells of the same key ----

  /** The cells with key k, in order. */
  ghost function OfKey(cs: seq<Cell>, k: int): seq<Cell> {
    if cs == [] then [] else (if cs[0].key == k then [cs[0]] else []) + OfKey(cs[1..], k)
  }

  ghost function Backwards(cs: seq<Cell>): seq<Cell> {
    if cs == [] then [] else Backwards(cs[1..]) + [cs[0]]
  }

  /** b has the cells of every key in the opposite order. */
  ghost predicate Turned(a: seq<Cell>, b: seq<Cell>) {
    forall k: int :: OfKey(b, k) == Backwards(OfKey(a, k))
  }

  lemma {:induction false} OfKeyJoin(a: seq<Cell>, b: seq<Cell>, k: int)
    ensures OfKey(a + b, k) == OfKey(a, k) + OfKey(b, k)
  {
    if a == [] {
      assert a + b == b;
    } else {
      OfKeyJoin(a[1..], b, k);
      assert (a + b)[1..] == a[1..] + b;
    }
  }

  lemma {:induction false} BackwardsJoin(a: seq<Cell>, b: seq<Cell>)
    ensures Backwards(a + b) == Backwards(b) + Backwards(a)
  {
    if a == [] {
      assert a + b == b;
    } else {
      BackwardsJoin(a[1..], b);
      assert (a + b)[1..] == a[1..] + b;
    }
  }

  lemma {:induction false} NoneOfKey(cs: seq<Cell>, k: int)
    requires Ascending(cs) && (cs == [] || k < cs[0].key)
    ensures OfKey(cs, k) == []
  {
    if cs != [] {
      NoneOfKey(cs[1..], k);
    }
  }

  lemma Merge2Step(a: seq<Cell>, b: seq<Cell>)
    ensures a == [] ==> Merge2(a, b) == b
    ensures b == [] ==> Merge2(a, b) == a
    ensures a != [] && b != [] && a[0].key < b[0].key ==> Merge2(a, b) == [a[0]] + Merge2(a[1..], b)
    ensures a != [] && b != [] && a[0].key >= b[0].key ==> Merge2(a, b) == [b[0]] + Merge2(a, b[1..])
  {
  }

  lemma OfKeyHead(c: Cell, cs: seq<Cell>, k: int)
    ensures OfKey([c] + cs, k) == if c.key == k then [c] + OfKey(cs, k) else OfKey(cs, k)
  {
    assert ([c] + cs)[1..] == cs;
  }

  lemma OfKeyFirst(cs: seq<Cell>, k: int)
    requires cs != []
    ensures OfKey(cs, k) == if cs[0].key == k then [cs[0]] + OfKey(cs[1..], k) else OfKey(cs[1..], k)
  {
  }

  lemma Regroup(c: Cell, x: seq<Cell>, y: seq<Cell>)
    ensures [c] + (x + y) == ([c] + x) + y
  {
  }

  /** The second run's cells of a key all come before the first run's. */
  lemma {:induction false} Merge2Ties(a: seq<Cell>, b: seq<Cell>, k: int)
    requires Ascending(a) && Ascending(b)
    ensures OfKey(Merge2(a, b), k) == OfKey(b, k) + OfKey(a, k)
    decreases |a| + |b|
  {
    hide Ascending, OfKey, Merge2;
    Merge2Step(a, b);
    if a == [] || b == [] {
      NoCells(k);
    } else if a[0].key < b[0].key {
      TailAscends(a);
      Merge2Ties(a[1..], b, k);
      OfKeyHead(a[0], Merge2(a[1..], b), k);
      OfKeyFirst(a, k);
      if a[0].key == k {
        NoneOfKey(b, k);
      }
    } else {
      TailAscends(b);
      Merge2Ties(a, b[1..], k);
      OfKeyHead(b[0], Merge2(a, b[1..]), k);
      OfKeyFirst(b, k);
      Regroup(b[0], OfKey(b[1..], k), OfKey(a, k));
    }
  }

  lemma NoCells(k: int)
    ensures OfKey([], k) == []
  {
  }

  lemma TurnedMerge(a: seq<Cell>, b: seq<Cell>, a': seq<Cell>, b': seq<Cell>)
    requires Ascending(a') && Ascending(b') && Turned(a, a') && Turned(b, b')
    ensures Turned(a + b, Merge2(a', b'))
  {
    hide Ascending, OfKey, Backwards, Merge2;
    forall k: int
      ensures OfKey(Merge2(a', b'), k) == Backwards(OfKey(a + b, k))
    {
      Merge2Ties(a', b', k);
      OfKeyJoin(a, b, k);
      BackwardsJoin(OfKey(a, k), OfKey(b, k));
    }
  }

  /** Run by run, cs has the cells of every key in the opposite order of start. */
  ghost predicate RunsTurned(start: seq<Cell>, cs: seq<Cell>, w: nat)
    requires w > 0 && |start| == |cs|
    decreases |cs|
  {
    if |cs| <= w then Turned(start, cs) else Turned(start[..w], cs[..w]) && RunsTurned(start[w..], cs[w..], w)
  }

  lemma NothingTurned()
    ensures Turned([], [])
  {
  }

  lemma SplitTurned(start: seq<Cell>, cs: seq<Cell>, w: nat)
    requires w > 0 && |start| == |cs| >= 2 * w && RunsTurned(start, cs, w)
    ensures Turned(start[..w], cs[..w]) && Turned(start[w..2 * w], cs[w..2 * w])
    ensures RunsTurned(start[2 * w..], cs[2 * w..], w)
  {
    hide Turned;
    assert cs[w..][..w] == cs[w..2 * w] && cs[w..][w..] == cs[2 * w..];
    assert start[w..][..w] == start[w..2 * w] && start[w..][w..] == start[2 * w..];
    if |cs| == 2 * w {
      assert cs[w..] == cs[w..2 * w] && start[w..] == start[w..2 * w] && cs[2 * w..] == [] == start[2 * w..];
      NothingTurned();
    }
  }

  lemma JoinTurned(start: seq<Cell>, run: seq<Cell>, rest: seq<Cell>, w: nat)
    requires w > 0 && |run| == w && |start| == w + |rest| && Turned(start[..w], run) && RunsTurned(start[w..], rest, w)
    ensures RunsTurned(start, run + rest, w)
  {
    hide Turned;
    assert (run + rest)[..w] == run && (run + rest)[w..] == rest;
    assert rest == [] ==> run + rest == run && start[..w] == start;
  }

  /** A level turns the order of equal keys round in runs twice as long. */
  lemma {:induction false} MergeRunsTurn(start: seq<Cell>, cs: seq<Cell>, w: nat)
    requires w > 0 && |start| == |cs| && Multiple(|cs|, 2 * w) && RunsAscend(cs, w) && RunsTurned(start, cs, w)
    ensures RunsTurned(start, MergeRuns(cs, w), 2 * w)
    decreases |cs|
  {
    hide Ascending, Turned;
    if cs != [] {
      SplitRuns(cs, w);
      SplitTurned(start, cs, w);
      TurnedMerge(start[..w], start[w..2 * w], cs[..w], cs[w..2 * w]);
      assert start[..w] + start[w..2 * w] == start[..2 * w];
      MergeRunsTurn(start[2 * w..], cs[2 * w..], w);
      JoinTurned(start, Merge2(cs[..w], cs[w..2 * w]), MergeRuns(cs[2 * w..], w), 2 * w);
    } else {
      NothingTurned();
    }
  }

  lemma {:induction false} SinglesTurned(cs: seq<Cell>)
    ensures RunsTurned(cs, cs, 1)
  {
    if |cs| > 1 {
      SinglesTurned(cs[1..]);
    }
  }

  lemma WholeTurned(start: seq<Cell>, cs: seq<Cell>, w: nat)
    requires w > 0 && |start| == |cs| <= w && RunsTurned(start, cs, w)
    ensures Turned(start, cs)
  {
  }

  lemma {:induction false} KeyOccurs(cs: seq<Cell>, k: int)
    requires Ascending(cs) && OfKey(cs, k) != []
    ensures cs != [] && cs[0].key <= k
  {
    if cs != [] && k < cs[0].key {
      NoneOfKey(cs, k);
    }
  }

  /** Key order and the order within every key leave one result. */
  lemma {:induction false} OrderDetermines(r: seq<Cell>, r': seq<Cell>)
    requires Ascending(r) && Ascending(r') && forall k: int :: OfKey(r, k) == OfKey(r', k)
    ensures r == r'
    decreases |r|
  {
    hide OfKey;
    if r != [] && r' != [] {
      SameHead(r, r');
      forall k: int
        ensures OfKey(r[1..], k) == OfKey(r'[1..], k)
      {
        SameTail(r, r', k);
      }
      OrderDetermines(r[1..], r'[1..]);
    } else {
      HeadOccurs(r);
      HeadOccurs(r');
    }
  }

  lemma HeadOccurs(cs: seq<Cell>)
    ensures cs != [] ==> OfKey(cs, cs[0].key) != [] && OfKey(cs, cs[0].key)[0] == cs[0]
    ensures cs == [] ==> forall k: int :: OfKey(cs, k) == []
  {
  }

  lemma SameHead(r: seq<Cell>, r': seq<Cell>)
    requires Ascending(r) && Ascending(r') && r != [] && r' != [] && forall k: int :: OfKey(r, k) == OfKey(r', k)
    ensures r[0] == r'[0]
  {
    hide Ascending, OfKey;
    HeadOccurs(r);
    HeadOccurs(r');
    KeyOccurs(r', r[0].key);
    KeyOccurs(r, r'[0].key);
  }

  lemma SameTail(r: seq<Cell>, r': seq<Cell>, k: int)
    requires r != [] && r' != [] && r[0] == r'[0] && OfKey(r, k) == OfKey(r', k)
    ensures OfKey(r[1..], k) == OfKey(r'[1..], k)
  {
    hide OfKey;
    OfKeyFirst(r, k);
    OfKeyFirst(r', k);
    if r[0].key == k {
      assert OfKey(r[1..], k) == ([r[0]] + OfKey(r[1..], k))[1..];
      assert OfKey(r'[1..], k) == ([r[0]] + OfKey(r'[1..], k))[1..];
    }
  }

  // ---- lengths ----

  lemma {:induction false} MultipleAdds(m: nat, n: nat, w: nat)
    requires w > 0 && Multiple(m, w) && Multiple(n, w)
    ensures Multiple(m + n, w)
    decreases m
  {
    if m > 0 {
      MultipleAdds(m - w, n, w);
    }
  }

  /** A power of two is a multiple of every smaller one, and twice that still fits below it. */
  lemma {:induction false} PowersDivide(w: nat, n: nat)
    requires PowerOfTwo(w) && PowerOfTwo(n) && w <= n
    ensures w > 0 && Multiple(n, w)
    ensures w < n ==> 2 * w <= n && PowerOfTwo(2 * w)
    decreases n
  {
    assert (2 * w) / 2 == w;
    if w == n {
      assert Multiple(n - w, w);
    } else if w <= n / 2 {
      PowersDivide(w, n / 2);
      MultipleAdds(n / 2, n / 2, w);
    } else {
      NoPowerBetween(w, n);
    }
  }

  lemma {:induction false} NoPowerBetween(w: nat, n: nat)
    requires PowerOfTwo(w) && PowerOfTwo(n) && w < n
    ensures w <= n / 2
    decreases n
  {
    if w > 1 {
      NoPowerBetween(w / 2, n / 2);
    }
  }

  // ---- the merge of two adjacent runs, word by word ----

  /** Where a merge stands: the output up to cell o + z holds what two partly consumed runs have given so far. */
  ghost predicate MergingAt(before: seq<Cell>, dst: seq<Cell>, a: seq<Cell>, b: seq<Cell>, o: nat, x: nat, y: nat) {
    && |dst| == |before| && o + |a| + |b| <= |dst| && x <= |a| && y <= |b|
    && dst[..o] == before[..o] && dst[o + |a| + |b|..] == before[o + |a| + |b|..]
    && dst[o..o + x + y] + Merge2(a[x..], b[y..]) == Merge2(a, b)
  }

  lemma MergingPut(before: seq<Cell>, dst: seq<Cell>, a: seq<Cell>, b: seq<Cell>, o: nat, x: nat, y: nat, c: Cell,
                   x': nat, y': nat)
    requires MergingAt(before, dst, a, b, o, x, y) && x' <= |a| && y' <= |b| && x' + y' == x + y + 1
    requires Merge2(a[x..], b[y..]) == [c] + Merge2(a[x'..], b[y'..])
    ensures MergingAt(before, dst[o + x + y := c], a, b, o, x', y')
  {
    hide Merge2;
    var z, dst' := x + y, dst[o + x + y := c];
    assert dst'[o..o + z + 1] == dst[o..o + z] + [c];
    assert dst'[..o] == dst[..o] && dst'[o + |a| + |b|..] == dst[o + |a| + |b|..];
  }

  lemma MergingTakesFirst(before: seq<Cell>, dst: seq<Cell>, a: seq<Cell>, b: seq<Cell>, o: nat, x: nat, y: nat)
    requires MergingAt(before, dst, a, b, o, x, y) && x < |a| && (y == |b| || a[x].key < b[y].key)
    ensures MergingAt(before, dst[o + x + y := a[x]], a, b, o, x + 1, y)
  {
    assert a[x..][1..] == a[x + 1..] && a[x..][0] == a[x];
    assert a[x..] == [a[x]] + a[x + 1..];
    MergingPut(before, dst, a, b, o, x, y, a[x], x + 1, y);
  }

  lemma MergingTakesSecond(before: seq<Cell>, dst: seq<Cell>, a: seq<Cell>, b: seq<Cell>, o: nat, x: nat, y: nat)
    requires MergingAt(before, dst, a, b, o, x, y) && y < |b| && (x == |a| || !(a[x].key < b[y].key))
    ensures MergingAt(before, dst[o + x + y := b[y]], a, b, o, x, y + 1)
  {
    assert b[y..][1..] == b[y + 1..] && b[y..][0] == b[y];
    assert b[y..] == [b[y]] + b[y + 1..];
    MergingPut(before, dst, a, b, o, x, y, b[y], x, y + 1);
  }

  lemma MergingStart(before: seq<Cell>, a: seq<Cell>, b: seq<Cell>, o: nat)
    requires o + |a| + |b| <= |before|
    ensures MergingAt(before, before, a, b, o, 0, 0)
  {
    assert a[0..] == a && b[0..] == b;
  }

  lemma MergingEnd(before: seq<Cell>, dst: seq<Cell>, a: seq<Cell>, b: seq<Cell>, o: nat)
    requires MergingAt(before, dst, a, b, o, |a|, |b|)
    ensures dst == before[..o] + Merge2(a, b) + before[o + |a| + |b|..]
  {
    hide Merge2;
    MergeNothing(a[|a|..], b[|b|..]);
    ThreeWay(dst, o, o + |a| + |b|);
  }

  lemma ThreeWay(cs: seq<Cell>, i: nat, j: nat)
    requires i <= j <= |cs|
    ensures cs == cs[..i] + cs[i..j] + cs[j..]
  {
  }

  lemma MergeNothing(a: seq<Cell>, b: seq<Cell>)
    requires a == [] && b == []
    ensures Merge2(a, b) == []
  {
  }

  // ---- the code ----

  ghost function View(a: array<int>): (cs: seq<Cell>)
    requires a.Length % 2 == 0
    reads a
    ensures |cs| == a.Length / 2
    ensures forall t: nat :: t < |cs| ==> cs[t] == Cell(a[2 * t], a[2 * t + 1])
  {
    CellsOf(a[..])
  }

  /** dst[k] = src[i]; dst[k + 1] = src[i + 1], on cells p and t. */
  method CopyPair(dst: array<int>, k: nat, src: array<int>, i: nat, ghost p: nat, ghost t: nat)
    requires dst != src && dst.Length % 2 == 0 && src.Length % 2 == 0
    requires k == 2 * p && k + 1 < dst.Length && i == 2 * t && i + 1 < src.Length
    modifies dst
    ensures View(dst) == old(View(dst))[p := View(src)[t]]
  {
    dst[k] := src[i];
    dst[k + 1] := src[i + 1];
  }

  /** The two runs of a merge: stride words from off on and the stride words behind them. */
  ghost function RunOf(cs: seq<Cell>, o: nat, w: nat): (r: seq<Cell>)
    requires o + w <= |cs|
    ensures |r| == w
    ensures forall t: nat :: t < w ==> r[t] == cs[o + t]
  {
    cs[o..o + w]
  }

  method CMerge(dst: array<int>, src: array<int>, off: nat, stride: nat, ghost o: nat, ghost w: nat)
    requires dst != src && dst.Length == src.Length && dst.Length % 2 == 0
    requires off == 2 * o && stride == 2 * w && off + 2 * stride <= dst.Length
    modifies dst
    ensures View(dst) == old(View(dst))[..o] + Merge2(RunOf(View(src), o, w), RunOf(View(src), o + w, w)) + old(View(dst))[o + 2 * w..]
  {
    hide View, RunOf, Merge2, MergingAt;
    ghost var before := View(dst);
    ghost var a, b := RunOf(View(src), o, w), RunOf(View(src), o + w, w);
    MergingStart(before, a, b, o);
    var i, j, k := MergeWhileBoth(dst, src, off, stride, o, w, before, a, b);
    ghost var x, y := i / 2, j / 2;
    while i < stride
      invariant i == 2 * x <= stride && j == 2 * y <= stride && k == i + j && (i == stride || j == stride)
      invariant MergingAt(before, View(dst), a, b, o, x, y)
    {
      MergingTakesFirst(before, View(dst), a, b, o, x, y);
      CopyPair(dst, off + k, src, off + i, o + x + y, o + x);
      i, x := i + 2, x + 1;
      k := k + 2;
    }
    while j < stride
      invariant i == stride == 2 * x && j == 2 * y <= stride && k == i + j
      invariant MergingAt(before, View(dst), a, b, o, x, y)
    {
      MergingTakesSecond(before, View(dst), a, b, o, x, y);
      CopyPair(dst, off + k, src, off + stride + j, o + x + y, o + w + y);
      j, y := j + 2, y + 1;
      k := k + 2;
    }
    MergingEnd(before, View(dst), a, b, o);
  }

  /** The loop while neither run is used up. */
  method MergeWhileBoth(dst: array<int>, src: array<int>, off: nat, stride: nat,
                        ghost o: nat, ghost w: nat, ghost before: seq<Cell>, ghost a: seq<Cell>, ghost b: seq<Cell>)
    returns (i: nat, j: nat, k: nat)
    requires dst != src && dst.Length == src.Length && dst.Length % 2 == 0
    requires off == 2 * o && stride == 2 * w && off + 2 * stride <= dst.Length
    requires a == RunOf(View(src), o, w) && b == RunOf(View(src), o + w, w)
    requires before == View(dst) && MergingAt(before, View(dst), a, b, o, 0, 0)
    modifies dst
    ensures i % 2 == 0 && j % 2 == 0 && i <= stride && j <= stride && k == i + j && (i == stride || j == stride)
    ensures MergingAt(before, View(dst), a, b, o, i / 2, j / 2)
  {
    hide View, RunOf, Merge2, MergingAt;
    ghost var x, y := 0, 0;
    i, j, k := 0, 0, 0;
    while i < stride && j < stride
      invariant i == 2 * x <= stride && j == 2 * y <= stride && k == i + j
      invariant MergingAt(before, View(dst), a, b, o, x, y)
    {
      assert src[off + i] == View(src)[o + x].key == a[x].key;
      assert src[off + stride + j] == View(src)[o + w + y].key == b[y].key;
      if src[off + i] < src[off + stride + j] {
        MergingTakesFirst(before, View(dst), a, b, o, x, y);
        CopyPair(dst, off + k, src, off + i, o + x + y, o + x);
        i, x := i + 2, x + 1;
      } else {
        MergingTakesSecond(before, View(dst), a, b, o, x, y);
        CopyPair(dst, off + k, src, off + stride + j, o + x + y, o + w + y);
        j, y := j + 2, y + 1;
      }
      k := k + 2;
    }
  }

  /** One level of the sort: every pair of neighbouring runs of input is merged into output. */
  method MergeLevel(input: array<int>, output: array<int>, dataSize: nat, stride: nat, ghost w: nat)
    requires input != output && input.Length == output.Length == dataSize && dataSize % 2 == 0
    requires w > 0 && stride == 2 * w && Multiple(dataSize / 2, 2 * w)
    modifies output
    ensures View(output) == MergeRuns(View(input), w)
  {
    hide View, RunOf, Merge2;
    ghost var cs := View(input);
    var j := 0;
    ghost var o := 0;
    assert cs[0..] == cs && View(output)[..0] == [];
    while j < dataSize
      invariant j == 2 * o <= dataSize && Multiple(|cs| - o, 2 * w)
      invariant View(output)[..o] + MergeRuns(cs[o..], w) == MergeRuns(cs, w)
      invariant View(input) == cs
    {
      ghost var before := View(output);
      CMerge(output, input, j, stride, o, w);
      LevelStep(cs, before, View(output), o, w);
      j, o := j + 2 * stride, o + 2 * w;
    }
    assert View(output)[..o] == View(output) && cs[o..] == [];
  }

  lemma LevelStep(cs: seq<Cell>, before: seq<Cell>, after: seq<Cell>, o: nat, w: nat)
    requires w > 0 && o < |cs| == |before| == |after| && Multiple(|cs| - o, 2 * w)
    requires o + 2 * w <= |cs|
    requires after == before[..o] + Merge2(RunOf(cs, o, w), RunOf(cs, o + w, w)) + before[o + 2 * w..]
    ensures Multiple(|cs| - (o + 2 * w), 2 * w)
    ensures after[..o + 2 * w] + MergeRuns(cs[o + 2 * w..], w) == before[..o] + MergeRuns(cs[o..], w)
  {
    hide Merge2;
    var rest := cs[o..];
    assert rest[..w] == RunOf(cs, o, w) && rest[w..2 * w] == RunOf(cs, o + w, w) && rest[2 * w..] == cs[o + 2 * w..];
    assert after[..o + 2 * w] == before[..o] + Merge2(RunOf(cs, o, w), RunOf(cs, o + w, w));
  }

  /**
   * The loop of apptxs_cleanup_msort: strides double, the two buffers trade roles, and the one returned holds the
   * cells of input in key order.
   */
  method MergeSort(input: array<int>, output: array<int>, dataSize: nat) returns (sorted: array<int>)
    requires input != output && input.Length == output.Length == dataSize
    requires dataSize % 2 == 0 && PowerOfTwo(dataSize / 2)
    modifies input, output
    ensures sorted == input || sorted == output
    ensures sorted.Length == dataSize && Ascending(View(sorted)) && multiset(View(sorted)) == multiset(old(View(input)))
    ensures Turned(old(View(input)), View(sorted))
  {
    assert dataSize / 2 >= 1;
    hide View, MergeRuns, PowerOfTwo, Multiple, Turned;
    ghost var before, start := View(input), multiset(View(input));
    ghost var n, w := dataSize / 2, 1;
    var src, dst := input, output;
    var stride := 2;
    SinglesAscend(View(input));
    SinglesTurned(View(input));
    while stride < dataSize
      invariant src != dst && {src, dst} == {input, output} && src.Length == dst.Length == dataSize
      invariant 0 < w <= n && stride == 2 * w && PowerOfTwo(w)
      invariant RunsAscend(View(src), w) && multiset(View(src)) == start && RunsTurned(before, View(src), w)
      decreases dataSize - stride
    {
      PowersDivide(w, n);
      NextDivides(w, n);
      MergeRunsSort(View(src), w);
      MergeRunsPermute(View(src), w);
      MergeRunsTurn(before, View(src), w);
      MergeLevel(src, dst, dataSize, stride, w);
      src, dst := dst, src;
      stride, w := stride * 2, 2 * w;
    }
    sorted := src;
    WholeTurned(before, View(src), w);
  }

  lemma NextDivides(w: nat, n: nat)
    requires PowerOfTwo(w) && PowerOfTwo(n) && w < n
    ensures w > 0 && Multiple(n, 2 * w)
  {
    PowersDivide(w, n);
    PowersDivide(2 * w, n);
  }

  lemma {:induction false} SinglesAscend(cs: seq<Cell>)
    ensures RunsAscend(cs, 1) && PowerOfTwo(1)
  {
    if |cs| > 1 {
      SinglesAscend(cs[1..]);
    }
  }
}

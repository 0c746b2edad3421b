/** What the queue-based merge sort returns, and exactly when it aborts. */
module MergeProofs {
  import opened Common
  import opened MergeSpec

  ghost predicate Sorted(s: seq<int>) {
    forall i: nat, j: nat :: i < j < |s| ==> s[i] <= s[j]
  }

  // ---- partial correctness ----

  /** How many items of src have entered its queue before step i. */
  function Fed(src: seq<int>, i: nat): nat {
    if i < |src| then i else |src|
  }

  /** The queue is the tail of what has been fed. */
  ghost predicate Holds(src: seq<int>, i: nat, q: seq<int>) {
    |q| <= Fed(src, i) && q == src[Fed(src, i) - |q|..Fed(src, i)]
  }

  /** How many items of src have been emitted. */
  ghost function Gone(src: seq<int>, i: nat, q: seq<int>): nat
    requires Holds(src, i, q)
  {
    Fed(src, i) - |q|
  }

  ghost predicate Below(out: seq<int>, src: seq<int>, a: nat) {
    forall p: nat, k: nat :: p < |out| && a <= k < |src| ==> out[p] <= src[k]
  }

  /** What has been emitted is sorted, is exactly what has left the queues and is below everything else. */
  ghost predicate Progress(l: seq<int>, r: seq<int>, i: nat, m: Merge) {
    && Holds(l, i, m.lq) && Holds(r, i, m.rq)
    && Sorted(m.out)
    && Below(m.out, l, Gone(l, i, m.lq)) && Below(m.out, r, Gone(r, i, m.rq))
    && multiset(m.out) == multiset(l[..Gone(l, i, m.lq)]) + multiset(r[..Gone(r, i, m.rq)])
  }

  lemma FeedHolds(src: seq<int>, q: seq<int>, i: nat, s: nat)
    requires Holds(src, i, q) && Feed(src, q, i, s).Ok?
    ensures Holds(src, i + 1, Feed(src, q, i, s).value)
    ensures Gone(src, i + 1, Feed(src, q, i, s).value) == Gone(src, i, q)
  {
  }

  lemma FeedProgress(l: seq<int>, r: seq<int>, s: nat, i: nat, m: Merge)
    requires Progress(l, r, i, m) && FeedBoth(l, r, s, i, m).Ok?
    ensures Progress(l, r, i + 1, FeedBoth(l, r, s, i, m).value)
    ensures FeedBoth(l, r, s, i, m).value.out == m.out
  {
    FeedHolds(l, m.lq, i, s);
    FeedHolds(r, m.rq, i, s);
  }

  /** The head of a queue is the first item of its half that has not been emitted. */
  lemma HeadIs(src: seq<int>, i: nat, q: seq<int>)
    requires Holds(src, i, q) && q != []
    ensures Gone(src, i, q) < |src| && q[0] == src[Gone(src, i, q)]
    ensures Holds(src, i, q[1..]) && Gone(src, i, q[1..]) == Gone(src, i, q) + 1
  {
  }

  /** Emitting the least head keeps everything. */
  lemma EmitHead(out: seq<int>, src: seq<int>, other: seq<int>, a: nat, b: nat)
    requires Sorted(src) && Sorted(other) && Sorted(out) && a < |src| && b < |other| && src[a] <= other[b]
    requires Below(out, src, a) && Below(out, other, b)
    ensures Sorted(out + [src[a]]) && Below(out + [src[a]], src, a + 1) && Below(out + [src[a]], other, b)
    ensures multiset(src[..a + 1]) == multiset(src[..a]) + multiset{src[a]}
  {
    assert src[..a + 1] == src[..a] + [src[a]];
    forall k: nat | b <= k < |other|
      ensures src[a] <= other[k]
    {
      assert k > b ==> other[b] <= other[k];
    }
  }

  lemma EmitLeft(l: seq<int>, r: seq<int>, i: nat, m: Merge)
    requires Sorted(l) && Sorted(r) && Progress(l, r, i, m) && Ready(m) && m.lq[0] <= m.rq[0]
    ensures Progress(l, r, i, Merge(m.lq[1..], m.rq, m.out + [m.lq[0]]))
  {
    hide Sorted, Below, Holds;
    HeadIs(l, i, m.lq);
    HeadIs(r, i, m.rq);
    EmitHead(m.out, l, r, Gone(l, i, m.lq), Gone(r, i, m.rq));
  }

  lemma EmitRight(l: seq<int>, r: seq<int>, i: nat, m: Merge)
    requires Sorted(l) && Sorted(r) && Progress(l, r, i, m) && Ready(m) && m.rq[0] <= m.lq[0]
    ensures Progress(l, r, i, Merge(m.lq, m.rq[1..], m.out + [m.rq[0]]))
  {
    hide Sorted, Below, Holds;
    HeadIs(l, i, m.lq);
    HeadIs(r, i, m.rq);
    EmitHead(m.out, r, l, Gone(r, i, m.rq), Gone(l, i, m.lq));
  }

  lemma EmitProgress(l: seq<int>, r: seq<int>, i: nat, m: Merge)
    requires Sorted(l) && Sorted(r) && Progress(l, r, i, m) && Ready(m)
    ensures Progress(l, r, i, Emit(m)) && |Emit(m).out| == |m.out| + 1
  {
    hide Progress, Sorted;
    if m.lq[0] <= m.rq[0] {
      EmitLeft(l, r, i, m);
    }
    if m.rq[0] <= m.lq[0] {
      EmitRight(l, r, i, m);
    }
  }

  lemma AppendRest(out: seq<int>, src: seq<int>, a: nat)
    requires Sorted(out) && Sorted(src) && a <= |src| && Below(out, src, a)
    ensures Sorted(out + src[a..])
    ensures multiset(src) == multiset(src[..a]) + multiset(src[a..])
  {
    assert src == src[..a] + src[a..];
  }

  /** Draining after everything has been fed, one queue empty, completes the merge. */
  lemma DrainCompletes(l: seq<int>, r: seq<int>, i: nat, m: Merge)
    requires Sorted(l) && Sorted(r) && Progress(l, r, i, m) && !Ready(m) && i >= |l| && i >= |r|
    ensures Sorted(Drain(m)) && multiset(Drain(m)) == multiset(l) + multiset(r)
  {
    hide Sorted, Below;
    var a, b := Gone(l, i, m.lq), Gone(r, i, m.rq);
    AppendRest(m.out, l, a);
    AppendRest(m.out, r, b);
    if m.rq == [] {
      assert Drain(m) == m.out + l[a..] && r[..b] == r;
    } else {
      assert Drain(m) == m.out + r[b..] && l[..a] == l;
    }
  }

  /** At most everything has been emitted or sits in a queue. */
  lemma Counted(l: seq<int>, r: seq<int>, i: nat, m: Merge)
    requires Progress(l, r, i, m)
    ensures |m.out| + |m.lq| + |m.rq| <= |l| + |r|
  {
    assert |multiset(m.out)| == |m.out|;
    assert |multiset(l[..Gone(l, i, m.lq)])| == Gone(l, i, m.lq) && |multiset(r[..Gone(r, i, m.rq)])| == Gone(r, i, m.rq);
  }

  /** Every completed step has emitted two items, and an emission leaves an item behind in the other queue. */
  ghost predicate Flow(l: seq<int>, r: seq<int>, s: nat, i: nat, m: Merge) {
    && 1 <= |l| <= |r|
    && s / 2 <= i && |m.out| == 2 * (i - s / 2)
    && (i > s / 2 ==> |m.out| < |l| + |r|)
  }

  /** A state with this many emissions is short of the step bound. */
  lemma ShortOfBound(l: seq<int>, r: seq<int>, s: nat, i: nat, m: Merge)
    requires Flow(l, r, s, i, m)
    ensures i < |r| + s / 2
  {
  }

  ghost predicate MergesTo(res: Result<seq<int>>, l: seq<int>, r: seq<int>) {
    && res != Halted(UnprocessedData)
    && (res.Ok? ==> Sorted(res.value) && multiset(res.value) == multiset(l) + multiset(r))
  }

  lemma {:induction false} MainLoopMerges(l: seq<int>, r: seq<int>, s: nat, i: nat, m: Merge)
    requires Sorted(l) && Sorted(r) && Progress(l, r, i, m) && Flow(l, r, s, i, m)
    ensures MergesTo(MainLoop(l, r, s, i, m), l, r)
    decreases |r| + s / 2 - i
  {
    hide Sorted, Progress;
    ShortOfBound(l, r, s, i, m);
    if FeedBoth(l, r, s, i, m).Ok? {
      FeedProgress(l, r, s, i, m);
      EmitStepsMerge(l, r, s, i, FeedBoth(l, r, s, i, m).value, 0);
    }
  }

  lemma {:induction false} EmitStepsMerge(l: seq<int>, r: seq<int>, s: nat, i: nat, m: Merge, j: nat)
    requires Sorted(l) && Sorted(r) && Progress(l, r, i + 1, m) && 1 <= |l| <= |r|
    requires s / 2 <= i < |r| + s / 2 && j <= 2 && |m.out| == 2 * (i - s / 2) + j
    requires j > 0 ==> |m.out| < |l| + |r|
    ensures MergesTo(EmitSteps(l, r, s, i, m, j), l, r)
    decreases |r| + s / 2 - i, 0, 2 - j
  {
    hide Sorted, Progress;
    Counted(l, r, i + 1, m);
    if j == 2 {
      MainLoopMerges(l, r, s, i + 1, m);
    } else if Ready(m) {
      EmitProgress(l, r, i + 1, m);
      EmitStepsMerge(l, r, s, i, Emit(m), j + 1);
    } else if i >= |l| && i >= |r| {
      DrainCompletes(l, r, i + 1, m);
    }
  }

  lemma {:induction false} PreloadProgress(l: seq<int>, r: seq<int>, s: nat, i: nat, m: Merge)
    requires i <= s / 2 && Progress(l, r, i, m) && m.out == []
    ensures Preload(l, r, s, i, m).Ok? ==>
              Progress(l, r, s / 2, Preload(l, r, s, i, m).value) && Preload(l, r, s, i, m).value.out == []
    ensures Preload(l, r, s, i, m) != Halted(UnprocessedData)
    decreases s / 2 - i
  {
    hide Progress;
    if i < s / 2 && FeedBoth(l, r, s, i, m).Ok? {
      FeedProgress(l, r, s, i, m);
      PreloadProgress(l, r, s, i + 1, FeedBoth(l, r, s, i, m).value);
    }
  }

  lemma NoProgressYet(l: seq<int>, r: seq<int>)
    ensures Progress(l, r, 0, Merge([], [], []))
  {
  }

  /** A merge level that does not abort merges, and it never finds items left behind its loop. */
  lemma MergeLevelMerges(l: seq<int>, r: seq<int>)
    requires Sorted(l) && Sorted(r) && 1 <= |l| <= |r|
    ensures MergesTo(MergeLevel(l, r), l, r)
  {
    var s := QueueSize(|l| + |r|);
    hide Progress, Sorted, QueueSize;
    NoProgressYet(l, r);
    PreloadProgress(l, r, s, 0, Merge([], [], []));
    if Preload(l, r, s, 0, Merge([], [], [])).Ok? {
      MainLoopMerges(l, r, s, s / 2, Preload(l, r, s, 0, Merge([], [], [])).value);
    }
  }

  // ---- how the main loop ends ----

  /** The main loop with fall for whatever follows when its step bound is what ends it. */
  function MainLoopOr(l: seq<int>, r: seq<int>, s: nat, i: nat, m: Merge, fall: Result<seq<int>>): Result<seq<int>>
    decreases |r| + s / 2 - i
  {
    if i >= |r| + s / 2 then fall else
      var m1 :- FeedBoth(l, r, s, i, m);
      EmitStepsOr(l, r, s, i, m1, 0, fall)
  }

  function EmitStepsOr(l: seq<int>, r: seq<int>, s: nat, i: nat, m: Merge, j: nat, fall: Result<seq<int>>): Result<seq<int>>
    requires i < |r| + s / 2 && j <= 2
    decreases |r| + s / 2 - i, 0, 2 - j
  {
    if j == 2 then MainLoopOr(l, r, s, i + 1, m, fall)
    else if Ready(m) then EmitStepsOr(l, r, s, i, Emit(m), j + 1, fall)
    else if i < |l| || i < |r| then Halted(QueueEmpty)
    else Ok(Drain(m))
  }

  lemma {:induction false} MainLoopIsLeft(l: seq<int>, r: seq<int>, s: nat, i: nat, m: Merge, fall: Result<seq<int>>)
    requires Sorted(l) && Sorted(r) && Progress(l, r, i, m) && Flow(l, r, s, i, m)
    ensures MainLoopOr(l, r, s, i, m, fall) == MainLoop(l, r, s, i, m)
    decreases |r| + s / 2 - i
  {
    hide Sorted, Progress;
    ShortOfBound(l, r, s, i, m);
    if FeedBoth(l, r, s, i, m).Ok? {
      FeedProgress(l, r, s, i, m);
      EmitStepsAreLeft(l, r, s, i, FeedBoth(l, r, s, i, m).value, 0, fall);
    }
  }

  lemma {:induction false} EmitStepsAreLeft(l: seq<int>, r: seq<int>, s: nat, i: nat, m: Merge, j: nat, fall: Result<seq<int>>)
    requires Sorted(l) && Sorted(r) && Progress(l, r, i + 1, m) && 1 <= |l| <= |r|
    requires s / 2 <= i < |r| + s / 2 && j <= 2 && |m.out| == 2 * (i - s / 2) + j
    requires j > 0 ==> |m.out| < |l| + |r|
    ensures EmitStepsOr(l, r, s, i, m, j, fall) == EmitSteps(l, r, s, i, m, j)
    decreases |r| + s / 2 - i, 0, 2 - j
  {
    hide Sorted, Progress;
    Counted(l, r, i + 1, m);
    if j == 2 {
      MainLoopIsLeft(l, r, s, i + 1, m, fall);
    } else if Ready(m) {
      EmitProgress(l, r, i + 1, m);
      EmitStepsAreLeft(l, r, s, i, Emit(m), j + 1, fall);
    }
  }

  /**
   * After any preload the main loop is left from inside: what follows it when its step bound is reached has no
   * influence on the result, for any halves and any queue size.
   */
  lemma NeverFallsThrough(l: seq<int>, r: seq<int>, s: nat, fall: Result<seq<int>>)
    requires Sorted(l) && Sorted(r) && 1 <= |l| <= |r| && Preload(l, r, s, 0, Merge([], [], [])).Ok?
    ensures
      var m := Preload(l, r, s, 0, Merge([], [], [])).value;
      MainLoopOr(l, r, s, s / 2, m, fall) == MainLoop(l, r, s, s / 2, m)
  {
    hide Progress, Sorted, Preload, MainLoop, MainLoopOr;
    NoProgressYet(l, r);
    PreloadProgress(l, r, s, 0, Merge([], [], []));
    MainLoopIsLeft(l, r, s, s / 2, Preload(l, r, s, 0, Merge([], [], [])).value, fall);
  }

  /** A run that does not abort returns the input in order; no run ends with unprocessed data. */
  lemma {:induction false} MergeSortSorts(xs: seq<int>)
    requires xs != []
    ensures MergeSort(xs) != Halted(UnprocessedData)
    ensures MergeSort(xs).Ok? ==> Sorted(MergeSort(xs).value) && multiset(MergeSort(xs).value) == multiset(xs)
    decreases |xs|
  {
    if |xs| > 1 {
      var h := |xs| / 2;
      assert xs == xs[..h] + xs[h..];
      MergeSortSorts(xs[..h]);
      MergeSortSorts(xs[h..]);
      var l, r := MergeSort(xs[..h]), MergeSort(xs[h..]);
      if l.Ok? && r.Ok? {
        assert |multiset(l.value)| == h && |multiset(r.value)| == |xs| - h;
        MergeLevelMerges(l.value, r.value);
      }
    }
  }

  // ---- when it aborts ----

  /** The sizes at which a level can never abort: the queues outlast the feeding. */
  predicate SafeLevel(ll: nat, rl: nat, s: nat) {
    rl < s || (ll == s && rl == s)
  }

  lemma {:induction false} PreloadFits(l: seq<int>, r: seq<int>, s: nat, i: nat, m: Merge)
    requires i <= s / 2 && Holds(l, i, m.lq) && Holds(r, i, m.rq) && |m.lq| == Fed(l, i) && |m.rq| == Fed(r, i)
    ensures Preload(l, r, s, i, m).Ok?
    ensures
      var m' := Preload(l, r, s, i, m).value;
      Holds(l, s / 2, m'.lq) && Holds(r, s / 2, m'.rq) && |m'.lq| == Fed(l, s / 2) && |m'.rq| == Fed(r, s / 2)
    decreases s / 2 - i
  {
    if i < s / 2 {
      FeedHolds(l, m.lq, i, s);
      FeedHolds(r, m.rq, i, s);
      PreloadFits(l, r, s, i + 1, FeedBoth(l, r, s, i, m).value);
    }
  }

  /** While both halves feed, the queue lengths sum to s and have drifted from s/2 by at most one per step. */
  ghost predicate Balanced(l: seq<int>, r: seq<int>, s: nat, i: nat, m: Merge) {
    || i >= |r|
    || (i <= |l| && |m.lq| + |m.rq| == s && s - i <= |m.lq| <= i && s - i <= |m.rq| <= i)
  }

  lemma TwoEmissions(l: seq<int>, r: seq<int>, s: nat, i: nat, m: Merge)
    requires |m.lq| >= 2 && |m.rq| >= 2 && i < |r| + s / 2
    ensures
      var m' := Emit(Emit(m));
      && EmitSteps(l, r, s, i, m, 0) == MainLoop(l, r, s, i + 1, m')
      && |m'.lq| + |m'.rq| == |m.lq| + |m.rq| - 2
      && |m.lq| - 2 <= |m'.lq| <= |m.lq| && |m.rq| - 2 <= |m'.rq| <= |m.rq|
  {
    var m1 := Emit(m);
    var m2 := Emit(m1);
    assert EmitSteps(l, r, s, i, m1, 1) == EmitSteps(l, r, s, i, m2, 2);
  }

  lemma {:induction false} SafeMainLoop(l: seq<int>, r: seq<int>, s: nat, i: nat, m: Merge)
    requires |l| <= |r| <= |l| + 1 && SafeLevel(|l|, |r|, s) && s / 2 <= i && Balanced(l, r, s, i, m)
    ensures MainLoop(l, r, s, i, m).Ok? || MainLoop(l, r, s, i, m) == Halted(UnprocessedData)
    decreases |r| + s / 2 - i
  {
    if i < |r| + s / 2 {
      if i < |r| {
        var m1 := FeedBoth(l, r, s, i, m).value;
        TwoEmissions(l, r, s, i, m1);
        SafeMainLoop(l, r, s, i + 1, Emit(Emit(m1)));
      } else {
        FedOutLoop(l, r, s, i, m);
      }
    }
  }

  /** Once both halves are in the queues nothing can abort, whatever the queues hold. */
  lemma {:induction false} FedOutLoop(l: seq<int>, r: seq<int>, s: nat, i: nat, m: Merge)
    requires |l| <= |r| <= i
    ensures MainLoop(l, r, s, i, m).Ok? || MainLoop(l, r, s, i, m) == Halted(UnprocessedData)
    decreases |r| + s / 2 - i
  {
    if i < |r| + s / 2 {
      FedOutEmissions(l, r, s, i, m, 0);
    }
  }

  lemma {:induction false} FedOutEmissions(l: seq<int>, r: seq<int>, s: nat, i: nat, m: Merge, j: nat)
    requires |l| <= |r| <= i < |r| + s / 2 && j <= 2
    ensures EmitSteps(l, r, s, i, m, j).Ok? || EmitSteps(l, r, s, i, m, j) == Halted(UnprocessedData)
    decreases |r| + s / 2 - i, 0, 2 - j
  {
    if j == 2 {
      FedOutLoop(l, r, s, i + 1, m);
    } else if Ready(m) {
      FedOutEmissions(l, r, s, i, Emit(m), j + 1);
    }
  }

  lemma QueueSizeShape(n: nat)
    requires n >= 1
    ensures QueueSize(n) >= 4 && QueueSize(n) % 2 == 0
  {
  }

  lemma NothingFed(src: seq<int>)
    ensures Holds(src, 0, [])
  {
  }

  lemma StartBalanced(l: seq<int>, r: seq<int>, s: nat, m: Merge)
    requires |l| <= |r| <= |l| + 1 && s % 2 == 0 && |m.lq| == Fed(l, s / 2) && |m.rq| == Fed(r, s / 2)
    ensures Balanced(l, r, s, s / 2, m)
  {
  }

  lemma SafeStart(l: seq<int>, r: seq<int>, s: nat)
    requires |l| <= |r| <= |l| + 1 && SafeLevel(|l|, |r|, s) && s % 2 == 0
    ensures
      var p := Preload(l, r, s, 0, Merge([], [], []));
      && p.Ok?
      && (MainLoop(l, r, s, s / 2, p.value).Ok? || MainLoop(l, r, s, s / 2, p.value) == Halted(UnprocessedData))
  {
    hide Holds, MainLoop, Preload, Balanced;
    NothingFed(l);
    NothingFed(r);
    PreloadFits(l, r, s, 0, Merge([], [], []));
    var m := Preload(l, r, s, 0, Merge([], [], [])).value;
    StartBalanced(l, r, s, m);
    SafeMainLoop(l, r, s, s / 2, m);
  }

  /** At a safe size no input makes the level abort. */
  lemma SafeLevelNeverAborts(l: seq<int>, r: seq<int>)
    requires Sorted(l) && Sorted(r) && 1 <= |l| <= |r| <= |l| + 1 && SafeLevel(|l|, |r|, QueueSize(|l| + |r|))
    ensures MergeLevel(l, r).Ok?
  {
    hide QueueSize, Sorted, MainLoop, Preload, SafeLevel;
    QueueSizeShape(|l| + |r|);
    MergeLevelMerges(l, r);
    SafeStart(l, r, QueueSize(|l| + |r|));
  }

  /** Everything in l is below everything in r. */
  ghost predicate Apart(l: seq<int>, r: seq<int>) {
    forall i: nat, j: nat :: i < |l| && j < |r| ==> l[i] < r[j]
  }

  lemma LeftGoesFirst(l: seq<int>, r: seq<int>, i: nat, m: Merge)
    requires Apart(l, r) && Holds(l, i, m.lq) && Holds(r, i, m.rq) && Ready(m)
    ensures Emit(m) == Merge(m.lq[1..], m.rq, m.out + [m.lq[0]])
    ensures Holds(l, i, m.lq[1..])
  {
    HeadIs(l, i, m.lq);
    HeadIs(r, i, m.rq);
  }

  lemma LoopFeeds(l: seq<int>, r: seq<int>, s: nat, i: nat, m: Merge)
    requires i < |r| + s / 2 && FeedBoth(l, r, s, i, m).Ok?
    ensures MainLoop(l, r, s, i, m) == EmitSteps(l, r, s, i, FeedBoth(l, r, s, i, m).value, 0)
  {
  }

  lemma EmitsFirst(l: seq<int>, r: seq<int>, s: nat, i: nat, m: Merge)
    requires i < |r| + s / 2 && Ready(m)
    ensures EmitSteps(l, r, s, i, m, 0) == EmitSteps(l, r, s, i, Emit(m), 1)
  {
  }

  lemma EmitsSecond(l: seq<int>, r: seq<int>, s: nat, i: nat, m: Merge)
    requires i < |r| + s / 2 && Ready(m)
    ensures EmitSteps(l, r, s, i, m, 1) == MainLoop(l, r, s, i + 1, Emit(m))
  {
    assert EmitSteps(l, r, s, i, m, 1) == EmitSteps(l, r, s, i, Emit(m), 2);
  }

  lemma RunsEmpty(l: seq<int>, r: seq<int>, s: nat, i: nat, m: Merge)
    requires i < |r| + s / 2 && !Ready(m) && (i < |l| || i < |r|)
    ensures EmitSteps(l, r, s, i, m, 1) == Halted(QueueEmpty)
  {
  }

  lemma RunsFull(l: seq<int>, r: seq<int>, s: nat, i: nat, m: Merge)
    requires i < |r| && |m.rq| == s
    ensures MainLoop(l, r, s, i, m).Halted?
  {
  }

  /** With l all below r only the left queue drains: it runs empty or the right one runs full. */
  lemma {:induction false} UnsafeMainLoop(l: seq<int>, r: seq<int>, s: nat, i: nat, m: Merge)
    requires |l| <= |r| <= |l| + 1 && |r| >= s && !SafeLevel(|l|, |r|, s) && Apart(l, r)
    requires s % 2 == 0 && 2 <= s && s / 2 <= i <= s
    requires Holds(l, i, m.lq) && Holds(r, i, m.rq) && |m.lq| == s - i && |m.rq| == i
    requires i == s ==> |r| > s
    ensures MainLoop(l, r, s, i, m).Halted?
    decreases s - i
  {
    hide Apart, Holds, Drain, MainLoop, EmitSteps, Emit;
    if i < s {
      assert FeedBoth(l, r, s, i, m).Ok?;
      var m1 := FeedBoth(l, r, s, i, m).value;
      FeedHolds(l, m.lq, i, s);
      FeedHolds(r, m.rq, i, s);
      LeftGoesFirst(l, r, i + 1, m1);
      var m2 := Emit(m1);
      LoopFeeds(l, r, s, i, m);
      EmitsFirst(l, r, s, i, m1);
      if i < |l| {
        LeftGoesFirst(l, r, i + 1, m2);
        UnsafeMainLoop(l, r, s, i + 1, Emit(m2));
        EmitsSecond(l, r, s, i, m2);
      } else {
        RunsEmpty(l, r, s, i, m2);
      }
    } else {
      RunsFull(l, r, s, i, m);
    }
  }

  lemma UnsafeLevelAborts(l: seq<int>, r: seq<int>)
    requires 1 <= |l| <= |r| <= |l| + 1 && Apart(l, r) && !SafeLevel(|l|, |r|, QueueSize(|l| + |r|))
    ensures MergeLevel(l, r).Halted?
  {
    hide QueueSize, Apart;
    var s := QueueSize(|l| + |r|);
    QueueSizeShape(|l| + |r|);
    PreloadFits(l, r, s, 0, Merge([], [], []));
    UnsafeMainLoop(l, r, s, s / 2, Preload(l, r, s, 0, Merge([], [], [])).value);
  }

  // ---- equal items ----

  function Distance(a: nat, b: nat): nat {
    if a < b then b - a else a - b
  }

  /** Of two equal heads the longer queue's goes, so that the lengths come closer; of equally long ones the right. */
  lemma EqualHeads(m: Merge)
    requires Ready(m) && m.lq[0] == m.rq[0]
    ensures
      var m' := Emit(m);
      && m'.out == m.out + [m.lq[0]]
      && (|m.lq| != |m.rq| ==> Distance(|m'.lq|, |m'.rq|) == Distance(|m.lq|, |m.rq|) - 1)
      && (|m.lq| == |m.rq| ==> |m'.lq| == |m.lq| && |m'.rq| == |m.rq| - 1)
  {
  }

  ghost predicate AllAre(s: seq<int>, v: int) {
    forall i: nat :: i < |s| ==> s[i] == v
  }

  /** Queues of the same length, all items equal: two emissions take one from each. */
  lemma EvenEmissions(l: seq<int>, r: seq<int>, s: nat, i: nat, m: Merge, v: int)
    requires AllAre(m.lq, v) && AllAre(m.rq, v) && |m.lq| == |m.rq| >= 1 && i < |r| + s / 2
    ensures
      var m' := Merge(m.lq[1..], m.rq[1..], m.out + [v] + [v]);
      |m.lq| >= 2 ==> EmitSteps(l, r, s, i, m, 0) == MainLoop(l, r, s, i + 1, m')
  {
    hide MainLoop, EmitSteps;
    EqualHeads(m);
    EmitsFirst(l, r, s, i, m);
    var m1 := Emit(m);
    if |m.lq| >= 2 {
      EqualHeads(m1);
      EmitsSecond(l, r, s, i, m1);
    }
  }

  /** While both halves of equal items feed, both queues stay at half their size. */
  lemma {:induction false} EqualMainLoop(l: seq<int>, r: seq<int>, s: nat, i: nat, m: Merge, v: int)
    requires AllAre(l, v) && AllAre(r, v) && AllAre(m.lq, v) && AllAre(m.rq, v)
    requires |l| <= |r| <= |l| + 1 && s >= 4 && s % 2 == 0 && s / 2 <= i
    requires i >= |r| || (i <= |l| && |m.lq| == |m.rq| == s / 2)
    ensures MainLoop(l, r, s, i, m).Ok? || MainLoop(l, r, s, i, m) == Halted(UnprocessedData)
    decreases |r| + s / 2 - i
  {
    hide EmitSteps, MainLoop;
    if i >= |r| {
      FedOutLoop(l, r, s, i, m);
    } else {
      var m1 := FeedBoth(l, r, s, i, m).value;
      LoopFeeds(l, r, s, i, m);
      if i < |l| {
        EvenEmissions(l, r, s, i, m1, v);
        EqualMainLoop(l, r, s, i + 1, Merge(m1.lq[1..], m1.rq[1..], m1.out + [v] + [v]), v);
      } else {
        EmitsFirst(l, r, s, i, m1);
        EmitsSecond(l, r, s, i, Emit(m1));
        FedOutLoop(l, r, s, i + 1, Emit(Emit(m1)));
      }
    }
  }

  lemma HoldsEqual(src: seq<int>, i: nat, q: seq<int>, v: int)
    requires AllAre(src, v) && Holds(src, i, q)
    ensures AllAre(q, v)
  {
  }

  lemma EqualSorted(s: seq<int>, v: int)
    requires AllAre(s, v)
    ensures Sorted(s)
  {
  }

  lemma EqualLevel(l: seq<int>, r: seq<int>, v: int)
    requires AllAre(l, v) && AllAre(r, v) && 1 <= |l| <= |r| <= |l| + 1
    ensures MergeLevel(l, r).Ok?
  {
    hide QueueSize, Sorted, MainLoop, Preload, Holds, AllAre;
    var s := QueueSize(|l| + |r|);
    QueueSizeShape(|l| + |r|);
    EqualSorted(l, v);
    EqualSorted(r, v);
    MergeLevelMerges(l, r);
    NothingFed(l);
    NothingFed(r);
    PreloadFits(l, r, s, 0, Merge([], [], []));
    var m := Preload(l, r, s, 0, Merge([], [], [])).value;
    HoldsEqual(l, s / 2, m.lq, v);
    HoldsEqual(r, s / 2, m.rq, v);
    EqualMainLoop(l, r, s, s / 2, m, v);
  }

  lemma SameItems(s: seq<int>, t: seq<int>, v: int)
    requires multiset(s) == multiset(t) && AllAre(t, v)
    ensures AllAre(s, v) && s == t
  {
    forall i: nat | i < |s|
      ensures s[i] == v
    {
      assert s[i] in multiset(t);
    }
    assert |multiset(s)| == |s| && |multiset(t)| == |t|;
  }

  /** Equal items never make the sort abort, however many they are: the rule for equal heads keeps the queues even. */
  lemma {:induction false} EqualItemsNeverAbort(xs: seq<int>, v: int)
    requires xs != [] && AllAre(xs, v)
    ensures MergeSort(xs) == Ok(xs)
    decreases |xs|
  {
    hide MergeLevel, Sorted;
    MergeSortSorts(xs);
    if |xs| > 1 {
      var h := |xs| / 2;
      EqualItemsNeverAbort(xs[..h], v);
      EqualItemsNeverAbort(xs[h..], v);
      EqualLevel(xs[..h], xs[h..], v);
    }
    SameItems(MergeSort(xs).value, xs, v);
  }

  // ---- exactly the lengths that never abort ----

  predicate NeverAborts(n: nat) {
    n <= 46 || 48 <= n <= 54 || n == 56 || n == 64
  }

  lemma SquareMonotone(a: nat, b: nat)
    requires a <= b
    ensures a * a <= b * b
  {
    assert b * b - a * a == (b - a) * (b + a);
  }

  lemma ProductMonotone(a: nat, b: nat, c: nat)
    requires a <= b
    ensures a * c <= b * c
  {
  }

  lemma SqrtAtLeast(n: nat, k: nat)
    requires k * k <= n
    ensures FloorSqrt(n) >= k
  {
    var r := FloorSqrt(n);
    hide FloorSqrt;
    if r < k {
      SquareMonotone(r + 1, k);
    }
  }

  lemma SqrtIs(n: nat, k: nat)
    requires k * k <= n < (k + 1) * (k + 1)
    ensures FloorSqrt(n) == k
  {
    SqrtAtLeast(n, k);
    var r := FloorSqrt(n);
    hide FloorSqrt;
    if k < r {
      SquareMonotone(k + 1, r);
    }
  }

  function SmallSqrt(n: nat): nat {
    if n == 0 then 0 else if n <= 3 then 1 else if n <= 8 then 2 else if n <= 15 then 3 else if n <= 24 then 4 else
    if n <= 35 then 5 else if n <= 48 then 6 else if n <= 63 then 7 else 8
  }

  lemma SqrtUpTo80(n: nat)
    requires n <= 80
    ensures FloorSqrt(n) == SmallSqrt(n)
  {
    hide FloorSqrt;
    SqrtIs(n, SmallSqrt(n));
  }

  lemma SqrtFrom81(n: nat)
    requires n >= 81
    ensures 9 <= FloorSqrt(n) && 8 * FloorSqrt(n) < n
  {
    var r := FloorSqrt(n);
    SqrtAtLeast(n, 9);
    hide FloorSqrt;
    ProductMonotone(9, r, r);
  }

  lemma SafeLengths(n: nat)
    requires n >= 2
    ensures SafeLevel(n / 2, n - n / 2, QueueSize(n)) <==> NeverAborts(n)
    ensures NeverAborts(n) ==> NeverAborts(n / 2) && NeverAborts(n - n / 2)
  {
    hide FloorSqrt;
    if n <= 80 {
      SqrtUpTo80(n);
    } else {
      SqrtFrom81(n);
    }
  }

  lemma ShortNeverAborts(n: nat)
    ensures n <= 1 ==> NeverAborts(n)
  {
  }

  lemma {:induction false} SafeRun(xs: seq<int>)
    requires xs != [] && NeverAborts(|xs|)
    ensures MergeSort(xs).Ok?
    decreases |xs|
  {
    hide MergeLevel, QueueSize, SafeLevel, Sorted, NeverAborts;
    if |xs| > 1 {
      var h := |xs| / 2;
      SafeLengths(|xs|);
      SafeRun(xs[..h]);
      SafeRun(xs[h..]);
      MergeSortSorts(xs[..h]);
      MergeSortSorts(xs[h..]);
      var l, r := MergeSort(xs[..h]).value, MergeSort(xs[h..]).value;
      assert |multiset(l)| == h && |multiset(r)| == |xs| - h;
      SafeLevelNeverAborts(l, r);
    }
  }

  function Ascending(n: nat): seq<int> {
    seq(n, i => i)
  }

  lemma SortedHalvesApart(n: nat, h: nat, l: seq<int>, r: seq<int>)
    requires h <= n && multiset(l) == multiset(Ascending(n)[..h]) && multiset(r) == multiset(Ascending(n)[h..])
    ensures Apart(l, r)
  {
    var a := Ascending(n);
    forall i: nat, j: nat | i < |l| && j < |r|
      ensures l[i] < r[j]
    {
      assert l[i] in multiset(a[..h]) && r[j] in multiset(a[h..]);
    }
  }

  /** An ascending input of any other length aborts. */
  lemma AscendingAborts(n: nat)
    requires n >= 1 && !NeverAborts(n)
    ensures MergeSort(Ascending(n)).Halted?
  {
    hide MergeLevel, QueueSize, NeverAborts, Apart, Sorted, SafeLevel;
    var xs, h := Ascending(n), n / 2;
    assert n >= 2 by {
      ShortNeverAborts(n);
    }
    SafeLengths(n);
    MergeSortSorts(xs[..h]);
    MergeSortSorts(xs[h..]);
    if MergeSort(xs[..h]).Ok? && MergeSort(xs[h..]).Ok? {
      var l, r := MergeSort(xs[..h]).value, MergeSort(xs[h..]).value;
      assert |multiset(l)| == h && |multiset(r)| == n - h;
      SortedHalvesApart(n, h, l, r);
      UnsafeLevelAborts(l, r);
    }
  }

  /** The merge sort succeeds on every input of length n exactly when n is at most 46, 48 to 54, 56 or 64. */
  lemma NeverAbortsExactly(n: nat)
    requires n >= 1
    ensures (forall xs: seq<int> :: |xs| == n ==> MergeSort(xs).Ok?) <==> NeverAborts(n)
  {
    if NeverAborts(n) {
      forall xs: seq<int> | |xs| == n
        ensures MergeSort(xs).Ok?
      {
        SafeRun(xs);
      }
    } else {
      AscendingAborts(n);
      assert |Ascending(n)| == n;
    }
  }
}

/**
 * The queue-based merge sort as a function: what it returns, or why it aborts.
 *
 * A merge level keeps a bounded queue of size s in front of either sorted half, fills both to s/2 and then per
 * step takes one more item of each half in and emits two.
 */
module MergeSpec {
  import opened Common

  /** The two queues and what has been emitted. */
  datatype Merge = Merge(lq: seq<int>, rq: seq<int>, out: seq<int>)

  function FloorSqrt(n: nat): (r: nat)
    ensures r * r <= n < (r + 1) * (r + 1)
  {
    if n == 0 then 0 else
      var r := FloorSqrt(n - 1);
      if (r + 1) * (r + 1) <= n then r + 1 else r
  }

  /** The queue size for a merge of n items. */
  function QueueSize(n: nat): nat {
    4 * FloorSqrt(n)
  }

  predicate Ready(m: Merge) {
    m.lq != [] && m.rq != []
  }

  /** The smaller head goes out; of equal heads the one of the longer queue, or the right one. */
  function Emit(m: Merge): Merge
    requires Ready(m)
  {
    var l, r := m.lq[0], m.rq[0];
    if l < r || (l == r && |m.lq| > |m.rq|) then Merge(m.lq[1..], m.rq, m.out + [l])
    else Merge(m.lq, m.rq[1..], m.out + [r])
  }

  /** One more item of a half, if there is one. */
  function Feed(src: seq<int>, q: seq<int>, i: nat, s: nat): Result<seq<int>> {
    if i < |src| then
      if |q| == s then Halted(QueueFull) else Ok(q + [src[i]])
    else Ok(q)
  }

  function FeedBoth(l: seq<int>, r: seq<int>, s: nat, i: nat, m: Merge): Result<Merge> {
    var lq :- Feed(l, m.lq, i, s);
    var rq :- Feed(r, m.rq, i, s);
    Ok(Merge(lq, rq, m.out))
  }

  /** From item i on, the loop that fills both queues to half. */
  function Preload(l: seq<int>, r: seq<int>, s: nat, i: nat, m: Merge): Result<Merge>
    requires i <= s / 2
    decreases s / 2 - i
  {
    if i == s / 2 then Ok(m) else
      var m' :- FeedBoth(l, r, s, i, m);
      Preload(l, r, s, i + 1, m')
  }

  /** The two queues behind what is out. */
  function Drain(m: Merge): seq<int> {
    m.out + m.lq + m.rq
  }

  /** From step i on, the loop that feeds one and emits two, and what follows it. */
  function MainLoop(l: seq<int>, r: seq<int>, s: nat, i: nat, m: Merge): Result<seq<int>>
    decreases |r| + s / 2 - i
  {
    if i >= |r| + s / 2 then
      if Ready(m) then Halted(UnprocessedData) else Ok(Drain(m))
    else
      var m1 :- FeedBoth(l, r, s, i, m);
      EmitSteps(l, r, s, i, m1, 0)
  }

  /** The emissions of step i from the j-th on. */
  function EmitSteps(l: seq<int>, r: seq<int>, s: nat, i: nat, m: Merge, j: nat): Result<seq<int>>
    requires i < |r| + s / 2 && j <= 2
    decreases |r| + s / 2 - i, 0, 2 - j
  {
    if j == 2 then MainLoop(l, r, s, i + 1, m)
    else if Ready(m) then EmitSteps(l, r, s, i, Emit(m), j + 1)
    else if i < |l| || i < |r| then Halted(QueueEmpty)
    else Ok(Drain(m))
  }

  function MergeLevel(l: seq<int>, r: seq<int>): Result<seq<int>> {
    var s := QueueSize(|l| + |r|);
    var m :- Preload(l, r, s, 0, Merge([], [], []));
    MainLoop(l, r, s, s / 2, m)
  }

  function MergeSort(xs: seq<int>): Result<seq<int>>
    requires xs != []
    decreases |xs|
  {
    if |xs| == 1 then Ok(xs) else
      var l :- MergeSort(xs[..|xs| / 2]);
      var r :- MergeSort(xs[|xs| / 2..]);
      MergeLevel(l, r)
  }
}

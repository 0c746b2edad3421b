/** The bitonic sort on a list of integers, in place, with a direction. */
module SortNet1 {
  import opened Bitonic
  import opened Slices

  function Itself(x: int): int {
    x
  }

  // The network functions on plain integers.

  ghost function Exchanged(s: seq<int>, i: nat, j: nat, dir: int): (r: seq<int>)
    requires i < |s| && j < |s|
    ensures |r| == |s|
  {
    CompareExchange(s, Itself, i, j, dir, false)
  }

  ghost function Staged(s: seq<int>, dir: int, i: nat): (r: seq<int>)
    requires i <= |s| / 2
    ensures |r| == |s|
  {
    Stage(s, Itself, dir, false, false, i)
  }

  ghost function MergedInts(s: seq<int>, dir: int): (r: seq<int>)
    requires PowerOfTwo(|s|)
    ensures |r| == |s|
  {
    Merged(s, Itself, dir, false)
  }

  ghost function SortedInts(s: seq<int>, dir: int): (r: seq<int>)
    requires PowerOfTwo(|s|)
    ensures |r| == |s|
  {
    SortedByDir(s, Itself, dir, false)
  }

  lemma StagedZero(s: seq<int>, dir: int)
    ensures Staged(s, dir, 0) == s
  {
  }

  lemma StagedStep(s: seq<int>, dir: int, i: nat)
    requires i < |s| / 2
    ensures Staged(s, dir, i + 1) == Exchanged(Staged(s, dir, i), i, i + |s| / 2, dir)
  {
  }

  lemma Halving(n: nat)
    requires PowerOfTwo(n)
    ensures n >= 1 && (n > 1 ==> n % 2 == 0 && PowerOfTwo(n / 2))
  {
  }

  lemma MergedStep(s: seq<int>, dir: int)
    requires |s| > 1 && |s| % 2 == 0 && PowerOfTwo(|s|) && PowerOfTwo(|s| / 2)
    ensures
      var c, k := Staged(s, dir, |s| / 2), |s| / 2;
      MergedInts(s, dir) == MergedInts(c[..k], dir) + MergedInts(c[k..], dir)
  {
  }

  lemma SortedStep(s: seq<int>, dir: int)
    requires |s| > 1 && |s| % 2 == 0 && PowerOfTwo(|s|) && PowerOfTwo(|s| / 2)
    ensures
      var k := |s| / 2;
      SortedInts(s, dir) == MergedInts(SortedInts(s[..k], 1) + SortedInts(s[k..], 0), dir)
  {
  }

  lemma SingleStep(s: seq<int>, dir: int)
    requires |s| == 1
    ensures PowerOfTwo(|s|) && MergedInts(s, dir) == s == SortedInts(s, dir)
  {
  }

  method SwapByDir(list: array<int>, a: nat, b: nat, dir: int)
    requires a < list.Length && b < list.Length
    modifies list
    ensures list[..] == Exchanged(old(list[..]), a, b, dir)
    ensures multiset{list[a], list[b]} == multiset{old(list[a]), old(list[b])}
    ensures (dir == 1 ==> list[a] <= list[b]) && (dir == 0 ==> list[a] >= list[b])
    ensures dir != 0 && dir != 1 ==> list[..] == old(list[..])
    ensures forall k: nat :: k < list.Length && k != a && k != b ==> list[k] == old(list[k])
  {
    if (dir == 1 && list[a] > list[b]) || (dir == 0 && list[a] < list[b]) {
      var tmp := list[a];
      list[a] := list[b];
      list[b] := tmp;
    }
  }

  lemma ExchangeInside(s: seq<int>, lo: nat, part: seq<int>, i: nat, j: nat, dir: int)
    requires lo + |part| <= |s| && i < |part| && j < |part|
    ensures Exchanged(Splice(s, lo, part), lo + i, lo + j, dir) == Splice(s, lo, Exchanged(part, i, j, dir))
  {
  }

  /** The exchange loop of bitonicMerge. */
  method MergeStage(lo: nat, cnt: nat, dir: int, list: array<int>)
    requires lo + cnt <= list.Length && cnt % 2 == 0
    modifies list
    ensures list[..] == Splice(old(list[..]), lo, Staged(Slice(old(list[..]), lo, cnt), dir, cnt / 2))
  {
    hide Splice, Slice, Staged, Exchanged;
    ghost var before := list[..];
    ghost var s := Slice(before, lo, cnt);
    SpliceSame(before, lo, cnt);
    StagedZero(s, dir);
    var k := cnt / 2;
    var i := lo;
    while i < lo + k
      invariant lo <= i <= lo + k
      invariant list[..] == Splice(before, lo, Staged(s, dir, i - lo))
    {
      ExchangeInside(before, lo, Staged(s, dir, i - lo), i - lo, i - lo + k, dir);
      StagedStep(s, dir, i - lo);
      SwapByDir(list, i, i + k, dir);
      i := i + 1;
    }
  }

  method BitonicMerge(lo: nat, cnt: nat, dir: int, list: array<int>)
    requires lo + cnt <= list.Length && PowerOfTwo(cnt)
    modifies list
    ensures list[..] == Splice(old(list[..]), lo, MergedInts(Slice(old(list[..]), lo, cnt), dir))
    decreases cnt
  {
    hide Splice, Slice, Staged, MergedInts, PowerOfTwo;
    ghost var before := list[..];
    ghost var s := Slice(before, lo, cnt);
    Halving(cnt);
    if cnt > 1 {
      var k := cnt / 2;
      MergeStage(lo, cnt, dir, list);
      ghost var c := Staged(s, dir, k);
      MergedStep(s, dir);
      assert c == c[..k] + c[k..];
      SpliceTwice(before, lo, c[..k], c[k..], MergedInts(c[..k], dir), MergedInts(c[k..], dir));
      BitonicMerge(lo, k, dir, list);
      BitonicMerge(lo + k, k, dir, list);
    } else {
      SingleStep(s, dir);
      SpliceSame(before, lo, cnt);
    }
  }

  method BitonicSort(lo: nat, cnt: nat, dir: int, list: array<int>)
    requires lo + cnt <= list.Length && PowerOfTwo(cnt)
    modifies list
    ensures list[..] == Splice(old(list[..]), lo, SortedInts(Slice(old(list[..]), lo, cnt), dir))
    decreases cnt
  {
    hide Splice, Slice, MergedInts, SortedInts, PowerOfTwo;
    ghost var before := list[..];
    ghost var s := Slice(before, lo, cnt);
    SpliceSame(before, lo, cnt);
    Halving(cnt);
    if cnt > 1 {
      var k := cnt / 2;
      ghost var a, b := SortedInts(s[..k], 1), SortedInts(s[k..], 0);
      SortedStep(s, dir);
      assert s == s[..k] + s[k..];
      SpliceTwice(before, lo, s[..k], s[k..], a, b);
      BitonicSort(lo, k, 1, list);
      BitonicSort(lo + k, k, 0, list);
      SpliceAgain(before, lo, a + b, MergedInts(a + b, dir));
      BitonicMerge(lo, cnt, dir, list);
    } else {
      SingleStep(s, dir);
    }
  }

  /** What bitonicSort leaves in the array: the slice ordered in the asked direction, the rest untouched. */
  lemma BitonicSortMeaning(before: seq<int>, lo: nat, cnt: nat, dir: int)
    requires lo + cnt <= |before| && PowerOfTwo(cnt) && (dir == 0 || dir == 1)
    ensures
      var s := Slice(before, lo, cnt);
      var after := Splice(before, lo, SortedInts(s, dir));
      && |after| == |before| && after[..lo] == before[..lo] && after[lo + cnt..] == before[lo + cnt..]
      && multiset(after[lo..lo + cnt]) == multiset(s)
      && forall i: nat, j: nat :: lo <= i < j < lo + cnt ==> if dir == 1 then after[i] <= after[j] else after[i] >= after[j]
  {
    var s := Slice(before, lo, cnt);
    var r := SortedInts(s, dir);
    SortedByDirOrders(s, Itself, dir, false);
    var after := Splice(before, lo, r);
    assert after[lo..lo + cnt] == r;
    forall i: nat, j: nat | lo <= i < j < lo + cnt
      ensures if dir == 1 then after[i] <= after[j] else after[i] >= after[j]
    {
      assert after[i] == r[i - lo] && after[j] == r[j - lo];
      assert Itself(r[i - lo]) == r[i - lo] && Itself(r[j - lo]) == r[j - lo];
    }
  }

  /** bitonicMerge orders a bitonic slice. */
  lemma BitonicMergeMeaning(s: seq<int>, dir: int)
    requires PowerOfTwo(|s|) && (dir == 0 || dir == 1) && IsBitonic(s)
    ensures
      var r := MergedInts(s, dir);
      && multiset(r) == multiset(s)
      && forall i: nat, j: nat :: i < j < |r| ==> if dir == 1 then r[i] <= r[j] else r[i] >= r[j]
  {
    assert Keys(s, Itself) == s;
    MergedOrders(s, Itself, dir, false);
    var r := MergedInts(s, dir);
    forall i: nat, j: nat | i < j < |r|
      ensures if dir == 1 then r[i] <= r[j] else r[i] >= r[j]
    {
      assert Itself(r[i]) == r[i] && Itself(r[j]) == r[j];
    }
  }
}

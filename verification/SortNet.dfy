/** The bitonic network on keys that carry a payload along, in place on two arrays. */
module SortNet {
  import opened Bitonic
  import opened Cells
  import opened Routing
  import opened Slices

  function KeyOf(c: Cell): int {
    c.key
  }

  /** The keys of base, each with the payload at the same position of array. */
  ghost function Zip(array_: seq<int>, base: seq<int>): (r: seq<Cell>)
    requires |array_| == |base|
    ensures |r| == |base|
    ensures forall i: nat :: i < |base| ==> r[i] == Cell(base[i], array_[i])
  {
    seq(|base|, i requires 0 <= i < |base| => Cell(base[i], array_[i]))
  }

  ghost function Exchanged(s: seq<Cell>, i: nat, j: nat): (r: seq<Cell>)
    requires i < |s| && j < |s|
    ensures |r| == |s|
  {
    CompareExchange(s, KeyOf, i, j, 1, true)
  }

  ghost function Staged(s: seq<Cell>, mirror: bool, i: nat): (r: seq<Cell>)
    requires i <= |s| / 2
    ensures |r| == |s|
  {
    Stage(s, KeyOf, 1, true, mirror, i)
  }

  ghost function MergedCells(s: seq<Cell>): (r: seq<Cell>)
    requires PowerOfTwo(|s|)
    ensures |r| == |s|
  {
    Merged(s, KeyOf, 1, true)
  }

  ghost function SortedCells(s: seq<Cell>): (r: seq<Cell>)
    requires PowerOfTwo(|s|)
    ensures |r| == |s|
  {
    SortedByMirror(s, KeyOf, true)
  }

  lemma StagedZero(s: seq<Cell>, mirror: bool)
    ensures Staged(s, mirror, 0) == s
  {
  }

  lemma StagedStep(s: seq<Cell>, mirror: bool, i: nat)
    requires i < |s| / 2
    ensures Staged(s, mirror, i + 1) == Exchanged(Staged(s, mirror, i), i, Partner(|s|, i, mirror))
  {
  }

  lemma Halving(n: nat)
    requires PowerOfTwo(n) && n >= 2
    ensures n % 2 == 0 && PowerOfTwo(n / 2)
    ensures n > 2 ==> n / 2 >= 2
  {
  }

  lemma MergedStep(s: seq<Cell>)
    requires |s| >= 2 && |s| % 2 == 0 && PowerOfTwo(|s|) && PowerOfTwo(|s| / 2)
    ensures
      var c, k := Staged(s, false, |s| / 2), |s| / 2;
      MergedCells(s) == MergedCells(c[..k]) + MergedCells(c[k..])
  {
  }

  lemma SortedStep(s: seq<Cell>)
    requires |s| >= 2 && |s| % 2 == 0 && PowerOfTwo(|s|) && PowerOfTwo(|s| / 2)
    ensures
      var k := |s| / 2;
      var c := Staged(SortedCells(s[..k]) + SortedCells(s[k..]), true, k);
      SortedCells(s) == MergedCells(c[..k]) + MergedCells(c[k..])
  {
  }

  /** Two items are handled by the one exchange of their stage. */
  lemma PairStep(s: seq<Cell>)
    requires |s| == 2
    ensures PowerOfTwo(2) && MergedCells(s) == Exchanged(s, 0, 1) == SortedCells(s)
  {
    MergedStep(s);
    SortedStep(s);
    StagedZero(s, false);
    StagedZero(s, true);
    StagedStep(s, false, 0);
    StagedStep(s, true, 0);
    assert s[..1] + s[1..] == s;
  }

  lemma ExchangeInside(s: seq<Cell>, lo: nat, part: seq<Cell>, i: nat, j: nat)
    requires lo + |part| <= |s| && i < |part| && j < |part|
    ensures Exchanged(Splice(s, lo, part), lo + i, lo + j) == Splice(s, lo, Exchanged(part, i, j))
  {
  }

  /** The compare-and-swap: unless the second key is strictly on the right side, keys and payloads trade places. */
  method CasV2m(array_: array<int>, base: array<int>, i: nat, j: nat, dir: int)
    requires array_ != base && array_.Length == base.Length && i < base.Length && j < base.Length
    modifies array_, base
    ensures Zip(array_[..], base[..]) ==
            CompareExchange(old(Zip(array_[..], base[..])), KeyOf, i, j, if dir != 0 then 1 else 0, true)
    ensures
      if (if dir != 0 then old(base[j]) > old(base[i]) else old(base[j]) < old(base[i]))
      then array_[..] == old(array_[..]) && base[..] == old(base[..])
      else array_[i] == old(array_[j]) && array_[j] == old(array_[i]) && base[i] == old(base[j]) && base[j] == old(base[i])
    ensures forall k: nat :: k < base.Length && k != i && k != j ==> array_[k] == old(array_[k]) && base[k] == old(base[k])
  {
    var a, b, c, d := array_[i], array_[j], base[i], base[j];
    if dir != 0 {
      if !(d > c) {
        array_[i], base[i] := b, d;
        array_[j], base[j] := a, c;
      }
    } else {
      if !(d < c) {
        array_[i], base[i] := b, d;
        array_[j], base[j] := a, c;
      }
    }
  }

  /** The exchange loops of bitonicSort (straight) and merger (mirrored). */
  method RunStage(n: nat, start: nat, array_: array<int>, base: array<int>, mirror: bool)
    requires array_ != base && array_.Length == base.Length && start + n <= base.Length && n % 2 == 0
    modifies array_, base
    ensures
      var before := old(Zip(array_[..], base[..]));
      Zip(array_[..], base[..]) == Splice(before, start, Staged(Slice(before, start, n), mirror, n / 2))
  {
    hide Splice, Slice, Staged, Zip;
    ghost var before := Zip(array_[..], base[..]);
    ghost var s := Slice(before, start, n);
    SpliceSame(before, start, n);
    StagedZero(s, mirror);
    var i := 0;
    while i < n / 2
      invariant i <= n / 2
      invariant Zip(array_[..], base[..]) == Splice(before, start, Staged(s, mirror, i))
    {
      ExchangeInside(before, start, Staged(s, mirror, i), i, Partner(n, i, mirror));
      StagedStep(s, mirror, i);
      CasV2m(array_, base, start + i, start + (if mirror then n - 1 - i else n / 2 + i), 1);
      i := i + 1;
    }
  }

  method BitonicSort(n: nat, start: nat, array_: array<int>, base: array<int>)
    requires array_ != base && array_.Length == base.Length && start + n <= base.Length
    requires n >= 2 && PowerOfTwo(n)
    modifies array_, base
    ensures
      var before := old(Zip(array_[..], base[..]));
      Zip(array_[..], base[..]) == Splice(before, start, MergedCells(Slice(before, start, n)))
    decreases n
  {
    hide Splice, Slice, Staged, MergedCells, PowerOfTwo, Exchanged, Zip;
    ghost var before := Zip(array_[..], base[..]);
    ghost var s := Slice(before, start, n);
    SpliceSame(before, start, n);
    if n == 2 {
      PairStep(s);
      ExchangeInside(before, start, s, 0, 1);
      Exchange(array_, base, start, start + 1);
    } else {
      Halving(n);
      RunStage(n, start, array_, base, false);
      MergeHalves(n, start, array_, base, before, Staged(s, false, n / 2));
      MergedStep(s);
    }
  }

  /** One upwards compare-and-swap. */
  method Exchange(array_: array<int>, base: array<int>, i: nat, j: nat)
    requires array_ != base && array_.Length == base.Length && i < base.Length && j < base.Length
    modifies array_, base
    ensures Zip(array_[..], base[..]) == Exchanged(old(Zip(array_[..], base[..])), i, j)
  {
    CasV2m(array_, base, i, j, 1);
  }

  /** The two recursive calls that end both procedures. */
  method MergeHalves(n: nat, start: nat, array_: array<int>, base: array<int>, ghost before: seq<Cell>,
                     ghost c: seq<Cell>)
    requires array_ != base && array_.Length == base.Length && start + n <= base.Length
    requires n > 2 && n % 2 == 0 && n / 2 >= 2 && PowerOfTwo(n / 2)
    requires |before| == base.Length && |c| == n && Zip(array_[..], base[..]) == Splice(before, start, c)
    modifies array_, base
    ensures Zip(array_[..], base[..]) == Splice(before, start, MergedCells(c[..n / 2]) + MergedCells(c[n / 2..]))
    decreases n - 1
  {
    hide Splice, Slice, MergedCells, PowerOfTwo, Zip;
    var k := n / 2;
    assert c == c[..k] + c[k..];
    SpliceTwice(before, start, c[..k], c[k..], MergedCells(c[..k]), MergedCells(c[k..]));
    BitonicSort(k, start, array_, base);
    BitonicSort(k, start + k, array_, base);
  }

  method Merger(n: nat, start: nat, array_: array<int>, base: array<int>)
    requires array_ != base && array_.Length == base.Length && start + n <= base.Length
    requires n >= 2 && PowerOfTwo(n)
    modifies array_, base
    ensures
      var before := old(Zip(array_[..], base[..]));
      Zip(array_[..], base[..]) == Splice(before, start, SortedCells(Slice(before, start, n)))
    decreases n
  {
    hide Splice, Slice, Staged, MergedCells, SortedCells, PowerOfTwo, Exchanged, Zip;
    ghost var before := Zip(array_[..], base[..]);
    ghost var s := Slice(before, start, n);
    SpliceSame(before, start, n);
    if n == 2 {
      PairStep(s);
      ExchangeInside(before, start, s, 0, 1);
      Exchange(array_, base, start, start + 1);
    } else {
      Halving(n);
      var k := n / 2;
      assert s == s[..k] + s[k..];
      ghost var h := SortedCells(s[..k]) + SortedCells(s[k..]);
      SpliceTwice(before, start, s[..k], s[k..], SortedCells(s[..k]), SortedCells(s[k..]));
      Merger(k, start, array_, base);
      Merger(k, start + k, array_, base);
      SpliceAgain(before, start, h, Staged(h, true, k));
      RunStage(n, start, array_, base, true);
      MergeHalves(n, start, array_, base, before, Staged(h, true, k));
      SortedStep(s);
    }
  }

  lemma SortedCellsOrder(s: seq<Cell>)
    requires PowerOfTwo(|s|)
    ensures multiset(SortedCells(s)) == multiset(s)
    ensures forall i: nat, j: nat :: i < j < |s| ==> SortedCells(s)[i].key <= SortedCells(s)[j].key
  {
    SortedByMirrorOrders(s, KeyOf, true);
    forall i: nat, j: nat | i < j < |s|
      ensures SortedCells(s)[i].key <= SortedCells(s)[j].key
    {
      assert KeyOf(SortedCells(s)[i]) <= KeyOf(SortedCells(s)[j]);
    }
  }

  lemma FindCell(s: seq<Cell>, r: seq<Cell>, i: nat) returns (p: nat)
    requires multiset(r) == multiset(s) && i < |s|
    ensures p < |r| && r[p] == s[i]
  {
    assert s[i] in multiset(r);
    p :| p < |r| && r[p] == s[i];
  }

  /** Ordering the cells of a permutation's keys puts the cell with key v at position v. */
  lemma OrderedCellsAreRouted(s: seq<Cell>, r: seq<Cell>, k: nat)
    requires multiset(r) == multiset(s) && |r| == |s| && k < |s|
    requires IsPermutation(seq(|s|, i requires 0 <= i < |s| => s[i].key))
    requires forall i: nat, j: nat :: i < j < |r| ==> r[i].key <= r[j].key
    ensures 0 <= s[k].key < |r| && r[s[k].key] == s[k]
  {
    var perm := seq(|s|, i requires 0 <= i < |s| => s[i].key);
    var pos: seq<int> := [];
    while |pos| < |s|
      invariant |pos| <= |s|
      invariant forall v: nat :: v < |pos| ==> 0 <= pos[v] < |r| && r[pos[v]].key == v
      invariant |pos| > perm[k] ==> r[pos[perm[k]]] == s[k]
    {
      var i := Hit(perm, |pos|);
      var p := FindCell(s, r, i);
      if |pos| == perm[k] {
        assert i == k;
      }
      pos := pos + [p];
    }
    forall v: nat, w: nat | v < w < |pos|
      ensures pos[v] < pos[w]
    {
      assert r[pos[v]].key == v && r[pos[w]].key == w;
    }
    StrictlyIncreasingIsIdentity(pos, perm[k]);
  }

  /** The whole network: keys end in order with their payloads; on a permutation it is the shuffle it stands for. */
  method Sortnet(data: array<int>, perm: array<int>)
    requires data != perm && data.Length == perm.Length && perm.Length >= 2 && PowerOfTwo(perm.Length)
    modifies data, perm
    ensures multiset(Zip(data[..], perm[..])) == old(multiset(Zip(data[..], perm[..])))
    ensures forall i: nat, j: nat :: i < j < perm.Length ==> perm[i] <= perm[j]
    ensures old(IsPermutation(perm[..])) ==> Routed(data[..], old(perm[..]), old(data[..]))
    ensures old(IsPermutation(perm[..])) ==> forall v: nat :: v < perm.Length ==> perm[v] == v
  {
    hide SortedCells, PowerOfTwo, Splice, Slice;
    ghost var n := perm.Length;
    ghost var s := Zip(data[..], perm[..]);
    SpliceAll(s, SortedCells(s));
    Merger(perm.Length, 0, data, perm);
    ghost var r := Zip(data[..], perm[..]);
    SortedCellsOrder(s);
    forall i: nat, j: nat | i < j < n
      ensures perm[i] <= perm[j]
    {
      assert r[i].key <= r[j].key;
    }
    if old(IsPermutation(perm[..])) {
      assert seq(n, i requires 0 <= i < n => s[i].key) == old(perm[..]);
      forall k: nat | k < n
        ensures 0 <= old(perm[k]) < n && data[old(perm[k])] == old(data[k]) && perm[old(perm[k])] == old(perm[k])
      {
        OrderedCellsAreRouted(s, r, k);
        assert s[k] == Cell(old(perm[k]), old(data[k]));
      }
      forall v: nat | v < n
        ensures perm[v] == v
      {
        var k := Hit(old(perm[..]), v);
        assert perm[old(perm[k])] == old(perm[k]);
      }
    }
  }

  lemma SpliceAll(s: seq<Cell>, r: seq<Cell>)
    requires |r| == |s|
    ensures Slice(s, 0, |s|) == s && Splice(s, 0, r) == r
  {
  }
}

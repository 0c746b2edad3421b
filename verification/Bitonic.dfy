/**
 * Compare-exchange networks on sequences of keyed items, and Batcher's theorem about them.
 *
 * Both networks of the repository are built from the same stages: one on plain integers with a direction, the
 * other on integer keys that carry a payload along. The functions take the key of an item and whether equal
 * keys are exchanged as parameters.
 */
module Bitonic {

  /** dir 1 puts the smaller key first, dir 0 the larger one; tie says whether equal keys trade places. */
  predicate Swaps(a: int, b: int, dir: int, tie: bool) {
    (dir == 1 && a > b) || (dir == 0 && a < b) || (tie && a == b)
  }

  function CompareExchange<T>(s: seq<T>, key: T -> int, i: nat, j: nat, dir: int, tie: bool): seq<T>
    requires i < |s| && j < |s|
  {
    if Swaps(key(s[i]), key(s[j]), dir, tie) then s[i := s[j]][j := s[i]] else s
  }

  /** Item i of the first half meets the item half a length on, or its mirror image. */
  function Partner(n: nat, i: nat, mirror: bool): nat
    requires i < n / 2
  {
    if mirror then n - 1 - i else i + n / 2
  }

  /** The first i exchanges of a stage. */
  function Stage<T>(s: seq<T>, key: T -> int, dir: int, tie: bool, mirror: bool, i: nat): (r: seq<T>)
    requires i <= |s| / 2
    ensures |r| == |s|
  {
    if i == 0 then s else
      CompareExchange(Stage(s, key, dir, tie, mirror, i - 1), key, i - 1, Partner(|s|, i - 1, mirror), dir, tie)
  }

  predicate PowerOfTwo(n: nat)
    decreases n
  {
    n == 1 || (n > 1 && n % 2 == 0 && PowerOfTwo(n / 2))
  }

  /** The bitonic merge: one straight stage, then both halves. */
  function Merged<T>(s: seq<T>, key: T -> int, dir: int, tie: bool): (r: seq<T>)
    requires PowerOfTwo(|s|)
    ensures |r| == |s|
    decreases |s|
  {
    if |s| == 1 then s else
      var k := |s| / 2;
      var c := Stage(s, key, dir, tie, false, k);
      Merged(c[..k], key, dir, tie) + Merged(c[k..], key, dir, tie)
  }

  /** The sort that orders its halves in opposite directions and merges. */
  function SortedByDir<T>(s: seq<T>, key: T -> int, dir: int, tie: bool): (r: seq<T>)
    requires PowerOfTwo(|s|)
    ensures |r| == |s|
    decreases |s|
  {
    if |s| == 1 then s else
      var k := |s| / 2;
      Merged(SortedByDir(s[..k], key, 1, tie) + SortedByDir(s[k..], key, 0, tie), key, dir, tie)
  }

  /** The sort that orders both halves upwards, runs a mirrored stage and merges each half. */
  function SortedByMirror<T>(s: seq<T>, key: T -> int, tie: bool): (r: seq<T>)
    requires PowerOfTwo(|s|)
    ensures |r| == |s|
    decreases |s|
  {
    if |s| == 1 then s else
      var k := |s| / 2;
      var c := Stage(SortedByMirror(s[..k], key, tie) + SortedByMirror(s[k..], key, tie), key, 1, tie, true, k);
      Merged(c[..k], key, 1, tie) + Merged(c[k..], key, 1, tie)
  }

  // ---- order ----

  ghost predicate Ordered<T>(s: seq<T>, key: T -> int, dir: int) {
    forall i: nat, j: nat :: i < j < |s| ==> if dir == 1 then key(s[i]) <= key(s[j]) else key(s[i]) >= key(s[j])
  }

  /** The four values alternate between a low pair and a high pair. */
  predicate Alternates(a: int, b: int, c: int, d: int) {
    (a < b && a < d && c < b && c < d) || (b < a && d < a && b < c && d < c)
  }

  /**
   * No four items alternate: at every threshold the sequence crosses at most twice, counted cyclically. Every
   * rotation of an up-then-down sequence qualifies.
   */
  ghost predicate IsBitonic(v: seq<int>) {
    forall i: nat, j: nat, k: nat, l: nat :: i < j < k < l < |v| ==> !Alternates(v[i], v[j], v[k], v[l])
  }

  lemma UpDownIsBitonic(v: seq<int>, m: nat)
    requires m <= |v|
    requires forall i: nat, j: nat :: i < j < m ==> v[i] <= v[j]
    requires forall i: nat, j: nat :: m <= i < j < |v| ==> v[i] >= v[j]
    ensures IsBitonic(v)
  {
  }

  function Lower(a: int, b: int): int {
    if a <= b then a else b
  }

  function Upper(a: int, b: int): int {
    if a <= b then b else a
  }

  lemma HalvesDoNotAlternate(a: int, b: int, c: int, d: int, a': int, b': int, c': int, d': int)
    requires !Alternates(a, b, c, d) && !Alternates(a', b', c', d')
    requires !Alternates(a, b, c', d') && !Alternates(c, d, a', b')
    ensures !Alternates(Lower(a, a'), Lower(b, b'), Lower(c, c'), Lower(d, d'))
    ensures !Alternates(Upper(a, a'), Upper(b, b'), Upper(c, c'), Upper(d, d'))
  {
  }

  lemma HalvesAreApart(a: int, b: int, a': int, b': int)
    requires !Alternates(a, b, a', b')
    ensures Lower(a, a') <= Upper(b, b') && Lower(b, b') <= Upper(a, a')
  {
  }

  /** A half-cleaner splits a bitonic sequence into two, everything in one at most everything in the other. */
  lemma HalfClean(v: seq<int>, m: nat, lo: seq<int>, hi: seq<int>)
    requires |v| == 2 * m && |lo| == |hi| == m && IsBitonic(v)
    requires forall i: nat :: i < m ==> lo[i] == Lower(v[i], v[i + m])
    requires forall i: nat :: i < m ==> hi[i] == Upper(v[i], v[i + m])
    ensures IsBitonic(lo) && IsBitonic(hi)
    ensures forall i: nat, j: nat :: i < m && j < m ==> lo[i] <= hi[j]
  {
    hide Alternates;
    forall i: nat, j: nat, k: nat, l: nat | i < j < k < l < m
      ensures !Alternates(lo[i], lo[j], lo[k], lo[l]) && !Alternates(hi[i], hi[j], hi[k], hi[l])
    {
      HalvesDoNotAlternate(v[i], v[j], v[k], v[l], v[i + m], v[j + m], v[k + m], v[l + m]);
    }
    forall i: nat, j: nat | i < m && j < m
      ensures lo[i] <= hi[j]
    {
      assert lo[i] == Lower(v[i], v[i + m]) && hi[j] == Upper(v[j], v[j + m]);
      if i < j {
        assert !Alternates(v[i], v[j], v[i + m], v[j + m]);
        HalvesAreApart(v[i], v[j], v[i + m], v[j + m]);
        assert lo[i] <= hi[j];
      } else if j < i {
        HalvesAreApart(v[j], v[i], v[j + m], v[i + m]);
        assert lo[i] <= hi[j];
      }
    }
  }

  lemma ReversedAt(v: seq<int>, w: seq<int>, i: nat, j: nat, k: nat, l: nat)
    requires |v| == |w| && IsBitonic(v) && i < j < k < l < |v|
    requires forall i: nat :: i < |v| ==> w[i] == v[|v| - 1 - i]
    ensures !Alternates(w[i], w[j], w[k], w[l])
  {
    assert !Alternates(v[|v| - 1 - l], v[|v| - 1 - k], v[|v| - 1 - j], v[|v| - 1 - i]);
  }

  lemma ReverseIsBitonic(v: seq<int>, w: seq<int>)
    requires |v| == |w| && IsBitonic(v)
    requires forall i: nat :: i < |v| ==> w[i] == v[|v| - 1 - i]
    ensures IsBitonic(w)
  {
    hide Alternates;
    forall i: nat, j: nat, k: nat, l: nat | i < j < k < l < |w|
      ensures !Alternates(w[i], w[j], w[k], w[l])
    {
      ReversedAt(v, w, i, j, k, l);
    }
  }

  // ---- stages ----

  lemma ExchangePermutes<T>(s: seq<T>, key: T -> int, i: nat, j: nat, dir: int, tie: bool)
    requires i < |s| && j < |s|
    ensures multiset(CompareExchange(s, key, i, j, dir, tie)) == multiset(s)
  {
  }

  lemma {:induction false} StagePermutes<T>(s: seq<T>, key: T -> int, dir: int, tie: bool, mirror: bool, i: nat)
    requires i <= |s| / 2
    ensures multiset(Stage(s, key, dir, tie, mirror, i)) == multiset(s)
  {
    if i > 0 {
      StagePermutes(s, key, dir, tie, mirror, i - 1);
      ExchangePermutes(Stage(s, key, dir, tie, mirror, i - 1), key, i - 1, Partner(|s|, i - 1, mirror), dir, tie);
    }
  }

  /** Each exchange of a stage concerns its own two items: they end exchanged or as they were. */
  lemma {:induction false} StageAt<T>(s: seq<T>, key: T -> int, dir: int, tie: bool, mirror: bool, i: nat, j: nat)
    requires |s| % 2 == 0 && i <= |s| / 2 && j < |s| / 2
    ensures
      var r, p := Stage(s, key, dir, tie, mirror, i), Partner(|s|, j, mirror);
      if j < i && Swaps(key(s[j]), key(s[p]), dir, tie) then r[j] == s[p] && r[p] == s[j] else r[j] == s[j] && r[p] == s[p]
  {
    if i > 0 {
      StageAt(s, key, dir, tie, mirror, i - 1, j);
    }
  }

  ghost function Keys<T>(s: seq<T>, key: T -> int): (ks: seq<int>)
    ensures |ks| == |s|
    ensures forall i: nat :: i < |s| ==> ks[i] == key(s[i])
  {
    seq(|s|, i requires 0 <= i < |s| => key(s[i]))
  }

  // ---- the merge and the two sorts ----

  /** The keys after a stage: of each exchanged pair, dir decides which end gets the smaller key. */
  lemma StageKeys<T>(s: seq<T>, key: T -> int, dir: int, tie: bool, mirror: bool, j: nat)
    requires |s| % 2 == 0 && j < |s| / 2 && (dir == 0 || dir == 1)
    ensures
      var r, p := Stage(s, key, dir, tie, mirror, |s| / 2), Partner(|s|, j, mirror);
      var low, high := Lower(key(s[j]), key(s[p])), Upper(key(s[j]), key(s[p]));
      && key(r[j]) == (if dir == 1 then low else high)
      && key(r[p]) == (if dir == 1 then high else low)
  {
    hide Stage;
    StageAt(s, key, dir, tie, mirror, |s| / 2, j);
  }

  ghost function Lowers(v: seq<int>): (lo: seq<int>)
    requires |v| % 2 == 0
    ensures |lo| == |v| / 2
    ensures forall i: nat :: i < |lo| ==> lo[i] == Lower(v[i], v[i + |v| / 2])
  {
    seq(|v| / 2, i requires 0 <= i < |v| / 2 => Lower(v[i], v[i + |v| / 2]))
  }

  ghost function Uppers(v: seq<int>): (hi: seq<int>)
    requires |v| % 2 == 0
    ensures |hi| == |v| / 2
    ensures forall i: nat :: i < |hi| ==> hi[i] == Upper(v[i], v[i + |v| / 2])
  {
    seq(|v| / 2, i requires 0 <= i < |v| / 2 => Upper(v[i], v[i + |v| / 2]))
  }

  /** A straight stage on a bitonic sequence leaves two bitonic halves, ordered one against the other. */
  lemma StraightStage<T>(s: seq<T>, key: T -> int, dir: int, tie: bool)
    requires |s| % 2 == 0 && IsBitonic(Keys(s, key)) && (dir == 0 || dir == 1)
    ensures
      var k := |s| / 2;
      var c := Stage(s, key, dir, tie, false, k);
      && IsBitonic(Keys(c[..k], key)) && IsBitonic(Keys(c[k..], key))
      && Facing(c[..k], c[k..], key, dir)
  {
    hide IsBitonic, Stage, Lower, Upper, Facing, Keys;
    var k := |s| / 2;
    var c := Stage(s, key, dir, tie, false, k);
    var v := Keys(s, key);
    var lo, hi := Lowers(v), Uppers(v);
    HalfClean(v, k, lo, hi);
    var a, b := Keys(c[..k], key), Keys(c[k..], key);
    forall i: nat | i < k
      ensures a[i] == (if dir == 1 then lo[i] else hi[i]) && b[i] == (if dir == 1 then hi[i] else lo[i])
    {
      StageKeys(s, key, dir, tie, false, i);
      assert v[i] == key(s[i]) && v[i + k] == key(s[i + k]);
      assert a[i] == key(c[i]) && b[i] == key(c[i + k]);
    }
    assert a == (if dir == 1 then lo else hi) && b == (if dir == 1 then hi else lo);
    FacingByKeys(c[..k], c[k..], key, dir);
  }

  /** Everything in a is on the dir side of everything in b. */
  ghost predicate Facing<T>(a: seq<T>, b: seq<T>, key: T -> int, dir: int) {
    forall i: nat, j: nat :: i < |a| && j < |b| ==> if dir == 1 then key(a[i]) <= key(b[j]) else key(a[i]) >= key(b[j])
  }

  lemma FacingByKeys<T>(a: seq<T>, b: seq<T>, key: T -> int, dir: int)
    requires forall i: nat, j: nat :: i < |a| && j < |b| ==>
               if dir == 1 then Keys(a, key)[i] <= Keys(b, key)[j] else Keys(a, key)[i] >= Keys(b, key)[j]
    ensures Facing(a, b, key, dir)
  {
    forall i: nat, j: nat | i < |a| && j < |b|
      ensures if dir == 1 then key(a[i]) <= key(b[j]) else key(a[i]) >= key(b[j])
    {
      assert Keys(a, key)[i] == key(a[i]) && Keys(b, key)[j] == key(b[j]);
    }
  }

  lemma ConcatOrdered<T>(a: seq<T>, b: seq<T>, a': seq<T>, b': seq<T>, key: T -> int, dir: int)
    requires multiset(a') == multiset(a) && multiset(b') == multiset(b)
    requires Ordered(a', key, dir) && Ordered(b', key, dir) && Facing(a, b, key, dir)
    ensures Ordered(a' + b', key, dir) && multiset(a' + b') == multiset(a + b)
  {
    var c := a' + b';
    forall i: nat, j: nat | i < j < |c|
      ensures if dir == 1 then key(c[i]) <= key(c[j]) else key(c[i]) >= key(c[j])
    {
      if i < |a'| <= j {
        assert c[i] in multiset(a') && c[j] in multiset(b');
        var g: nat :| g < |a| && a[g] == c[i];
        var h: nat :| h < |b| && b[h] == c[j];
      }
    }
  }

  /** The bitonic merge orders every bitonic sequence and permutes every sequence. */
  lemma {:induction false} MergedOrders<T>(s: seq<T>, key: T -> int, dir: int, tie: bool)
    requires PowerOfTwo(|s|) && (dir == 0 || dir == 1)
    ensures multiset(Merged(s, key, dir, tie)) == multiset(s)
    ensures IsBitonic(Keys(s, key)) ==> Ordered(Merged(s, key, dir, tie), key, dir)
    decreases |s|
  {
    hide IsBitonic, Ordered, Keys, Facing, Stage;
    if |s| > 1 {
      var k := |s| / 2;
      var c := Stage(s, key, dir, tie, false, k);
      StagePermutes(s, key, dir, tie, false, k);
      MergedOrders(c[..k], key, dir, tie);
      MergedOrders(c[k..], key, dir, tie);
      assert c[..k] + c[k..] == c;
      if IsBitonic(Keys(s, key)) {
        StraightStage(s, key, dir, tie);
        ConcatOrdered(c[..k], c[k..], Merged(c[..k], key, dir, tie), Merged(c[k..], key, dir, tie), key, dir);
      }
    } else {
      SingleOrdered(s, key, dir);
    }
  }

  lemma SingleOrdered<T>(s: seq<T>, key: T -> int, dir: int)
    requires |s| <= 1
    ensures Ordered(s, key, dir)
  {
  }

  lemma UpThenDown<T>(a: seq<T>, b: seq<T>, key: T -> int)
    requires Ordered(a, key, 1) && Ordered(b, key, 0)
    ensures IsBitonic(Keys(a + b, key))
  {
    UpDownIsBitonic(Keys(a + b, key), |a|);
  }

  /** bitonicSort of sortnet1 orders any sequence in the asked direction. */
  lemma {:induction false} SortedByDirOrders<T>(s: seq<T>, key: T -> int, dir: int, tie: bool)
    requires PowerOfTwo(|s|) && (dir == 0 || dir == 1)
    ensures multiset(SortedByDir(s, key, dir, tie)) == multiset(s)
    ensures Ordered(SortedByDir(s, key, dir, tie), key, dir)
    decreases |s|
  {
    hide Ordered, Merged, IsBitonic, Keys;
    if |s| > 1 {
      var k := |s| / 2;
      assert s == s[..k] + s[k..];
      SortedByDirOrders(s[..k], key, 1, tie);
      SortedByDirOrders(s[k..], key, 0, tie);
      var a, b := SortedByDir(s[..k], key, 1, tie), SortedByDir(s[k..], key, 0, tie);
      UpThenDown(a, b, key);
      MergedOrders(a + b, key, dir, tie);
    } else {
      SingleOrdered(s, key, dir);
    }
  }

  function FoldIndex(n: nat, i: nat): nat
    requires i < n
  {
    if i < n / 2 then i else n - 1 - (i - n / 2)
  }

  /** A mirrored stage on two upwards halves does what a straight stage does with the second half reversed. */
  ghost function Folded<T>(s: seq<T>, key: T -> int): (v: seq<int>)
    ensures |v| == |s|
    ensures forall i: nat :: i < |s| ==> v[i] == key(s[FoldIndex(|s|, i)])
  {
    seq(|s|, i requires 0 <= i < |s| => key(s[FoldIndex(|s|, i)]))
  }

  lemma FoldedIsBitonic<T>(s: seq<T>, key: T -> int)
    requires |s| % 2 == 0 && Ordered(s[..|s| / 2], key, 1) && Ordered(s[|s| / 2..], key, 1)
    ensures IsBitonic(Folded(s, key))
  {
    hide IsBitonic;
    var n, k, v := |s|, |s| / 2, Folded(s, key);
    forall i: nat, j: nat | i < j < k
      ensures v[i] <= v[j]
    {
      assert s[..k][i] == s[i] && s[..k][j] == s[j];
    }
    forall i: nat, j: nat | k <= i < j < n
      ensures v[i] >= v[j]
    {
      assert s[k..][FoldIndex(n, j) - k] == s[FoldIndex(n, j)] && s[k..][FoldIndex(n, i) - k] == s[FoldIndex(n, i)];
    }
    UpDownIsBitonic(v, k);
  }

  lemma MirrorStageAt<T>(s: seq<T>, key: T -> int, tie: bool, i: nat)
    requires |s| % 2 == 0 && i < |s| / 2
    ensures
      var c, v := Stage(s, key, 1, tie, true, |s| / 2), Folded(s, key);
      key(c[i]) == Lowers(v)[i] && key(c[|s| - 1 - i]) == Uppers(v)[i]
  {
    hide Stage, Lower, Upper;
    var v := Folded(s, key);
    StageKeys(s, key, 1, tie, true, i);
    assert v[i] == key(s[i]) && v[i + |s| / 2] == key(s[|s| - 1 - i]);
  }

  lemma MirrorKeys<T>(s: seq<T>, key: T -> int, tie: bool)
    requires |s| % 2 == 0
    ensures
      var k, v := |s| / 2, Folded(s, key);
      var c := Stage(s, key, 1, tie, true, k);
      && Keys(c[..k], key) == Lowers(v)
      && forall i: nat :: i < k ==> Keys(c[k..], key)[i] == Uppers(v)[k - 1 - i]
  {
    hide Stage, Lower, Upper, Folded, Keys, Lowers, Uppers;
    var n, k, v := |s|, |s| / 2, Folded(s, key);
    var c := Stage(s, key, 1, tie, true, k);
    forall i: nat | i < k
      ensures Keys(c[..k], key)[i] == Lowers(v)[i] && Keys(c[k..], key)[i] == Uppers(v)[k - 1 - i]
    {
      MirrorStageAt(s, key, tie, i);
      MirrorStageAt(s, key, tie, k - 1 - i);
      assert c[k..][i] == c[n - 1 - (k - 1 - i)];
    }
  }

  lemma MirrorStage<T>(s: seq<T>, key: T -> int, tie: bool)
    requires |s| % 2 == 0 && Ordered(s[..|s| / 2], key, 1) && Ordered(s[|s| / 2..], key, 1)
    ensures
      var k := |s| / 2;
      var c := Stage(s, key, 1, tie, true, k);
      && IsBitonic(Keys(c[..k], key)) && IsBitonic(Keys(c[k..], key))
      && Facing(c[..k], c[k..], key, 1)
  {
    hide IsBitonic, Stage, Lower, Upper, Folded, Ordered, Facing, Keys, Lowers, Uppers;
    var k, v := |s| / 2, Folded(s, key);
    var c := Stage(s, key, 1, tie, true, k);
    FoldedIsBitonic(s, key);
    HalfClean(v, k, Lowers(v), Uppers(v));
    MirrorKeys(s, key, tie);
    ReverseIsBitonic(Uppers(v), Keys(c[k..], key));
    FacingByKeys(c[..k], c[k..], key, 1);
  }

  /** What merger does after its two recursive calls. */
  lemma MirrorCombine<T>(a: seq<T>, b: seq<T>, key: T -> int, tie: bool)
    requires |a| == |b| && PowerOfTwo(|a|) && Ordered(a, key, 1) && Ordered(b, key, 1)
    ensures
      var c := Stage(a + b, key, 1, tie, true, |a|);
      var r := Merged(c[..|a|], key, 1, tie) + Merged(c[|a|..], key, 1, tie);
      multiset(r) == multiset(a + b) && Ordered(r, key, 1)
  {
    hide Ordered, IsBitonic, Keys, Facing, Stage, Merged, PowerOfTwo;
    var h, k := a + b, |a|;
    assert h[..k] == a && h[k..] == b;
    MirrorStage(h, key, tie);
    StagePermutes(h, key, 1, tie, true, k);
    var c := Stage(h, key, 1, tie, true, k);
    MergedOrders(c[..k], key, 1, tie);
    MergedOrders(c[k..], key, 1, tie);
    ConcatOrdered(c[..k], c[k..], Merged(c[..k], key, 1, tie), Merged(c[k..], key, 1, tie), key, 1);
    assert c == c[..k] + c[k..];
  }

  /** merger of sortnet orders any sequence upwards, each payload staying with its key. */
  lemma {:induction false} SortedByMirrorOrders<T>(s: seq<T>, key: T -> int, tie: bool)
    requires PowerOfTwo(|s|)
    ensures multiset(SortedByMirror(s, key, tie)) == multiset(s)
    ensures Ordered(SortedByMirror(s, key, tie), key, 1)
    decreases |s|
  {
    hide Ordered, Stage, Merged;
    if |s| > 1 {
      var k := |s| / 2;
      assert s == s[..k] + s[k..];
      SortedByMirrorOrders(s[..k], key, tie);
      SortedByMirrorOrders(s[k..], key, tie);
      MirrorCombine(SortedByMirror(s[..k], key, tie), SortedByMirror(s[k..], key, tie), key, tie);
    } else {
      SingleOrdered(s, key, 1);
    }
  }
}

/**
 * One pass of the Melbourne shuffle, seen from its data: s * s items in rows of s are dealt into s buckets per row
 * by the destination of each item, every bucket padded to b cells; a column collects one bucket of every row.
 */
module MelbourneSpec {
  import opened Cells
  import opened CellSort
  import opened Routing

  /** Of the upto items from base on, those that go to column col, in order. */
  ghost function Bucket(perm: seq<int>, s: nat, base: nat, col: int, upto: nat): seq<nat>
    requires s > 0 && base + upto <= |perm|
  {
    if upto == 0 then [] else
      var k := base + upto - 1;
      Bucket(perm, s, base, col, upto - 1) + (if perm[k] / s == col then [k] else [])
  }

  lemma {:induction false} BucketItems(perm: seq<int>, s: nat, base: nat, col: int, upto: nat)
    requires s > 0 && base + upto <= |perm|
    ensures forall x: nat :: x < |Bucket(perm, s, base, col, upto)| ==>
              var k := Bucket(perm, s, base, col, upto)[x]; base <= k < base + upto && perm[k] / s == col
    ensures forall x: nat, y: nat :: x < y < |Bucket(perm, s, base, col, upto)| ==>
              Bucket(perm, s, base, col, upto)[x] < Bucket(perm, s, base, col, upto)[y]
  {
    if upto > 0 {
      BucketItems(perm, s, base, col, upto - 1);
      var before, bucket := Bucket(perm, s, base, col, upto - 1), Bucket(perm, s, base, col, upto);
      forall x: nat | x < |bucket|
        ensures base <= bucket[x] < base + upto && perm[bucket[x]] / s == col
        ensures forall y: nat :: y < x ==> bucket[y] < bucket[x]
      {
        if x < |before| {
          assert bucket[x] == before[x];
        } else {
          assert bucket[x] == base + upto - 1;
        }
        forall y: nat | y < x
          ensures bucket[y] < bucket[x]
        {
          assert bucket[y] == before[y];
        }
      }
    }
  }

  lemma {:induction false} BucketHas(perm: seq<int>, s: nat, base: nat, col: int, upto: nat, k: nat) returns (x: nat)
    requires s > 0 && base + upto <= |perm| && base <= k < base + upto && perm[k] / s == col
    ensures x < |Bucket(perm, s, base, col, upto)| && Bucket(perm, s, base, col, upto)[x] == k
  {
    if k == base + upto - 1 {
      x := |Bucket(perm, s, base, col, upto - 1)|;
    } else {
      x := BucketHas(perm, s, base, col, upto - 1, k);
    }
  }

  lemma {:induction false} BucketGrows(perm: seq<int>, s: nat, base: nat, col: int, upto: nat, more: nat)
    requires s > 0 && upto <= more && base + more <= |perm|
    ensures |Bucket(perm, s, base, col, upto)| <= |Bucket(perm, s, base, col, more)|
  {
    if upto < more {
      BucketGrows(perm, s, base, col, upto, more - 1);
    }
  }

  lemma RowBefore(r: nat, r': nat, s: nat)
    requires r < r'
    ensures r * s + s <= r' * s
  {
    assert (r' - r - 1) * s >= 0;
    assert (r' - r - 1) * s == r' * s - r * s - s;
  }

  lemma RowFits(row: nat, s: nat)
    requires row < s
    ensures 0 <= row * s && row * s + s <= s * s
  {
    RowBefore(row, s, s);
  }

  lemma QuotientRange(q: int, r: nat, s: nat, n: nat)
    requires r < s && 0 <= q * s + r < n * s
    ensures 0 <= q < n
  {
    assert q >= n ==> q * s >= n * s;
    assert q <= -1 ==> q * s <= -1 * s;
  }

  /** Destinations of s * s items fall into s columns. */
  lemma ColumnOf(v: int, s: nat)
    requires 0 <= v < s * s
    ensures s > 0 && 0 <= v / s < s && v / s * s <= v < v / s * s + s
  {
    assert v == v / s * s + v % s;
    QuotientRange(v / s, v % s, s, s);
  }

  lemma ColumnIs(v: int, s: nat, col: int)
    requires s > 0 && col * s <= v < col * s + s
    ensures v / s == col
  {
    var q, r := v / s, v % s;
    assert v == q * s + r && 0 <= r < s;
    assert (q - col) * s == v - r - col * s;
    assert q - col >= 1 ==> (q - col) * s >= s;
    assert q - col <= -1 ==> (q - col) * s <= -1 * s;
  }

  // ---- buckets as cells ----

  const DUMMY := Cell(-1, -1)

  /** Cell x of a padded bucket. */
  ghost function CellAt(data: seq<int>, perm: seq<int>, bucket: seq<nat>, x: nat): Cell
    requires forall y: nat :: y < |bucket| ==> bucket[y] < |perm| && bucket[y] < |data|
  {
    if x < |bucket| then Cell(perm[bucket[x]], data[bucket[x]]) else DUMMY
  }

  /** The bucket of row r for column col, over a whole row. */
  ghost function RowBucket(perm: seq<int>, s: nat, r: nat, col: int): (bucket: seq<nat>)
    requires r < s && |perm| == s * s
    ensures forall x: nat :: x < |bucket| ==> r * s <= bucket[x] < r * s + s && bucket[x] < |perm| && perm[bucket[x]] / s == col
    ensures forall x: nat, y: nat :: x < y < |bucket| ==> bucket[x] < bucket[y]
  {
    RowFits(r, s);
    BucketItems(perm, s, r * s, col, s);
    Bucket(perm, s, r * s, col, s)
  }

  ghost predicate NoOverflow(perm: seq<int>, s: nat, b: nat)
    requires |perm| == s * s
  {
    forall r: nat, col: nat :: r < s && col < s ==> |RowBucket(perm, s, r, col)| <= b
  }

  /** Row and place of cell t when every row contributes b cells. */
  lemma Place(t: nat, s: nat, b: nat)
    requires b > 0 && t < s * b
    ensures 0 <= t / b < s && 0 <= t % b < b && t == t / b * b + t % b
  {
    assert t == t / b * b + t % b;
    QuotientRange(t / b, t % b, b, s);
  }

  lemma PlaceBack(r: nat, x: nat, s: nat, b: nat)
    requires b > 0 && r < s && x < b
    ensures r * b + x < s * b && (r * b + x) / b == r && (r * b + x) % b == x
  {
    RowBefore(r, s, b);
    ColumnIs(r * b + x, b, r);
    var v := r * b + x;
    assert v == v / b * b + v % b;
  }

  ghost function Column(data: seq<int>, perm: seq<int>, s: nat, b: nat, col: int): (cs: seq<Cell>)
    requires b > 0 && |perm| == |data| == s * s
    ensures |cs| == s * b
  {
    seq(s * b, t requires 0 <= t < s * b =>
      Place(t, s, b);
      CellAt(data, perm, RowBucket(perm, s, t / b, col), t % b))
  }

  /** What the real cells of a column are. */
  ghost predicate IsItem(data: seq<int>, perm: seq<int>, s: nat, col: int, c: Cell, k: nat)
    requires s > 0 && |perm| == |data|
  {
    k < |perm| && c == Cell(perm[k], data[k]) && perm[k] / s == col
  }

  /** Every cell of a column is a dummy or an item for this column. */
  lemma ColumnHolds(data: seq<int>, perm: seq<int>, s: nat, b: nat, col: int, t: nat) returns (k: nat)
    requires b > 0 && |perm| == |data| == s * s && t < s * b && IsPermutation(perm)
    ensures s > 0
    ensures var c := Column(data, perm, s, b, col)[t]; c == DUMMY || (c.key >= 0 && IsItem(data, perm, s, col, c, k))
  {
    Place(t, s, b);
    var bucket := RowBucket(perm, s, t / b, col);
    k := if t % b < |bucket| then bucket[t % b] else 0;
  }

  /** Every item for this column is in it, if its bucket has room. */
  lemma ColumnCovers(data: seq<int>, perm: seq<int>, s: nat, b: nat, col: int, k: nat) returns (t: nat)
    requires b > 0 && |perm| == |data| == s * s && k < |perm| && perm[k] / s == col
    requires s > 0 && 0 <= col < s && NoOverflow(perm, s, b)
    ensures t < s * b && Column(data, perm, s, b, col)[t] == Cell(perm[k], data[k])
  {
    var r := k / s;
    ColumnOf(k, s);
    RowFits(r, s);
    var x := BucketHas(perm, s, r * s, col, s, k);
    hide Bucket;
    assert RowBucket(perm, s, r, col)[x] == k;
    PlaceBack(r, x, s, b);
    t := r * b + x;
    assert Column(data, perm, s, b, col)[t] == CellAt(data, perm, RowBucket(perm, s, t / b, col), t % b);
  }

  /** The column of item k has it. */
  ghost predicate InItsColumn(data: seq<int>, perm: seq<int>, s: nat, b: nat, k: nat)
    requires s > 0 && b > 0 && |perm| == |data| == s * s && k < |perm|
  {
    exists t: nat :: t < s * b && Column(data, perm, s, b, perm[k] / s)[t] == Cell(perm[k], data[k])
  }

  /** Item number x of a bucket is in its column only if it is one of the first b. */
  lemma OnlyFirstFit(data: seq<int>, perm: seq<int>, s: nat, b: nat, r: nat, col: nat, x: nat)
    requires s > 0 && b > 0 && |perm| == |data| == s * s && IsPermutation(perm) && r < s && col < s
    requires x < |RowBucket(perm, s, r, col)| && InItsColumn(data, perm, s, b, RowBucket(perm, s, r, col)[x])
    ensures x < b
  {
    hide Bucket;
    var bucket := RowBucket(perm, s, r, col);
    var k := bucket[x];
    var t: nat :| t < s * b && Column(data, perm, s, b, col)[t] == Cell(perm[k], data[k]);
    Place(t, s, b);
    var bucket' := RowBucket(perm, s, t / b, col);
    assert Cell(perm[k], data[k]) == CellAt(data, perm, bucket', t % b);
    var k' := bucket'[t % b];
    SamePlace(perm, k, k');
    if t / b != r {
      RowsApart(t / b, r, s);
    }
  }

  /** No bucket overflows exactly when every item is in the column of its destination: no item is dropped. */
  lemma NoOverflowExactly(data: seq<int>, perm: seq<int>, s: nat, b: nat)
    requires s > 0 && b > 0 && |perm| == |data| == s * s && IsPermutation(perm)
    ensures NoOverflow(perm, s, b) <==> forall k: nat :: k < |perm| ==> InItsColumn(data, perm, s, b, k)
  {
    hide Column, Bucket;
    if NoOverflow(perm, s, b) {
      forall k: nat | k < |perm|
        ensures InItsColumn(data, perm, s, b, k)
      {
        ColumnOf(perm[k], s);
        var t := ColumnCovers(data, perm, s, b, perm[k] / s, k);
      }
    }
    if forall k: nat :: k < |perm| ==> InItsColumn(data, perm, s, b, k) {
      forall r: nat, col: nat | r < s && col < s
        ensures |RowBucket(perm, s, r, col)| <= b
      {
        if |RowBucket(perm, s, r, col)| > b {
          OnlyFirstFit(data, perm, s, b, r, col, b);
        }
      }
    }
  }

  /** No item is in a column twice. */
  lemma ColumnDistinct(data: seq<int>, perm: seq<int>, s: nat, b: nat, col: int, t: nat, t': nat)
    requires b > 0 && |perm| == |data| == s * s && t < t' < s * b && IsPermutation(perm)
    ensures var cs := Column(data, perm, s, b, col); cs[t].key == cs[t'].key ==> cs[t].key == -1
  {
    Place(t, s, b);
    Place(t', s, b);
    var u, u' := RowBucket(perm, s, t / b, col), RowBucket(perm, s, t' / b, col);
    if t % b < |u| && t' % b < |u'| {
      var k, k' := u[t % b], u'[t' % b];
      if t / b != t' / b {
        RowsApart(t / b, t' / b, s);
      }
      assert k != k';
      SamePlace(perm, k, k');
    }
  }

  lemma RowsApart(r: nat, r': nat, s: nat)
    requires r != r'
    ensures r * s + s <= r' * s || r' * s + s <= r * s
  {
    if r < r' {
      RowBefore(r, r', s);
    } else {
      RowBefore(r', r, s);
    }
  }

  // ---- the column in key order, dummies dropped ----

  ghost function Kept(cs: seq<Cell>): (ks: seq<Cell>) {
    if cs == [] then [] else
      var last := cs[|cs| - 1];
      Kept(cs[..|cs| - 1]) + (if last.key != -1 then [last] else [])
  }

  ghost function KeptUpTo(cs: seq<Cell>, n: nat): seq<Cell>
    requires n <= |cs|
  {
    Kept(cs[..n])
  }

  lemma KeptStep(cs: seq<Cell>, n: nat)
    requires n < |cs|
    ensures KeptUpTo(cs, n + 1) == KeptUpTo(cs, n) + (if cs[n].key != -1 then [cs[n]] else [])
  {
    assert cs[..n + 1][..n] == cs[..n];
  }

  lemma {:induction false} KeptCells(cs: seq<Cell>)
    ensures forall i: nat :: i < |Kept(cs)| ==> Kept(cs)[i] in cs && Kept(cs)[i].key != -1
  {
    if cs != [] {
      KeptCells(cs[..|cs| - 1]);
    }
  }

  lemma {:induction false} KeptHas(cs: seq<Cell>, p: nat) returns (i: nat)
    requires p < |cs| && cs[p].key != -1
    ensures i < |Kept(cs)| && Kept(cs)[i] == cs[p]
  {
    if p == |cs| - 1 {
      i := |Kept(cs[..|cs| - 1])|;
    } else {
      i := KeptHas(cs[..|cs| - 1], p);
    }
  }

  /** No key but the dummies' occurs twice. */
  ghost predicate KeysOnce(cs: seq<Cell>) {
    forall p: nat, q: nat :: p < q < |cs| && cs[p].key == cs[q].key ==> cs[p].key == -1
  }

  lemma {:induction false} KeptClimbs(cs: seq<Cell>)
    requires Ascending(cs) && KeysOnce(cs)
    ensures Climbs(Kept(cs))
  {
    if cs != [] {
      var n := |cs| - 1;
      KeptClimbs(cs[..n]);
      KeptCells(cs[..n]);
      var before := Kept(cs[..n]);
      forall i: nat | i < |before| && cs[n].key != -1
        ensures before[i].key < cs[n].key
      {
        assert before[i] in cs[..n];
        var p: nat :| p < n && cs[..n][p] == before[i];
        assert cs[p].key <= cs[n].key;
      }
    }
  }

  lemma {:induction false} OnePlace(cs: seq<Cell>, c: Cell)
    requires forall p: nat, q: nat :: p < q < |cs| ==> !(cs[p] == c && cs[q] == c)
    ensures multiset(cs)[c] <= 1
  {
    if cs != [] {
      var n := |cs| - 1;
      assert cs == cs[..n] + [cs[n]];
      if cs[n] == c {
        assert c !in cs[..n];
      } else {
        OnePlace(cs[..n], c);
      }
    }
  }

  lemma TwoPlaces(cs: seq<Cell>, p: nat, q: nat)
    requires p < q < |cs| && cs[p] == cs[q]
    ensures multiset(cs)[cs[p]] >= 2
  {
    assert cs == cs[..q] + [cs[q]] + cs[q + 1..];
    assert cs[p] in cs[..q];
  }

  /** Sorting keeps a column's keys distinct. */
  lemma SortedKeysOnce(data: seq<int>, perm: seq<int>, s: nat, b: nat, col: int, r: seq<Cell>)
    requires b > 0 && |perm| == |data| == s * s && IsPermutation(perm)
    requires multiset(r) == multiset(Column(data, perm, s, b, col))
    ensures KeysOnce(r)
  {
    hide Column, IsPermutation;
    var cs := Column(data, perm, s, b, col);
    forall p: nat, q: nat | p < q < |r| && r[p].key == r[q].key
      ensures r[p].key == -1
    {
      var t := Find(cs, r, p);
      var t' := Find(cs, r, q);
      if r[p] == r[q] {
        TwoPlaces(r, p, q);
        if r[p].key != -1 {
          forall u: nat, v: nat | u < v < |cs|
            ensures !(cs[u] == r[p] && cs[v] == r[p])
          {
            ColumnDistinct(data, perm, s, b, col, u, v);
          }
          OnePlace(cs, r[p]);
        }
      } else {
        ColumnDistinct(data, perm, s, b, col, if t < t' then t else t', if t < t' then t' else t);
      }
    }
  }

  lemma Find(cs: seq<Cell>, r: seq<Cell>, p: nat) returns (t: nat)
    requires multiset(r) == multiset(cs) && p < |r|
    ensures t < |cs| && cs[t] == r[p]
  {
    assert r[p] in multiset(cs);
    t :| t < |cs| && cs[t] == r[p];
  }

  ghost predicate HasKey(ks: seq<Cell>, v: int) {
    exists i: nat :: i < |ks| && ks[i].key == v
  }

  ghost predicate Climbs(ks: seq<Cell>) {
    forall i: nat, j: nat :: i < j < |ks| ==> ks[i].key < ks[j].key
  }

  ghost function Offsets(ks: seq<Cell>, a: int): (os: seq<int>)
    ensures |os| == |ks|
    ensures forall i: nat :: i < |ks| ==> os[i] == ks[i].key - a
  {
    seq(|ks|, i requires 0 <= i < |ks| => ks[i].key - a)
  }

  /** Where the keys a, a + 1, ... of a climbing list are. */
  lemma {:induction false} KeyPositions(ks: seq<Cell>, a: int, n: nat) returns (pos: seq<int>)
    requires Climbs(ks) && forall v: int :: a <= v < a + n ==> HasKey(ks, v)
    ensures |pos| == n
    ensures forall v: nat :: v < n ==> 0 <= pos[v] < |ks| && ks[pos[v]].key == a + v
    ensures forall v: nat, w: nat :: v < w < n ==> pos[v] < pos[w]
  {
    if n == 0 {
      pos := [];
    } else {
      var before := KeyPositions(ks, a, n - 1);
      assert HasKey(ks, a + n - 1);
      var i: nat :| i < |ks| && ks[i].key == a + n - 1;
      pos := before + [i];
      forall v: nat | v < n - 1
        ensures pos[v] < i
      {
        assert ks[before[v]].key < ks[i].key;
      }
    }
  }

  /** Strictly increasing keys within [a, a + s) that miss none of them are exactly those, in order. */
  lemma ConsecutiveKeys(ks: seq<Cell>, a: int, s: nat)
    requires s > 0 && Climbs(ks)
    requires forall i: nat :: i < |ks| ==> a <= ks[i].key < a + s
    requires forall v: int :: a <= v < a + s ==> HasKey(ks, v)
    ensures |ks| == s && forall i: nat :: i < s ==> ks[i].key == a + i
  {
    var pos := KeyPositions(ks, a, s);
    ClimbsAtLeast(pos, 0, s - 1);
    var os := Offsets(ks, a);
    hide HasKey;
    ClimbsAtLeast(os, 0, |ks| - 1);
    forall i: nat | i < s
      ensures os[i] == i
    {
      StrictlyIncreasingIsIdentity(os, i);
    }
  }

  /** A column in key order without its dummies: the items for destinations col*s .. col*s+s-1, one each, in order. */
  lemma CleanColumn(data: seq<int>, perm: seq<int>, s: nat, b: nat, col: nat, r: seq<Cell>)
    requires b > 0 && col < s && |perm| == |data| == s * s && IsPermutation(perm) && NoOverflow(perm, s, b)
    requires multiset(r) == multiset(Column(data, perm, s, b, col)) && Ascending(r)
    ensures |Kept(r)| == s
    ensures forall i: nat :: i < s ==> Kept(r)[i].key == col * s + i
    ensures forall k: nat :: k < |perm| && col * s <= perm[k] < col * s + s ==> Kept(r)[perm[k] - col * s] == Cell(perm[k], data[k])
  {
    hide Column, NoOverflow, Ascending, KeysOnce;
    var cs, ks := Column(data, perm, s, b, col), Kept(r);
    SortedKeysOnce(data, perm, s, b, col, r);
    KeptClimbs(r);
    KeptCells(r);
    forall i: nat | i < |ks|
      ensures col * s <= ks[i].key < col * s + s
    {
      var p: nat :| p < |r| && r[p] == ks[i];
      var t := Find(cs, r, p);
      var k := ColumnHolds(data, perm, s, b, col, t);
      ColumnOf(ks[i].key, s);
    }
    forall v: int | col * s <= v < col * s + s
      ensures HasKey(ks, v)
    {
      RowFits(col, s);
      var k := Hit(perm, v);
      var i := ItemKept(data, perm, s, b, col, r, k);
    }
    ConsecutiveKeys(ks, col * s, s);
    forall k: nat | k < |perm| && col * s <= perm[k] < col * s + s
      ensures ks[perm[k] - col * s] == Cell(perm[k], data[k])
    {
      var i := ItemKept(data, perm, s, b, col, r, k);
    }
  }

  lemma ItemKept(data: seq<int>, perm: seq<int>, s: nat, b: nat, col: nat, r: seq<Cell>, k: nat) returns (i: nat)
    requires b > 0 && col < s && |perm| == |data| == s * s && IsPermutation(perm) && NoOverflow(perm, s, b)
    requires multiset(r) == multiset(Column(data, perm, s, b, col))
    requires k < |perm| && col * s <= perm[k] < col * s + s
    ensures i < |Kept(r)| && Kept(r)[i] == Cell(perm[k], data[k])
  {
    hide Column, NoOverflow;
    ColumnIs(perm[k], s, col);
    var t := ColumnCovers(data, perm, s, b, col, k);
    var p := Find(r, Column(data, perm, s, b, col), t);
    i := KeptHas(r, p);
  }
}

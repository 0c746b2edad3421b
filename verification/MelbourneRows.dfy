/** How rows and columns of buckets lie in the intermediate buffer. */
module MelbourneRows {
  import opened Cells
  import opened MelbourneSpec
  import opened Slices

  /** The s buckets of row r, one behind the other. */
  ghost function RowCells(data: seq<int>, perm: seq<int>, s: nat, b: nat, r: nat): (cs: seq<Cell>)
    requires b > 0 && r < s && |perm| == |data| == s * s
    ensures |cs| == s * b
    ensures forall y: nat :: y < s * b ==> cs[y] == CellAt(data, perm, RowBucket(perm, s, r, y / b), y % b)
  {
    seq(s * b, y requires 0 <= y < s * b => CellAt(data, perm, RowBucket(perm, s, r, y / b), y % b))
  }

  /** The first n rows of the intermediate buffer are in place. */
  ghost predicate RowsStored(g: seq<Cell>, data: seq<int>, perm: seq<int>, s: nat, b: nat, n: nat)
    requires b > 0 && n <= s && |perm| == |data| == s * s
  {
    && |g| == s * (s * b)
    && forall r: nat :: r < n ==> r * (s * b) + s * b <= |g| && Slice(g, r * (s * b), s * b) == RowCells(data, perm, s, b, r)
  }

  lemma RowRange(r: nat, s: nat, b: nat)
    requires r < s
    ensures r * (s * b) + s * b <= s * (s * b)
  {
    RowBefore(r, s, s * b);
  }

  lemma StoreRow(g: seq<Cell>, data: seq<int>, perm: seq<int>, s: nat, b: nat, n: nat)
    requires b > 0 && n < s && |perm| == |data| == s * s && RowsStored(g, data, perm, s, b, n)
    ensures n * (s * b) + s * b <= |g|
    ensures RowsStored(Splice(g, n * (s * b), RowCells(data, perm, s, b, n)), data, perm, s, b, n + 1)
  {
    RowRange(n, s, b);
    var row := RowCells(data, perm, s, b, n);
    var g' := Splice(g, n * (s * b), row);
    forall r: nat | r < n + 1
      ensures r * (s * b) + s * b <= |g| && Slice(g', r * (s * b), s * b) == RowCells(data, perm, s, b, r)
    {
      RowRange(r, s, b);
      if r < n {
        RowBefore(r, n, s * b);
        SpliceKeeps(g, n * (s * b), row, r * (s * b), s * b);
      } else {
        SpliceAgain(g, n * (s * b), row, row);
      }
    }
  }

  lemma SpliceKeeps(g: seq<Cell>, lo: nat, part: seq<Cell>, at: nat, n: nat)
    requires lo + |part| <= |g| && at + n <= lo
    ensures Slice(Splice(g, lo, part), at, n) == Slice(g, at, n)
  {
  }

  /** Cell t of column col sits in row t / b, bucket col. */
  lemma ColumnCell(g: seq<Cell>, data: seq<int>, perm: seq<int>, s: nat, b: nat, col: nat, t: nat)
    requires b > 0 && col < s && t < s * b && |perm| == |data| == s * s && RowsStored(g, data, perm, s, b, s)
    ensures
      var k := t / b * (s * b) + (col * b + t % b);
      0 <= k < |g| && g[k] == Column(data, perm, s, b, col)[t]
  {
    hide RowBucket, CellAt, Bucket;
    Place(t, s, b);
    var r, x := t / b, t % b;
    PlaceBack(col, x, s, b);
    RowRange(r, s, b);
    assert Slice(g, r * (s * b), s * b) == RowCells(data, perm, s, b, r);
    assert Slice(g, r * (s * b), s * b)[col * b + x] == g[r * (s * b) + (col * b + x)];
  }

  /** The address matrix_prepare computes for word i is the word of that cell. */
  lemma GatherAddress(i: nat, s: nat, b: nat, col: nat)
    requires b > 0 && i < 2 * (s * b)
    ensures
      var t := i / 2;
      && t < s * b
      && i / (2 * b) * 2 * b * s + i % (2 * b) + col * 2 * b == 2 * (t / b * (s * b) + (col * b + t % b)) + i % 2
  {
    var r, w, t := i / (2 * b), i % (2 * b), i / 2;
    assert i == r * (2 * b) + w;
    WordQuotient(i, 2 * b, s * b);
    TwiceAsMany(r, b, w, i);
    Reassociate(r, s, b);
    Reassociate(col, 1, b);
    Place(t, s, b);
  }

  lemma WordQuotient(i: nat, m: nat, n: nat)
    requires m > 0 && i < 2 * n
    ensures 0 <= i / m && i / 2 < n
  {
  }

  lemma Reassociate(r: nat, s: nat, b: nat)
    ensures r * 2 * b * s == 2 * (r * (s * b))
  {
    assert r * 2 * b == 2 * (r * b);
    assert r * b * s == r * (s * b);
    assert 2 * (r * b) * s == 2 * (r * b * s);
  }

  lemma TwiceAsMany(r: nat, b: nat, w: nat, i: nat)
    requires b > 0 && w < 2 * b && i == r * (2 * b) + w
    ensures i / 2 == r * b + w / 2 && i % 2 == w % 2
    ensures i / 2 / b == r && i / 2 % b == w / 2
  {
    assert r * (2 * b) == 2 * (r * b);
    var t := i / 2;
    assert t == r * b + w / 2;
    ColumnIs(t, b, r);
    assert t == t / b * b + t % b;
  }
}

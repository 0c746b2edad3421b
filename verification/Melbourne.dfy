/** The Melbourne shuffle over its global buffers, the multi-queue and the transaction memory. */
module Melbourne {
  import opened Bitonic
  import opened Cells
  import opened CellSort
  import opened MelbourneSpec
  import opened MelbourneRows
  import opened QueueWords
  import opened QueueContents
  import opened MultiQueues
  import opened RealLibCoda
  import opened Routing
  import opened Slices
  import opened TxMemory
  import opened TxRegions

  /** Of the first n items of the row at base, those for column col, as queue elements. */
  ghost function Lot(data: seq<int>, perm: seq<int>, s: nat, base: nat, col: int, n: nat): (es: seq<Element>)
    requires s > 0 && base + n <= |perm| == |data|
  {
    if n == 0 then [] else
      var k := base + n - 1;
      Lot(data, perm, s, base, col, n - 1) + (if perm[k] / s == col then [Element(data[k], perm[k])] else [])
  }

  lemma {:induction false} LotIsBucket(data: seq<int>, perm: seq<int>, s: nat, base: nat, col: int, n: nat)
    requires s > 0 && base + n <= |perm| == |data|
    ensures
      var lot, bucket := Lot(data, perm, s, base, col, n), Bucket(perm, s, base, col, n);
      && |lot| == |bucket|
      && forall x: nat :: x < |lot| ==> bucket[x] < |perm| && lot[x] == Element(data[bucket[x]], perm[bucket[x]])
  {
    if n > 0 {
      LotIsBucket(data, perm, s, base, col, n - 1);
    }
  }

  /** What the queues hold after n items of the row at base. */
  ghost predicate Dealt(qs: seq<seq<Element>>, data: seq<int>, perm: seq<int>, s: nat, base: nat, n: nat)
    requires s > 0 && base + n <= |perm| == |data|
  {
    && |qs| == s
    && forall col: nat :: col < s ==> qs[col] == Lot(data, perm, s, base, col, n)
  }

  lemma DealtNothing(data: seq<int>, perm: seq<int>, s: nat, base: nat)
    requires s > 0 && base <= |perm| == |data|
    ensures Dealt(seq(s, q => []), data, perm, s, base, 0)
  {
  }

  /** Every destination lies in one of s columns. */
  ghost predicate Destinations(perm: seq<int>, s: nat) {
    s > 0 && forall k: nat :: k < |perm| ==> 0 <= perm[k] / s < s
  }

  lemma DestinationsOf(perm: seq<int>, s: nat)
    requires |perm| == s * s && s > 0 && forall k: nat :: k < |perm| ==> 0 <= perm[k] < |perm|
    ensures Destinations(perm, s)
  {
    forall k: nat | k < |perm|
      ensures 0 <= perm[k] / s < s
    {
      ColumnOf(perm[k], s);
    }
  }

  /** Dealing item base + n to its queue. */
  lemma DealtNext(qs: seq<seq<Element>>, data: seq<int>, perm: seq<int>, s: nat, base: nat, n: nat)
    requires s > 0 && base + n < |perm| == |data| && Dealt(qs, data, perm, s, base, n) && Destinations(perm, s)
    ensures
      var k := base + n;
      var col := perm[k] / s;
      0 <= col < s == |qs| && Dealt(qs[col := qs[col] + [Element(data[k], perm[k])]], data, perm, s, base, n + 1)
  {
    assert base + n < |perm|;
  }

  // ---- a drained queue as cells ----

  ghost function LotCell(lot: seq<Element>, x: nat): Cell {
    if x < |lot| then Cell(lot[x].perm, lot[x].value) else DUMMY
  }

  /** A queue in b cells, dummies behind its elements. */
  ghost function LotCells(lot: seq<Element>, b: nat): (cs: seq<Cell>)
    ensures |cs| == b
    ensures forall x: nat :: x < b ==> cs[x] == LotCell(lot, x)
  {
    seq(b, x requires 0 <= x => LotCell(lot, x))
  }

  /** The first i queues are written out, b cells each; the rest of the row is dummies. */
  ghost predicate Filled(cs: seq<Cell>, qs: seq<seq<Element>>, s: nat, b: nat, i: nat)
    requires b > 0 && |qs| == s && i <= s
  {
    && |cs| == s * b
    && forall y: nat :: y < s * b ==> cs[y] == if y / b < i then LotCell(qs[y / b], y % b) else DUMMY
  }

  lemma StillDummy(cs: seq<Cell>, qs: seq<seq<Element>>, s: nat, b: nat, i: nat, x: nat)
    requires b > 0 && |qs| == s && i < s && x < b && Filled(cs, qs, s, b, i)
    ensures i * b + x < |cs| && cs[i * b + x] == DUMMY
  {
    PlaceBack(i, x, s, b);
  }

  /** Cell y once queue i is written out at i * b. */
  lemma FillAt(cs: seq<Cell>, qs: seq<seq<Element>>, s: nat, b: nat, i: nat, y: nat, cs': seq<Cell>)
    requires b > 0 && |qs| == s && i < s && y < s * b && |cs| == s * b && i * b + b <= s * b
    requires cs[y] == if y / b < i then LotCell(qs[y / b], y % b) else DUMMY
    requires cs' == Splice(cs, i * b, LotCells(qs[i], b))
    ensures cs'[y] == if y / b < i + 1 then LotCell(qs[y / b], y % b) else DUMMY
  {
    hide LotCell;
    Place(y, s, b);
    if y / b < i {
      RowBefore(y / b, i, b);
    } else if y / b > i {
      RowBefore(i, y / b, b);
    } else {
      assert cs'[y] == LotCells(qs[i], b)[y - i * b];
    }
  }

  lemma FillNext(cs: seq<Cell>, qs: seq<seq<Element>>, s: nat, b: nat, i: nat)
    requires b > 0 && |qs| == s && i < s && Filled(cs, qs, s, b, i)
    ensures i * b + b <= s * b && Slice(cs, i * b, b) == LotCells([], b)
    ensures Filled(Splice(cs, i * b, LotCells(qs[i], b)), qs, s, b, i + 1)
  {
    RowBefore(i, s, b);
    hide Filled, Splice, LotCells;
    NextDummies(cs, qs, s, b, i);
    FilledMore(cs, qs, s, b, i, i * b);
  }

  lemma NextDummies(cs: seq<Cell>, qs: seq<seq<Element>>, s: nat, b: nat, i: nat)
    requires b > 0 && |qs| == s && i < s && Filled(cs, qs, s, b, i) && i * b + b <= s * b
    ensures |cs| == s * b && Slice(cs, i * b, b) == LotCells([], b)
  {
    forall x: nat | x < b
      ensures Slice(cs, i * b, b)[x] == DUMMY
    {
      hide Filled;
      StillDummy(cs, qs, s, b, i, x);
    }
  }

  lemma FilledMore(cs: seq<Cell>, qs: seq<seq<Element>>, s: nat, b: nat, i: nat, o: nat)
    requires b > 0 && |qs| == s && i < s && Filled(cs, qs, s, b, i) && o == i * b && o + b <= s * b
    ensures |cs| == s * b && Filled(Splice(cs, o, LotCells(qs[i], b)), qs, s, b, i + 1)
  {
    hide Splice, LotCells, LotCell;
    var cs' := Splice(cs, o, LotCells(qs[i], b));
    forall y: nat | y < s * b
      ensures cs'[y] == if y / b < i + 1 then LotCell(qs[y / b], y % b) else DUMMY
    {
      FillAt(cs, qs, s, b, i, y, cs');
    }
  }

  lemma LotIsRowBucket(qs: seq<seq<Element>>, data: seq<int>, perm: seq<int>, s: nat, row: nat, q: nat, x: nat)
    requires s > 0 && row < s && q < s && |perm| == |data| == s * s && row * s + s <= |perm|
    requires Dealt(qs, data, perm, s, row * s, s)
    ensures |qs| == s && LotCell(qs[q], x) == CellAt(data, perm, RowBucket(perm, s, row, q), x)
  {
    hide Bucket, Lot;
    LotIsBucket(data, perm, s, row * s, q, s);
    assert qs[q] == Lot(data, perm, s, row * s, q, s);
  }

  lemma FilledRow(cs: seq<Cell>, qs: seq<seq<Element>>, data: seq<int>, perm: seq<int>, s: nat, b: nat, row: nat)
    requires b > 0 && row < s && |perm| == |data| == s * s && row * s + s <= |perm|
    requires |qs| == s && Dealt(qs, data, perm, s, row * s, s) && Filled(cs, qs, s, b, s)
    ensures cs == RowCells(data, perm, s, b, row)
  {
    hide Bucket, Dealt, CellAt, LotCell, RowBucket;
    forall y: nat | y < s * b
      ensures cs[y] == CellAt(data, perm, RowBucket(perm, s, row, y / b), y % b)
    {
      Place(y, s, b);
      LotIsRowBucket(qs, data, perm, s, row, y / b, y % b);
    }
  }

  /** The first n elements of lot stand in words, destination before value. */
  ghost predicate Written(words: seq<int>, lot: seq<Element>, n: nat) {
    n <= |lot| && 2 * n <= |words| && forall x: nat :: x < n ==> words[2 * x] == lot[x].perm && words[2 * x + 1] == lot[x].value
  }

  /** The iterator that takes a bucket, after n elements. */
  ghost predicate Emitted(r: Region, lot: seq<Element>, n: nat, b: nat) {
    r.strip == ReadWrite && r.rd == 0 && r.wr == 2 * n && |r.data| == 2 * b && Written(r.data, lot, n)
  }

  ghost predicate Unread(r: Region, n: nat) {
    r.strip == ReadWrite && r.rd == 0 && n <= |r.data|
  }

  lemma WrittenNext(words: seq<int>, lot: seq<Element>, n: nat)
    requires Written(words, lot, n) && n < |lot| && 2 * n + 1 < |words|
    ensures Written(words[2 * n := lot[n].perm][2 * n + 1 := lot[n].value], lot, n + 1)
  {
  }

  lemma FilledNone(output: array<int>, qs: seq<seq<Element>>, s: nat, b: nat)
    requires b > 0 && |qs| == s && output.Length == 2 * (s * b) && forall k: nat :: k < output.Length ==> output[k] == -1
    ensures Filled(View(output), qs, s, b, 0)
  {
  }

  /** after is before with the first n of words put at at. */
  ghost predicate Copied(before: seq<int>, after: seq<int>, words: seq<int>, at: nat, n: nat) {
    && |after| == |before| && n <= |words| && at + n <= |before|
    && (forall p: nat :: p < n ==> after[at + p] == words[p])
    && (forall k: nat :: k < |before| && !(at <= k < at + n) ==> after[k] == before[k])
  }

  /** Words before and after the elements of a queue are put at cell o, over dummies. */
  lemma BucketPut(before: seq<int>, after: seq<int>, words: seq<int>, o: nat, lot: seq<Element>, b: nat)
    requires |before| == |after| && |before| % 2 == 0 && 2 * o + 2 * b <= |before| && |lot| <= b
    requires Slice(CellsOf(before), o, b) == LotCells([], b) && Written(words, lot, |lot|)
    requires Copied(before, after, words, 2 * o, 2 * |lot|)
    ensures CellsOf(after) == Splice(CellsOf(before), o, LotCells(lot, b))
  {
    var cs, cs' := CellsOf(before), CellsOf(after);
    forall t: nat | t < |cs|
      ensures cs'[t] == if o <= t < o + b then LotCell(lot, t - o) else cs[t]
    {
      if o <= t < o + |lot| {
        assert after[2 * o + 2 * (t - o)] == words[2 * (t - o)];
        assert after[2 * o + (2 * (t - o) + 1)] == words[2 * (t - o) + 1];
      } else {
        assert after[2 * t] == before[2 * t] && after[2 * t + 1] == before[2 * t + 1];
        if o <= t < o + b {
          assert Slice(cs, o, b)[t - o] == DUMMY;
        }
      }
    }
  }

  lemma Doubled(i: nat, b: nat)
    ensures i * (2 * b) == 2 * (i * b) == i * 2 * b
  {
  }

  /** Whole cells copied as words are spliced as cells. */
  lemma CopiedCells(before: seq<int>, after: seq<int>, words: seq<int>, o: nat)
    requires |words| % 2 == 0 && |before| % 2 == 0 && Copied(before, after, words, 2 * o, |words|)
    ensures CellsOf(after) == Splice(CellsOf(before), o, CellsOf(words))
  {
    var cs, cs', part := CellsOf(before), CellsOf(after), CellsOf(words);
    forall t: nat | t < |cs|
      ensures cs'[t] == if o <= t < o + |part| then part[t - o] else cs[t]
    {
      if o <= t < o + |part| {
        assert after[2 * o + 2 * (t - o)] == words[2 * (t - o)];
        assert after[2 * o + (2 * (t - o) + 1)] == words[2 * (t - o) + 1];
      } else {
        assert after[2 * t] == before[2 * t] && after[2 * t + 1] == before[2 * t + 1];
      }
    }
  }

  lemma RowPlace(g: seq<int>, data: seq<int>, perm: seq<int>, s: nat, b: nat, row: nat) returns (o: nat)
    requires b > 0 && row < s && |perm| == |data| == s * s && |g| % 2 == 0
    requires RowsStored(CellsOf(g), data, perm, s, b, row)
    ensures o == row * (s * b) && row * s * 2 * b == 2 * o && 2 * o + 2 * (s * b) <= |g|
  {
    o := row * (s * b);
    Reassociate(row, s, b);
    RowRange(row, s, b);
  }

  lemma RowKept(before: seq<int>, after: seq<int>, words: seq<int>, data: seq<int>, perm: seq<int>, s: nat, b: nat,
                row: nat, o: nat)
    requires b > 0 && row < s && |perm| == |data| == s * s && |before| % 2 == 0 && |words| % 2 == 0
    requires RowsStored(CellsOf(before), data, perm, s, b, row) && CellsOf(words) == RowCells(data, perm, s, b, row)
    requires o == row * (s * b) && Copied(before, after, words, 2 * o, |words|)
    ensures |after| == |before| && RowsStored(CellsOf(after), data, perm, s, b, row + 1)
  {
    CopiedLength(before, after, words, 2 * o, |words|);
    hide RowsStored, RowCells, Splice, Copied;
    StoreRow(CellsOf(before), data, perm, s, b, row);
    CopiedCells(before, after, words, o);
  }

  lemma CopiedNone(before: seq<int>, words: seq<int>, at: nat)
    requires at <= |before|
    ensures Copied(before, before, words, at, 0)
  {
  }

  lemma CopiedLength(before: seq<int>, after: seq<int>, words: seq<int>, at: nat, n: nat)
    requires Copied(before, after, words, at, n)
    ensures |before| == |after|
  {
  }

  lemma CopiedNext(before: seq<int>, after: seq<int>, words: seq<int>, at: nat, n: nat)
    requires Copied(before, after, words, at, n) && n < |words| && at + n < |before|
    ensures Copied(before, after[at + n := words[n]], words, at, n + 1)
  {
  }

  lemma LotsFit(qs: seq<seq<Element>>, data: seq<int>, perm: seq<int>, s: nat, b: nat, row: nat)
    requires s > 0 && row < s && |perm| == |data| == s * s && row * s + s <= |perm|
    requires NoOverflow(perm, s, b) && Dealt(qs, data, perm, s, row * s, s)
    ensures |qs| == s && forall q: nat :: q < s ==> |qs[q]| <= b
  {
    hide Bucket, Lot;
    forall q: nat | q < s
      ensures |qs[q]| <= b
    {
      LotIsBucket(data, perm, s, row * s, q, s);
      assert |RowBucket(perm, s, row, q)| <= b;
    }
  }

  // ---- columns ----

  ghost function WordOf(cs: seq<Cell>, i: nat): int
    requires i / 2 < |cs|
  {
    if i % 2 == 0 then cs[i / 2].key else cs[i / 2].payload
  }

  /** The word matrix_prepare fetches for position i is that word of the column. */
  lemma Gathered(g: seq<int>, data: seq<int>, perm: seq<int>, s: nat, b: nat, col: nat, i: nat)
    requires b > 0 && col < s && i < 2 * (s * b) && |perm| == |data| == s * s && |g| % 2 == 0
    requires RowsStored(CellsOf(g), data, perm, s, b, s)
    ensures i / 2 < s * b
    ensures
      var at := i / (2 * b) * 2 * b * s + i % (2 * b) + col * 2 * b;
      0 <= at < |g| && g[at] == WordOf(Column(data, perm, s, b, col), i)
  {
    hide RowsStored, Column;
    GatherAddress(i, s, b, col);
    ColumnCell(CellsOf(g), data, perm, s, b, col, i / 2);
    CellWord(g, i / 2 / b * (s * b) + (col * b + i / 2 % b), i % 2);
  }

  lemma CellWord(g: seq<int>, k: int, w: int)
    requires |g| % 2 == 0 && 0 <= k < |g| / 2 && 0 <= w < 2
    ensures 0 <= 2 * k + w < |g|
    ensures g[2 * k + w] == if w == 0 then CellsOf(g)[k].key else CellsOf(g)[k].payload
  {
  }

  lemma CellsFromWords(words: seq<int>, cs: seq<Cell>)
    requires |words| == 2 * |cs| && forall i: nat :: i < |words| ==> words[i] == WordOf(cs, i)
    ensures CellsOf(words) == cs
  {
    forall t: nat | t < |cs|
      ensures CellsOf(words)[t] == cs[t]
    {
      assert words[2 * t] == WordOf(cs, 2 * t) && words[2 * t + 1] == WordOf(cs, 2 * t + 1);
    }
  }

  lemma {:induction false} KeptGrows(cs: seq<Cell>, n: nat)
    requires n <= |cs|
    ensures |KeptUpTo(cs, n)| <= |Kept(cs)|
    decreases |cs| - n
  {
    if n < |cs| {
      KeptStep(cs, n);
      KeptGrows(cs, n + 1);
    } else {
      assert cs[..n] == cs;
    }
  }

  /** out is before with the payloads of ks from at on. */
  ghost predicate Collected(before: seq<int>, out: seq<int>, ks: seq<Cell>, at: nat) {
    && |out| == |before| && at + |ks| <= |out|
    && out[..at] == before[..at]
    && forall q: nat :: q < |ks| ==> out[at + q] == ks[q].payload
  }

  lemma CollectedNext(before: seq<int>, out: seq<int>, ks: seq<Cell>, at: nat, c: Cell)
    requires Collected(before, out, ks, at) && at + |ks| < |out|
    ensures Collected(before, out[at + |ks| := c.payload], ks + [c], at)
  {
  }

  /** The items with destinations below limit are at their places. */
  ghost predicate RoutedBelow(out: seq<int>, perm: seq<int>, data: seq<int>, limit: nat) {
    && |out| == |perm| == |data|
    && forall k: nat :: k < |perm| && 0 <= perm[k] < limit ==> perm[k] < |out| && out[perm[k]] == data[k]
  }

  lemma ColumnRouted(before: seq<int>, out: seq<int>, r: seq<Cell>, data: seq<int>, perm: seq<int>, s: nat, b: nat,
                     col: nat)
    requires b > 0 && col < s && |perm| == |data| == s * s && IsPermutation(perm) && NoOverflow(perm, s, b)
    requires multiset(r) == multiset(Column(data, perm, s, b, col)) && Ascending(r)
    requires RoutedBelow(before, perm, data, col * s) && Collected(before, out, Kept(r), col * s)
    ensures RoutedBelow(out, perm, data, col * s + s) && |Kept(r)| == s
  {
    hide NoOverflow, Column, Ascending, Kept, IsPermutation;
    CleanColumn(data, perm, s, b, col, r);
    var ks := Kept(r);
    forall k: nat | k < |perm| && 0 <= perm[k] < col * s + s
      ensures perm[k] < |out| && out[perm[k]] == data[k]
    {
      if perm[k] < col * s {
        assert out[perm[k]] == out[..col * s][perm[k]] == before[..col * s][perm[k]] == before[perm[k]];
      } else {
        assert ks[perm[k] - col * s] == Cell(perm[k], data[k]);
        assert out[col * s + (perm[k] - col * s)] == ks[perm[k] - col * s].payload;
      }
    }
  }

  lemma AllRouted(out: seq<int>, perm: seq<int>, data: seq<int>)
    requires IsPermutation(perm) && RoutedBelow(out, perm, data, |perm|)
    ensures Routed(out, perm, data)
  {
  }

  lemma KeptNone(cs: seq<Cell>, before: seq<int>, start: nat)
    requires start <= |before|
    ensures KeptUpTo(cs, 0) == [] && Collected(before, before, KeptUpTo(cs, 0), start)
  {
  }

  lemma KeptAll(cs: seq<Cell>)
    ensures KeptUpTo(cs, |cs|) == Kept(cs)
  {
    assert cs[..|cs|] == cs;
  }

  lemma PassStart(g: seq<Cell>, out: seq<int>, data: seq<int>, perm: seq<int>, s: nat, b: nat)
    requires s > 0 && b > 0 && |g| == s * (s * b) && |out| == |perm| == |data| == s * s && IsPermutation(perm)
    ensures RowsStored(g, data, perm, s, b, 0) && RoutedBelow(out, perm, data, 0) && Destinations(perm, s)
  {
    DestinationsOf(perm, s);
  }

  // ---- the overflow check ----

  ghost predicate RowOverflows(perm: seq<int>, s: nat, b: nat, base: nat, n: nat)
    requires s > 0 && base + n <= |perm|
  {
    exists col: nat :: col < s && |Bucket(perm, s, base, col, n)| > b
  }

  /** After n items of a row, count holds the sizes of the buckets. */
  ghost predicate Counted(count: seq<int>, perm: seq<int>, s: nat, base: nat, n: nat)
    requires s > 0 && base + n <= |perm|
  {
    |count| == s && forall col: nat :: col < s ==> count[col] == |Bucket(perm, s, base, col, n)|
  }

  lemma CountNext(count: seq<int>, perm: seq<int>, s: nat, b: nat, base: nat, n: nat)
    requires s > 0 && base + n < |perm| && Counted(count, perm, s, base, n) && Destinations(perm, s)
    requires !RowOverflows(perm, s, b, base, n)
    ensures
      var col := perm[base + n] / s;
      && 0 <= col < s == |count|
      && Counted(count[col := count[col] + 1], perm, s, base, n + 1)
      && (RowOverflows(perm, s, b, base, n + 1) <==> count[col] == b)
  {
    var col := perm[base + n] / s;
    assert |Bucket(perm, s, base, col, n + 1)| == |Bucket(perm, s, base, col, n)| + 1;
    forall c: nat | c < s && c != col
      ensures |Bucket(perm, s, base, c, n + 1)| == |Bucket(perm, s, base, c, n)|
    {
    }
    assert !(|Bucket(perm, s, base, col, n)| > b);
  }

  lemma NothingCounted(count: seq<int>, perm: seq<int>, s: nat, b: nat, base: nat)
    requires s > 0 && base <= |perm| && |count| == s && forall k: nat :: k < s ==> count[k] == 0
    ensures Counted(count, perm, s, base, 0) && !RowOverflows(perm, s, b, base, 0)
  {
  }

  lemma OverflowStays(perm: seq<int>, s: nat, b: nat, base: nat, n: nat, m: nat)
    requires s > 0 && n <= m && base + m <= |perm| && RowOverflows(perm, s, b, base, n)
    ensures RowOverflows(perm, s, b, base, m)
  {
    var col: nat :| col < s && |Bucket(perm, s, base, col, n)| > b;
    BucketGrows(perm, s, base, col, n, m);
  }

  lemma OverflowsInRow(perm: seq<int>, s: nat, b: nat, row: nat)
    requires s > 0 && row < s && |perm| == s * s
    ensures row * s + s <= |perm|
    ensures RowOverflows(perm, s, b, row * s, s) <==> exists col: nat :: col < s && |RowBucket(perm, s, row, col)| > b
  {
    RowFits(row, s);
    forall col: nat | col < s
      ensures RowBucket(perm, s, row, col) == Bucket(perm, s, row * s, col, s)
    {
    }
  }

  class MelShuffle {
    const coda: RealCoda
    /** SqrtN, BLOWUPFACTOR and QUEUE_CAP. */
    const s: nat
    const b: nat
    const cap: nat
    const msortMem: array<int>
    const tmpData: array<int>
    const gInterm: array<int>

    ghost predicate Sizes()
      reads {}
    {
      && Fits(s, b, cap)
      && msortMem.Length == tmpData.Length == 2 * (s * b) && gInterm.Length == 2 * (s * (s * b))
      && msortMem != tmpData && msortMem != gInterm && tmpData != gInterm
      && msortMem != coda.txmem && tmpData != coda.txmem && gInterm != coda.txmem
    }

    ghost predicate Valid()
      reads coda, coda.txmem
    {
      Sizes() && coda.Valid() && coda.Closed()
    }

    /** The sizes the shuffle is built for: the buffers need a power of two, the queues and the memory strips room. */
    static ghost predicate Fits(s: nat, b: nat, cap: nat) {
      && s > 0 && b > 0 && PowerOfTwo(s * b)
      && 2 <= cap && s <= cap && Addressable(s, cap)
      && 2 * s <= Limit(ReadOnly) && 2 * b <= Limit(ReadWrite)
    }

    constructor (coda: RealCoda, sqrtN: nat, blowupFactor: nat, queueCap: nat)
      requires Fits(sqrtN, blowupFactor, queueCap)
      ensures this.coda == coda && s == sqrtN && b == blowupFactor && cap == queueCap && Sizes()
      ensures fresh(msortMem) && fresh(tmpData) && fresh(gInterm)
    {
      this.coda := coda;
      s, b, cap := sqrtN, blowupFactor, queueCap;
      msortMem := new int[2 * (sqrtN * blowupFactor)];
      tmpData := new int[2 * (sqrtN * blowupFactor)];
      gInterm := new int[2 * (sqrtN * (sqrtN * blowupFactor))];
    }

    /** The transaction that deals the row at base into the queues. */
    method DealRow(data: seq<int>, perm: seq<int>, base: nat, queues: MultiQueue)
      requires Valid() && base + s <= |perm| == |data| && Destinations(perm, s)
      requires queues.coda == coda && queues.num == s && queues.cap == cap && queues.Home()
      requires queues.queues == seq(s, q => [])
      modifies queues`nob, queues`lists, queues`queues, queues.data, coda, coda.txmem
      ensures coda.Valid() && coda.Closed() && queues.Home()
      ensures Dealt(queues.queues, data, perm, s, base, s)
    {
      hide Laid, Represents, Queues, Bucket, PowerOfTwo, Destinations, Dealt;
      var dataIter := coda.InitializeObIterator(data[base..base + s]);
      var permIter := coda.InitializeObIterator(perm[base..base + s]);
      queues.InitNob();
      assert coda.regions[..2][0] == coda.regions[0] && coda.regions[..2][1] == coda.regions[1];
      DealtNothing(data, perm, s, base);
      NothingQueued(queues.queues);
      DealItems(data, perm, base, queues, dataIter, permIter);
      coda.TxEnd();
      queues.ResetNob();
    }

    ghost predicate Iterating(r: Region, row: seq<int>, i: nat) {
      r.strip == ReadOnly && r.rd == i && r.data == row
    }

    method DealItems(data: seq<int>, perm: seq<int>, base: nat, queues: MultiQueue, dataIter: nat, permIter: nat)
      requires base + s <= |perm| == |data| && Destinations(perm, s) && s <= cap
      requires queues.coda == coda && queues.num == s && queues.cap == cap && queues.InTx()
      requires dataIter == 0 && permIter == 1 && queues.nob == 2 && |coda.regions| == 3
      requires Iterating(coda.regions[0], data[base..base + s], 0) && Iterating(coda.regions[1], perm[base..base + s], 0)
      requires Dealt(queues.queues, data, perm, s, base, 0) && TotalQueued(queues.queues) == 0
      modifies queues`lists, queues`queues, coda`regions, coda.txmem
      ensures queues.InTx() && Dealt(queues.queues, data, perm, s, base, s)
    {
      hide Laid, Represents, Queues, Dealt;
      ghost var dataRow, permRow := data[base..base + s], perm[base..base + s];
      var i := 0;
      while i < s
        invariant i <= s && queues.InTx() && queues.nob == 2 && |coda.regions| == 3
        invariant Iterating(coda.regions[0], dataRow, i) && Iterating(coda.regions[1], permRow, i)
        invariant Dealt(queues.queues, data, perm, s, base, i) && TotalQueued(queues.queues) == i
      {
        var d := coda.ObReadNext(dataIter);
        var p := coda.ObReadNext(permIter);
        assert d == data[base + i] && p == perm[base + i];
        DealtNext(queues.queues, data, perm, s, base, i);
        QueuedPlusOne(queues.queues, p / s, Element(d, p));
        queues.PushBack(p / s, Element(d, p));
        i := i + 1;
      }
    }

    /** checkOFlow on one row: does some bucket take more than b of its items? */
    method CheckRow(aPerm: array<int>, base: nat, count: array<int>) returns (over: bool)
      requires s > 0 && base + s <= aPerm.Length && Destinations(aPerm[..], s)
      requires count.Length == s && count != aPerm
      modifies count
      ensures over <==> RowOverflows(aPerm[..], s, b, base, s)
    {
      hide RowOverflows, Counted, Bucket;
      var i := 0;
      while i < s
        invariant i <= s && forall k: nat :: k < i ==> count[k] == 0
      {
        count[i] := 0;
        i := i + 1;
      }
      NothingCounted(count[..], aPerm[..], s, b, base);
      var j := 0;
      while j < s
        invariant j <= s && Counted(count[..], aPerm[..], s, base, j) && !RowOverflows(aPerm[..], s, b, base, j)
      {
        var bucket := aPerm[base + j] / s;
        CountNext(count[..], aPerm[..], s, b, base, j);
        if count[bucket] == b {
          OverflowStays(aPerm[..], s, b, base, j + 1, s);
          return true;
        }
        ghost var before := count[..];
        count[bucket] := count[bucket] + 1;
        assert count[..] == before[bucket := before[bucket] + 1];
        j := j + 1;
      }
      over := false;
    }

    /** 0 exactly when no row puts more than b items into one bucket. */
    method CheckOFlow(aPerm: array<int>) returns (r: int)
      requires s > 0 && aPerm.Length == s * s && Destinations(aPerm[..], s)
      ensures r == 0 || r == 1
      ensures r == 0 <==> NoOverflow(aPerm[..], s, b)
    {
      hide RowOverflows, Destinations, RowBucket;
      var count := new int[s];
      var i := 0;
      while i < s
        invariant i <= s
        invariant forall r: nat, col: nat :: r < i && col < s ==> |RowBucket(aPerm[..], s, r, col)| <= b
      {
        OverflowsInRow(aPerm[..], s, b, i);
        var over := CheckRow(aPerm, i * s, count);
        if over {
          return 1;
        }
        i := i + 1;
      }
      r := 0;
    }

    /** 0 exactly when output holds data[k] at perm[k] for all k. */
    method Verify(data: array<int>, perm: array<int>, output: array<int>) returns (r: int)
      requires data.Length == perm.Length == output.Length
      requires forall k: nat :: k < perm.Length ==> 0 <= perm[k] < output.Length
      ensures r == 0 || r == 1
      ensures r == 0 <==> Routed(output[..], perm[..], data[..])
    {
      var i := 0;
      while i < data.Length
        invariant i <= data.Length && forall k: nat :: k < i ==> output[perm[k]] == data[k]
      {
        if output[perm[i]] != data[i] {
          assert output[..][perm[..][i]] != data[..][i];
          return 1;
        }
        i := i + 1;
      }
      r := 0;
    }

    /** Writes one element out, destination before value. */
    method EmitElement(queues: MultiQueue, obOut: nat, e: Element, ghost lot: seq<Element>, ghost count: nat)
      requires queues.coda == coda && queues.InTx() && obOut == 1 && queues.nob == 0 && |coda.regions| == 2
      requires Emitted(coda.regions[1], lot, count, b) && count < |lot| <= b && e == lot[count]
      modifies coda`regions, coda.txmem
      ensures queues.InTx() && |coda.regions| == 2 && Emitted(coda.regions[1], lot, count + 1, b)
    {
      hide Laid, Represents, Queues, Written;
      WrittenNext(coda.regions[1].data, lot, count);
      coda.ObRwWriteNext(obOut, e.perm);
      coda.ObRwWriteNext(obOut, e.value);
    }

    /** The transaction that empties queue i into the iterator obOut. */
    method DrainQueue(queues: MultiQueue, i: nat, obOut: nat) returns (count: nat)
      requires queues.coda == coda && queues.InTx() && i < queues.num == |queues.queues| && |queues.queues[i]| <= b
      requires obOut == 1 && queues.nob == 0 && |coda.regions| == 2
      requires Emitted(coda.regions[1], queues.queues[i], 0, b)
      modifies queues`lists, queues`queues, coda`regions, coda.txmem
      ensures queues.InTx() && queues.queues == old(queues.queues)[i := []] && |coda.regions| == 2
      ensures count == |old(queues.queues[i])| && Emitted(coda.regions[1], old(queues.queues[i]), count, b)
    {
      hide MultiQueue.InTx, Emitted;
      ghost var start, lot := queues.queues, queues.queues[i];
      count := 0;
      assert lot[0..] == lot;
      var done := queues.Empty(i);
      while !done
        invariant queues.InTx() && |coda.regions| == 2 && count <= |lot|
        invariant queues.queues == start[i := lot[count..]] && (done <==> lot[count..] == [])
        invariant Emitted(coda.regions[1], lot, count, b)
        decreases |lot| - count
      {
        var e := queues.Front(i);
        EmitElement(queues, obOut, e, lot, count);
        queues.PopFront(i);
        assert lot[count..][1..] == lot[count + 1..];
        count := count + 1;
        done := queues.Empty(i);
      }
    }

    /** Copies n words of the iterator obOut to output from at on. */
    method ReadBack(output: array<int>, at: nat, obOut: nat, n: nat)
      requires output != coda.txmem && coda.Valid() && obOut == 1 && |coda.regions| == 2
      requires Unread(coda.regions[1], n) && at + n <= output.Length
      modifies coda`regions, coda.txmem, output
      ensures coda.Valid() && Copied(old(output[..]), output[..], old(coda.regions[1].data), at, n)
    {
      hide Laid;
      ghost var words := coda.regions[1].data;
      var p := 0;
      while p < n
        invariant p <= n && coda.Valid() && |coda.regions| == 2
        invariant coda.regions[1].strip == ReadWrite && coda.regions[1].rd == p && coda.regions[1].data == words
        invariant forall q: nat :: q < p ==> output[at + q] == words[q]
        invariant forall k: nat :: k < output.Length && !(at <= k < at + p) ==> output[k] == old(output[k])
      {
        output[at + p] := coda.ObRwReadNext(obOut);
        p := p + 1;
      }
    }

    /** Queue i into a fresh iterator; count is how many elements it had. */
    method BucketTransaction(queues: MultiQueue, i: nat, output: array<int>, at: nat) returns (count: nat)
      requires Valid() && queues.coda == coda && queues.Home() && queues.num == s && queues.cap == cap
      requires i < s == |queues.queues| && |queues.queues[i]| <= b && at + 2 * b <= output.Length
      modifies queues`nob, queues`lists, queues`queues, queues.data, coda, coda.txmem
      ensures coda.Valid() && coda.Closed() && queues.Home() && queues.queues == old(queues.queues)[i := []]
      ensures count == |old(queues.queues[i])| && |coda.regions| == 2
      ensures Unread(coda.regions[1], 2 * count) && Written(coda.regions[1].data, old(queues.queues[i]), count)
    {
      hide Laid, MultiQueue.Holds, PowerOfTwo;
      queues.InitNob();
      var obOut := coda.InitializeObRwIterator(output[at..at + 2 * b]);
      count := DrainQueue(queues, i, obOut);
      coda.TxEnd();
      queues.ResetNob();
    }

    /** One bucket: queue i is emptied into the b cells from o on, which held dummies. */
    method DrainBucket(queues: MultiQueue, i: nat, output: array<int>, at: nat, ghost o: nat)
      requires Valid() && queues.coda == coda && queues.Home() && queues.num == s && queues.cap == cap
      requires i < s == |queues.queues| && |queues.queues[i]| <= b
      requires output != coda.txmem && output != queues.data && output.Length % 2 == 0
      requires at == 2 * o && at + 2 * b <= output.Length && Slice(View(output), o, b) == LotCells([], b)
      modifies queues`nob, queues`lists, queues`queues, queues.data, coda, coda.txmem, output
      ensures coda.Valid() && coda.Closed() && queues.Home() && queues.queues == old(queues.queues)[i := []]
      ensures View(output) == Splice(old(View(output)), o, LotCells(old(queues.queues[i]), b))
    {
      hide LotCells, Slice, Splice, Written, PowerOfTwo, MultiQueue.Holds, Laid, Copied, CellsOf;
      ghost var before, lot := output[..], queues.queues[i];
      var count := BucketTransaction(queues, i, output, at);
      ghost var words := coda.regions[1].data;
      ReadBack(output, at, 1, 2 * count);
      BucketPut(before, output[..], words, o, lot, b);
    }

    /** Every queue in turn. */
    method DrainBuckets(queues: MultiQueue, output: array<int>)
      requires Valid() && queues.coda == coda && queues.Home() && queues.num == s && queues.cap == cap
      requires |queues.queues| == s && forall q: nat :: q < s ==> |queues.queues[q]| <= b
      requires output != coda.txmem && output != queues.data && output.Length == 2 * (s * b) && output.Length % 2 == 0
      requires forall k: nat :: k < output.Length ==> output[k] == -1
      modifies queues`nob, queues`lists, queues`queues, queues.data, coda, coda.txmem, output
      ensures coda.Valid() && coda.Closed()
      ensures Filled(View(output), old(queues.queues), s, b, s)
    {
      hide MultiQueue.Home, PowerOfTwo, LotCells, Slice, Splice, Filled, View, RealCoda.Valid;
      ghost var start := queues.queues;
      FilledNone(output, start, s, b);
      var i := 0;
      while i < s
        invariant i <= s && coda.Valid() && coda.Closed() && queues.Home() && |queues.queues| == s
        invariant forall q: nat :: i <= q < s ==> queues.queues[q] == start[q]
        invariant Filled(View(output), start, s, b, i)
      {
        FillNext(View(output), start, s, b, i);
        Doubled(i, b);
        ghost var o := i * b;
        var at := i * (2 * b);
        DrainBucket(queues, i, output, at, o);
        i := i + 1;
      }
    }

    /** The loops that store the finished row: M_output[row * s * 2 * b + i * 2 * b + j] = output[i * 2 * b + j]. */
    method StoreOutput(output: array<int>, row: nat, ghost o: nat)
      requires row < s && output != gInterm && output.Length == 2 * (s * b)
      requires row * s * 2 * b == 2 * o && 2 * o + output.Length <= gInterm.Length
      modifies gInterm
      ensures Copied(old(gInterm[..]), gInterm[..], output[..], 2 * o, output.Length)
    {
      hide Copied, PowerOfTwo;
      ghost var before := gInterm[..];
      var base := row * s * 2 * b;
      CopiedNone(before, output[..], base);
      var i := 0;
      ghost var off := 0;
      Doubled(s, b);
      while i < s
        invariant i <= s && off == i * (2 * b)
        invariant Copied(before, gInterm[..], output[..], base, off)
      {
        RowBefore(i, s, 2 * b);
        Doubled(i, b);
        StoreBucket(output, base, i * 2 * b, before);
        i, off := i + 1, off + 2 * b;
      }
    }

    method StoreBucket(output: array<int>, base: nat, off: nat, ghost before: seq<int>)
      requires output != gInterm && off + 2 * b <= output.Length && base + output.Length <= gInterm.Length
      requires Copied(before, gInterm[..], output[..], base, off)
      modifies gInterm
      ensures Copied(before, gInterm[..], output[..], base, off + 2 * b)
    {
      hide Copied;
      CopiedLength(before, gInterm[..], output[..], base, off);
      var j := 0;
      while j < 2 * b
        invariant j <= 2 * b && Copied(before, gInterm[..], output[..], base, off + j)
      {
        CopiedNext(before, gInterm[..], output[..], base, off + j);
        ghost var was := gInterm[..];
        gInterm[base + off + j] := output[off + j];
        assert gInterm[..] == was[base + (off + j) := output[..][off + j]];
        j := j + 1;
      }
    }

    /** coda_distribute: one row of items through the queues into its row of buckets. */
    method DistributeRow(data: array<int>, perm: array<int>, row: nat)
      requires Valid() && row < s && data.Length == perm.Length == s * s && Apart(data) && Apart(perm)
      requires Destinations(perm[..], s) && NoOverflow(perm[..], s, b)
      requires RowsStored(View(gInterm), data[..], perm[..], s, b, row)
      modifies coda, coda.txmem, gInterm
      ensures coda.Valid() && coda.Closed()
      ensures RowsStored(View(gInterm), data[..], perm[..], s, b, row + 1)
    {
      hide PowerOfTwo, MultiQueue.Home, RealCoda.Valid, RealCoda.Closed, Destinations;
      hide NoOverflow, RowsStored, View, RowCells;
      var output := FillRow(data, perm, row);
      KeepRow(output, row, data[..], perm[..]);
    }

    /** The row's buckets in a fresh array. */
    method FillRow(data: array<int>, perm: array<int>, row: nat) returns (output: array<int>)
      requires Valid() && row < s && data.Length == perm.Length == s * s && Apart(data) && Apart(perm)
      requires Destinations(perm[..], s) && NoOverflow(perm[..], s, b)
      modifies coda, coda.txmem
      ensures coda.Valid() && coda.Closed() && fresh(output)
      ensures output.Length == 2 * (s * b) && output.Length % 2 == 0
      ensures View(output) == RowCells(data[..], perm[..], s, b, row)
    {
      hide PowerOfTwo, MultiQueue.Home, RealCoda.Valid, RealCoda.Closed, Destinations;
      hide NoOverflow, Dealt, Filled, View, RowCells;
      RowFits(row, s);
      output := new int[2 * (s * b)](_ => -1);
      var r := MultiQueue.Create(coda, cap, s);
      var queues := r.value;
      ghost var lots := DistributeInto(data, perm, row, queues, output);
      FilledRow(View(output), lots, data[..], perm[..], s, b, row);
    }

    /** The finished row goes to its place in the intermediate buffer. */
    method KeepRow(output: array<int>, row: nat, ghost data: seq<int>, ghost perm: seq<int>)
      requires row < s && b > 0 && output != gInterm && output.Length == 2 * (s * b)
      requires output.Length % 2 == 0 && gInterm.Length % 2 == 0 && |data| == |perm| == s * s
      requires RowsStored(View(gInterm), data, perm, s, b, row)
      requires View(output) == RowCells(data, perm, s, b, row)
      modifies gInterm
      ensures RowsStored(View(gInterm), data, perm, s, b, row + 1)
    {
      hide RowsStored, RowCells, Copied;
      ghost var before := gInterm[..];
      ghost var o := RowPlace(before, data, perm, s, b, row);
      StoreOutput(output, row, o);
      RowKept(before, gInterm[..], output[..], data, perm, s, b, row, o);
    }

    method DistributeInto(data: array<int>, perm: array<int>, row: nat, queues: MultiQueue, output: array<int>)
      returns (ghost lots: seq<seq<Element>>)
      requires Valid() && row < s && data.Length == perm.Length == s * s && 0 <= row * s && row * s + s <= s * s
      requires Destinations(perm[..], s) && NoOverflow(perm[..], s, b)
      requires queues.coda == coda && queues.num == s && queues.cap == cap && queues.Home()
      requires queues.queues == seq(s, q => [])
      requires output != coda.txmem && output != queues.data && output.Length == 2 * (s * b) && output.Length % 2 == 0
      requires data != coda.txmem && perm != coda.txmem && data != queues.data && perm != queues.data
      requires data != output && perm != output
      requires forall k: nat :: k < output.Length ==> output[k] == -1
      modifies queues`nob, queues`lists, queues`queues, queues.data, coda, coda.txmem, output
      ensures coda.Valid() && coda.Closed()
      ensures Dealt(lots, data[..], perm[..], s, row * s, s) && |lots| == s && Filled(View(output), lots, s, b, s)
    {
      hide PowerOfTwo, MultiQueue.Home, RealCoda.Valid, RealCoda.Closed, Destinations, NoOverflow, Dealt, Filled;
      DealRow(data[..], perm[..], row * s, queues);
      lots := queues.queues;
      LotsFit(lots, data[..], perm[..], s, b, row);
      DrainBuckets(queues, output);
    }

    ghost predicate Apart(a: array<int>) {
      a != coda.txmem && a != msortMem && a != tmpData && a != gInterm
    }

    /** matrix_prepare: bucket col of every row, gathered into one buffer. */
    method MatrixPrepare(col: nat, ghost data: seq<int>, ghost perm: seq<int>)
      requires Sizes() && col < s && |perm| == |data| == s * s
      requires RowsStored(View(gInterm), data, perm, s, b, s)
      modifies msortMem
      ensures View(msortMem) == Column(data, perm, s, b, col)
    {
      hide PowerOfTwo, RowsStored, Column;
      ghost var cs := Column(data, perm, s, b, col);
      var i := 0;
      while i < 2 * (s * b)
        invariant i <= 2 * (s * b)
        invariant forall k: nat :: k < i ==> msortMem[k] == WordOf(cs, k)
      {
        Gathered(gInterm[..], data, perm, s, b, col, i);
        msortMem[i] := gInterm[i / (2 * b) * 2 * b * s + i % (2 * b) + col * 2 * b];
        i := i + 1;
      }
      CellsFromWords(msortMem[..], cs);
    }

    /** The loop that drops the dummies of a sorted column and appends the payloads to out. */
    method Collect(ret: array<int>, out: array<int>, start: nat) returns (pos: nat)
      requires ret.Length == 2 * (s * b) && ret.Length % 2 == 0 && out != ret && start + |Kept(View(ret))| <= out.Length
      modifies out
      ensures pos == start + |Kept(View(ret))| && Collected(old(out[..]), out[..], Kept(View(ret)), start)
    {
      hide KeptUpTo, View, Kept, Collected;
      ghost var cs, before := View(ret), out[..];
      KeptNone(cs, before, start);
      pos := start;
      var i := 0;
      ghost var t := 0;
      while i < ret.Length
        invariant i == 2 * t <= ret.Length && pos == start + |KeptUpTo(cs, t)|
        invariant Collected(before, out[..], KeptUpTo(cs, t), start)
      {
        KeptStep(cs, t);
        KeptGrows(cs, t + 1);
        assert KeptUpTo(cs, t) + [] == KeptUpTo(cs, t);
        assert ret[i] == cs[t].key && ret[i + 1] == cs[t].payload;
        if ret[i] != -1 {
          CollectedNext(before, out[..], KeptUpTo(cs, t), start, cs[t]);
          ghost var was := out[..];
          out[pos] := ret[i + 1];
          assert out[..] == was[pos := cs[t].payload];
          pos := pos + 1;
        }
        i, t := i + 2, t + 1;
      }
      KeptAll(cs);
    }

    /** Cleanup of one column: gather, sort by destination, drop the dummies. */
    method CleanupColumn(col: nat, out: array<int>, pos: nat, ghost data: seq<int>, ghost perm: seq<int>)
      returns (pos': nat)
      requires Sizes() && col < s && |perm| == |data| == s * s == out.Length && Apart(out)
      requires IsPermutation(perm) && NoOverflow(perm, s, b) && RowsStored(View(gInterm), data, perm, s, b, s)
      requires pos == col * s && RoutedBelow(out[..], perm, data, pos)
      modifies msortMem, tmpData, out
      ensures pos' == (col + 1) * s && RoutedBelow(out[..], perm, data, pos')
    {
      hide IsPermutation, NoOverflow, RowsStored, View, Column, RoutedBelow, Ascending, Kept, Collected;
      MatrixPrepare(col, data, perm);
      var ret := MergeSort(msortMem, tmpData, 2 * (s * b));
      CleanColumn(data, perm, s, b, col, View(ret));
      RowFits(col, s);
      ghost var before := out[..];
      pos' := Collect(ret, out, pos);
      ColumnRouted(before, out[..], View(ret), data, perm, s, b, col);
    }

    /** One pass: distribute every row, then clean up every column. */
    method Pass(data: array<int>, perm: array<int>, out: array<int>)
      requires Valid() && data.Length == perm.Length == out.Length == s * s && Apart(data) && Apart(perm) && Apart(out)
      requires out != data && out != perm
      requires IsPermutation(perm[..]) && NoOverflow(perm[..], s, b)
      modifies coda, coda.txmem, gInterm, msortMem, tmpData, out
      ensures coda.Valid() && coda.Closed()
      ensures Routed(out[..], perm[..], data[..])
    {
      hide IsPermutation, NoOverflow, RowsStored, View, RoutedBelow;
      hide Destinations, RealCoda.Valid, RealCoda.Closed, PowerOfTwo;
      PassStart(View(gInterm), out[..], data[..], perm[..], s, b);
      var i := 0;
      while i < s
        invariant i <= s && coda.Valid() && coda.Closed() && out[..] == old(out[..])
        invariant RowsStored(View(gInterm), data[..], perm[..], s, b, i)
      {
        DistributeRow(data, perm, i);
        i := i + 1;
      }
      var pos, j := 0, 0;
      while j < s
        invariant j <= s && pos == j * s && coda.Valid() && coda.Closed()
        invariant RowsStored(View(gInterm), data[..], perm[..], s, b, s) && RoutedBelow(out[..], perm[..], data[..], pos)
      {
        pos := CleanupColumn(j, out, pos, data[..], perm[..]);
        j := j + 1;
      }
      AllRouted(out[..], perm[..], data[..]);
    }
  }
}

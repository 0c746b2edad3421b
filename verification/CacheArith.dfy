/** The integer arithmetic that sizes the partitions of the cache shuffle. */
module CacheArith {
  import opened Common

  /** ceil((double)a / (double)b) on 32-bit operands, where the quotient in doubles rounds to the right side. */
  function CeilDiv(a: nat, b: nat): (q: nat)
    requires b > 0
    ensures q * b >= a && (q - 1) * b < a
  {
    assert (a + b - 1) / b * b + (a + b - 1) % b == a + b - 1;
    (a + b - 1) / b
  }

  lemma TimesMonotone(x: int, y: int, b: nat)
    requires x <= y
    ensures x * b <= y * b
  {
    assert (y - x) * b >= 0;
  }

  lemma CeilDivLeast(a: nat, b: nat, q: nat)
    requires b > 0 && q * b >= a
    ensures CeilDiv(a, b) <= q
  {
    hide CeilDiv;
    var c := CeilDiv(a, b);
    if c > q {
      TimesMonotone(q, c - 1, b);
    }
  }

  lemma CeilDivPositive(a: nat, b: nat)
    requires a > 0 && b > 0
    ensures 1 <= CeilDiv(a, b) <= a
  {
    hide CeilDiv;
    TimesMonotone(1, b, a);
    CeilDivLeast(a, b, a);
  }

  lemma CeilDivMonotone(a: nat, a': nat, b: nat)
    requires a <= a' && b > 0
    ensures CeilDiv(a, b) <= CeilDiv(a', b)
  {
    CeilDivLeast(a, b, CeilDiv(a', b));
  }

  /** (int32_t)log2((double)n) */
  function FloorLog2(n: nat): (l: nat)
    requires n > 0
  {
    if n == 1 then 0 else 1 + FloorLog2(n / 2)
  }

  function Pow2(k: nat): (p: nat)
    ensures p > 0
  {
    if k == 0 then 1 else 2 * Pow2(k - 1)
  }

  lemma {:induction false} FloorLog2Bounds(n: nat)
    requires n > 0
    ensures Pow2(FloorLog2(n)) <= n < 2 * Pow2(FloorLog2(n))
  {
    if n > 1 {
      FloorLog2Bounds(n / 2);
    }
  }

  lemma {:induction false} LogOfPow2(k: nat)
    ensures FloorLog2(Pow2(k)) == k
  {
    if k > 0 {
      LogOfPow2(k - 1);
    }
  }

  lemma {:induction false} FloorLog2Below(n: nat, k: nat)
    requires 0 < n < Pow2(k)
    ensures FloorLog2(n) < k
  {
    if n > 1 {
      FloorLog2Below(n / 2, k - 1);
    }
  }

  lemma {:induction false} LogBetween(n: nat, k: nat)
    requires Pow2(k) <= n < Pow2(k + 1)
    ensures FloorLog2(n) == k
  {
    if k > 0 {
      LogBetween(n / 2, k - 1);
    }
  }

  /** compute_spary_in_partitions */
  function InPartitions(len: nat, s: nat): nat
    requires s > 0
  {
    Min(CeilDiv(len, s), len)
  }

  /** compute_spary_out_partitions for an index range of idxLen */
  function OutPartitions(idxLen: nat, s: nat): nat
    requires idxLen > 0 && s > 0
  {
    var s1 := Min(s, Max(idxLen, 1));
    CeilDivPositive(idxLen, s1);
    Min(s1, CeilDiv(idxLen, CeilDiv(idxLen, s1)))
  }

  /** Cutting idxLen indices into r parts of w leaves no part empty and no index out. */
  ghost predicate CutsEvenly(idxLen: nat, r: nat, w: nat) {
    r > 0 && w > 0 && (r - 1) * w < idxLen <= r * w
  }

  lemma OutPartitionsCut(idxLen: nat, s: nat)
    requires idxLen > 0 && s > 0
    ensures 1 <= OutPartitions(idxLen, s) <= Min(s, idxLen)
    ensures CutsEvenly(idxLen, OutPartitions(idxLen, s), CeilDiv(idxLen, OutPartitions(idxLen, s)))
  {
    hide CeilDiv;
    var s1 := Min(s, idxLen);
    CeilDivPositive(idxLen, s1);
    var c := CeilDiv(idxLen, s1);
    CeilDivPositive(idxLen, c);
    CeilDivLeast(idxLen, c, s1);
    CutAgain(idxLen, c);
  }

  /** Cutting into r = ceil(n/c) parts makes them no longer than c. */
  lemma CutAgain(n: nat, c: nat)
    requires n > 0 && c > 0
    ensures CeilDiv(n, c) > 0 && CutsEvenly(n, CeilDiv(n, c), CeilDiv(n, CeilDiv(n, c)))
  {
    hide CeilDiv;
    CeilDivPositive(n, c);
    var r := CeilDiv(n, c);
    CeilDivLeast(n, r, c);
    CeilDivPositive(n, r);
    TimesMonotone(CeilDiv(n, r), c, r - 1);
  }

  lemma CeilDivAntitone(a: nat, b: nat, b': nat)
    requires 0 < b <= b'
    ensures CeilDiv(a, b') <= CeilDiv(a, b)
  {
    hide CeilDiv;
    TimesMonotone(b, b', CeilDiv(a, b));
    CeilDivLeast(a, b', CeilDiv(a, b));
  }

  /** Cut into the most parts that s allows and that leaves none of them empty. */
  lemma OutPartitionsGreatest(idxLen: nat, s: nat, n: nat)
    requires idxLen > 0 && 1 <= n <= s && CutsEvenly(idxLen, n, CeilDiv(idxLen, n))
    ensures n <= OutPartitions(idxLen, s)
  {
    hide CeilDiv;
    var s1, w := Min(s, idxLen), CeilDiv(idxLen, n);
    TimesMonotone(1, w, n - 1);
    CeilDivPositive(idxLen, s1);
    var c := CeilDiv(idxLen, s1);
    CeilDivAntitone(idxLen, n, s1);
    CeilDivPositive(idxLen, c);
    CeilDivAntitone(idxLen, c, w);
    var k := CeilDiv(idxLen, w);
    if k < n {
      TimesMonotone(k, n - 1, w);
    }
  }

  /** Every range of two or more splits as soon as two partitions are allowed, and a single index never does. */
  lemma SplitsIff(idxLen: nat, s: nat)
    requires idxLen > 0 && s > 0
    ensures OutPartitions(idxLen, s) >= 2 <==> idxLen >= 2 && s >= 2
  {
    hide CeilDiv, CutsEvenly;
    OutPartitionsCut(idxLen, s);
    if idxLen >= 2 && s >= 2 {
      var s1 := Min(s, idxLen);
      CeilDivPositive(idxLen, s1);
      var c := CeilDiv(idxLen, s1);
      HalvesAtLeast(idxLen, s1);
      CeilDivPositive(idxLen, c);
      CeilDivLeast(idxLen, c, s1);
      assert CeilDiv(idxLen, c) == 1 ==> 1 * c >= idxLen;
    }
  }

  lemma HalvesAtLeast(n: nat, s: nat)
    requires n >= 2 && s >= 2
    ensures CeilDiv(n, s) < n
  {
    TimesMonotone(2, s, n - 1);
    CeilDivLeast(n, s, n - 1);
  }

  /** A chunk of the input is no longer than s words, so s words of an iterator do. */
  lemma InPartitionsCut(len: nat, s: nat)
    requires len > 0 && s > 0
    ensures InPartitions(len, s) > 0 && CeilDiv(len, InPartitions(len, s)) <= s
  {
    hide CeilDiv;
    CeilDivPositive(len, s);
    var c := CeilDiv(len, s);
    CeilDivLeast(len, c, s);
  }

  /** No smaller number of chunks is that short. */
  lemma InPartitionsLeast(len: nat, s: nat, n: nat)
    requires len > 0 && s > 0 && n > 0 && CeilDiv(len, n) <= s
    ensures InPartitions(len, s) <= n
  {
    hide CeilDiv;
    TimesMonotone(CeilDiv(len, n), s, n);
    CeilDivLeast(len, s, n);
  }
}

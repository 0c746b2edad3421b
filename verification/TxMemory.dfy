/**
 * The address arithmetic of the transaction memory and what its accessors do to the flat word array.
 *
 * The array is cut into 1024-word pages. In every page words 0-15 are metadata, 16-31 belong to read
 * iterators, 32-79 to read/write iterators and 80-719 to random-access arrays.
 */
module TxMemory {

  const MEMORY_WORDS := 1048576
  const META_WORDS := 16384

  datatype Strip = Meta | ReadOnly | ReadWrite | Random

  function IncrementMeta(meta: nat): nat {
    if meta % 1024 == 15 then meta + 1009 else meta + 1
  }

  function CalOb(offset: nat): nat {
    offset / 16 * 1024 + offset % 16 + 16
  }

  function CalObRw(offset: nat): nat {
    offset / 48 * 1024 + offset % 48 + 32
  }

  function CalNob(offset: nat): nat {
    offset / 640 * 1024 + offset % 640 + 80
  }

  /** Where an accessor looks for the metadata of handle h. */
  function HandleSlot(h: nat): nat {
    h * 3 / 16 * 1024 + h * 3 % 16
  }

  /** The k-th word of a strip, counting through the pages in order. */
  function Addr(strip: Strip, k: nat): nat {
    match strip
    case Meta => k / 16 * 1024 + k % 16
    case ReadOnly => CalOb(k)
    case ReadWrite => CalObRw(k)
    case Random => CalNob(k)
  }

  /** How many words a strip has over all pages. */
  function Limit(strip: Strip): nat {
    match strip
    case Meta => 16384
    case ReadOnly => 16384
    case ReadWrite => 49152
    case Random => 655360
  }

  /** No two words of the four strips share an address, and exactly the first Limit of each fit in memory. */
  lemma AddrInjective(s: Strip, k: nat, s': Strip, k': nat)
    ensures Addr(s, k) == Addr(s', k') ==> s == s' && k == k'
    ensures Addr(s, k) < MEMORY_WORDS <==> k < Limit(s)
  {
    assert Addr(s, k) % 1024 == Addr(s, k) - Addr(s, k) / 1024 * 1024;
    match s {
      case Meta => assert Addr(s, k) / 1024 == k / 16;
      case ReadOnly => assert Addr(s, k) / 1024 == k / 16;
      case ReadWrite => assert Addr(s, k) / 1024 == k / 48;
      case Random => assert Addr(s, k) / 1024 == k / 640;
    }
    match s' {
      case Meta => assert Addr(s', k') / 1024 == k' / 16;
      case ReadOnly => assert Addr(s', k') / 1024 == k' / 16;
      case ReadWrite => assert Addr(s', k') / 1024 == k' / 48;
      case Random => assert Addr(s', k') / 1024 == k' / 640;
    }
  }

  lemma AddrMisses(s: Strip, k: nat)
    ensures forall s', k': nat :: (s', k') != (s, k) ==> Addr(s', k') != Addr(s, k)
  {
    forall s', k': nat | (s', k') != (s, k)
      ensures Addr(s', k') != Addr(s, k)
    {
      AddrInjective(s', k', s, k);
    }
  }

  lemma AddrInBounds()
    ensures forall s, k: nat :: Addr(s, k) < MEMORY_WORDS <==> k < Limit(s)
  {
    forall s, k: nat
      ensures Addr(s, k) < MEMORY_WORDS <==> k < Limit(s)
    {
      AddrInjective(s, k, s, k);
    }
  }

  /** n steps of the metadata cursor. */
  function Advance(meta: nat, n: nat): nat {
    if n == 0 then meta else IncrementMeta(Advance(meta, n - 1))
  }

  lemma IncrementMetaStep(k: nat)
    ensures IncrementMeta(Addr(Meta, k)) == Addr(Meta, k + 1)
  {
    assert Addr(Meta, k) % 1024 == k % 16;
    if k % 16 == 15 {
      assert (k + 1) / 16 == k / 16 + 1 && (k + 1) % 16 == 0;
    } else {
      assert (k + 1) / 16 == k / 16 && (k + 1) % 16 == k % 16 + 1;
    }
  }

  /** The cursor visits the metadata strip word by word ... */
  lemma {:induction false} CursorVisits(n: nat)
    ensures Advance(0, n) == Addr(Meta, n)
  {
    if n > 0 {
      CursorVisits(n - 1);
      IncrementMetaStep(n - 1);
    }
  }

  /** ... so the 3h-th stop is the slot the accessors compute for handle h. */
  lemma CursorMeetsHandle(h: nat)
    ensures Advance(0, 3 * h) == HandleSlot(h)
  {
    CursorVisits(3 * h);
  }

  /** Metadata words 0 to j of handle h lie in one page. */
  predicate InPage(h: nat, j: nat) {
    3 * h % 16 + j <= 15
  }

  /** A handle whose three metadata words lie in one page. */
  predicate Admissible(h: nat) {
    InPage(h, 2)
  }

  lemma MetaPage(q: nat, r: nat)
    requires r < 16
    ensures Addr(Meta, 16 * q + r) == 1024 * q + r
  {
  }

  /** The word of the read strip where the accessors look for metadata word j when the page ends before it. */
  function StrayWord(h: nat, j: nat): nat
    requires !InPage(h, j)
  {
    3 * h / 16 * 16 + 3 * h % 16 + j - 16
  }

  /**
   * The initializers store word j of a handle j cursor stops behind word 0, the accessors look for it j addresses
   * behind: the same word exactly when the page does not end in between, and else a word of the read strip.
   */
  lemma MetaWordExactly(h: nat, j: nat)
    requires j < 3
    ensures HandleSlot(h) + j == Addr(Meta, 3 * h + j) <==> InPage(h, j)
    ensures !InPage(h, j) ==> HandleSlot(h) + j == Addr(ReadOnly, StrayWord(h, j))
  {
    var q, r := 3 * h / 16, 3 * h % 16;
    assert HandleSlot(h) == 1024 * q + r;
    if r + j < 16 {
      MetaPage(q, r + j);
    } else {
      MetaPage(q + 1, r + j - 16);
      assert 3 * h + j == 16 * (q + 1) + (r + j - 16);
      StrayAddress(q, r + j - 16);
    }
  }

  lemma StrayAddress(q: nat, r: nat)
    requires r < 16
    ensures Addr(ReadOnly, 16 * q + r) == 1024 * q + 16 + r
  {
  }

  lemma AdmissibleHandles(h: nat)
    ensures Admissible(h) <==> h % 16 != 5 && h % 16 != 10
    ensures InPage(h, 1) <==> h % 16 != 5
  {
  }
}

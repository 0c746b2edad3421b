/** Replacing a stretch of a sequence, as recursive in-place procedures do. */
module Slices {

  /** s with its part of length |part| at lo replaced. */
  ghost function Splice<T>(s: seq<T>, lo: nat, part: seq<T>): (r: seq<T>)
    requires lo + |part| <= |s|
    ensures |r| == |s|
  {
    s[..lo] + part + s[lo + |part|..]
  }

  ghost function Slice<T>(s: seq<T>, lo: nat, cnt: nat): (r: seq<T>)
    requires lo + cnt <= |s|
    ensures |r| == cnt
  {
    s[lo..lo + cnt]
  }

  lemma SpliceTwice<T>(s: seq<T>, lo: nat, a: seq<T>, b: seq<T>, a': seq<T>, b': seq<T>)
    requires lo + |a| + |b| <= |s| && |a'| == |a| && |b'| == |b|
    ensures Slice(Splice(s, lo, a + b), lo, |a|) == a
    ensures Splice(Splice(s, lo, a + b), lo, a') == Splice(s, lo, a' + b)
    ensures Slice(Splice(s, lo, a' + b), lo + |a|, |b|) == b
    ensures Splice(Splice(s, lo, a' + b), lo + |a|, b') == Splice(s, lo, a' + b')
  {
  }

  lemma SpliceSame<T>(s: seq<T>, lo: nat, cnt: nat)
    requires lo + cnt <= |s|
    ensures Splice(s, lo, Slice(s, lo, cnt)) == s
  {
  }

  lemma SpliceAgain<T>(s: seq<T>, lo: nat, part: seq<T>, part': seq<T>)
    requires lo + |part| <= |s| && |part'| == |part|
    ensures Slice(Splice(s, lo, part), lo, |part|) == part
    ensures Splice(Splice(s, lo, part), lo, part') == Splice(s, lo, part')
  {
  }
}

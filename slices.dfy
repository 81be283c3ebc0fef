/**
 * Python's slice `s[lo:hi]` with a step of one, which both the similarity
 * search (`ordered[1:top_n + 1]`) and pandas' `head(n)` (`iloc[:n]`) use:
 * a negative bound counts from the end, and every bound is clamped to the
 * sequence.
 */
module Slices {

  /** Where a slice bound `i` lands in a sequence of length `n`. */
  function Bound(i: int, n: nat): (b: nat)
    ensures b <= n
    ensures 0 <= i <= n ==> b == i
    ensures i > n ==> b == n
    ensures i < 0 ==> b == if n + i < 0 then 0 else n + i
  {
    if i < 0 then (if n + i < 0 then 0 else n + i)
    else if i > n then n
    else i
  }

  /** `s[lo:hi]`. */
  function Slice<T>(s: seq<T>, lo: int, hi: int): seq<T> {
    var a, b := Bound(lo, |s|), Bound(hi, |s|);
    if a <= b then s[a..b] else []
  }

  /** With non-negative bounds `lo <= hi`, the slice holds at most `hi - lo` elements, taken from position `lo` on. */
  lemma SliceFromTo<T>(s: seq<T>, lo: nat, hi: nat)
    requires lo <= hi
    ensures |Slice(s, lo, hi)| <= hi - lo
    ensures lo < |s| ==> Slice(s, lo, hi) == s[lo..if hi < |s| then hi else |s|]
    ensures lo >= |s| ==> Slice(s, lo, hi) == []
  {
  }
}

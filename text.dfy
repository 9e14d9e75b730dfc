/** Substring search on strings, as Python's `str.find` and `in` do it. */
module Text {

  /** Whether `pat` occurs in `s` starting at index `i`. */
  predicate IsAt(s: string, pat: string, i: int) {
    0 <= i && i + |pat| <= |s| && s[i..i + |pat|] == pat
  }

  /** Python's `s.find(pat, from)`: the least index at or after `from`
      where `pat` occurs, or -1 when there is none. */
  function Find(s: string, pat: string, from: nat): (r: int)
    decreases |s| - from
    ensures r == -1 || (from <= r && IsAt(s, pat, r))
    ensures forall j :: from <= j && (r == -1 || j < r) ==> !IsAt(s, pat, j)
  {
    if from + |pat| > |s| then -1
    else if s[from..from + |pat|] == pat then from
    else Find(s, pat, from + 1)
  }

  /** Python's `pat in s`. */
  predicate Contains(s: string, pat: string) {
    Find(s, pat, 0) != -1
  }

  /** `pat in s` holds exactly when `pat` occurs somewhere in `s`. */
  lemma ContainsIff(s: string, pat: string, i: int)
    requires IsAt(s, pat, i)
    ensures Contains(s, pat) && Find(s, pat, 0) <= i
  {
  }

  /** An occurrence inside a slice is an occurrence in the whole string, shifted by the slice's start. */
  lemma IsAtSlice(s: string, lo: int, hi: int, pat: string, j: int)
    requires 0 <= lo <= hi <= |s| && 0 <= j && j + |pat| <= hi - lo
    ensures IsAt(s[lo..hi], pat, j) <==> IsAt(s, pat, lo + j)
  {
    var a, b := s[lo..hi][j..j + |pat|], s[lo + j..lo + j + |pat|];
    assert |a| == |b|;
    assert forall k :: 0 <= k < |a| ==> a[k] == b[k];
    assert a == b;
  }
}

/** The two JavaScript string operations the cookie parser relies on. */
module JsString {

  /** `pat` occurs in `s` starting at index `k`. */
  predicate MatchAt(s: string, pat: string, k: nat)
  {
    k + |pat| <= |s| && s[k..k + |pat|] == pat
  }

  /** `s.indexOf(pat, from)`: the least index at or after `from` where `pat`
      occurs, or -1 when there is none. */
  function IndexOf(s: string, pat: string, from: nat): (r: int)
    requires from <= |s|
    ensures r == -1 || (from <= r && MatchAt(s, pat, r))
    ensures forall k: nat :: from <= k && (r == -1 || k < r) ==> !MatchAt(s, pat, k)
    decreases |s| - from
  {
    if from + |pat| > |s| then -1
    else if s[from..from + |pat|] == pat then from
    else IndexOf(s, pat, from + 1)
  }

  /** A single-character pattern occurs exactly where that character stands. */
  lemma CharMatches(s: string, c: char)
    ensures forall k: nat :: MatchAt(s, [c], k) <==> k < |s| && s[k] == c
  {
    forall k: nat | k < |s|
      ensures MatchAt(s, [c], k) <==> s[k] == c
    {
      assert s[k..k + 1] == [s[k]];
    }
  }

  /** An occurrence of `p + q` is an occurrence of `p` followed by one of `q`. */
  lemma MatchSplit(s: string, p: string, q: string, k: nat)
    requires MatchAt(s, p + q, k)
    ensures MatchAt(s, p, k) && MatchAt(s, q, k + |p|)
  {
    assert s[k..k + |p|] == s[k..k + |p + q|][..|p|];
    assert s[k + |p|..k + |p| + |q|] == s[k..k + |p + q|][|p|..];
  }

  function Clamp(i: int, n: nat): (c: nat)
    ensures c <= n
  {
    if i < 0 then 0 else if i > n then n else i
  }

  /** `s.substring(a, b)`: both bounds are clamped to the string, and
      reversed bounds are swapped. */
  function Substring(s: string, a: int, b: int): (r: string)
    ensures 0 <= a <= b <= |s| ==> r == s[a..b]
    ensures 0 <= b <= a <= |s| ==> r == s[b..a]
  {
    var lo := Clamp(a, |s|);
    var hi := Clamp(b, |s|);
    if lo <= hi then s[lo..hi] else s[hi..lo]
  }
}

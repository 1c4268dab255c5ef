/** `getCookie` of the top-level App component: the raw value of one cookie
    in a `"; "`-separated cookie string. The cookie string is a parameter
    instead of being read from the browser, and `decodeURIComponent` is taken
    as the identity, so the result is the raw value. */
module Cookies {
  import opened Types
  import opened JsString

  /** The text that introduces a cookie's value: `name + "="`. */
  function Prefix(name: string): (p: string)
    ensures |p| == |name| + 1 && p[|name|] == '='
  {
    name + "="
  }

  /** Where the cookie `name` begins: just after the first `"; " + name + "="`,
      or at 0 when no such occurrence exists and the string starts with
      `name + "="`. The match always sits on a cookie boundary. */
  function CookieStart(cookies: string, name: string): (start: Option<nat>)
    ensures start.Some? ==> MatchAt(cookies, Prefix(name), start.value)
    ensures start.Some? ==> start.value == 0 || (start.value >= 2 && MatchAt(cookies, "; ", start.value - 2))
    ensures start.None? <==>
              (forall k: nat :: !MatchAt(cookies, "; " + Prefix(name), k)) && !MatchAt(cookies, Prefix(name), 0)
  {
    var delimited := IndexOf(cookies, "; " + Prefix(name), 0);
    if delimited == -1 then
      if IndexOf(cookies, Prefix(name), 0) != 0 then None else Some(0)
    else
      MatchSplit(cookies, "; ", Prefix(name), delimited);
      Some(delimited + 2)
  }

  /** Where the value that starts looking at `start` ends: the first `;` at or
      after `start`, or the end of the string. */
  function ValueEnd(cookies: string, start: nat): (end: nat)
    requires start <= |cookies|
    ensures start <= end <= |cookies|
    ensures end < |cookies| ==> cookies[end] == ';'
    ensures forall k :: start <= k < end ==> cookies[k] != ';'
  {
    CharMatches(cookies, ';');
    var e := IndexOf(cookies, ";", start);
    if e == -1 then |cookies| else e
  }

  /** `getCookie(name)` over the cookie string `cookies`; `None` is `null`. */
  function GetCookie(cookies: string, name: string): (value: Option<string>)
    ensures value.None? <==>
              (forall k: nat :: !MatchAt(cookies, "; " + Prefix(name), k)) && !MatchAt(cookies, Prefix(name), 0)
  {
    match CookieStart(cookies, name)
    case None => None
    case Some(start) =>
      Some(Substring(cookies, start + |Prefix(name)|, ValueEnd(cookies, start)))
  }

  /** With a name free of `;`, the value is the slice from just after
      `name=` up to the first `;` that follows (or the end of the string). */
  lemma RawValueSlice(cookies: string, name: string)
    requires ';' !in name
    requires GetCookie(cookies, name).Some?
    ensures var start := CookieStart(cookies, name).value;
            var from := start + |Prefix(name)|;
            from <= ValueEnd(cookies, start) <= |cookies| &&
            GetCookie(cookies, name).value == cookies[from..ValueEnd(cookies, start)]
  {
    var start := CookieStart(cookies, name).value;
    var p := Prefix(name);
    forall k | start <= k < start + |p|
      ensures cookies[k] != ';'
    {
      assert cookies[k] == cookies[start..start + |p|][k - start] == p[k - start];
      if k - start < |name| {
        assert p[k - start] == name[k - start];
      }
    }
    var end := ValueEnd(cookies, start);
    assert start + |p| <= end;
    assert GetCookie(cookies, name) == Some(Substring(cookies, start + |p|, end));
  }

  /** With a name free of `;`, the returned value never contains `;`. */
  lemma RawValueHasNoSemicolon(cookies: string, name: string)
    requires ';' !in name
    requires GetCookie(cookies, name).Some?
    ensures ';' !in GetCookie(cookies, name).value
  {
    RawValueSlice(cookies, name);
    var start := CookieStart(cookies, name).value;
    var from := start + |Prefix(name)|;
    var end := ValueEnd(cookies, start);
    var v := cookies[from..end];
    forall i | 0 <= i < |v|
      ensures v[i] != ';'
    {
      assert v[i] == cookies[from + i];
    }
  }

  /** An occurrence after `"; "` wins over a match at the start of the string:
      the first delimited occurrence is the one used. */
  lemma DelimitedMatchPreferred(cookies: string, name: string, j: nat)
    requires MatchAt(cookies, "; " + Prefix(name), j)
    requires forall k: nat :: k < j ==> !MatchAt(cookies, "; " + Prefix(name), k)
    ensures CookieStart(cookies, name) == Some(j + 2)
  {
    var d := IndexOf(cookies, "; " + Prefix(name), 0);
    assert d != -1;
    assert d == j;
  }

  /** A cookie whose name merely ends with `name` is not taken for it:
      `other + name + "=" + rest` has no cookie `name` when the string holds
      no `;` and the longer name holds no `=`. */
  lemma LongerNameNotMatched(other: string, name: string, rest: string)
    requires |other| > 0
    requires ';' !in other + name + "=" + rest
    requires '=' !in other + name
    ensures GetCookie(other + name + "=" + rest, name) == None
  {
    var cookies := other + name + "=" + rest;
    forall k: nat
      ensures !MatchAt(cookies, "; " + Prefix(name), k)
    {
      if k < |cookies| {
        assert cookies[k] in cookies;
      }
    }
    assert cookies[|name|] == (other + name)[|name|];
    assert cookies[|name|] in other + name;
  }

  /** A cookie whose name merely ends with `name`, anywhere in the cookie
      string, is never taken for it: the position just after its extra
      leading characters is not a cookie boundary. */
  lemma LongerNameNeverStart(pre: string, other: string, name: string, rest: string)
    requires pre == [] || (|pre| >= 2 && pre[|pre| - 2..] == "; ")
    requires |other| > 0 && ';' !in other
    ensures CookieStart(pre + other + name + "=" + rest, name) != Some(|pre| + |other|)
  {
    var s := pre + other + name + "=" + rest;
    var p := |pre| + |other|;
    if p >= 2 {
      if p - 2 >= |pre| {
        assert s[p - 2] == other[p - 2 - |pre|];
        assert s[p - 2] != ';';
      } else {
        assert s[p - 2] == pre[|pre| - 1] == pre[|pre| - 2..][1] == ' ';
      }
      assert s[p - 2..p][0] == s[p - 2];
    }
  }

  /** A cookie that follows `;`-free text starts just after its `"; "`. */
  lemma StartAfterFirst(first: string, d: string, v: string, name: string)
    requires d == "; " + Prefix(name) && ';' !in first
    ensures CookieStart(first + d + v, name) == Some(|first| + 2)
  {
    var c := first + d + v;
    var j := |first|;
    assert MatchAt(c, d, j) by {
      assert c[j..j + |d|] == d;
    }
    forall k: nat | k < j
      ensures !MatchAt(c, d, k)
    {
      assert c[k] == first[k] != ';';
      assert d[0] == ';';
    }
    DelimitedMatchPreferred(c, name, j);
  }

  /** A cookie that follows another one is found after its `"; "`, and its
      whole value up to the end of the string is returned. */
  lemma CookieAfterAnother(first: string, name: string, v: string)
    requires ';' !in first && ';' !in name && ';' !in v
    ensures GetCookie(first + ("; " + Prefix(name)) + v, name) == Some(v)
  {
    var d := "; " + Prefix(name);
    var c := first + d + v;
    StartAfterFirst(first, d, v, name);
    RawValueSlice(c, name);
    var from := |first| + |d|;
    forall k | from <= k < |c|
      ensures c[k] != ';'
    {
      assert c[k] == v[k - from];
    }
    assert c[from..ValueEnd(c, |first| + 2)] == c[from..] == v;
  }
}

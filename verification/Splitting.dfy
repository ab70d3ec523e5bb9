/** `str::split_once` and `str::rsplit_once`. */
module Splitting {
  import opened Outcomes

  /** Cuts `s` at the first `c`. */
  function SplitOnce(s: string, c: char): (r: Option<(string, string)>)
    ensures r.None? <==> c !in s
    ensures r.Some? ==> s == r.value.0 + [c] + r.value.1 && c !in r.value.0
  {
    if s == "" then None
    else if s[0] == c then Some(("", s[1..]))
    else
      match SplitOnce(s[1..], c)
      case None => None
      case Some((before, after)) => Some(([s[0]] + before, after))
  }

  /** Cuts `s` at the last `c`. */
  function RSplitOnce(s: string, c: char): (r: Option<(string, string)>)
    ensures r.None? <==> c !in s
    ensures r.Some? ==> s == r.value.0 + [c] + r.value.1 && c !in r.value.1
  {
    if s == "" then None
    else
      var n := |s| - 1;
      if s[n] == c then assert s == s[..n] + [c] + ""; Some((s[..n], ""))
      else
        match RSplitOnce(s[..n], c)
        case None => None
        case Some((before, after)) => Some((before, after + [s[n]]))
  }

  /** A text is cut at its first `c` in only one way. */
  lemma SplitOnceUnique(before: string, c: char, after: string)
    requires c !in before
    ensures SplitOnce(before + [c] + after, c) == Some((before, after))
  {
    var s := before + [c] + after;
    assert s[|before|] == c;
    var (b, a) := SplitOnce(s, c).value;
    assert s[|b|] == c;
    assert b == s[..|b|] && before == s[..|before|];
    assert a == s[|b| + 1..] && after == s[|before| + 1..];
  }

  /** A text is cut at its last `c` in only one way. */
  lemma RSplitOnceUnique(before: string, c: char, after: string)
    requires c !in after
    ensures RSplitOnce(before + [c] + after, c) == Some((before, after))
  {
    var s := before + [c] + after;
    assert s[|before|] == c;
    var (b, a) := RSplitOnce(s, c).value;
    assert s[|b|] == c;
    assert b == s[..|b|] && before == s[..|before|];
    assert a == s[|b| + 1..] && after == s[|before| + 1..];
  }
}

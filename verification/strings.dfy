/** String helpers from Go's `strings` package used by the client. */
module Strings {

  /** `strings.TrimRight(s, cutset)`: drops every trailing character of `s`
      that belongs to `cutset`. */
  function TrimRight(s: string, cutset: set<char>): (r: string)
    ensures |r| <= |s| && r == s[..|r|]
    ensures forall i :: |r| <= i < |s| ==> s[i] in cutset
    ensures |r| == 0 || r[|r| - 1] !in cutset
    decreases |s|
  {
    if |s| > 0 && s[|s| - 1] in cutset then TrimRight(s[..|s| - 1], cutset) else s
  }

  /** The trimmed string is the only way to split `s` into a part that does not
      end in the cutset followed by a run of cutset characters. */
  lemma TrimRightUnique(s: string, cutset: set<char>, t: string, u: string)
    requires s == t + u
    requires forall i :: 0 <= i < |u| ==> u[i] in cutset
    requires |t| == 0 || t[|t| - 1] !in cutset
    ensures TrimRight(s, cutset) == t
  {
    var r := TrimRight(s, cutset);
    assert t == s[..|t|];
  }

  /** Trimming a second time changes nothing. */
  lemma TrimRightIdempotent(s: string, cutset: set<char>)
    ensures TrimRight(TrimRight(s, cutset), cutset) == TrimRight(s, cutset)
  {
    var r := TrimRight(s, cutset);
    assert r == r + [];
    TrimRightUnique(r, cutset, r, []);
  }

  /** Appending cutset characters does not change the result. */
  lemma TrimRightAbsorbsSuffix(s: string, cutset: set<char>, u: string)
    requires forall i :: 0 <= i < |u| ==> u[i] in cutset
    ensures TrimRight(s + u, cutset) == TrimRight(s, cutset)
  {
    var r := TrimRight(s, cutset);
    var tail := s[|r|..];
    assert s == r + tail;
    assert s + u == r + (tail + u);
    TrimRightUnique(s + u, cutset, r, tail + u);
  }
}

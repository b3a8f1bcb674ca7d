/** The string operations the script applies: `str.replace(".", "_")` and `str.strip`. */
module Text {

  /** `s.replace(".", "_")`: every dot becomes an underscore, everything else stays. */
  function Underscored(s: string): (r: string)
    ensures |r| == |s|
    ensures '.' !in r
    ensures forall i :: 0 <= i < |s| ==> r[i] == (if s[i] == '.' then '_' else s[i])
  {
    if s == [] then []
    else [if s[0] == '.' then '_' else s[0]] + Underscored(s[1..])
  }

  /** Replacing dots a second time changes nothing. */
  lemma UnderscoredIdempotent(s: string)
    ensures Underscored(Underscored(s)) == Underscored(s)
  {
    var u := Underscored(s);
    assert Underscored(u) == u;
  }

  /** The characters `str.isspace` accepts, which `str.strip()` without argument removes. */
  const WhiteSpace: set<char> := {
    '\t', '\n', '\U{000B}', '\U{000C}', '\r', '\U{001C}', '\U{001D}', '\U{001E}', '\U{001F}',
    ' ', '\U{0085}', '\U{00A0}', '\U{1680}', '\U{2000}', '\U{2001}', '\U{2002}', '\U{2003}',
    '\U{2004}', '\U{2005}', '\U{2006}', '\U{2007}', '\U{2008}', '\U{2009}', '\U{200A}',
    '\U{2028}', '\U{2029}', '\U{202F}', '\U{205F}', '\U{3000}'}

  /** Number of leading characters of `s` that belong to `cs`. */
  function LeadingIn(s: string, cs: set<char>): (n: nat)
    ensures n <= |s|
    ensures forall k :: 0 <= k < n ==> s[k] in cs
    ensures n < |s| ==> s[n] !in cs
  {
    if |s| > 0 && s[0] in cs then 1 + LeadingIn(s[1..], cs) else 0
  }

  /** Number of trailing characters of `s` that belong to `cs`. */
  function TrailingIn(s: string, cs: set<char>): (n: nat)
    ensures n <= |s|
    ensures forall k :: |s| - n <= k < |s| ==> s[k] in cs
    ensures n < |s| ==> s[|s| - 1 - n] !in cs
  {
    if |s| > 0 && s[|s| - 1] in cs then 1 + TrailingIn(s[..|s| - 1], cs) else 0
  }

  /** `s.strip(cs)`: character-set semantics, the argument is a set of characters and not a
      prefix or suffix. The result is the middle slice of `s` left once every leading and
      every trailing character in `cs` is gone. */
  function Strip(s: string, cs: set<char>): (r: string)
    ensures |r| > 0 ==> r[0] !in cs && r[|r| - 1] !in cs
    ensures LeadingIn(s, cs) + |r| <= |s|
    ensures r == s[LeadingIn(s, cs)..LeadingIn(s, cs) + |r|]
    ensures forall k :: LeadingIn(s, cs) + |r| <= k < |s| ==> s[k] in cs
  {
    var i := LeadingIn(s, cs);
    var t := s[i..];
    var n := TrailingIn(t, cs);
    var r := t[..|t| - n];
    assert r == s[i..i + |r|];
    r
  }
}

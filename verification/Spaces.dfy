/** White space around a text, as Unicode defines it. */
module Spaces {

  const SPACES: set<char> := {' ', '\t', '\n', '\U{0B}', '\U{0C}', '\r', '\U{85}', '\U{A0}', '\U{1680}',
    '\U{2000}', '\U{2001}', '\U{2002}', '\U{2003}', '\U{2004}', '\U{2005}', '\U{2006}', '\U{2007}', '\U{2008}',
    '\U{2009}', '\U{200A}', '\U{2028}', '\U{2029}', '\U{202F}', '\U{205F}', '\U{3000}'}

  function TrimLeft(s: string): (t: string)
    ensures |t| <= |s| && (t == "" || t[0] !in SPACES)
    ensures s == "" || s[|s| - 1] in SPACES || (t != "" && t[|t| - 1] == s[|s| - 1])
    ensures t == "" <==> forall i :: 0 <= i < |s| ==> s[i] in SPACES
  {
    if s == "" then ""
    else if s[0] in SPACES then
      assert forall i :: 0 < i < |s| ==> s[i] == s[1..][i - 1];
      TrimLeft(s[1..])
    else s
  }

  function TrimRight(s: string): (t: string)
    ensures |t| <= |s| && (t == "" || t[|t| - 1] !in SPACES)
    ensures t <= s
  {
    if s == "" then ""
    else if s[|s| - 1] in SPACES then TrimRight(s[..|s| - 1])
    else s
  }

  function Trim(s: string): (t: string)
    ensures t == "" || (t[0] !in SPACES && t[|t| - 1] !in SPACES)
  {
    TrimRight(TrimLeft(s))
  }

  lemma TrimOnce(s: string)
    ensures Trim(Trim(s)) == Trim(s)
  {
  }

  predicate IsBlank(s: string) { Trim(s) == "" }

  /** Only spaces stand before i and from j on. */
  predicate SpacesAround(s: string, i: int, j: int) {
    && 0 <= i <= j <= |s|
    && (forall k :: 0 <= k < i ==> s[k] in SPACES) && (forall k :: j <= k < |s| ==> s[k] in SPACES)
  }

  lemma {:induction false} TrimLeftDropsSpaces(s: string) returns (i: nat)
    ensures i <= |s| && TrimLeft(s) == s[i..] && forall k :: 0 <= k < i ==> s[k] in SPACES
  {
    if s == "" || s[0] !in SPACES {
      return 0;
    }
    var rest := TrimLeftDropsSpaces(s[1..]);
    assert forall k :: 0 < k <= rest ==> s[k] == s[1..][k - 1];
    return rest + 1;
  }

  lemma {:induction false} TrimRightDropsSpaces(s: string) returns (j: nat)
    ensures j <= |s| && TrimRight(s) == s[..j] && forall k :: j <= k < |s| ==> s[k] in SPACES
  {
    if s == "" || s[|s| - 1] !in SPACES {
      return |s|;
    }
    j := TrimRightDropsSpaces(s[..|s| - 1]);
  }

  /** Trimming takes away the spaces around a text and nothing else, in only one possible way. */
  lemma TrimDropsSpaces(s: string)
    ensures exists i, j :: SpacesAround(s, i, j) && Trim(s) == s[i..j]
    ensures forall i, j ::
        SpacesAround(s, i, j) && (i == j || (s[i] !in SPACES && s[j - 1] !in SPACES)) ==> Trim(s) == s[i..j]
  {
    var i := TrimLeftDropsSpaces(s);
    var left := s[i..];
    var j := TrimRightDropsSpaces(left);
    assert forall k :: j <= k < |left| ==> left[k] == s[i + k];
    assert SpacesAround(s, i, i + j) && Trim(s) == s[i..i + j];
    var t := s[i..i + j];
    assert t != [] ==> t[0] == s[i] && t[|t| - 1] == s[i + j - 1];
    forall m, n | SpacesAround(s, m, n) && (m == n || (s[m] !in SPACES && s[n - 1] !in SPACES))
      ensures Trim(s) == s[m..n]
    {
    }
  }

  lemma BlankIsAllSpaces(s: string)
    ensures IsBlank(s) <==> forall k :: 0 <= k < |s| ==> s[k] in SPACES
  {
    TrimDropsSpaces(s);
    if forall k :: 0 <= k < |s| ==> s[k] in SPACES {
      assert SpacesAround(s, 0, 0);
    }
  }
}

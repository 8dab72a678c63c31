/** Texts as byte sequences: substring search, unique anchors and line tokens. */
module Bytes {

  newtype byte = x: int | 0 <= x < 256

  type Text = seq<byte>

  const NEWLINE: byte := 10

  // ----- substring search -----

  predicate OccursAt(text: Text, pattern: Text, at: int) {
    0 <= at && at + |pattern| <= |text| && text[at..at + |pattern|] == pattern
  }

  /** The first occurrence at or after `from`, or -1. */
  function IndexFrom(text: Text, pattern: Text, from: nat): (at: int)
    ensures at == -1 ==> forall k :: OccursAt(text, pattern, k) ==> k < from
    ensures at != -1 ==> from <= at && OccursAt(text, pattern, at)
    ensures forall k :: from <= k < at ==> !OccursAt(text, pattern, k)
    decreases |text| - from
  {
    if from + |pattern| > |text| then -1
    else if OccursAt(text, pattern, from) then from
    else IndexFrom(text, pattern, from + 1)
  }

  function Index(text: Text, pattern: Text): (at: int)
    ensures at == -1 || OccursAt(text, pattern, at)
    ensures forall k :: OccursAt(text, pattern, k) ==> 0 <= at <= k
  {
    IndexFrom(text, pattern, 0)
  }

  /** The last occurrence starting at or before `upTo`, or -1. */
  function LastIndexFrom(text: Text, pattern: Text, upTo: int): (at: int)
    requires -1 <= upTo
    ensures at == -1 || (at <= upTo && OccursAt(text, pattern, at))
    ensures forall k :: at < k <= upTo ==> !OccursAt(text, pattern, k)
    decreases upTo + 1
  {
    if upTo < 0 then -1
    else if OccursAt(text, pattern, upTo) then upTo
    else LastIndexFrom(text, pattern, upTo - 1)
  }

  function LastIndex(text: Text, pattern: Text): (at: int)
    ensures at == -1 || OccursAt(text, pattern, at)
    ensures forall k :: OccursAt(text, pattern, k) ==> k <= at
  {
    LastIndexFrom(text, pattern, |text|)
  }

  /** `pattern` occurs at `at` and nowhere else. */
  ghost predicate UniqueAt(text: Text, pattern: Text, at: int) {
    OccursAt(text, pattern, at) && forall k :: OccursAt(text, pattern, k) ==> k == at
  }

  lemma UniqueIffFirstIsLast(text: Text, pattern: Text)
    ensures (Index(text, pattern) >= 0 && Index(text, pattern) == LastIndex(text, pattern))
            <==> exists at :: UniqueAt(text, pattern, at)
    ensures forall at :: UniqueAt(text, pattern, at) ==> at == Index(text, pattern)
  {
    var first := Index(text, pattern);
    if first >= 0 && first == LastIndex(text, pattern) {
      assert UniqueAt(text, pattern, first);
    }
  }

  // ----- lines -----

  /** One past the first newline, or the whole length when there is none. */
  function LineEnd(text: Text): (end: nat)
    requires text != []
    ensures 0 < end <= |text|
    ensures forall k :: 0 <= k < end - 1 ==> text[k] != NEWLINE
    ensures text[end - 1] != NEWLINE ==> end == |text|
  {
    if text[0] == NEWLINE || |text| == 1 then 1 else 1 + LineEnd(text[1..])
  }

  /** The text cut after every newline, without a trailing empty piece. */
  function LineTokens(text: Text): (tokens: seq<Text>)
    ensures Concat(tokens) == text
    ensures IsTokenList(tokens)
    ensures text == [] <==> tokens == []
  {
    if text == [] then []
    else
      var end := LineEnd(text);
      var rest := LineTokens(text[end..]);
      assert text[..end] + text[end..] == text;
      [text[..end]] + rest
  }

  function Concat(tokens: seq<Text>): Text {
    if tokens == [] then [] else tokens[0] + Concat(tokens[1..])
  }

  /** A newline can only end a token, and every token but the last has one. */
  ghost predicate IsToken(token: Text, last: bool) {
    && token != []
    && (forall k :: 0 <= k < |token| - 1 ==> token[k] != NEWLINE)
    && (last || token[|token| - 1] == NEWLINE)
  }

  ghost predicate IsTokenList(tokens: seq<Text>) {
    forall i :: 0 <= i < |tokens| ==> IsToken(tokens[i], i == |tokens| - 1)
  }

  /** Token lists with the same text are the same list. */
  lemma {:induction false} TokensAreUnique(s: seq<Text>, t: seq<Text>)
    requires IsTokenList(s) && IsTokenList(t) && Concat(s) == Concat(t)
    ensures s == t
  {
    if s != [] && t != [] {
      FirstTokenIsShared(s, t);
      assert Concat(s)[|s[0]|..] == Concat(s[1..]);
      assert Concat(t)[|t[0]|..] == Concat(t[1..]);
      TokensAreUnique(s[1..], t[1..]);
    }
  }

  lemma FirstTokenIsShared(s: seq<Text>, t: seq<Text>)
    requires IsTokenList(s) && IsTokenList(t) && s != [] && t != [] && Concat(s) == Concat(t)
    ensures s[0] == t[0]
  {
    var text := Concat(s);
    assert IsToken(s[0], |s| == 1) && IsToken(t[0], |t| == 1);
    assert text[..|s[0]|] == s[0] && text[..|t[0]|] == t[0];
    assert |s[0]| < |text| ==> s[0][|s[0]| - 1] == NEWLINE;
    assert |t[0]| < |text| ==> t[0][|t[0]| - 1] == NEWLINE;
    assert |s[0]| == |t[0]|;
  }

  lemma Associates(a: Text, b: Text, c: Text)
    ensures a + (b + c) == (a + b) + c
  {
  }

  lemma {:induction false} ConcatAppend(s: seq<Text>, t: seq<Text>)
    ensures Concat(s + t) == Concat(s) + Concat(t)
  {
    if s == [] {
      assert s + t == t;
    } else {
      ConcatAppend(s[1..], t);
      assert (s + t)[0] == s[0] && (s + t)[1..] == s[1..] + t;
      Associates(s[0], Concat(s[1..]), Concat(t));
    }
  }

  /** How many newlines the text holds. */
  function Newlines(text: Text): nat {
    if text == [] then 0 else Newlines(text[..|text| - 1]) + (if text[|text| - 1] == NEWLINE then 1 else 0)
  }
}

/** Well-formed UTF-8 byte sequences, as section 4 of RFC 3629 lists them. */
module Utf8 {
  import opened Bytes

  /** A byte that does not continue an earlier rune. */
  predicate RuneStart(b: byte) { b < 0x80 || 0xC0 <= b }

  predicate Tail(text: Text, at: int) { 0 <= at < |text| && 0x80 <= text[at] <= 0xBF }

  predicate TailWithin(text: Text, at: int, low: byte, high: byte) { 0 <= at < |text| && low <= text[at] <= high }

  /** The length of the rune at the front, or 0 when there is none. */
  function RuneLength(text: Text): (n: nat)
    ensures n <= 4 && n <= |text|
    ensures n > 0 ==> RuneStart(text[0]) && forall k :: 0 < k < n ==> !RuneStart(text[k])
  {
    if text == [] then 0
    else
      var b := text[0];
      if b <= 0x7F then 1
      else if 0xC2 <= b <= 0xDF && Tail(text, 1) then 2
      else if b == 0xE0 && TailWithin(text, 1, 0xA0, 0xBF) && Tail(text, 2) then 3
      else if (0xE1 <= b <= 0xEC || 0xEE <= b <= 0xEF) && Tail(text, 1) && Tail(text, 2) then 3
      else if b == 0xED && TailWithin(text, 1, 0x80, 0x9F) && Tail(text, 2) then 3
      else if b == 0xF0 && TailWithin(text, 1, 0x90, 0xBF) && Tail(text, 2) && Tail(text, 3) then 4
      else if 0xF1 <= b <= 0xF3 && Tail(text, 1) && Tail(text, 2) && Tail(text, 3) then 4
      else if b == 0xF4 && TailWithin(text, 1, 0x80, 0x8F) && Tail(text, 2) && Tail(text, 3) then 4
      else 0
  }

  predicate ValidUtf8(text: Text) {
    text == [] || (RuneLength(text) > 0 && ValidUtf8(text[RuneLength(text)..]))
  }

  /** A position where a rune starts, or the end. */
  predicate Boundary(text: Text, at: int) {
    0 <= at <= |text| && (at < |text| ==> RuneStart(text[at]))
  }

  /** Only the rune's own bytes are looked at. */
  lemma RuneLengthIsLocal(text: Text, cut: nat)
    requires RuneLength(text) <= cut <= |text| && RuneLength(text) > 0
    ensures RuneLength(text[..cut]) == RuneLength(text)
  {
  }

  /** Cutting well-formed text at a boundary leaves two well-formed texts. */
  lemma {:induction false} BoundarySplits(text: Text, at: nat)
    requires ValidUtf8(text) && Boundary(text, at)
    ensures ValidUtf8(text[..at]) && ValidUtf8(text[at..])
  {
    if at == 0 {
      assert text[..0] == [] && text[0..] == text;
    } else {
      var n := RuneLength(text);
      assert at >= n;
      BoundarySplits(text[n..], at - n);
      RuneLengthIsLocal(text, at);
      assert text[..at][n..] == text[n..][..at - n];
      assert text[n..][at - n..] == text[at..];
    }
  }

  /** Four bytes before any position of well-formed text there is a boundary. */
  lemma {:induction false} BoundaryNearby(text: Text, at: nat)
    requires ValidUtf8(text) && at <= |text|
    ensures exists k :: 0 <= k <= at && at - k <= 3 && Boundary(text, k)
  {
    if at == 0 {
      assert Boundary(text, 0);
    } else {
      var n := RuneLength(text);
      if at < n {
        assert Boundary(text, 0);
      } else {
        BoundaryNearby(text[n..], at - n);
        var k :| 0 <= k <= at - n && at - n - k <= 3 && Boundary(text[n..], k);
        assert Boundary(text, k + n);
      }
    }
  }

  // ----- the runes are the scalar values -----

  predicate Scalar(c: int) { 0 <= c < 0xD800 || 0xE000 <= c <= 0x10FFFF }

  function Continuation(n: int): byte
    requires 0 <= n < 64
  {
    (0x80 + n) as byte
  }

  /** The bytes of a scalar value, as section 3 of RFC 3629 writes them. */
  function Rune(c: int): (bytes: Text)
    requires Scalar(c)
    ensures bytes != []
  {
    if c < 0x80 then [c as byte]
    else if c < 0x800 then [(0xC0 + c / 64) as byte, Continuation(c % 64)]
    else if c < 0x1_0000 then [(0xE0 + c / 4096) as byte, Continuation(c / 64 % 64), Continuation(c % 64)]
    else
      [(0xF0 + c / 262144) as byte, Continuation(c / 4096 % 64), Continuation(c / 64 % 64), Continuation(c % 64)]
  }

  /** Every scalar value is read as one rune. */
  lemma RunesAreRead(c: int, rest: Text)
    requires Scalar(c)
    ensures RuneLength(Rune(c) + rest) == |Rune(c)|
  {
  }

  /** The six bits of each following byte, and what comes before them. */
  lemma Sixes(q: int, r: int)
    requires 0 <= r < 64
    ensures (64 * q + r) / 64 == q && (64 * q + r) % 64 == r
  {
  }

  lemma TwoBytes(text: Text)
    requires RuneLength(text) == 2
    ensures exists c :: Scalar(c) && text[..2] == Rune(c)
  {
    var a, b := text[0] as int - 0xC0, text[1] as int - 0x80;
    var c := 64 * a + b;
    Sixes(a, b);
    assert Scalar(c) && text[..2] == Rune(c);
  }

  lemma ThreeBytes(text: Text)
    requires RuneLength(text) == 3
    ensures exists c :: Scalar(c) && text[..3] == Rune(c)
  {
    var a, b, d := text[0] as int - 0xE0, text[1] as int - 0x80, text[2] as int - 0x80;
    assert 0 <= b < 64 && 0 <= d < 64;
    var c := 64 * (64 * a + b) + d;
    Sixes(64 * a + b, d);
    Sixes(a, b);
    assert c / 4096 == a && c / 64 % 64 == b && c % 64 == d;
    ThreeByteScalar(text, a, b, d, c);
    assert text[..3] == Rune(c);
  }

  lemma ThreeByteScalar(text: Text, a: int, b: int, d: int, c: int)
    requires RuneLength(text) == 3 && c == 4096 * a + 64 * b + d
    requires a == text[0] as int - 0xE0 && b == text[1] as int - 0x80 && d == text[2] as int - 0x80
    ensures Scalar(c) && 0x800 <= c < 0x1_0000
  {
  }

  lemma FourBytes(text: Text)
    requires RuneLength(text) == 4
    ensures exists c :: Scalar(c) && text[..4] == Rune(c)
  {
    var a, b, d, e := text[0] as int - 0xF0, text[1] as int - 0x80, text[2] as int - 0x80, text[3] as int - 0x80;
    assert 0 <= b < 64 && 0 <= d < 64 && 0 <= e < 64;
    var c := 64 * (64 * (64 * a + b) + d) + e;
    Sixes(64 * (64 * a + b) + d, e);
    Sixes(64 * a + b, d);
    Sixes(a, b);
    assert c / 64 == 64 * (64 * a + b) + d && c / 4096 == 64 * a + b && c / 262144 == a;
    FourByteScalar(text, a, b, d, e, c);
    assert text[..4] == Rune(c);
  }

  lemma FourByteScalar(text: Text, a: int, b: int, d: int, e: int, c: int)
    requires RuneLength(text) == 4 && c == 262144 * a + 4096 * b + 64 * d + e
    requires a == text[0] as int - 0xF0 && b == text[1] as int - 0x80 && d == text[2] as int - 0x80
    requires e == text[3] as int - 0x80
    ensures Scalar(c) && 0x1_0000 <= c
  {
  }

  /** And nothing else is. */
  lemma ReadRunesAreScalars(text: Text)
    requires RuneLength(text) > 0
    ensures exists c :: Scalar(c) && text[..RuneLength(text)] == Rune(c)
  {
    hide RuneLength, Rune;
    var n := RuneLength(text);
    if n == 1 {
      OneByte(text);
    } else if n == 2 {
      TwoBytes(text);
    } else if n == 3 {
      ThreeBytes(text);
    } else {
      FourBytes(text);
    }
  }

  lemma OneByte(text: Text)
    requires RuneLength(text) == 1
    ensures exists c :: Scalar(c) && text[..1] == Rune(c)
  {
    var a := text[0] as int;
    assert Scalar(a) && text[..1] == Rune(a);
  }
}

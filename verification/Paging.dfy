/** Reading long texts page by page: bounded transfers, rune boundaries, progress, and what was delivered. */
module Paging {
  import opened Bytes
  import opened Utf8
  import opened Options

  /** The length of a text once written as a JSON string. */
  type Encoder = Text -> nat

  const PAGE_BYTES := 24 * 1024

  /** Escaping as in section 7 of RFC 8259 writes at most six bytes for one, and two quotes. */
  ghost predicate Sixfold(encoded: Encoder) {
    forall text :: encoded(text) <= 6 * |text| + 2
  }

  /** Quotes, backslashes and control characters are escaped, and so are the characters HTML gives a meaning to. */
  function EscapedBytes(b: byte): nat {
    if b == 34 || b == 92 then 2 else if b < 32 || b == 38 || b == 60 || b == 62 then 6 else 1
  }

  function EscapedLength(text: Text): nat {
    if text == [] then 2 else EscapedLength(text[..|text| - 1]) + EscapedBytes(text[|text| - 1])
  }

  lemma {:induction false} EscapingOf(text: Text)
    ensures |text| + 2 <= EscapedLength(text) <= 6 * |text| + 2
  {
    if text != [] {
      EscapingOf(text[..|text| - 1]);
    }
  }

  lemma EscapingIsSixfold()
    ensures Sixfold(EscapedLength)
  {
    forall text ensures EscapedLength(text) <= 6 * |text| + 2 {
      EscapingOf(text);
    }
  }

  // ----- what the length is the length of -----

  function HexDigit(n: int): byte
    requires 0 <= n < 16
  {
    if n < 10 then (48 + n) as byte else (87 + n) as byte
  }

  function HexValue(c: byte): int { if c < 58 then c as int - 48 else c as int - 87 }

  /** A byte as it stands inside a JSON string: itself, behind a backslash, or by its number. */
  function Escaped(b: byte): (e: Text)
    ensures |e| == EscapedBytes(b)
  {
    if b == 34 || b == 92 then [92, b]
    else if b < 32 || b == 38 || b == 60 || b == 62
    then [92, 117, 48, 48, HexDigit(b as int / 16), HexDigit(b as int % 16)]
    else [b]
  }

  function EscapedText(text: Text): Text {
    if text == [] then [] else Escaped(text[0]) + EscapedText(text[1..])
  }

  /** Reads the inside of a JSON string back. */
  function Unescaped(s: Text): Text {
    if s == [] then []
    else if s[0] != 92 then [s[0]] + Unescaped(s[1..])
    else if |s| >= 6 && s[1] == 117 && 0 <= HexValue(s[4]) < 8 && 0 <= HexValue(s[5]) < 16
    then [(16 * HexValue(s[4]) + HexValue(s[5])) as byte] + Unescaped(s[6..])
    else if |s| >= 2 then [s[1]] + Unescaped(s[2..])
    else []
  }

  lemma OneIsReadBack(b: byte, rest: Text)
    ensures Unescaped(Escaped(b) + rest) == [b] + Unescaped(rest)
  {
    var s := Escaped(b) + rest;
    assert s[|Escaped(b)|..] == rest;
  }

  /** Nothing of a text is lost by escaping it. */
  lemma {:induction false} EscapingIsReadBack(text: Text)
    ensures Unescaped(EscapedText(text)) == text
  {
    if text != [] {
      EscapingIsReadBack(text[1..]);
      OneIsReadBack(text[0], EscapedText(text[1..]));
    }
  }

  /** No quote and no control character is left inside. */
  lemma {:induction false} EscapingIsClean(text: Text)
    ensures forall k ::
        0 <= k < |EscapedText(text)| && EscapedText(text)[k] == 34 ==> k > 0 && EscapedText(text)[k - 1] == 92
    ensures forall k :: 0 <= k < |EscapedText(text)| ==> EscapedText(text)[k] >= 32
  {
    if text != [] {
      EscapingIsClean(text[1..]);
    }
  }

  /** With its quotes, the escaped text has the length that is measured. */
  lemma {:induction false} EscapedTextLength(text: Text)
    ensures |EscapedText(text)| + 2 == EscapedLength(text)
  {
    if text != [] {
      EscapedTextLength(text[..|text| - 1]);
      EscapingSplits(text[..|text| - 1], text[|text| - 1]);
      assert text[..|text| - 1] + [text[|text| - 1]] == text;
    }
  }

  lemma {:induction false} EscapingSplits(front: Text, last: byte)
    ensures EscapedText(front + [last]) == EscapedText(front) + Escaped(last)
  {
    if front == [] {
      assert [last][1..] == [];
    } else {
      assert (front + [last])[1..] == front[1..] + [last];
      EscapingSplits(front[1..], last);
    }
  }

  datatype Page = Page(content: Text, offset: nat, nextOffset: nat, complete: bool, totalBytes: nat)

  datatype PageResult = Returned(page: Page) | BadOffset

  function End(page: Page): nat { page.offset + |page.content| }

  /** A page is a piece of the text between rune boundaries, and says where to go on. */
  ghost predicate IsPage(text: Text, page: Page) {
    && End(page) <= |text| && page.content == text[page.offset..End(page)]
    && Boundary(text, page.offset) && Boundary(text, End(page))
    && (page.complete <==> End(page) == |text|)
    && page.nextOffset == (if page.complete then 0 else End(page))
    && page.totalBytes == |text|
  }

  ghost predicate Progresses(text: Text, page: Page) {
    page.offset < |text| ==> page.content != []
  }

  method AlignDown(text: Text, offset: nat, from: nat) returns (end: nat)
    requires offset <= from <= |text| && Boundary(text, offset)
    ensures offset <= end <= from && Boundary(text, end)
    ensures forall k :: end < k < from ==> !RuneStart(text[k])
    ensures end < from ==> from < |text| && !RuneStart(text[from])
  {
    end := from;
    while end < |text| && !RuneStart(text[end])
      invariant offset <= end <= from
      invariant forall k :: end < k <= from && k < |text| ==> !RuneStart(text[k])
      invariant end < from ==> from < |text|
      decreases end
    {
      end := end - 1;
    }
  }

  /** In well-formed text a cut moves back at most three bytes. */
  lemma AlignedIsNear(text: Text, from: nat, end: nat)
    requires ValidUtf8(text) && end <= from <= |text|
    requires forall k :: end < k < from ==> !RuneStart(text[k])
    requires end < from ==> from < |text| && !RuneStart(text[from])
    ensures from - end <= 3
  {
    BoundaryNearby(text, from);
    var k :| 0 <= k <= from && from - k <= 3 && Boundary(text, k);
    assert end < from && k < from ==> RuneStart(text[k]);
    assert end < from ==> k != from;
  }

  method PageText(text: Text, offset: int, encoded: Encoder) returns (r: PageResult)
    ensures r.Returned? <==> 0 <= offset && Boundary(text, offset)
    ensures r.Returned? ==> r.page.offset == offset && IsPage(text, r.page)
    ensures r.Returned? && encoded([]) <= 24_576 ==> encoded(r.page.content) <= 24_576
    ensures r.Returned? && Sixfold(encoded) && ValidUtf8(text) ==> Progresses(text, r.page) && ValidUtf8(r.page.content)
  {
    if offset < 0 || offset > |text| || (offset < |text| && !RuneStart(text[offset])) {
      return BadOffset;
    }
    var start: nat := if |text| < offset + PAGE_BYTES then |text| else offset + PAGE_BYTES;
    var end := AlignDown(text, offset, start);
    if ValidUtf8(text) {
      AlignedIsNear(text, start, end);
    }
    while encoded(text[offset..end]) > PAGE_BYTES && end > offset
      invariant offset <= end <= |text| && Boundary(text, end)
      invariant Sixfold(encoded) && ValidUtf8(text) && offset < |text| ==> offset < end
      decreases end
    {
      var half := offset + (end - offset) / 2;
      ghost var size := |text[offset..end]|;
      assert Sixfold(encoded) ==> PAGE_BYTES < 6 * size + 2;
      end := AlignDown(text, offset, half);
      if ValidUtf8(text) {
        AlignedIsNear(text, half, end);
      }
    }
    if ValidUtf8(text) {
      PieceIsValid(text, offset, end);
    }
    assert end == offset ==> text[offset..end] == [];
    return Returned(Page(text[offset..end], offset, if end < |text| then end else 0, end == |text|, |text|));
  }

  lemma PieceIsValid(text: Text, start: nat, end: nat)
    requires ValidUtf8(text) && start <= end && Boundary(text, start) && Boundary(text, end)
    ensures ValidUtf8(text[start..end])
  {
    BoundarySplits(text, end);
    assert start < end ==> text[..end][start] == text[start];
    BoundarySplits(text[..end], start);
    assert text[..end][start..] == text[start..end];
  }

  // ----- following nextOffset -----

  predicate Follows(page: Page, next: Page) { !page.complete && next.offset == page.nextOffset }

  /** Pages of one text, each asked for at the offset the page before it named. */
  ghost predicate Chain(text: Text, pages: seq<Page>) {
    && pages != [] && pages[0].offset == 0
    && (forall i :: 0 <= i < |pages| ==> IsPage(text, pages[i]) && Progresses(text, pages[i]))
    && forall i, j :: 0 <= i < j < |pages| && j == i + 1 ==> Follows(pages[i], pages[j])
  }

  function Joined(pages: seq<Page>): Text {
    if pages == [] then [] else Joined(pages[..|pages| - 1]) + pages[|pages| - 1].content
  }

  /**
   * Whoever follows nextOffset from 0 has read exactly the text up to the last page, in at most one page for each byte.
   */
  lemma {:induction false} ChainReadsPrefix(text: Text, pages: seq<Page>)
    requires Chain(text, pages)
    ensures Joined(pages) == text[..End(pages[|pages| - 1])]
    ensures |pages| <= 1 || |pages| <= End(pages[|pages| - 1])
    ensures pages[|pages| - 1].complete <==> Joined(pages) == text
  {
    var last := pages[|pages| - 1];
    var front := pages[..|pages| - 1];
    if front == [] {
      assert pages == [last];
    } else {
      assert front[|front| - 1] == pages[|pages| - 2];
      ChainReadsPrefix(text, front);
      assert Follows(pages[|pages| - 2], last);
      assert last.offset == End(front[|front| - 1]);
      assert text[..End(last)] == text[..last.offset] + last.content;
    }
    assert |Joined(pages)| == |text| ==> Joined(pages) == text;
  }

  // ----- rules read in pages -----

  /** Bytes [start, end) of a document were returned. */
  datatype Delivery<K> = Delivery(key: K, start: nat, end: nat)

  predicate Delivers<K(==)>(d: Delivery<K>, key: K, k: nat) { d.key == key && d.start <= k < d.end }

  ghost predicate Delivered<K>(log: seq<Delivery<K>>, key: K, k: nat) {
    exists i :: 0 <= i < |log| && Delivers(log[i], key, k)
  }

  ghost predicate DeliveredTo<K>(log: seq<Delivery<K>>, key: K, size: nat) {
    forall k :: 0 <= k < size ==> Delivered(log, key, k)
  }

  lemma DeliveryAdds<K>(log: seq<Delivery<K>>, d: Delivery<K>, key: K, k: nat)
    ensures Delivered(log, key, k) || Delivers(d, key, k) ==> Delivered(log + [d], key, k)
  {
    if Delivered(log, key, k) {
      var i :| 0 <= i < |log| && Delivers(log[i], key, k);
      assert Delivers((log + [d])[i], key, k);
    }
    assert (log + [d])[|log|] == d;
  }

  lemma DeliveredMore<K>(log: seq<Delivery<K>>, d: Delivery<K>, key: K, size: nat)
    requires DeliveredTo(log, key, size)
    ensures DeliveredTo(log + [d], key, size)
    ensures d.key == key && d.start <= size < d.end ==> DeliveredTo(log + [d], key, d.end)
  {
    forall k: nat ensures Delivered(log, key, k) || Delivers(d, key, k) ==> Delivered(log + [d], key, k) {
      DeliveryAdds(log, d, key, k);
    }
  }

  /** How far each rule was read without a gap. */
  ghost predicate OffsetsSound(bodies: map<string, Text>, offsets: map<string, nat>, log: seq<Delivery<string>>) {
    forall id :: id in offsets ==> id in bodies && offsets[id] <= |bodies[id]| && DeliveredTo(log, id, offsets[id])
  }

  /** What is cached was read to its end. */
  ghost predicate CacheSound(bodies: map<string, Text>, cache: map<string, Text>, log: seq<Delivery<string>>) {
    forall id :: id in cache ==> id in bodies && cache[id] == bodies[id] && DeliveredTo(log, id, |bodies[id]|)
  }

  lemma OffsetsStaySound(bodies: map<string, Text>, offsets: map<string, nat>, cache: map<string, Text>,
      log: seq<Delivery<string>>, d: Delivery<string>)
    requires OffsetsSound(bodies, offsets, log) && CacheSound(bodies, cache, log)
    ensures OffsetsSound(bodies, offsets, log + [d]) && CacheSound(bodies, cache, log + [d])
  {
    forall id | id in offsets ensures DeliveredTo(log + [d], id, offsets[id]) {
      DeliveredMore(log, d, id, offsets[id]);
    }
    forall id | id in cache ensures DeliveredTo(log + [d], id, |bodies[id]|) {
      DeliveredMore(log, d, id, |bodies[id]|);
    }
  }

  class RuleReader {
    /** The rules of the catalog, as they can be read. */
    const bodies: map<string, Text>
    var readOffsets: map<string, nat>
    var cache: map<string, Text>
    ghost var log: seq<Delivery<string>>

    ghost predicate Valid()
      reads this
    {
      OffsetsSound(bodies, readOffsets, log) && CacheSound(bodies, cache, log)
    }

    constructor (bodies: map<string, Text>)
      ensures this.bodies == bodies && Valid() && readOffsets == map[] && cache == map[] && log == []
    {
      this.bodies, readOffsets, cache, log := bodies, map[], map[], [];
    }

    function ReadThrough(id: string): nat
      reads this
    {
      if id in readOffsets then readOffsets[id] else 0
    }

    method ReadRulePage(id: string, offset: int, encoded: Encoder) returns (r: PageResult)
      requires Valid()
      modifies this
      ensures Valid()
      ensures r.Returned? <==> id in bodies && ValidUtf8(bodies[id]) && 0 <= offset && Boundary(bodies[id], offset)
      ensures r.Returned? ==>
          r.page.offset == offset && IsPage(bodies[id], r.page) && log == old(log) + [Delivery(id, offset, End(r.page))]
      ensures r.Returned? ==>
        ReadThrough(id) == (if offset <= old(ReadThrough(id)) < End(r.page) then End(r.page) else old(ReadThrough(id)))
      ensures r.Returned? ==>
          forall other ::
            other != id ==> ReadThrough(other) == old(ReadThrough(other)) && (other in cache <==> other in old(cache))
      ensures r.Returned? ==> (id in cache <==> id in old(cache) || ReadThrough(id) == |bodies[id]|)
      ensures r.BadOffset? ==> readOffsets == old(readOffsets) && cache == old(cache) && log == old(log)
    {
      if id !in bodies {
        return BadOffset;
      }
      var value := bodies[id];
      if !ValidUtf8(value) {
        return BadOffset;
      }
      r := PageText(value, offset, encoded);
      if r.BadOffset? {
        return;
      }
      var prefix, end := ReadThrough(id), End(r.page);
      ghost var d := Delivery(id, r.page.offset, end);
      OffsetsStaySound(bodies, readOffsets, cache, log, d);
      DeliveredMore(log, d, id, prefix);
      log := log + [d];
      if offset <= prefix && end > prefix {
        readOffsets := readOffsets[id := end];
      }
      if ReadThrough(id) >= |value| {
        cache := cache[id := value];
      }
    }
  }
}

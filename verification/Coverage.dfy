/** What a reviewer must have read before an approval is accepted: every byte of both sources and of every rule. */
module Coverage {
  import opened Bytes
  import opened Utf8
  import opened Options
  import opened Sorting
  import opened Paging
  import Reviews

  datatype ByteRange = ByteRange(start: nat, end: nat)

  const START: ByteRange -> int := (r: ByteRange) => r.start

  ghost predicate Covers(ranges: seq<ByteRange>, k: nat) {
    exists i :: 0 <= i < |ranges| && ranges[i].start <= k < ranges[i].end
  }

  ghost predicate CoversTo(ranges: seq<ByteRange>, total: nat) {
    forall k :: 0 <= k < total ==> Covers(ranges, k)
  }

  ghost predicate Within(ranges: seq<ByteRange>, total: nat) {
    forall i :: 0 <= i < |ranges| ==> ranges[i].start <= ranges[i].end <= total
  }

  /** The sweep stops at a gap, and otherwise asks whether the end was reached. */
  method CoveredReviewBytes(ranges: seq<ByteRange>, total: nat) returns (covered: bool)
    ensures covered ==> CoversTo(ranges, total)
    ensures Within(ranges, total) && CoversTo(ranges, total) ==> covered
  {
    var sorted := SortSlice(ranges, START);
    SameCover(ranges, sorted, total);
    var end: nat := 0;
    for i := 0 to |sorted|
      invariant forall k :: 0 <= k < end ==> Covers(sorted, k)
      invariant forall j :: 0 <= j < i ==> sorted[j].end <= end
    {
      if sorted[i].start > end {
        GapIsUncovered(sorted, i, end, total);
        return false;
      }
      forall k | end <= k < sorted[i].end ensures Covers(sorted, k) {
        assert sorted[i].start <= k;
      }
      end := if end < sorted[i].end then sorted[i].end else end;
    }
    covered := end >= total;
    assert end < total ==> !Covers(sorted, end);
  }

  lemma GapIsUncovered(sorted: seq<ByteRange>, i: nat, end: nat, total: nat)
    requires SortedBy(sorted, START) && i < |sorted| && end < sorted[i].start
    requires forall j :: 0 <= j < i ==> sorted[j].end <= end
    ensures !Covers(sorted, end)
    ensures Within(sorted, total) ==> end < total
  {
    forall j | i <= j < |sorted| ensures end < sorted[j].start {
      assert i < j ==> START(sorted[i]) <= START(sorted[j]);
    }
  }

  lemma SameCover(ranges: seq<ByteRange>, sorted: seq<ByteRange>, total: nat)
    requires multiset(ranges) == multiset(sorted)
    ensures forall k :: Covers(ranges, k) <==> Covers(sorted, k)
    ensures Within(ranges, total) <==> Within(sorted, total)
  {
    assert forall i :: 0 <= i < |ranges| ==> ranges[i] in multiset(sorted);
    assert forall i :: 0 <= i < |sorted| ==> sorted[i] in multiset(ranges);
    forall k: nat ensures Covers(ranges, k) <==> Covers(sorted, k) {
      if i :| 0 <= i < |ranges| && ranges[i].start <= k < ranges[i].end {
        var j :| 0 <= j < |sorted| && sorted[j] == ranges[i];
      }
      if i :| 0 <= i < |sorted| && sorted[i].start <= k < sorted[i].end {
        var j :| 0 <= j < |ranges| && ranges[j] == sorted[i];
      }
    }
  }

  // ----- the reviewer that recovers from an incomplete answer -----

  const CATALOG := "catalog"
  const BEFORE_SOURCE := "before"
  const AFTER_SOURCE := "after"

  function RuleKey(id: string): string { "rule:" + id }

  /** The documents of one review: the catalog, both sources, and the rules by id. */
  datatype Dossier = Dossier(catalog: Text, before: Text, after: Text, rules: seq<(string, Text)>, needsCatalog: bool)

  /** The document a key stands for. */
  function Document(d: Dossier, key: string): Option<Text> {
    if key == CATALOG then Some(d.catalog)
    else if key == BEFORE_SOURCE then Some(d.before)
    else if key == AFTER_SOURCE then Some(d.after)
    else RuleBody(d.rules, key)
  }

  function RuleBody(rules: seq<(string, Text)>, key: string): Option<Text> {
    if rules == [] then None
    else if RuleKey(rules[0].0) == key then Some(rules[0].1)
    else RuleBody(rules[1..], key)
  }

  /** The documents an approval depends on. */
  function Needed(d: Dossier): seq<string> {
    (if d.needsCatalog then [CATALOG] else []) + [BEFORE_SOURCE, AFTER_SOURCE] + RuleKeys(d.rules)
  }

  function RuleKeys(rules: seq<(string, Text)>): (keys: seq<string>)
    ensures |keys| == |rules| && forall i :: 0 <= i < |rules| ==> keys[i] == RuleKey(rules[i].0)
  {
    if rules == [] then [] else [RuleKey(rules[0].0)] + RuleKeys(rules[1..])
  }

  lemma {:induction false} RuleBodyOf(rules: seq<(string, Text)>, i: nat)
    requires i < |rules| && forall j :: 0 <= j < i ==> rules[j].0 != rules[i].0
    ensures RuleBody(rules, RuleKey(rules[i].0)) == Some(rules[i].1)
  {
    if i > 0 {
      assert RuleKey(rules[0].0)[5..] == rules[0].0 && RuleKey(rules[i].0)[5..] == rules[i].0;
      RuleBodyOf(rules[1..], i - 1);
    }
  }

  predicate DistinctRules(d: Dossier) {
    forall i, j :: 0 <= i < j < |d.rules| ==> d.rules[i].0 != d.rules[j].0
  }

  function Documents(d: Dossier): string -> Option<Text> { (key: string) => Document(d, key) }

  /** Every byte of a document reached the reviewer. */
  ghost predicate FullyDelivered<K(!new)>(log: seq<Delivery<K>>, documents: K -> Option<Text>, key: K) {
    documents(key).Some? && DeliveredTo(log, key, |documents(key).value|)
  }

  ghost predicate RangesDelivered<K>(log: seq<Delivery<K>>, key: K, ranges: seq<ByteRange>) {
    forall i :: 0 <= i < |ranges| ==> Delivery(key, ranges[i].start, ranges[i].end) in log
  }

  ghost predicate ReadSound<K(!new)>(documents: K -> Option<Text>, read: map<K, seq<ByteRange>>,
      log: seq<Delivery<K>>) {
    forall key :: key in read ==>
      documents(key).Some? && Within(read[key], |documents(key).value|) && RangesDelivered(log, key, read[key])
  }

  lemma CoveredIsDelivered<K>(log: seq<Delivery<K>>, key: K, ranges: seq<ByteRange>, total: nat)
    requires RangesDelivered(log, key, ranges) && CoversTo(ranges, total)
    ensures DeliveredTo(log, key, total)
  {
    forall k | 0 <= k < total ensures Delivered(log, key, k) {
      assert Covers(ranges, k);
      var i :| 0 <= i < |ranges| && ranges[i].start <= k < ranges[i].end;
      assert Delivery(key, ranges[i].start, ranges[i].end) in log;
      var j :| 0 <= j < |log| && log[j] == Delivery(key, ranges[i].start, ranges[i].end);
      assert Delivers(log[j], key, k);
    }
  }

  function Recorded<K(==)>(read: map<K, seq<ByteRange>>, key: K, range: ByteRange): map<K, seq<ByteRange>> {
    read[key := (if key in read then read[key] else []) + [range]]
  }

  /** A recorded page adds its own bytes, to its own document. */
  lemma RecordingAdds<K(!new)>(read: map<K, seq<ByteRange>>, key: K, range: ByteRange, other: K, k: nat)
    ensures var next := Recorded(read, key, range);
      other in next && Covers(next[other], k) <==>
        (other in read && Covers(read[other], k)) || (other == key && range.start <= k < range.end)
  {
    var next := Recorded(read, key, range);
    if other == key {
      var before := if key in read then read[key] else [];
      assert next[key] == before + [range] && next[key][|before|] == range;
      if i :| 0 <= i < |before| && before[i].start <= k < before[i].end {
        assert next[key][i] == before[i];
      }
    }
  }

  lemma RecordingIsSound<K(!new)>(documents: K -> Option<Text>, read: map<K, seq<ByteRange>>, log: seq<Delivery<K>>,
      key: K, range: ByteRange)
    requires ReadSound(documents, read, log) && documents(key).Some?
    requires range.start <= range.end <= |documents(key).value|
    ensures ReadSound(documents, Recorded(read, key, range), log + [Delivery(key, range.start, range.end)])
  {
    var next, more := Recorded(read, key, range), log + [Delivery(key, range.start, range.end)];
    assert Delivery(key, range.start, range.end) in more;
    forall other | other in next
      ensures documents(other).Some? && Within(next[other], |documents(other).value|)
      ensures RangesDelivered(more, other, next[other])
    {
      assert other in read ==> RangesDelivered(log, other, read[other]);
    }
  }

  /** A page that ends where a rune does. */
  ghost predicate IsCut(text: Text, page: Page) {
    && End(page) <= |text| && page.content == text[page.offset..End(page)] && Boundary(text, End(page))
    && (page.complete <==> End(page) == |text|) && page.nextOffset == End(page) && page.totalBytes == |text|
  }

  method CutPage(text: Text, offset: int) returns (r: PageResult)
    ensures r.Returned? <==> 0 <= offset && Boundary(text, offset)
    ensures r.Returned? ==> r.page.offset == offset && IsCut(text, r.page) && |r.page.content| <= 24_576
    ensures r.Returned? && ValidUtf8(text) ==> Progresses(text, r.page)
  {
    if offset < 0 || offset > |text| || (offset < |text| && !RuneStart(text[offset])) {
      return BadOffset;
    }
    var from: nat := if |text| < offset + PAGE_BYTES then |text| else offset + PAGE_BYTES;
    var end := AlignDown(text, offset, from);
    if ValidUtf8(text) {
      AlignedIsNear(text, from, end);
    }
    return Returned(Page(text[offset..end], offset, end, end == |text|, |text|));
  }

  /** The documents are the sources of the review and the texts of its rules. */
  predicate IsAbout(d: Dossier, input: Reviews.ReviewInput) {
    && d.before == input.before && d.after == input.after && |d.rules| == |input.ruleIds|
    && forall i :: 0 <= i < |d.rules| ==> d.rules[i].0 == input.ruleIds[i]
  }

  function DossierOf(input: Reviews.ReviewInput, bodies: seq<Text>, catalog: Text, needsCatalog: bool): (d: Dossier)
    requires |bodies| == |input.ruleIds|
    ensures IsAbout(d, input) && forall i :: 0 <= i < |bodies| ==> d.rules[i].1 == bodies[i]
  {
    Dossier(catalog, input.before, input.after,
      seq(|bodies|, i requires 0 <= i < |bodies| => (input.ruleIds[i], bodies[i])), needsCatalog)
  }

  class ReviewRecovery {
    const input: Reviews.ReviewInput
    const dossier: Dossier
    var read: map<string, seq<ByteRange>>
    /** Everything any request or page has put before the reviewer. */
    ghost var log: seq<Delivery<string>>

    ghost predicate Valid()
      reads this
    {
      ReadSound(Documents(dossier), read, log) && IsAbout(dossier, input)
    }

    constructor (input: Reviews.ReviewInput, bodies: seq<Text>, catalog: Text, needsCatalog: bool)
      requires |bodies| == |input.ruleIds|
      ensures this.input == input && dossier == DossierOf(input, bodies, catalog, needsCatalog)
      ensures Valid() && read == map[] && log == []
    {
      this.input, dossier, read, log := input, DossierOf(input, bodies, catalog, needsCatalog), map[], [];
    }

    function RangesOf(key: string): seq<ByteRange>
      reads this
    {
      if key in read then read[key] else []
    }

    /** One page of a document; a position outside it, or inside a rune, is refused. */
    method ReadPage(key: string, offset: int) returns (r: PageResult)
      requires Valid()
      modifies this
      ensures Valid()
      ensures
        r.Returned? <==> Document(dossier, key).Some? && 0 <= offset && Boundary(Document(dossier, key).value, offset)
      ensures r.Returned? ==> r.page.offset == offset && IsCut(Document(dossier, key).value, r.page)
      ensures
        r.Returned? && ValidUtf8(Document(dossier, key).value) ==> Progresses(Document(dossier, key).value, r.page)
      ensures r.Returned? ==> log == old(log) + [Delivery(key, r.page.offset, End(r.page))]
      ensures r.Returned? ==> read == Recorded(old(read), key, ByteRange(r.page.offset, End(r.page)))
      ensures r.BadOffset? ==> read == old(read) && log == old(log)
    {
      var document := Document(dossier, key);
      if document.None? {
        return BadOffset;
      }
      r := CutPage(document.value, offset);
      if r.Returned? {
        var range := ByteRange(r.page.offset, End(r.page));
        RecordingIsSound(Documents(dossier), read, log, key, range);
        read := Recorded(read, key, range);
        log := log + [Delivery(key, range.start, range.end)];
      }
    }

    predicate WholeRead(key: string)
      reads this
    {
      Document(dossier, key).Some? ==> key in read && read[key] == [ByteRange(0, |Document(dossier, key).value|)]
    }

    method MarkRead(key: string)
      requires Valid()
      modifies `read, `log
      ensures Valid() && WholeRead(key) && old(log) <= log
      ensures forall other :: old(WholeRead(other)) ==> WholeRead(other)
    {
      hide Document, RangesDelivered;
      if Document(dossier, key).Some? {
        var size := |Document(dossier, key).value|;
        WholeIsSound(Documents(dossier), read, log, key, size);
        log := log + [Delivery(key, 0, size)];
        read := read[key := [ByteRange(0, size)]];
      }
    }

    /** A request whose manifest held every document in full was answered. */
    method MarkAllRead()
      requires Valid()
      modifies this
      ensures Valid() && old(log) <= log
      ensures forall key :: key in Needed(dossier) ==> WholeRead(key)
    {
      hide WholeRead, ReadSound, IsAbout, Document, Needed;
      ghost var before := log;
      var keys := [CATALOG, BEFORE_SOURCE, AFTER_SOURCE] + RuleKeys(dossier.rules);
      for i := 0 to |keys|
        invariant Valid() && before <= log
        invariant forall j :: 0 <= j < i ==> WholeRead(keys[j])
      {
        MarkRead(keys[i]);
      }
      NeededKeys(dossier, keys);
    }

    method CoversDocument(key: string) returns (covered: bool)
      requires Valid() && Document(dossier, key).Some?
      ensures covered <==> CoversTo(RangesOf(key), |Document(dossier, key).value|)
      ensures covered ==> FullyDelivered(log, Documents(dossier), key)
    {
      hide Document, CoversTo;
      covered := CoveredReviewBytes(RangesOf(key), |Document(dossier, key).value|);
      if covered {
        CoveredIsDelivered(log, key, RangesOf(key), |Document(dossier, key).value|);
      }
    }

    ghost predicate ReadFully(key: string)
      reads this
    {
      Document(dossier, key).Some? && CoversTo(RangesOf(key), |Document(dossier, key).value|)
    }

    ghost predicate ReadEverything()
      reads this
    {
      forall i :: 0 <= i < |Needed(dossier)| ==> ReadFully(Needed(dossier)[i])
    }

    /** Every document an approval depends on was read without a gap. */
    method CompleteRead() returns (complete: bool)
      requires Valid()
      ensures complete <==> ReadEverything()
      ensures complete ==>
          forall i :: 0 <= i < |Needed(dossier)| ==> FullyDelivered(log, Documents(dossier), Needed(dossier)[i])
    {
      hide CoversTo, FullyDelivered, Document, Needed, ReadSound;
      var keys := Needed(dossier);
      for i := 0 to |keys|
        invariant forall j :: 0 <= j < i ==> ReadFully(keys[j])
        invariant forall j :: 0 <= j < i ==> FullyDelivered(log, Documents(dossier), keys[j])
      {
        if Document(dossier, keys[i]).None? {
          return false;
        }
        var covered := CoversDocument(keys[i]);
        if !covered {
          return false;
        }
      }
      return true;
    }

    /** The final answer counts once everything was read and the recorded findings make a complete review. */
    method AcceptFinal(findings: Reviews.Findings) returns (result: Reviews.ParseResult)
      requires Valid() && DistinctRules(dossier)
      ensures result == if ReadEverything() then Reviews.Parse(input, findings) else Reviews.Malformed
      ensures result.Parsed? ==>
        DeliveredTo(log, BEFORE_SOURCE, |input.before|) && DeliveredTo(log, AFTER_SOURCE, |input.after|)
      ensures result.Parsed? ==>
        forall i :: 0 <= i < |input.ruleIds| ==> DeliveredTo(log, RuleKey(input.ruleIds[i]), |dossier.rules[i].1|)
    {
      var complete := CompleteRead();
      if !complete {
        return Reviews.Malformed;
      }
      NeededIsEverything(log, dossier);
      result := Reviews.ParseIndependentReview(findings, input);
    }
  }

  lemma WholeIsSound(documents: string -> Option<Text>, read: map<string, seq<ByteRange>>,
      log: seq<Delivery<string>>, key: string, size: nat)
    requires ReadSound(documents, read, log) && documents(key).Some? && size == |documents(key).value|
    ensures ReadSound(documents, read[key := [ByteRange(0, size)]], log + [Delivery(key, 0, size)])
  {
    var next, more := read[key := [ByteRange(0, size)]], log + [Delivery(key, 0, size)];
    assert Delivery(key, 0, size) in more;
    forall other | other in next
      ensures documents(other).Some? && Within(next[other], |documents(other).value|)
      ensures RangesDelivered(more, other, next[other])
    {
      assert other in read ==> RangesDelivered(log, other, read[other]);
    }
  }

  lemma NeededKeys(d: Dossier, keys: seq<string>)
    requires keys == [CATALOG, BEFORE_SOURCE, AFTER_SOURCE] + RuleKeys(d.rules)
    ensures forall key :: key in Needed(d) ==> exists j :: 0 <= j < |keys| && keys[j] == key
  {
    forall key | key in Needed(d) ensures exists j :: 0 <= j < |keys| && keys[j] == key {
      assert keys[0] == CATALOG && keys[1] == BEFORE_SOURCE && keys[2] == AFTER_SOURCE;
      if key in RuleKeys(d.rules) {
        var i :| 0 <= i < |d.rules| && RuleKeys(d.rules)[i] == key;
        assert keys[3 + i] == key;
      }
    }
  }

  /** With distinct ids, the document behind a rule's key is that rule. */
  lemma RuleDocument(d: Dossier, i: nat)
    requires DistinctRules(d) && i < |d.rules|
    ensures Document(d, RuleKey(d.rules[i].0)) == Some(d.rules[i].1)
  {
    assert RuleKey(d.rules[i].0)[0] == 'r';
    RuleBodyOf(d.rules, i);
  }

  /** An accepted recovery review saw every byte of both sources and of every rule. */
  lemma NeededIsEverything(log: seq<Delivery<string>>, d: Dossier)
    requires DistinctRules(d)
    requires forall i :: 0 <= i < |Needed(d)| ==> FullyDelivered(log, Documents(d), Needed(d)[i])
    ensures DeliveredTo(log, BEFORE_SOURCE, |d.before|) && DeliveredTo(log, AFTER_SOURCE, |d.after|)
    ensures d.needsCatalog ==> DeliveredTo(log, CATALOG, |d.catalog|)
    ensures forall i :: 0 <= i < |d.rules| ==> DeliveredTo(log, RuleKey(d.rules[i].0), |d.rules[i].1|)
  {
    var first := if d.needsCatalog then [CATALOG] else [];
    assert Needed(d)[|first|] == BEFORE_SOURCE && Needed(d)[|first| + 1] == AFTER_SOURCE;
    assert d.needsCatalog ==> Needed(d)[0] == CATALOG;
    forall i | 0 <= i < |d.rules| ensures DeliveredTo(log, RuleKey(d.rules[i].0), |d.rules[i].1|) {
      assert Needed(d)[|first| + 2 + i] == RuleKey(d.rules[i].0);
      RuleDocument(d, i);
    }
  }
}

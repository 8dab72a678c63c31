/**
 * Exact-edit substitution: the checks every implementation makes, and the one text they all build,
 * whether they write it left to right or splice it from the right, in whatever order the edits come.
 */
module Substitution {
  import opened Bytes
  import opened Lists
  import opened Utf8
  import opened Scripts
  import opened Sorting

  datatype Attribution = Attribution(itemId: string, beforeText: Text, afterText: Text)

  datatype Edit = Edit(oldText: Text, newText: Text, itemIds: seq<string>, attributions: seq<Attribution>)

  /** An edit and where its anchor stands in the original. */
  datatype Located = Located(start: nat, edit: Edit)

  datatype TextResult = Ok(text: Text) | Rejected

  const NUL: byte := 0
  const CARRIAGE_RETURN: byte := 13

  // ----- what is checked -----

  /** The anchor is nonempty and occurs exactly once. */
  predicate Anchored(original: Text, edit: Edit) {
    edit.oldText != [] && Index(original, edit.oldText) >= 0
    && Index(original, edit.oldText) == LastIndex(original, edit.oldText)
  }

  function At(original: Text, edit: Edit): nat
    requires Anchored(original, edit)
  {
    Index(original, edit.oldText)
  }

  predicate Apart(original: Text, a: Edit, b: Edit)
    requires Anchored(original, a) && Anchored(original, b)
  {
    At(original, a) + |a.oldText| <= At(original, b) || At(original, b) + |b.oldText| <= At(original, a)
  }

  /** Unique anchors that do not overlap. */
  ghost predicate Replaceable(original: Text, edits: seq<Edit>) {
    && (forall i :: 0 <= i < |edits| ==> Anchored(original, edits[i]))
    && (forall i, j :: 0 <= i < j < |edits| ==> Apart(original, edits[i], edits[j]))
  }

  predicate RealChange(edit: Edit) {
    edit.oldText != [] && edit.oldText != edit.newText && ValidUtf8(edit.oldText) && ValidUtf8(edit.newText)
  }

  ghost predicate ExactEdits(original: Text, edits: seq<Edit>) {
    edits != [] && (forall i :: 0 <= i < |edits| ==> RealChange(edits[i])) && Replaceable(original, edits)
  }

  /** The spans of the edits checked so far, which are anchored and apart. */
  ghost predicate Checked(original: Text, edits: seq<Edit>, spans: seq<(nat, nat)>) {
    && |spans| == |edits| && Replaceable(original, edits)
    && forall k :: 0 <= k < |edits| ==> spans[k] == SpanOf(original, edits[k])
  }

  function SpanOf(original: Text, edit: Edit): (nat, nat) {
    var start := if Index(original, edit.oldText) < 0 then 0 else Index(original, edit.oldText);
    (start, start + |edit.oldText|)
  }

  lemma SpanAdded(original: Text, edits: seq<Edit>, spans: seq<(nat, nat)>, i: nat)
    requires i < |edits| && Checked(original, edits[..i], spans) && Anchored(original, edits[i])
    ensures Replaceable(original, edits[..i + 1]) <==>
      forall k :: 0 <= k < |spans| ==>
        !(SpanOf(original, edits[i]).0 < spans[k].1 && spans[k].0 < SpanOf(original, edits[i]).1)
    ensures
      Replaceable(original, edits[..i + 1]) ==> Checked(original, edits[..i + 1], spans + [SpanOf(original, edits[i])])
  {
    hide Index, OccursAt;
    var front, next := edits[..i], edits[..i + 1];
    assert next[i] == edits[i] && forall k :: 0 <= k < i ==> next[k] == front[k];
    if Replaceable(original, next) {
      forall k | 0 <= k < |spans|
        ensures !(SpanOf(original, edits[i]).0 < spans[k].1 && spans[k].0 < SpanOf(original, edits[i]).1)
      {
        assert Apart(original, next[k], next[i]);
      }
    }
  }

  lemma ReplaceableFront(original: Text, edits: seq<Edit>, i: nat)
    requires i <= |edits|
    ensures Replaceable(original, edits) ==> Replaceable(original, edits[..i])
  {
    hide Anchored, Apart;
    assert forall k :: 0 <= k < i ==> edits[..i][k] == edits[k];
  }

  method ValidateExactEdits(edits: seq<Edit>, original: Text) returns (ok: bool)
    ensures ok <==> ExactEdits(original, edits)
  {
    hide ValidUtf8, OccursAt, Replaceable;
    if |edits| == 0 {
      return false;
    }
    var spans: seq<(nat, nat)> := [];
    NoneChecked(original);
    for i := 0 to |edits|
      invariant Checked(original, edits[..i], spans)
      invariant forall k :: 0 <= k < i ==> RealChange(edits[k])
    {
      var edit := edits[i];
      if !RealChange(edit) {
        return false;
      }
      var start := Index(original, edit.oldText);
      if start < 0 || start != LastIndex(original, edit.oldText) {
        NotReplaceable(original, edits, i);
        return false;
      }
      SpanAdded(original, edits, spans, i);
      ReplaceableFront(original, edits, i + 1);
      var prior := OverlapsPrior(spans, start, start + |edit.oldText|);
      if prior {
        return false;
      }
      spans := spans + [(start, start + |edit.oldText|)];
    }
    assert edits[..|edits|] == edits;
    return true;
  }

  lemma NoneChecked(original: Text)
    ensures Checked(original, [], [])
  {
  }

  lemma NotReplaceable(original: Text, edits: seq<Edit>, i: nat)
    requires i < |edits| && !Anchored(original, edits[i])
    ensures !Replaceable(original, edits)
  {
  }

  method OverlapsPrior(spans: seq<(nat, nat)>, start: nat, end: nat) returns (overlaps: bool)
    ensures overlaps <==> exists k :: 0 <= k < |spans| && start < spans[k].1 && spans[k].0 < end
  {
    for k := 0 to |spans|
      invariant forall l :: 0 <= l < k ==> !(start < spans[l].1 && spans[l].0 < end)
    {
      if start < spans[k].1 && spans[k].0 < end {
        return true;
      }
    }
    return false;
  }

  // ----- the one text -----

  function Spot(original: Text, edit: Edit): Located {
    Located(if Index(original, edit.oldText) < 0 then 0 else Index(original, edit.oldText), edit)
  }

  function Locate(original: Text, edits: seq<Edit>): (located: seq<Located>)
    ensures |located| == |edits| && forall i :: 0 <= i < |edits| ==> located[i] == Spot(original, edits[i])
  {
    Map((e: Edit) => Spot(original, e), edits)
  }

  const UP: Located -> int := (l: Located) => l.start
  const DOWN: Located -> int := (l: Located) => -(l.start as int)

  function Arrange(located: seq<Located>): (sorted: seq<Located>)
    ensures SortedBy(sorted, UP) && multiset(sorted) == multiset(located)
  {
    if located == [] then []
    else
      var front := Arrange(located[..|located| - 1]);
      InsertKeepsSorted(front, located[|located| - 1], UP);
      assert located == located[..|located| - 1] + [located[|located| - 1]];
      InsertBy(front, located[|located| - 1], UP)
  }

  function AsReplacement(l: Located): Replacement {
    Replacement(l.start, l.start + |l.edit.oldText|, l.edit.newText)
  }

  function Replacing(located: seq<Located>): (reps: seq<Replacement>)
    ensures |reps| == |located| && forall i :: 0 <= i < |located| ==> reps[i] == AsReplacement(located[i])
  {
    Map(AsReplacement, located)
  }

  /** What holds of any arrangement of located, disjoint anchors. */
  ghost predicate Disjoint(original: Text, located: seq<Located>) {
    && (forall i ::
          0 <= i < |located| ==>
            located[i].edit.oldText != [] && OccursAt(original, located[i].edit.oldText, located[i].start))
    && (forall i, j :: 0 <= i < |located| && 0 <= j < |located| && i != j ==>
          || located[i].start + |located[i].edit.oldText| <= located[j].start
          || located[j].start + |located[j].edit.oldText| <= located[i].start)
  }

  lemma SpotIsAnchor(original: Text, edit: Edit)
    requires Anchored(original, edit)
    ensures Spot(original, edit) == Located(At(original, edit), edit)
    ensures OccursAt(original, edit.oldText, Spot(original, edit).start)
  {
  }

  lemma LocatedAreDisjoint(original: Text, edits: seq<Edit>)
    requires Replaceable(original, edits)
    ensures Disjoint(original, Locate(original, edits)) && DistinctKeys(Locate(original, edits), UP)
  {
    hide OccursAt, Index;
    var located := Locate(original, edits);
    forall i | 0 <= i < |located|
      ensures located[i] == Located(At(original, edits[i]), edits[i])
      ensures OccursAt(original, edits[i].oldText, located[i].start)
    {
      SpotIsAnchor(original, edits[i]);
    }
    forall i, j | 0 <= i < j < |located|
      ensures
        || located[i].start + |located[i].edit.oldText| <= located[j].start
        || located[j].start + |located[j].edit.oldText| <= located[i].start
    {
      assert Apart(original, edits[i], edits[j]);
    }
  }

  lemma PermutedAreDisjoint(original: Text, located: seq<Located>, other: seq<Located>)
    requires Disjoint(original, located) && DistinctKeys(located, UP) && multiset(located) == multiset(other)
    ensures Disjoint(original, other)
  {
    PermutedKeys(located, other, UP);
    assert forall i :: 0 <= i < |other| ==> other[i] in multiset(located);
  }

  /** Sorted disjoint anchors are an ordered list of replacements. */
  lemma SortedAreOrdered(original: Text, located: seq<Located>)
    requires Disjoint(original, located) && SortedBy(located, UP)
    ensures Ordered(|original|, Replacing(located))
  {
    var reps := Replacing(located);
    forall i, j | 0 <= i < j < |reps| ensures reps[i].end <= reps[j].start {
      assert UP(located[i]) <= UP(located[j]);
    }
    PairwiseIsOrdered(|original|, reps);
  }

  lemma {:induction false} PairwiseIsOrdered(size: nat, reps: seq<Replacement>)
    requires forall i :: 0 <= i < |reps| ==> reps[i].start <= reps[i].end <= size
    requires forall i, j :: 0 <= i < j < |reps| ==> reps[i].end <= reps[j].start
    ensures Ordered(size, reps)
  {
    if reps != [] {
      PairwiseIsOrdered(size, WithoutLast(reps));
    }
  }

  /** The edits of the original, made all at once; replaceable edits are always in order once arranged. */
  ghost function Candidate(original: Text, edits: seq<Edit>): Text {
    var reps := Replacing(Arrange(Locate(original, edits)));
    if Ordered(|original|, reps) then ReplaceAll(original, reps) else original
  }

  /** Every sorted permutation of the located edits is the arrangement the candidate is built from. */
  lemma ArrangementIsUnique(original: Text, edits: seq<Edit>, sorted: seq<Located>)
    requires Replaceable(original, edits)
    requires SortedBy(sorted, UP) && multiset(sorted) == multiset(Locate(original, edits))
    ensures sorted == Arrange(Locate(original, edits))
    ensures Disjoint(original, sorted) && Ordered(|original|, Replacing(sorted))
    ensures ReplaceAll(original, Replacing(sorted)) == Candidate(original, edits)
  {
    var located := Locate(original, edits);
    LocatedAreDisjoint(original, edits);
    PermutedKeys(located, sorted, UP);
    SortedIsUnique(sorted, Arrange(located), UP);
    PermutedAreDisjoint(original, located, sorted);
    SortedAreOrdered(original, sorted);
  }

  // ----- the order of the edits does not matter -----

  /** Any two lists that hold the same edits are replaceable together and give the same text. */
  lemma OrderDoesNotMatter(original: Text, edits: seq<Edit>, others: seq<Edit>)
    requires Replaceable(original, edits) && multiset(edits) == multiset(others)
    ensures Replaceable(original, others) && Candidate(original, others) == Candidate(original, edits)
  {
    MapPermutes((e: Edit) => Spot(original, e), edits, others);
    PermutedIsReplaceable(original, edits, others);
    ArrangementIsUnique(original, edits, Arrange(Locate(original, others)));
  }

  lemma PermutedIsReplaceable(original: Text, edits: seq<Edit>, others: seq<Edit>)
    requires Replaceable(original, edits) && multiset(edits) == multiset(others)
    requires multiset(Locate(original, edits)) == multiset(Locate(original, others))
    ensures Replaceable(original, others)
  {
    assert forall i :: 0 <= i < |others| ==> others[i] in multiset(edits);
    LocatedAreDisjoint(original, edits);
    PermutedAreDisjoint(original, Locate(original, edits), Locate(original, others));
    var located := Locate(original, others);
    forall i, j | 0 <= i < j < |others| ensures Apart(original, others[i], others[j]) {
      assert located[i] == Spot(original, others[i]) && located[j] == Spot(original, others[j]);
    }
  }

  lemma MapWithout<A, B>(f: A -> B, s: seq<A>, k: nat)
    requires k < |s|
    ensures Map(f, Without(s, k)) == Without(Map(f, s), k)
  {
    hide Map;
    assert Map(f, Without(s, k)) == Without(Map(f, s), k);
  }

  lemma {:induction false} MapPermutes<A, B>(f: A -> B, s: seq<A>, t: seq<A>)
    requires multiset(s) == multiset(t)
    ensures multiset(Map(f, s)) == multiset(Map(f, t))
    decreases |s|
  {
    if s == [] {
      assert |t| == |multiset(t)| == 0;
    } else {
      assert s[0] in multiset(t);
      var k :| 0 <= k < |t| && t[k] == s[0];
      WithoutCounts(s, 0);
      WithoutCounts(t, k);
      MapPermutes(f, Without(s, 0), Without(t, k));
      MapWithout(f, s, 0);
      MapWithout(f, t, k);
      WithoutCounts(Map(f, s), 0);
      WithoutCounts(Map(f, t), k);
      PutBack(multiset(Map(f, s)), multiset(Map(f, t)), f(s[0]));
    }
  }

  lemma PutBack<T>(m: multiset<T>, n: multiset<T>, x: T)
    requires x in m && x in n && m - multiset{x} == n - multiset{x}
    ensures m == n
  {
    assert m == m - multiset{x} + multiset{x};
  }

  // ----- the implementations -----

  /** Splices a descending arrangement into the original, one edit after the other. */
  method SpliceDown(original: Text, edits: seq<Edit>, spans: seq<Located>) returns (result: Text)
    requires Replaceable(original, edits)
    requires SortedBy(spans, DOWN) && multiset(spans) == multiset(Locate(original, edits))
    ensures result == Candidate(original, edits)
  {
    ghost var reversed := DescendingIsReversed(original, edits, spans);
    result := SpliceEach(original, spans, reversed);
  }

  method SpliceEach(original: Text, spans: seq<Located>, ghost reversed: seq<Located>) returns (result: Text)
    requires |reversed| == |spans| && forall i :: 0 <= i < |reversed| ==> reversed[i] == spans[|spans| - 1 - i]
    requires Ordered(|original|, Replacing(reversed))
    ensures result == ReplaceAll(original, Replacing(reversed))
  {
    hide Ordered, ReplaceAll, Built;
    ghost var reps := Replacing(reversed);
    result := original;
    for i := 0 to |spans|
      invariant Pending(result, reps[..|spans| - i]) == Pending(original, reps[..|spans|])
    {
      assert reps[..|spans|] == reps;
      PendingStep(result, reps, |spans| - i);
      assert reps[|spans| - i - 1] == AsReplacement(spans[i]);
      result := result[..spans[i].start] + spans[i].edit.newText + result[spans[i].start + |spans[i].edit.oldText|..];
    }
    assert reps[..|spans|] == reps && reps[..0] == [];
    NothingPending(result);
  }

  lemma NothingPending(text: Text)
    ensures Pending(text, []) == Ok(text)
  {
  }

  /** The text that making the remaining replacements will give. */
  ghost function Pending(text: Text, rest: seq<Replacement>): TextResult {
    if Ordered(|text|, rest) then Ok(ReplaceAll(text, rest)) else Rejected
  }

  lemma PendingStep(text: Text, reps: seq<Replacement>, left: nat)
    requires 0 < left <= |reps| && Pending(text, reps[..left]).Ok?
    ensures reps[left - 1].start <= reps[left - 1].end <= |text|
    ensures Pending(Splice(text, reps[left - 1]), reps[..left - 1]) == Pending(text, reps[..left])
  {
    assert WithoutLast(reps[..left]) == reps[..left - 1];
    SpliceLastFirst(text, reps[..left]);
  }

  /** Read backwards, a descending arrangement is the ordered list of replacements. */
  lemma DescendingIsReversed(original: Text, edits: seq<Edit>, spans: seq<Located>) returns (reversed: seq<Located>)
    requires Replaceable(original, edits)
    requires SortedBy(spans, DOWN) && multiset(spans) == multiset(Locate(original, edits))
    ensures |reversed| == |spans| && forall i :: 0 <= i < |reversed| ==> reversed[i] == spans[|spans| - 1 - i]
    ensures Ordered(|original|, Replacing(reversed))
    ensures ReplaceAll(original, Replacing(reversed)) == Candidate(original, edits)
  {
    reversed := Reversed(spans);
    ReversedHolds(spans);
    ReversedIsSorted(spans, reversed);
    ArrangementIsUnique(original, edits, reversed);
  }

  lemma ReversedIsSorted(spans: seq<Located>, reversed: seq<Located>)
    requires SortedBy(spans, DOWN)
    requires |reversed| == |spans| && forall i :: 0 <= i < |reversed| ==> reversed[i] == spans[|spans| - 1 - i]
    ensures SortedBy(reversed, UP)
  {
    forall i, j | 0 <= i < j < |reversed| ensures UP(reversed[i]) <= UP(reversed[j]) {
      assert DOWN(spans[|spans| - 1 - j]) <= DOWN(spans[|spans| - 1 - i]);
    }
  }

  function Reversed<T>(s: seq<T>): seq<T> {
    if s == [] then [] else Reversed(s[1..]) + [s[0]]
  }

  lemma {:induction false} ReversedHolds<T>(s: seq<T>)
    ensures |Reversed(s)| == |s| && multiset(Reversed(s)) == multiset(s)
    ensures forall i :: 0 <= i < |s| ==> Reversed(s)[i] == s[|s| - 1 - i]
  {
    if s != [] {
      ReversedHolds(s[1..]);
      assert s == [s[0]] + s[1..];
    }
  }

  method LocateAll(original: Text, edits: seq<Edit>) returns (located: seq<Located>)
    requires forall i :: 0 <= i < |edits| ==> Anchored(original, edits[i])
    ensures located == Locate(original, edits)
  {
    located := [];
    for i := 0 to |edits|
      invariant located == Locate(original, edits)[..i]
    {
      located := located + [Located(Index(original, edits[i].oldText), edits[i])];
    }
  }

  /** The editor's own view of its staged work. */
  method MaterializeEdits(original: Text, edits: seq<Edit>) returns (r: TextResult)
    ensures edits == [] ==> r == Ok(original)
    ensures edits != [] ==> (r.Ok? <==> ExactEdits(original, edits))
    ensures edits != [] && r.Ok? ==> r.text == Candidate(original, edits)
  {
    if |edits| == 0 {
      return Ok(original);
    }
    var valid := ValidateExactEdits(edits, original);
    if !valid {
      return Rejected;
    }
    var located := LocateAll(original, edits);
    var ordered := SortSlice(located, DOWN);
    var result := SpliceDown(original, edits, ordered);
    return Ok(result);
  }

  /** The text the independent reviewer is sent. */
  method ReviewCandidateText(original: Text, edits: seq<Edit>) returns (r: TextResult)
    ensures r.Ok? <==> ExactEdits(original, edits)
    ensures r.Ok? ==> r.text == Candidate(original, edits)
  {
    var valid := ValidateExactEdits(edits, original);
    if !valid {
      return Rejected;
    }
    var located := LocateAll(original, edits);
    var spans := SortSlice(located, DOWN);
    var result := SpliceDown(original, edits, spans);
    return Ok(result);
  }

  /** One file of a solution candidate; replacements must also be free of NUL. */
  method ApplyFileEdits(original: Text, edits: seq<Edit>) returns (r: TextResult)
    ensures r.Ok? <==> ExactEdits(original, edits) && forall i :: 0 <= i < |edits| ==> NUL !in edits[i].newText
    ensures r.Ok? ==> r.text == Candidate(original, edits)
  {
    var valid := ValidateExactEdits(edits, original);
    if !valid {
      return Rejected;
    }
    for i := 0 to |edits|
      invariant forall k :: 0 <= k < i ==> NUL !in edits[k].newText
    {
      if NUL in edits[i].newText {
        return Rejected;
      }
    }
    var located := LocateAll(original, edits);
    var ordered := SortSlice(located, DOWN);
    var candidate := SpliceDown(original, edits, ordered);
    return Ok(candidate);
  }

  /** The runner's own application refuses carriage returns, NUL, no-ops as a whole and emptied files. */
  predicate Applicable(edit: Edit) {
    edit.oldText != [] && edit.oldText != edit.newText
    && CARRIAGE_RETURN !in edit.oldText && CARRIAGE_RETURN !in edit.newText
    && NUL !in edit.newText && ValidUtf8(edit.newText)
  }

  method ApplyEdits(text: Text, edits: seq<Edit>, blank: Text -> bool) returns (r: TextResult)
    ensures r.Ok? <==>
      edits != [] && (forall i :: 0 <= i < |edits| ==> Applicable(edits[i])) && Replaceable(text, edits)
      && Candidate(text, edits) != text && !blank(Candidate(text, edits))
    ensures r.Ok? ==> r.text == Candidate(text, edits)
  {
    if |edits| == 0 {
      return Rejected;
    }
    for i := 0 to |edits|
      invariant forall k :: 0 <= k < i ==> Applicable(edits[k]) && Anchored(text, edits[k])
    {
      if !Applicable(edits[i]) || !Anchored(text, edits[i]) {
        return Rejected;
      }
    }
    var located := LocateAll(text, edits);
    var spans := SortSlice(located, UP);
    var apart := NoneOverlap(text, edits, spans);
    if !apart {
      return Rejected;
    }
    var down := SortSlice(spans, DOWN);
    var result := SpliceDown(text, edits, down);
    if result == text || blank(result) {
      return Rejected;
    }
    return Ok(result);
  }

  /** In sorted order it is enough to compare neighbours. */
  method NoneOverlap(text: Text, edits: seq<Edit>, spans: seq<Located>) returns (apart: bool)
    requires forall i :: 0 <= i < |edits| ==> Anchored(text, edits[i])
    requires SortedBy(spans, UP) && multiset(spans) == multiset(Locate(text, edits))
    ensures apart <==> Replaceable(text, edits)
  {
    var i := 1;
    while i < |spans|
      invariant 1 <= i
      invariant
        forall k, l :: 0 <= k < l < i && l < |spans| ==> spans[k].start + |spans[k].edit.oldText| <= spans[l].start
    {
      if spans[i].start < spans[i - 1].start + |spans[i - 1].edit.oldText| {
        OverlapIsFound(text, edits, spans, i);
        return false;
      }
      i := i + 1;
    }
    ApartWhenSorted(text, edits, spans);
    return true;
  }

  lemma OverlapIsFound(text: Text, edits: seq<Edit>, spans: seq<Located>, i: nat)
    requires forall k :: 0 <= k < |edits| ==> Anchored(text, edits[k])
    requires SortedBy(spans, UP) && multiset(spans) == multiset(Locate(text, edits))
    requires 0 < i < |spans| && spans[i].start < spans[i - 1].start + |spans[i - 1].edit.oldText|
    ensures !Replaceable(text, edits)
  {
    if Replaceable(text, edits) {
      assert UP(spans[i - 1]) <= UP(spans[i]);
      ArrangementIsUnique(text, edits, spans);
    }
  }

  lemma ApartPair(text: Text, edits: seq<Edit>, spans: seq<Located>, i: nat, j: nat)
    requires forall k :: 0 <= k < |edits| ==> Anchored(text, edits[k])
    requires multiset(spans) == multiset(Locate(text, edits)) && DistinctKeys(Locate(text, edits), UP)
    requires forall k, l :: 0 <= k < l < |spans| ==> spans[k].start + |spans[k].edit.oldText| <= spans[l].start
    requires i < j < |edits|
    ensures Apart(text, edits[i], edits[j])
  {
    hide OccursAt, Index;
    var located := Locate(text, edits);
    SpotIsAnchor(text, edits[i]);
    SpotIsAnchor(text, edits[j]);
    assert located[i] in multiset(spans) && located[j] in multiset(spans);
    var k :| 0 <= k < |spans| && spans[k] == located[i];
    var l :| 0 <= l < |spans| && spans[l] == located[j];
    assert UP(located[i]) != UP(located[j]);
  }

  lemma ApartWhenSorted(text: Text, edits: seq<Edit>, spans: seq<Located>)
    requires forall k :: 0 <= k < |edits| ==> Anchored(text, edits[k])
    requires multiset(spans) == multiset(Locate(text, edits))
    requires forall k, l :: 0 <= k < l < |spans| ==> spans[k].start + |spans[k].edit.oldText| <= spans[l].start
    ensures Replaceable(text, edits)
  {
    hide OccursAt, Index;
    var located := Locate(text, edits);
    forall k | 0 <= k < |spans| ensures spans[k].edit.oldText != [] {
      assert spans[k] in multiset(located);
    }
    PermutedKeys(spans, located, UP);
    forall i, j | 0 <= i < j < |edits| ensures Apart(text, edits[i], edits[j]) {
      ApartPair(text, edits, spans, i, j);
    }
  }

  /** The builder that writes the text from left to right, refusing anchors that overlap. */
  method BuildUp(before: Text, edits: seq<Edit>) returns (r: TextResult, ordered: seq<Located>)
    ensures r.Ok? <==> Replaceable(before, edits)
    ensures r.Ok? ==> r.text == Candidate(before, edits) && ordered == Arrange(Locate(before, edits))
  {
    for i := 0 to |edits|
      invariant forall k :: 0 <= k < i ==> Anchored(before, edits[k])
    {
      if !Anchored(before, edits[i]) {
        return Rejected, [];
      }
    }
    var located := LocateAll(before, edits);
    ordered := SortSlice(located, UP);
    r := WriteUp(before, edits, ordered);
  }

  /** One more replacement behind those already written. */
  lemma WriteStep(before: Text, reps: seq<Replacement>, i: nat)
    requires i < |reps| && Ordered(|before|, reps[..i]) && End(reps[..i]) <= reps[i].start <= reps[i].end <= |before|
    ensures Ordered(|before|, reps[..i + 1]) && End(reps[..i + 1]) == reps[i].end
    ensures
      Built(before, reps[..i + 1]) == Built(before, reps[..i]) + before[End(reps[..i])..reps[i].start] + reps[i].text
  {
    assert WithoutLast(reps[..i + 1]) == reps[..i] && Last(reps[..i + 1]) == reps[i];
  }

  /** Written to the end without an overlap, the anchors are apart and the text is the candidate. */
  lemma WrittenUp(before: Text, edits: seq<Edit>, ordered: seq<Located>)
    requires forall i :: 0 <= i < |edits| ==> Anchored(before, edits[i])
    requires SortedBy(ordered, UP) && multiset(ordered) == multiset(Locate(before, edits))
    requires Ordered(|before|, Replacing(ordered))
    ensures Replaceable(before, edits) && ordered == Arrange(Locate(before, edits))
    ensures ReplaceAll(before, Replacing(ordered)) == Candidate(before, edits)
  {
    hide OccursAt, Index, Anchored;
    var reps := Replacing(ordered);
    OrderedIsPairwise(|before|, reps);
    forall k, l | 0 <= k < l < |ordered| ensures ordered[k].start + |ordered[k].edit.oldText| <= ordered[l].start {
      assert reps[k].end <= reps[l].start;
    }
    ApartWhenSorted(before, edits, ordered);
    ArrangementIsUnique(before, edits, ordered);
  }

  method WriteUp(before: Text, edits: seq<Edit>, ordered: seq<Located>) returns (r: TextResult)
    requires forall i :: 0 <= i < |edits| ==> Anchored(before, edits[i])
    requires SortedBy(ordered, UP) && multiset(ordered) == multiset(Locate(before, edits))
    ensures r.Ok? <==> Replaceable(before, edits)
    ensures r.Ok? ==> r.text == Candidate(before, edits) && ordered == Arrange(Locate(before, edits))
  {
    hide Anchored, Replaceable, Candidate, Built, Ordered, SortedBy, Locate, Arrange;
    ghost var reps := Replacing(ordered);
    var expected, previousEnd := [], 0;
    StartsEmpty(before);
    assert reps[..0] == [];
    for i := 0 to |ordered|
      invariant Ordered(|before|, reps[..i]) && previousEnd == End(reps[..i]) <= |before|
      invariant expected == Built(before, reps[..i])
    {
      PlacedInside(before, edits, ordered, i);
      if ordered[i].start < previousEnd {
        PreviousEnds(reps, i);
        OverlapIsFound(before, edits, ordered, i);
        return Rejected;
      }
      WriteStep(before, reps, i);
      expected := expected + before[previousEnd..ordered[i].start] + ordered[i].edit.newText;
      previousEnd := ordered[i].start + |ordered[i].edit.oldText|;
    }
    assert reps[..|ordered|] == reps;
    WrittenUp(before, edits, ordered);
    return Ok(expected + before[previousEnd..]);
  }

  lemma StartsEmpty(text: Text)
    ensures Ordered(|text|, []) && End([]) == 0 && Built(text, []) == []
  {
  }

  lemma PreviousEnds(reps: seq<Replacement>, i: nat)
    requires i <= |reps|
    ensures End(reps[..i]) == if i == 0 then 0 else reps[i - 1].end
  {
  }

  lemma {:induction false} OrderedIsPairwise(size: nat, reps: seq<Replacement>)
    requires Ordered(size, reps)
    ensures forall i :: 0 <= i < |reps| ==> reps[i].start <= reps[i].end <= End(reps) <= size
    ensures forall i, j :: 0 <= i < j < |reps| ==> reps[i].end <= reps[j].start
  {
    if reps != [] {
      OrderedIsPairwise(size, WithoutLast(reps));
    }
  }

  lemma PlacedInside(text: Text, edits: seq<Edit>, spans: seq<Located>, i: nat)
    requires forall k :: 0 <= k < |edits| ==> Anchored(text, edits[k])
    requires multiset(spans) == multiset(Locate(text, edits)) && i < |spans|
    ensures spans[i].start + |spans[i].edit.oldText| <= |text| && spans[i].edit.oldText != []
  {
    assert spans[i] in multiset(Locate(text, edits));
  }

  // ----- when edits undo each other -----

  /** Every stretch and every replacement already stands in the text, where the lead of those before puts it. */
  ghost predicate StandsShifted(text: Text, reps: seq<Replacement>) {
    Lead(reps, |reps|) == 0 && forall k :: 0 <= k < |reps| ==> Placed(text, text, reps, k)
  }

  lemma {:induction false} ShiftedIsWritten(text: Text, reps: seq<Replacement>, k: nat)
    requires Ordered(|text|, reps) && k <= |reps| && forall i :: 0 <= i < k ==> Placed(text, text, reps, i)
    ensures Ordered(|text|, reps[..k]) && 0 <= End(reps[..k]) + Lead(reps, k) <= |text|
    ensures Built(text, reps[..k]) == text[..End(reps[..k]) + Lead(reps, k)]
  {
    if k == 0 {
      assert reps[..0] == [];
    } else {
      hide Built, Ordered;
      ShiftedIsWritten(text, reps, k - 1);
      PlacedContinues(text, reps, k - 1);
    }
  }

  lemma OneMoreBuilt(text: Text, reps: seq<Replacement>, k: nat)
    requires k < |reps| && Ordered(|text|, reps[..k]) && Ordered(|text|, reps[..k + 1])
    ensures End(reps[..k]) <= reps[k].start <= reps[k].end <= |text| && End(reps[..k + 1]) == reps[k].end
    ensures Built(text, reps[..k + 1]) == Built(text, reps[..k]) + text[End(reps[..k])..reps[k].start] + reps[k].text
  {
    assert WithoutLast(reps[..k + 1]) == reps[..k] && Last(reps[..k + 1]) == reps[k];
  }

  lemma PlacedContinues(text: Text, reps: seq<Replacement>, k: nat)
    requires Ordered(|text|, reps) && k < |reps| && Placed(text, text, reps, k)
    requires Ordered(|text|, reps[..k]) && 0 <= End(reps[..k]) + Lead(reps, k) <= |text|
    requires Built(text, reps[..k]) == text[..End(reps[..k]) + Lead(reps, k)]
    ensures Ordered(|text|, reps[..k + 1]) && 0 <= End(reps[..k + 1]) + Lead(reps, k + 1) <= |text|
    ensures Built(text, reps[..k + 1]) == text[..End(reps[..k + 1]) + Lead(reps, k + 1)]
  {
    hide Built, Ordered, Placed, Lead, End;
    BuiltIsFront(text, reps, k + 1);
    OneMoreBuilt(text, reps, k);
    PlacedParts(text, reps, k);
    var at := reps[k].start + Lead(reps, k);
    ThreeSlices(text, End(reps[..k]) + Lead(reps, k), at, at + |reps[k].text|);
  }

  lemma PlacedParts(text: Text, reps: seq<Replacement>, k: nat)
    requires k < |reps| && Placed(text, text, reps, k)
    ensures Lead(reps, k + 1) == Lead(reps, k) + |reps[k].text| - (reps[k].end - reps[k].start)
    ensures var from, at := End(reps[..k]) + Lead(reps, k), reps[k].start + Lead(reps, k);
      && End(reps[..k]) <= reps[k].start <= |text| && 0 <= from <= at && at + |reps[k].text| <= |text|
      && text[End(reps[..k])..reps[k].start] == text[from..at]
      && text[at..at + |reps[k].text|] == reps[k].text
  {
  }

  /** Replacements leave a text as it was exactly when it already stands as they would have it. */
  lemma UnchangedIff(text: Text, reps: seq<Replacement>)
    requires Ordered(|text|, reps)
    ensures ReplaceAll(text, reps) == text <==> StandsShifted(text, reps)
  {
    hide Placed, Built;
    assert reps[..|reps|] == reps;
    EndFits(|text|, reps);
    LeadIsLength(text, reps, |reps|);
    if ReplaceAll(text, reps) == text {
      forall k | 0 <= k < |reps| ensures Placed(text, text, reps, k) {
        ReplacementsArePlaced(text, reps, k);
      }
    }
    if StandsShifted(text, reps) {
      ShiftedIsWritten(text, reps, |reps|);
      assert text[..End(reps)] + text[End(reps)..] == text;
    }
  }

  /** The candidate is the original exactly when its bytes already stand as the edits would move and replace them. */
  lemma CancelsOutIff(original: Text, edits: seq<Edit>)
    requires Replaceable(original, edits)
    ensures
      Candidate(original, edits) == original <==> StandsShifted(original, Replacing(Arrange(Locate(original, edits))))
  {
    ArrangementIsUnique(original, edits, Arrange(Locate(original, edits)));
    UnchangedIff(original, Replacing(Arrange(Locate(original, edits))));
  }

  predicate Shortens(edit: Edit) { |edit.newText| < |edit.oldText| }

  predicate Lengthens(edit: Edit) { |edit.oldText| < |edit.newText| }

  lemma {:induction false} LeadGrows(located: seq<Located>, k: nat)
    requires 0 < k <= |located| && forall i :: 0 <= i < |located| ==> !Shortens(located[i].edit)
    ensures 0 <= Lead(Replacing(located), 1) <= Lead(Replacing(located), k)
  {
    assert Replacing(located)[k - 1] == AsReplacement(located[k - 1]);
    if k > 1 { LeadGrows(located, k - 1); }
  }

  lemma {:induction false} LeadShrinks(located: seq<Located>, k: nat)
    requires 0 < k <= |located| && forall i :: 0 <= i < |located| ==> !Lengthens(located[i].edit)
    ensures Lead(Replacing(located), k) <= Lead(Replacing(located), 1) <= 0
  {
    assert Replacing(located)[k - 1] == AsReplacement(located[k - 1]);
    if k > 1 { LeadShrinks(located, k - 1); }
  }

  /** Edits that all change something, and of which none shortens or none lengthens, never undo each other. */
  lemma OneWayEditsChange(original: Text, edits: seq<Edit>)
    requires Replaceable(original, edits) && edits != []
    requires forall i :: 0 <= i < |edits| ==> edits[i].oldText != edits[i].newText
    requires
      (forall i :: 0 <= i < |edits| ==> !Shortens(edits[i])) || (forall i :: 0 <= i < |edits| ==> !Lengthens(edits[i]))
    ensures Candidate(original, edits) != original
  {
    hide Replaceable, OccursAt, Index, Candidate, Ordered, Placed, Lead;
    var located := Arrange(Locate(original, edits));
    ArrangementIsUnique(original, edits, located);
    CancelsOutIff(original, edits);
    if Candidate(original, edits) == original {
      forall i | 0 <= i < |located| ensures located[i].edit in edits {
        LocatedIsEdit(original, edits, i);
      }
      assert |located| == |edits| by { LocatedAsMany(original, edits); }
      if forall i :: 0 <= i < |edits| ==> !Shortens(edits[i]) {
        LeadGrows(located, |located|);
      } else {
        LeadShrinks(located, |located|);
      }
      FirstIsUnchanged(original, located);
    }
  }

  lemma LocatedAsMany(original: Text, edits: seq<Edit>)
    ensures |Arrange(Locate(original, edits))| == |edits|
  {
    var located := Arrange(Locate(original, edits));
    assert |multiset(located)| == |multiset(Locate(original, edits))|;
  }

  lemma LocatedIsEdit(original: Text, edits: seq<Edit>, i: nat)
    requires i < |Arrange(Locate(original, edits))|
    ensures Arrange(Locate(original, edits))[i].edit in edits
  {
    assert Arrange(Locate(original, edits))[i] in multiset(Locate(original, edits));
    var k :| 0 <= k < |edits| && Locate(original, edits)[k] == Arrange(Locate(original, edits))[i];
  }

  /** Without any lead the first anchor would have to be what replaces it. */
  lemma FirstIsUnchanged(original: Text, located: seq<Located>)
    requires located != [] && Disjoint(original, located) && Placed(original, original, Replacing(located), 0)
    requires Lead(Replacing(located), 1) == 0
    ensures located[0].edit.oldText == located[0].edit.newText
  {
    assert Replacing(located)[0] == AsReplacement(located[0]);
    assert Lead(Replacing(located), 0) == 0;
  }

  // ----- where the implementations differ -----

  const AB: Text := [97, 98]
  const DROP_A := Edit([97], [], [], [])
  const DOUBLE_A := Edit([98], [97, 98], [], [])

  /** The editor's checks admit edits that undo each other; only the runner refuses their result. */
  lemma ExactEditsMayCancelOut()
    ensures ExactEdits(AB, [DROP_A, DOUBLE_A]) && Candidate(AB, [DROP_A, DOUBLE_A]) == AB
  {
    PlainTexts();
    SingleByteAnchors();
    var edits := [DROP_A, DOUBLE_A];
    assert Replaceable(AB, edits);
    TwoEdits(AB, DROP_A, DOUBLE_A);
  }

  lemma PlainTexts()
    ensures RealChange(DROP_A) && RealChange(DOUBLE_A)
  {
    assert ValidUtf8([97]) by { assert [97 as byte][1..] == []; }
    assert ValidUtf8([98]) by { assert [98 as byte][1..] == []; }
    assert ValidUtf8(AB) by { assert AB[1..] == [98]; }
  }

  lemma SingleByteAnchors()
    ensures Anchored(AB, DROP_A) && At(AB, DROP_A) == 0
    ensures Anchored(AB, DOUBLE_A) && At(AB, DOUBLE_A) == 1
  {
    assert OccursAt(AB, [97], 0) && OccursAt(AB, [98], 1);
    assert !OccursAt(AB, [97], 1) && !OccursAt(AB, [98], 0);
  }

  lemma TwoLocated(text: Text, first: Edit, second: Edit)
    requires Replaceable(text, [first, second]) && Anchored(text, first) && Anchored(text, second)
    requires At(text, first) + |first.oldText| <= At(text, second)
    ensures var sorted := [Spot(text, first), Spot(text, second)];
      && sorted == Locate(text, [first, second]) && SortedBy(sorted, UP)
      && Replacing(sorted) == [AsReplacement(sorted[0]), AsReplacement(sorted[1])]
  {
    SpotIsAnchor(text, first);
    SpotIsAnchor(text, second);
  }

  lemma TwoEdits(text: Text, first: Edit, second: Edit)
    requires Replaceable(text, [first, second]) && Anchored(text, first) && Anchored(text, second)
    requires At(text, first) + |first.oldText| <= At(text, second)
    ensures var r, s := AsReplacement(Spot(text, first)), AsReplacement(Spot(text, second));
      r.start <= r.end <= s.start <= s.end <= |text| && Candidate(text, [first, second]) == Twice(text, r, s)
  {
    hide Anchored, Replaceable, Built, SortedBy, Locate, Arrange, Spot;
    var sorted := [Spot(text, first), Spot(text, second)];
    TwoLocated(text, first, second);
    ArrangementIsUnique(text, [first, second], sorted);
    var r, s := AsReplacement(sorted[0]), AsReplacement(sorted[1]);
    OrderedIsPairwise(|text|, [r, s]);
    assert r == [r, s][0] && s == [r, s][1];
    TwoReplacements(text, r, s);
  }

  lemma OneEdit(text: Text, edit: Edit)
    requires Replaceable(text, [edit]) && Anchored(text, edit)
    ensures At(text, edit) + |edit.oldText| <= |text|
    ensures Arrange(Locate(text, [edit])) == [Located(At(text, edit), edit)]
    ensures Candidate(text, [edit]) == text[..At(text, edit)] + edit.newText + text[At(text, edit) + |edit.oldText|..]
  {
    hide Anchored, Replaceable, Index;
    SpotIsAnchor(text, edit);
    var sorted := [Spot(text, edit)];
    assert sorted == Locate(text, [edit]);
    ArrangementIsUnique(text, [edit], sorted);
    var r := AsReplacement(sorted[0]);
    assert Replacing(sorted) == [] + [r];
    AddReplacement(text, [], r);
  }

  ghost function Twice(text: Text, r: Replacement, s: Replacement): Text
    requires r.start <= r.end <= s.start <= s.end <= |text|
  {
    [] + text[0..r.start] + r.text + text[r.end..s.start] + s.text + text[s.end..]
  }

  lemma TwoReplacements(text: Text, r: Replacement, s: Replacement)
    requires r.start <= r.end <= s.start <= s.end <= |text| && Ordered(|text|, [r, s])
    ensures ReplaceAll(text, [r, s]) == Twice(text, r, s)
  {
    AddReplacement(text, [], r);
    assert [r] == [] + [r];
    AddReplacement(text, [r], s);
    assert [r, s] == [r] + [s];
  }

  lemma AddReplacement(text: Text, reps: seq<Replacement>, r: Replacement)
    requires Ordered(|text|, reps) && End(reps) <= r.start <= r.end <= |text|
    ensures Ordered(|text|, reps + [r]) && End(reps + [r]) == r.end
    ensures Built(text, reps + [r]) == Built(text, reps) + text[End(reps)..r.start] + r.text
  {
    assert WithoutLast(reps + [r]) == reps;
  }
}

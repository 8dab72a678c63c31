/**
 * The check that held lines survive the edits of a candidate, made edit by edit, and what it keeps of the candidate.
 */
module HoldChecks {
  import opened Bytes
  import opened Scripts
  import opened Sorting
  import opened LineRanges
  import opened Substitution
  import opened Plans
  import opened PlanRuns
  import opened Candidates
  import opened Spaces
  import opened Utf8
  import Attributions
  import HeldLines
  import RepairSteps
  import RepairSafety

  // ----- counting -----

  /** Occurrences that do not overlap, found from the front. */
  function Count(text: Text, pattern: Text): nat
    requires pattern != []
    decreases |text|
  {
    if Index(text, pattern) < 0 then 0 else 1 + Count(text[Index(text, pattern) + |pattern|..], pattern)
  }

  /** One such occurrence: there is one, and every other overlaps the first. */
  lemma CountedOnce(text: Text, pattern: Text)
    requires pattern != []
    ensures Count(text, pattern) == 1 <==>
      Index(text, pattern) >= 0 && forall k :: OccursAt(text, pattern, k) ==> k < Index(text, pattern) + |pattern|
  {
    var first := Index(text, pattern);
    if first >= 0 {
      var end := first + |pattern|;
      var rest := text[end..];
      var next := Index(rest, pattern);
      assert next >= 0 ==> rest[next..next + |pattern|] == text[end + next..end + next + |pattern|];
      forall k | end <= k && OccursAt(text, pattern, k) ensures OccursAt(rest, pattern, k - end) {
        assert rest[k - end..k - end + |pattern|] == text[k..k + |pattern|];
      }
      if next >= 0 {
        assert OccursAt(text, pattern, end + next);
      }
    }
  }

  // ----- the check -----

  /** An edit of bytes [at, finish) is looked at unless a byte separates it from [start, stop). */
  predicate Near(at: int, finish: int, start: int, stop: int) { start <= finish && at <= stop }

  function Smaller(a: nat, b: nat): nat { if a < b then a else b }

  function Larger(a: nat, b: nat): nat { if a < b then b else a }

  function LeftOf(original: Text, edit: Edit, start: nat): nat
    requires Anchored(original, edit)
  {
    Smaller(At(original, edit), start)
  }

  function RightOf(original: Text, edit: Edit, stop: nat): nat
    requires Anchored(original, edit)
  {
    Larger(At(original, edit) + |edit.oldText|, stop)
  }

  /** What the edit alone makes of the anchor and the held lines together. */
  function Extended(original: Text, edit: Edit, start: nat, stop: nat): Text
    requires Anchored(original, edit) && start <= stop <= |original|
  {
    var at := At(original, edit);
    original[LeftOf(original, edit, start)..at] + edit.newText
    + original[at + |edit.oldText|..RightOf(original, edit, stop)]
  }

  predicate NearBlock(original: Text, edit: Edit, start: nat, stop: nat)
    requires Anchored(original, edit)
  {
    Near(At(original, edit), At(original, edit) + |edit.oldText|, start, stop)
  }

  /** The line the block starts on gains no front, and a line without a newline gains no end. */
  predicate KeepsLines(after: Text, block: Text, pos: nat)
    requires pos + |block| <= |after|
  {
    && (pos > 0 ==> after[pos - 1] == NEWLINE)
    && (!EndsLine(block) && pos + |block| < |after| ==> after[pos + |block|] == NEWLINE)
  }

  /** The edit, extended to the held lines [start, stop), holds them once before and once after. */
  predicate KeepsBlock(original: Text, edit: Edit, start: nat, stop: nat)
    requires Anchored(original, edit) && start < stop <= |original|
  {
    NearBlock(original, edit, start, stop) ==>
      var block, after := original[start..stop], Extended(original, edit, start, stop);
      && Count(original[LeftOf(original, edit, start)..RightOf(original, edit, stop)], block) == 1
      && Count(after, block) == 1 && KeepsLines(after, block, Index(after, block))
  }

  ghost predicate Inside(original: Text, loc: SourceLocation) {
    && HeldLines.HasLine(original, loc.startLine) && HeldLines.HasLine(original, loc.endLine)
    && loc.startLine <= loc.endLine
  }

  /** Valid locations name lines of the original. */
  ghost predicate NamesLines(at: Locator, original: Text) {
    forall l :: at.valid(l) ==> Inside(original, l)
  }

  ghost function StartOf(original: Text, loc: SourceLocation): nat
    requires Inside(original, loc)
  {
    HeldLines.LineStart(original, loc.startLine)
  }

  ghost function StopOf(original: Text, loc: SourceLocation): nat
    requires Inside(original, loc)
  {
    HeldLines.LineStop(original, loc.endLine)
  }

  /** Complete lines of a text. */
  ghost predicate WholeLines(text: Text, start: nat, stop: nat) {
    start < stop <= |text| && AtBoundary(text, start) && (stop < |text| ==> EndsLine(text[start..stop]))
  }

  lemma LocationsAreWholeLines(original: Text, loc: SourceLocation)
    requires Inside(original, loc)
    ensures WholeLines(original, StartOf(original, loc), StopOf(original, loc))
  {
    hide AtBoundary, EndsLine;
    HeldLines.LinesAreOrdered(original, loc.startLine, loc.endLine);
    HeldLines.LineStartsBehindNewline(original, loc.startLine);
    LineEndsText(original, loc.endLine);
    LastByte(original, HeldLines.LineStart(original, loc.endLine), StartOf(original, loc), StopOf(original, loc));
  }

  lemma LineEndsText(text: Text, line: int)
    requires HeldLines.HasLine(text, line)
    ensures HeldLines.LineStart(text, line) < HeldLines.LineStop(text, line) <= |text|
    ensures HeldLines.LineStop(text, line) < |text| ==>
        EndsLine(text[HeldLines.LineStart(text, line)..HeldLines.LineStop(text, line)])
  {
    var tokens := LineTokens(text);
    HeldLines.LinesAreOrdered(text, line, line);
    HeldLines.LineBytes(text, line);
    assert IsToken(tokens[line - 1], line == |tokens|);
    if line == |tokens| { assert tokens[..line] == tokens; }
  }

  lemma LastByte(text: Text, a: nat, b: nat, stop: nat)
    requires a < stop <= |text| && b < stop
    ensures EndsLine(text[a..stop]) <==> EndsLine(text[b..stop])
  {
  }

  /** Every edit keeps the lines. */
  ghost predicate AllKeep(original: Text, edits: seq<Edit>, start: nat, stop: nat) {
    start < stop <= |original|
    && forall e :: 0 <= e < |edits| ==> Anchored(original, edits[e]) && KeepsBlock(original, edits[e], start, stop)
  }

  ghost predicate LocationKept(original: Text, edits: seq<Edit>, loc: SourceLocation) {
    Inside(original, loc) && AllKeep(original, edits, StartOf(original, loc), StopOf(original, loc))
  }

  ghost predicate HoldKept(original: Text, edits: seq<Edit>, hold: ReviewHold) {
    forall l :: 0 <= l < |hold.sourceLocations| ==> LocationKept(original, edits, hold.sourceLocations[l])
  }

  ghost predicate KeepsHolds(plan: RepairPlan, edits: seq<Edit>, original: Text, at: Locator) {
    && HoldsOfPlan(plan).Holds? && ValidPlanLocations(plan, at)
    && var holds := HoldsOf(plan.items);
       || holds == []
       || (ExactEdits(original, edits) && forall h :: 0 <= h < |holds| ==> HoldKept(original, edits, holds[h]))
  }

  // ----- the check as a program -----

  /** Where each line starts, and the end of the text when it ends with a newline. */
  ghost predicate AreStarts(text: Text, starts: seq<nat>, upTo: nat)
    requires upTo <= |text|
  {
    && |starts| == Newlines(text[..upTo]) + 1
    && forall k ::
         0 <= k < |starts| ==> starts[k] <= upTo && AtBoundary(text, starts[k]) && Newlines(text[..starts[k]]) == k
  }

  method LineStarts(text: Text) returns (starts: seq<nat>)
    ensures AreStarts(text, starts, |text|)
  {
    starts := [0];
    for i := 0 to |text|
      invariant AreStarts(text, starts, i)
    {
      assert text[..i + 1] == text[..i] + [text[i]];
      if text[i] == NEWLINE {
        starts := starts + [i + 1];
      }
    }
  }

  /** A line boundary is told by how many newlines stand before it. */
  lemma BoundariesDiffer(text: Text, p: nat, q: nat)
    requires p < q <= |text| && AtBoundary(text, q)
    ensures Newlines(text[..p]) < Newlines(text[..q])
  {
    assert text[..q] == text[..q - 1] + [NEWLINE];
    assert text[..q - 1] == text[..p] + text[p..q - 1];
    HeldLines.NewlinesAppend(text[..p], text[p..q - 1]);
  }

  lemma SameBoundary(text: Text, p: nat, q: nat)
    requires p <= |text| && q <= |text| && AtBoundary(text, p) && AtBoundary(text, q)
    requires Newlines(text[..p]) == Newlines(text[..q])
    ensures p == q
  {
    if p < q { BoundariesDiffer(text, p, q); }
    if q < p { BoundariesDiffer(text, q, p); }
  }

  lemma StartIsListed(text: Text, starts: seq<nat>, line: int)
    requires AreStarts(text, starts, |text|) && HeldLines.HasLine(text, line)
    ensures line <= |starts| && starts[line - 1] == HeldLines.LineStart(text, line)
  {
    hide LineTokens;
    var start := HeldLines.LineStart(text, line);
    HeldLines.NewlinesBeforeLine(text, line);
    HeldLines.LineStartsBehindNewline(text, line);
    assert text == text[..start] + text[start..] && text[..|text|] == text;
    HeldLines.NewlinesAppend(text[..start], text[start..]);
    SameBoundary(text, starts[line - 1], start);
  }

  lemma StopIsListed(text: Text, starts: seq<nat>, line: int)
    requires AreStarts(text, starts, |text|) && HeldLines.HasLine(text, line)
    ensures HeldLines.LineStop(text, line) == if line < |starts| then starts[line] else |text|
  {
    var tokens := LineTokens(text);
    if line < |tokens| {
      StartIsListed(text, starts, line + 1);
    } else {
      assert tokens[..line] == tokens;
      if line < |starts| { EndIsListed(text, starts, line); }
    }
  }

  /** A newline that ends the last line ends the text. */
  lemma EndIsListed(text: Text, starts: seq<nat>, line: int)
    requires AreStarts(text, starts, |text|) && line == |LineTokens(text)| && 0 < line < |starts|
    ensures starts[line] == |text|
  {
    hide LineTokens, Newlines, AreStarts;
    HeldLines.LinesAreOrdered(text, line, line);
    HeldLines.NewlinesBeforeLine(text, line);
    StartCounts(text, starts, line);
    assert LineTokens(text)[..line] == LineTokens(text);
    BoundaryEndsLine(text, line, starts[line]);
  }

  lemma StartCounts(text: Text, starts: seq<nat>, k: nat)
    requires AreStarts(text, starts, |text|) && k < |starts|
    ensures starts[k] <= |text| && AtBoundary(text, starts[k]) && Newlines(text[..starts[k]]) == k
  {
  }

  lemma BoundaryEndsLine(text: Text, line: int, at: nat)
    requires HeldLines.HasLine(text, line) && at <= |text| && AtBoundary(text, at) && Newlines(text[..at]) == line
    ensures HeldLines.LineStop(text, line) <= at
  {
    hide LineTokens, Newlines;
    var start := HeldLines.LineStart(text, line);
    HeldLines.LinesAreOrdered(text, line, line);
    HeldLines.NewlinesBeforeLine(text, line);
    if at <= start {
      assert text[..start] == text[..at] + text[at..start];
      HeldLines.NewlinesAppend(text[..at], text[at..start]);
    } else if at < HeldLines.LineStop(text, line) {
      HeldLines.BytesOfLine(text, line, at - 1);
    }
  }

  method CheckEdit(original: Text, edit: Edit, start: nat, stop: nat) returns (ok: bool)
    requires Anchored(original, edit) && WholeLines(original, start, stop)
    ensures ok <==> KeepsBlock(original, edit, start, stop)
  {
    hide Count, OccursAt, Anchored;
    var block := original[start..stop];
    var at := At(original, edit);
    AnchorFits(original, edit);
    var finish := at + |edit.oldText|;
    if finish < start || at > stop {
      return true;
    }
    var left, right := Smaller(at, start), Larger(finish, stop);
    var before := original[left..right];
    var after := original[left..at] + edit.newText + original[finish..right];
    assert after == Extended(original, edit, start, stop);
    if Count(before, block) != 1 || Count(after, block) != 1 {
      return false;
    }
    CountedFits(after, block);
    var pos := Index(after, block);
    if AtBoundary(original, start) && pos > 0 && after[pos - 1] != NEWLINE {
      return false;
    }
    if !EndsLine(block) && pos + |block| < |after| && after[pos + |block|] != NEWLINE {
      return false;
    }
    return true;
  }

  lemma AnchorFits(original: Text, edit: Edit)
    requires Anchored(original, edit)
    ensures 0 <= At(original, edit) && At(original, edit) + |edit.oldText| <= |original|
  {
  }

  lemma CountedFits(text: Text, pattern: Text)
    requires pattern != [] && Count(text, pattern) == 1
    ensures OccursAt(text, pattern, Index(text, pattern)) && 0 <= Index(text, pattern)
    ensures Index(text, pattern) + |pattern| <= |text|
  {
  }

  method CheckEdits(original: Text, edits: seq<Edit>, start: nat, stop: nat) returns (ok: bool)
    requires WholeLines(original, start, stop) && forall e :: 0 <= e < |edits| ==> Anchored(original, edits[e])
    ensures ok <==> AllKeep(original, edits, start, stop)
  {
    hide KeepsBlock, Anchored, AtBoundary, EndsLine;
    for e := 0 to |edits|
      invariant forall k :: 0 <= k < e ==> KeepsBlock(original, edits[k], start, stop)
    {
      var kept := CheckEdit(original, edits[e], start, stop);
      if !kept {
        return false;
      }
    }
    return true;
  }

  method CheckLocation(original: Text, starts: seq<nat>, edits: seq<Edit>, loc: SourceLocation) returns (ok: bool)
    requires AreStarts(original, starts, |original|) && Inside(original, loc) && Replaceable(original, edits)
    ensures ok <==> LocationKept(original, edits, loc)
  {
    hide AllKeep, Replaceable, WholeLines, AreStarts;
    StartIsListed(original, starts, loc.startLine);
    StopIsListed(original, starts, loc.endLine);
    LocationsAreWholeLines(original, loc);
    EachIsAnchored(original, edits);
    ok := CheckEdits(original, edits, starts[loc.startLine - 1],
      if loc.endLine < |starts| then starts[loc.endLine] else |original|);
  }

  lemma EachIsAnchored(original: Text, edits: seq<Edit>)
    requires Replaceable(original, edits)
    ensures forall e :: 0 <= e < |edits| ==> Anchored(original, edits[e])
  {
  }

  lemma HoldsAreInside(plan: RepairPlan, original: Text, at: Locator, h: nat)
    requires ValidPlanLocations(plan, at) && NamesLines(at, original) && h < |HoldsOf(plan.items)|
    ensures forall l ::
        0 <= l < |HoldsOf(plan.items)[h].sourceLocations| ==>
          Inside(original, HoldsOf(plan.items)[h].sourceLocations[l])
  {
    HoldsAreBlockedItems(plan.items, HoldsOf(plan.items)[h]);
    var hold := HoldsOf(plan.items)[h];
    var i :| 0 <= i < |plan.items| && plan.items[i].status == BLOCKED && HoldOf(plan.items[i]) == hold;
    assert ValidLocations(plan.items[i], at);
  }

  method CheckCandidateHolds(plan: RepairPlan, edits: seq<Edit>, original: Text, at: Locator) returns (ok: bool)
    requires NamesLines(at, original)
    ensures ok <==> KeepsHolds(plan, edits, original, at)
  {
    hide LocationKept, ValidPlanLocations, ExactEdits, NamesLines;
    var result := CandidateHolds(plan);
    if result.Unlocalized? {
      return false;
    }
    var valid := ValidatePlanSourceLocations(plan, at);
    if !valid {
      return false;
    }
    var holds := result.holds;
    if |holds| == 0 {
      return true;
    }
    var exact := ValidateExactEdits(edits, original);
    if !exact {
      return false;
    }
    ExactIsReplaceable(original, edits);
    var starts := LineStarts(original);
    for h := 0 to |holds|
      invariant forall k :: 0 <= k < h ==> HoldKept(original, edits, holds[k])
    {
      HoldsAreInside(plan, original, at, h);
      var locations := holds[h].sourceLocations;
      for l := 0 to |locations|
        invariant forall k :: 0 <= k < l ==> LocationKept(original, edits, locations[k])
      {
        var kept := CheckLocation(original, starts, edits, locations[l]);
        if !kept {
          assert !HoldKept(original, edits, holds[h]);
          return false;
        }
      }
    }
    return true;
  }

  lemma ExactIsReplaceable(original: Text, edits: seq<Edit>)
    requires ExactEdits(original, edits)
    ensures Replaceable(original, edits)
  {
  }

  // ----- what the check keeps of the candidate -----

  ghost function Made(original: Text,
      edits: seq<Edit>): seq<Replacement> { Replacing(Arrange(Locate(original, edits))) }

  /** How many of the ordered replacements end at or before `left`. */
  ghost function EndingBy(reps: seq<Replacement>, left: nat): (k: nat)
    ensures k <= |reps|
  {
    if reps == [] || Last(reps).end <= left then |reps| else EndingBy(WithoutLast(reps), left)
  }

  /** What the candidate has in place of the bytes before `left`, when no edit replaces bytes on both sides of it. */
  ghost function Front(original: Text, edits: seq<Edit>, left: nat): Text {
    FrontIn(original, Made(original, edits), left)
  }

  ghost function FrontIn(original: Text, reps: seq<Replacement>, left: nat): Text {
    var ended := reps[..EndingBy(reps, left)];
    if Ordered(|original|, ended) && End(ended) <= left <= |original|
    then Built(original, ended) + original[End(ended)..left]
    else []
  }

  /** Nothing but `middle` can be found between what the edits before and behind it make. */
  ghost predicate StandsBehind(final: Text, front: Text, middle: Text, last: bool) {
    front + middle <= final && (last ==> front + middle == final)
  }

  lemma {:induction false} EndingByIs(size: nat, reps: seq<Replacement>, left: nat, k: nat)
    requires Ordered(size, reps) && k <= |reps|
    requires forall i :: 0 <= i < k ==> reps[i].end <= left
    requires k < |reps| ==> left < reps[k].end
    ensures EndingBy(reps, left) == k
  {
    if k < |reps| {
      OrderedIsPairwise(size, reps);
      if k < |reps| - 1 {
        assert reps[k].end <= reps[|reps| - 1].start <= reps[|reps| - 1].end;
      }
      EndingByIs(size, WithoutLast(reps), left, k);
    }
  }

  /** The text behind the first k replacements goes on as in the original, up to the next one. */
  lemma CopiedBehind(original: Text, reps: seq<Replacement>, k: nat, right: nat)
    requires Ordered(|original|, reps) && k <= |reps| && End(reps[..k]) <= right <= |original|
    requires k < |reps| ==> right <= reps[k].start
    ensures Ordered(|original|, reps[..k])
    ensures StandsBehind(ReplaceAll(original, reps), Built(original, reps[..k]), original[End(reps[..k])..right],
        k == |reps| && right == |original|)
  {
    hide Built, Ordered, ReplaceAll;
    if k < |reps| {
      FrontAddsOne(original, reps, k);
      var from, upTo := End(reps[..k]), reps[k].start;
      assert original[from..upTo] == original[from..right] + original[right..upTo];
      assert Built(original, reps[..k]) + original[from..right]
        <= Built(original, reps[..k]) + original[from..upTo] + reps[k].text;
    } else {
      assert reps[..k] == reps;
      CopiedToEnd(original, reps, right);
    }
  }

  lemma CopiedToEnd(original: Text, reps: seq<Replacement>, right: nat)
    requires Ordered(|original|, reps) && End(reps) <= right <= |original|
    ensures
      StandsBehind(ReplaceAll(original, reps), Built(original, reps), original[End(reps)..right], right == |original|)
  {
    hide Built, Ordered;
    assert original[End(reps)..] == original[End(reps)..right] + original[right..];
  }

  /** Replacement k, extended to [left, right) within the gaps around it, stands in the text as extended. */
  lemma ExtendedStands(original: Text, reps: seq<Replacement>, k: nat, left: nat, right: nat)
    requires Ordered(|original|, reps) && k < |reps| && right <= |original|
    requires End(reps[..k]) <= left <= reps[k].start <= reps[k].end <= right
    requires (k + 1 < |reps| ==> right <= reps[k + 1].start)
    ensures Ordered(|original|, reps[..k])
    ensures var front := Built(original, reps[..k]) + original[End(reps[..k])..left];
      var middle := original[left..reps[k].start] + reps[k].text + original[reps[k].end..right];
      StandsBehind(ReplaceAll(original, reps), front, middle, k + 1 == |reps| && right == |original|)
  {
    hide Ordered, Built, ReplaceAll;
    var next, from := reps[..k + 1], End(reps[..k]);
    LastOfFront(original, reps, k);
    CopiedBehind(original, reps, k + 1, right);
    assert original[from..reps[k].start] == original[from..left] + original[left..reps[k].start];
    Regroup(Built(original, reps[..k]), original[from..left], original[left..reps[k].start], reps[k].text,
      original[reps[k].end..right]);
  }

  lemma LastOfFront(original: Text, reps: seq<Replacement>, k: nat)
    requires Ordered(|original|, reps) && k < |reps|
    ensures Ordered(|original|, reps[..k]) && Ordered(|original|, reps[..k + 1])
    ensures End(reps[..k]) <= reps[k].start <= reps[k].end <= |original| && End(reps[..k + 1]) == reps[k].end
    ensures Built(original, reps[..k + 1])
        == Built(original, reps[..k]) + original[End(reps[..k])..reps[k].start] + reps[k].text
  {
    FrontAddsOne(original, reps, k);
    BuiltIsFront(original, reps, k + 1);
    assert WithoutLast(reps[..k + 1]) == reps[..k] && Last(reps[..k + 1]) == reps[k];
  }

  lemma Regroup(a: Text, b: Text, c: Text, d: Text, e: Text)
    ensures a + (b + c) + d + e == (a + b) + (c + d + e)
  {
  }

  lemma MadeInOrder(original: Text, edits: seq<Edit>)
    requires Replaceable(original, edits)
    ensures Ordered(|original|, Made(original, edits))
    ensures Candidate(original, edits) == ReplaceAll(original, Made(original, edits))
  {
    ArrangementIsUnique(original, edits, Arrange(Locate(original, edits)));
  }

  /** Which replacement an edit becomes. */
  lemma PlaceOf(original: Text, edits: seq<Edit>, e: nat) returns (k: nat)
    requires e < |edits|
    ensures k < |Made(original, edits)| && Made(original, edits)[k] == AsReplacement(Spot(original, edits[e]))
  {
    hide SortedBy, Spot, Arrange, Locate;
    var located := Locate(original, edits);
    assert located[e] in multiset(Arrange(located));
    k :| 0 <= k < |Arrange(located)| && Arrange(located)[k] == located[e];
  }

  /** Every other replacement is that of another edit. */
  lemma OtherPlaces(original: Text, edits: seq<Edit>, e: nat, k: nat, i: nat)
    requires e < |edits| && edits[e].oldText != [] && Ordered(|original|, Made(original, edits))
    requires k < |Made(original, edits)| && Made(original, edits)[k] == AsReplacement(Spot(original, edits[e]))
    requires i < |Made(original, edits)| && i != k
    ensures IsAnother(original, edits, e, Made(original, edits)[i])
  {
    hide SortedBy, Index, Arrange, Locate, Ordered;
    var located, reps := Locate(original, edits), Made(original, edits);
    OrderedIsPairwise(|original|, reps);
    assert reps[i] != reps[k];
    assert Arrange(located)[i] in multiset(located);
    var other :| 0 <= other < |located| && located[other] == Arrange(located)[i];
  }

  ghost predicate IsAnother(original: Text, edits: seq<Edit>, e: int, rep: Replacement) {
    exists i :: 0 <= i < |edits| && i != e && rep == AsReplacement(Spot(original, edits[i]))
  }

  /** The edit replaces some of the bytes [start, stop), and does not only adjoin them. */
  predicate Overlaps(original: Text, edit: Edit, start: nat, stop: nat)
    requires Anchored(original, edit)
  {
    At(original, edit) < stop && start < At(original, edit) + |edit.oldText|
  }

  /** No edit but the e-th, if any, overlaps the bytes; any number may adjoin them. */
  ghost predicate OnlyOverlaps(original: Text, edits: seq<Edit>, e: int, start: nat, stop: nat) {
    forall i ::
      0 <= i < |edits| && i != e ==> Anchored(original, edits[i]) && !Overlaps(original, edits[i], start, stop)
  }

  ghost predicate Clear(rep: Replacement, start: nat, stop: nat) { rep.end <= start || stop <= rep.start }

  lemma OthersAreClear(original: Text, edits: seq<Edit>, e: int, start: nat, stop: nat, rep: Replacement)
    requires OnlyOverlaps(original, edits, e, start, stop) && IsAnother(original, edits, e, rep)
    ensures Clear(rep, start, stop)
  {
  }

  ghost predicate NoneEmpty(reps: seq<Replacement>) {
    forall i :: 0 <= i < |reps| ==> reps[i].start < reps[i].end
  }

  lemma MadeOfAnchors(original: Text, edits: seq<Edit>)
    requires Replaceable(original, edits)
    ensures NoneEmpty(Made(original, edits))
  {
    hide Made, Index, OccursAt, Apart;
    var reps := Made(original, edits);
    forall i | 0 <= i < |reps| ensures reps[i].start < reps[i].end {
      AnyPlace(original, edits, i);
      var e :| 0 <= e < |edits| && reps[i] == AsReplacement(Spot(original, edits[e]));
      assert Anchored(original, edits[e]);
    }
  }

  /** The lines, and the end of the last one, stand at `at`. */
  ghost predicate LinesAt(text: Text, block: Text, at: nat) {
    OccursAt(text, block, at) && (EndsLine(block) || at + |block| == |text| || text[at + |block|] == NEWLINE)
  }

  lemma NearestIsExtended(original: Text, edits: seq<Edit>, e: nat, start: nat, stop: nat)
    requires Replaceable(original, edits) && e < |edits| && Anchored(original, edits[e]) && start < stop <= |original|
    requires NearBlock(original, edits[e], start, stop) && OnlyOverlaps(original, edits, e, start, stop)
    ensures StandsBehind(Candidate(original, edits), Front(original, edits, LeftOf(original, edits[e], start)),
                         Extended(original, edits[e], start, stop), stop == |original|)
  {
    hide Made, Replaceable, Anchored, OnlyOverlaps, Ordered, Candidate, FrontIn, StandsBehind;
    var reps := Made(original, edits);
    var k := PlaceOf(original, edits, e);
    MadeInOrder(original, edits);
    MadeOfAnchors(original, edits);
    NearestStands(original, edits, e, reps, k, start, stop);
  }

  lemma EditIsStretch(original: Text, edit: Edit, rep: Replacement, start: nat, stop: nat)
    requires Anchored(original, edit) && rep == AsReplacement(Spot(original, edit)) && start < stop <= |original|
    ensures edit.oldText != [] && rep.start <= rep.end <= |original|
    ensures NearBlock(original, edit, start, stop) <==> Near(rep.start, rep.end, start, stop)
    ensures LeftOf(original, edit, start) == Smaller(rep.start, start)
    ensures Extended(original, edit, start, stop) ==
      original[Smaller(rep.start, start)..rep.start] + rep.text + original[rep.end..Larger(rep.end, stop)]
  {
    hide OccursAt, Index;
    SpotIsAnchor(original, edit);
  }

  lemma OtherMadeAreClear(original: Text, edits: seq<Edit>, e: nat, k: nat, start: nat, stop: nat)
    requires Ordered(|original|, Made(original, edits)) && e < |edits| && edits[e].oldText != []
    requires OnlyOverlaps(original, edits, e, start, stop)
    requires k < |Made(original, edits)| && Made(original, edits)[k] == AsReplacement(Spot(original, edits[e]))
    ensures forall i :: 0 <= i < |Made(original, edits)| && i != k ==> Clear(Made(original, edits)[i], start, stop)
  {
    hide Made, Ordered, IsAnother, OnlyOverlaps, Spot, Clear;
    forall i | 0 <= i < |Made(original, edits)| && i != k ensures Clear(Made(original, edits)[i], start, stop) {
      OtherPlaces(original, edits, e, k, i);
      OthersAreClear(original, edits, e, start, stop, Made(original, edits)[i]);
    }
  }

  lemma NearestStands(original: Text, edits: seq<Edit>, e: nat, reps: seq<Replacement>, k: nat, start: nat, stop: nat)
    requires reps == Made(original, edits) && Ordered(|original|, reps) && NoneEmpty(reps)
    requires e < |edits| && Anchored(original, edits[e])
    requires start < stop <= |original| && NearBlock(original, edits[e], start, stop)
    requires OnlyOverlaps(original, edits, e, start, stop)
    requires k < |reps| && reps[k] == AsReplacement(Spot(original, edits[e]))
    ensures StandsBehind(ReplaceAll(original, reps), FrontIn(original, reps, LeftOf(original, edits[e], start)),
                         Extended(original, edits[e], start, stop), stop == |original|)
  {
    hide Made, Ordered, ReplaceAll, OnlyOverlaps, Spot, FrontIn, StandsBehind, NoneEmpty, Clear, Anchored, At,
        NearBlock, LeftOf, RightOf, Extended, AsReplacement;
    EditIsStretch(original, edits[e], reps[k], start, stop);
    OtherMadeAreClear(original, edits, e, k, start, stop);
    StretchStands(original, reps, k, start, stop);
  }

  lemma StretchStands(original: Text, reps: seq<Replacement>, k: nat, start: nat, stop: nat)
    requires Ordered(|original|, reps) && NoneEmpty(reps) && k < |reps| && start < stop <= |original|
    requires Near(reps[k].start, reps[k].end, start, stop)
    requires forall i :: 0 <= i < |reps| && i != k ==> Clear(reps[i], start, stop)
    ensures reps[k].start <= reps[k].end <= |original|
    ensures var left, right := Smaller(reps[k].start, start), Larger(reps[k].end, stop);
      StandsBehind(ReplaceAll(original, reps), FrontIn(original, reps, left),
                   original[left..reps[k].start] + reps[k].text + original[reps[k].end..right], stop == |original|)
  {
    hide Ordered, ReplaceAll, Built, End, EndingBy, NoneEmpty;
    ClearAround(|original|, reps, k, start, stop);
    LastOfFront(original, reps, k);
    ExtendedStands(original, reps, k, Smaller(reps[k].start, start), Larger(reps[k].end, stop));
  }

  /** Around the only replacement that may overlap there is room for the whole stretch. */
  lemma ClearAround(size: nat, reps: seq<Replacement>, k: nat, start: nat, stop: nat)
    requires Ordered(size, reps) && NoneEmpty(reps) && k < |reps| && start < stop <= size
    requires Near(reps[k].start, reps[k].end, start, stop)
    requires forall i :: 0 <= i < |reps| && i != k ==> Clear(reps[i], start, stop)
    ensures EndingBy(reps, Smaller(reps[k].start, start)) == k && End(reps[..k]) <= Smaller(reps[k].start, start)
    ensures reps[k].end <= size && (k + 1 < |reps| ==> Larger(reps[k].end, stop) <= reps[k + 1].start)
    ensures k + 1 < |reps| ==> stop < size
  {
    OrderedIsPairwise(size, reps);
    forall i | 0 <= i < k ensures reps[i].end <= Smaller(reps[k].start, start) {
      assert reps[i].start < reps[i].end <= reps[k].start;
    }
    PreviousEnds(reps, k);
    EndingByIs(size, reps, Smaller(reps[k].start, start), k);
    if k + 1 < |reps| {
      assert reps[k].end <= reps[k + 1].start < reps[k + 1].end;
    }
  }

  lemma {:induction false} EndsBy(size: nat, reps: seq<Replacement>, left: nat)
    requires Ordered(size, reps)
    ensures Ordered(size, reps[..EndingBy(reps, left)])
    ensures End(reps[..EndingBy(reps, left)]) <= left
    ensures EndingBy(reps, left) == 0 || End(reps[..EndingBy(reps, left)]) == reps[EndingBy(reps, left) - 1].end
  {
    if reps == [] || Last(reps).end <= left {
      assert reps[..|reps|] == reps;
    } else {
      EndsBy(size, WithoutLast(reps), left);
      assert WithoutLast(reps)[..EndingBy(reps, left)] == reps[..EndingBy(reps, left)];
    }
  }

  /** What stands before the first held line ends a line, unless an edit ends there. */
  lemma FrontEndsLine(original: Text, reps: seq<Replacement>, start: nat)
    requires Ordered(|original|, reps) && NoneEmpty(reps) && start <= |original| && AtBoundary(original, start)
    requires forall i :: 0 <= i < |reps| ==> reps[i].end != start
    ensures AtBoundary(FrontIn(original, reps, start), |FrontIn(original, reps, start)|)
  {
    hide Ordered, Built, EndingBy, End, AtBoundary;
    EndsBy(|original|, reps, start);
    var k := EndingBy(reps, start);
    if k == 0 { NothingEnded(original, reps); }
    BehindStaysBoundary(Built(original, reps[..k]), original, End(reps[..k]), start);
  }

  lemma FrontIs(original: Text, reps: seq<Replacement>, left: nat, k: nat)
    requires Ordered(|original|, reps) && k <= |reps| && left <= |original|
    requires forall i :: 0 <= i < k ==> reps[i].end <= left
    requires k < |reps| ==> left < reps[k].end
    ensures Ordered(|original|, reps[..k]) && End(reps[..k]) <= left
    ensures FrontIn(original, reps, left) == Built(original, reps[..k]) + original[End(reps[..k])..left]
  {
    hide Built, Ordered, EndingBy, End;
    EndingByIs(|original|, reps, left, k);
    EndsBy(|original|, reps, left);
  }

  /** Where an edit ends, the text before goes on with what it puts. */
  lemma FrontBehindEdit(original: Text, reps: seq<Replacement>, j: nat)
    requires Ordered(|original|, reps) && NoneEmpty(reps) && j < |reps|
    ensures FrontIn(original, reps, reps[j].end) == FrontIn(original, reps, reps[j].start) + reps[j].text
  {
    hide Ordered, Built, FrontIn;
    OrderedIsPairwise(|original|, reps);
    LastOfFront(original, reps, j);
    NextEnds(original, reps, j);
    FrontIs(original, reps, reps[j].start, j);
    FrontIs(original, reps, reps[j].end, j + 1);
    assert original[reps[j].end..reps[j].end] == [];
  }

  lemma NextEnds(original: Text, reps: seq<Replacement>, j: nat)
    requires Ordered(|original|, reps) && NoneEmpty(reps) && j < |reps|
    ensures forall i :: 0 <= i < j ==> reps[i].end <= reps[j].start < reps[j].end
    ensures j + 1 < |reps| ==> reps[j].end < reps[j + 1].end
  {
    OrderedIsPairwise(|original|, reps);
    if j + 1 < |reps| {
      assert reps[j].end <= reps[j + 1].start < reps[j + 1].end;
    }
  }

  lemma BehindStaysBoundary(built: Text, text: Text, from: nat, start: nat)
    requires from <= start <= |text| && AtBoundary(text, start) && (from < start || built == [])
    requires from == start ==> start == 0
    ensures AtBoundary(built + text[from..start], |built + text[from..start]|)
  {
    if from < start {
      assert text[from..start][start - 1 - from] == text[start - 1];
    }
  }

  lemma NothingEnded(original: Text, reps: seq<Replacement>)
    ensures Ordered(|original|, reps[..0]) && End(reps[..0]) == 0 && Built(original, reps[..0]) == []
  {
  }

  lemma LinesMove(final: Text, front: Text, middle: Text, last: bool, block: Text, pos: nat)
    requires StandsBehind(final, front, middle, last) && block != [] && OccursAt(middle, block, pos)
    requires KeepsLines(middle, block, pos)
    requires !EndsLine(block) ==> last
    ensures LinesAt(final, block, |front| + pos)
    ensures AtBoundary(final, |front| + pos) <==> pos > 0 || AtBoundary(front, |front|)
  {
    var whole := front + middle;
    assert final[..|whole|] == whole;
    assert final[|front| + pos..|front| + pos + |block|] == whole[|front| + pos..|front| + pos + |block|]
        == middle[pos..pos + |block|];
    if |front| + pos > 0 {
      assert final[|front| + pos - 1] == whole[|front| + pos - 1];
    }
    if pos + |block| < |middle| {
      assert final[|front| + pos + |block|] == whole[|front| + pos + |block|] == middle[pos + |block|];
    }
  }

  /** The first occurrence of the lines in `after` is one in the whole text, where `after` stands behind `front`. */
  ghost predicate KeptBehind(final: Text, front: Text, after: Text, block: Text) {
    var pos := Index(after, block);
    && 0 <= pos && LinesAt(final, block, |front| + pos)
    && (AtBoundary(final, |front| + pos) <==> pos > 0 || AtBoundary(front, |front|))
  }

  /**
   * When an edit comes near held lines, no other one overlaps them and it passes the check, the candidate has these
   * lines in one piece and to their end. They still start a line exactly when the stretch the edit makes does not
   * begin with them, or what the candidate has before that stretch ends a line.
   */
  lemma OneEditKeepsLines(original: Text, edits: seq<Edit>, e: nat, start: nat, stop: nat)
    requires Replaceable(original, edits) && e < |edits| && Anchored(original, edits[e])
    requires WholeLines(original, start, stop)
    requires NearBlock(original, edits[e], start, stop) && OnlyOverlaps(original, edits, e, start, stop)
    requires KeepsBlock(original, edits[e], start, stop)
    ensures KeptBehind(Candidate(original, edits), Front(original, edits, LeftOf(original, edits[e], start)),
                       Extended(original, edits[e], start, stop), original[start..stop])
  {
    hide Replaceable, Candidate, Front, OnlyOverlaps, Anchored, OccursAt, KeepsBlock, KeepsLines, Extended,
        Index, AtBoundary, StandsBehind;
    var block, after := original[start..stop], Extended(original, edits[e], start, stop);
    NearestIsExtended(original, edits, e, start, stop);
    KeptLines(original, edits[e], start, stop);
    var front := Front(original, edits, LeftOf(original, edits[e], start));
    LinesMove(Candidate(original, edits), front, after, stop == |original|, block, Index(after, block));
  }

  lemma KeptLines(original: Text, edit: Edit, start: nat, stop: nat)
    requires Anchored(original, edit) && WholeLines(original, start, stop)
    requires NearBlock(original, edit, start, stop) && KeepsBlock(original, edit, start, stop)
    ensures var after, block := Extended(original, edit, start, stop), original[start..stop];
      && 0 <= Index(after, block) && OccursAt(after, block, Index(after, block))
      && KeepsLines(after, block, Index(after, block))
    ensures !EndsLine(original[start..stop]) ==> stop == |original|
  {
    hide Anchored, OccursAt, Extended, Count;
    CountedFits(Extended(original, edit, start, stop), original[start..stop]);
  }

  /**
   * When no edit overlaps held lines, the candidate has them where they were; they start a line exactly when what
   * the candidate has before them ends one.
   */
  lemma ClearEditsKeepLines(original: Text, edits: seq<Edit>, start: nat, stop: nat)
    requires Replaceable(original, edits) && WholeLines(original, start, stop)
    requires OnlyOverlaps(original, edits, -1, start, stop)
    ensures var front := Front(original, edits, start);
      && LinesAt(Candidate(original, edits), original[start..stop], |front|)
      && (AtBoundary(Candidate(original, edits), |front|) <==> AtBoundary(front, |front|))
      && StandsBehind(Candidate(original, edits), front, original[start..stop], stop == |original|)
  {
    hide Replaceable, Candidate, Made, FrontIn, OnlyOverlaps, OccursAt;
    var block := original[start..stop];
    MadeInOrder(original, edits);
    ClearStands(original, edits, Made(original, edits), start, stop);
    WholeOccurs(block);
    LinesMove(Candidate(original, edits), Front(original, edits, start), block, stop == |original|, block, 0);
  }

  lemma WholeOccurs(text: Text)
    ensures OccursAt(text, text, 0)
  {
    assert text[0..|text|] == text;
  }

  lemma ClearStands(original: Text, edits: seq<Edit>, reps: seq<Replacement>, start: nat, stop: nat)
    requires Replaceable(original, edits) && reps == Made(original, edits) && Ordered(|original|, reps)
    requires start < stop <= |original| && OnlyOverlaps(original, edits, -1, start, stop)
    ensures StandsBehind(ReplaceAll(original, reps), FrontIn(original, reps, start), original[start..stop],
        stop == |original|)
  {
    hide Made, Ordered, ReplaceAll, FrontIn, StandsBehind, OnlyOverlaps, IsAnother, Replaceable, NoneEmpty;
    MadeOfAnchors(original, edits);
    forall i | 0 <= i < |reps| ensures Clear(reps[i], start, stop) {
      AnyPlace(original, edits, i);
      OthersAreClear(original, edits, -1, start, stop, reps[i]);
    }
    GapStands(original, reps, start, stop);
  }

  lemma AnyPlace(original: Text, edits: seq<Edit>, i: nat)
    requires i < |Made(original, edits)|
    ensures IsAnother(original, edits, -1, Made(original, edits)[i])
  {
    hide SortedBy, Index, Arrange, Locate;
    var located := Locate(original, edits);
    assert Arrange(located)[i] in multiset(located);
    var e :| 0 <= e < |located| && located[e] == Arrange(located)[i];
  }

  lemma GapStands(original: Text, reps: seq<Replacement>, start: nat, stop: nat)
    requires Ordered(|original|, reps) && NoneEmpty(reps) && start < stop <= |original|
    requires forall i :: 0 <= i < |reps| ==> Clear(reps[i], start, stop)
    ensures StandsBehind(ReplaceAll(original, reps), FrontIn(original, reps, start), original[start..stop],
        stop == |original|)
  {
    hide Ordered, ReplaceAll, Built;
    var k := EndingBy(reps, start);
    EndsBy(|original|, reps, start);
    NextIsBehind(|original|, reps, start, stop);
    CopiedBehind(original, reps, k, stop);
    var from := End(reps[..k]);
    assert original[from..stop] == original[from..start] + original[start..stop];
    Associates(Built(original, reps[..k]), original[from..start], original[start..stop]);
  }

  lemma {:induction false} NextIsBehind(size: nat, reps: seq<Replacement>, start: nat, stop: nat)
    requires Ordered(size, reps) && NoneEmpty(reps) && forall i :: 0 <= i < |reps| ==> Clear(reps[i], start, stop)
    ensures var k := EndingBy(reps, start); k < |reps| ==> stop <= reps[k].start < size
  {
    if reps != [] && start < Last(reps).end {
      assert NoneEmpty(WithoutLast(reps));
      NextIsBehind(size, WithoutLast(reps), start, stop);
      OrderedIsPairwise(size, reps);
    }
  }

  // ----- what the check does not keep -----

  ghost predicate HasLines(text: Text, block: Text) { exists at :: LinesAt(text, block, at) }

  ghost predicate HasOwnLines(text: Text, block: Text) {
    exists at :: LinesAt(text, block, at) && AtBoundary(text, at)
  }

  /** A single occurrence is counted once. */
  lemma UniqueCountsOnce(text: Text, pattern: Text, at: int)
    requires pattern != [] && UniqueAt(text, pattern, at)
    ensures Count(text, pattern) == 1 && Index(text, pattern) == at
  {
    CountedOnce(text, pattern);
  }

  const X_A := HeldLines.X_A
  const JOIN_A := HeldLines.JOIN_A
  const X_JOINED := HeldLines.X_JOINED

  /**
   * The stretch an edit makes may begin with the held lines: the check then does not look at what stands before it,
   * so an edit may take away the newline before a held line together with the line itself and put the line back.
   */
  lemma CheckAllowsJoining()
    ensures ExactEdits(X_A, [JOIN_A]) && Anchored(X_A, JOIN_A) && WholeLines(X_A, 2, 4) && KeepsBlock(X_A, JOIN_A, 2, 4)
    ensures AtMostOneOverlaps(X_A, [JOIN_A], 2, 4) && Swallows(X_A, [JOIN_A], JOIN_A, 2, 4)
    ensures !HasOwnLines(Candidate(X_A, [JOIN_A]), X_A[2..4])
  {
    hide Count, Index, OccursAt, Candidate, Anchored, KeepsBlock, ValidUtf8;
    JoinIsExact();
    JoinIsChecked();
    OneEdit(X_A, JOIN_A);
    assert Candidate(X_A, [JOIN_A]) == X_JOINED;
    assert X_A[2..4] == [97, 10];
    LineIsJoined();
    FrontOfOne(X_A, JOIN_A);
    assert X_A[..1] == [120];
    assert OnlyOverlaps(X_A, [JOIN_A], 0, 2, 4);
  }

  /** Before a single edit the candidate is the original. */
  lemma FrontOfOne(text: Text, edit: Edit)
    requires Replaceable(text, [edit]) && Anchored(text, edit)
    ensures At(text, edit) <= |text| && Front(text, [edit], At(text, edit)) == text[..At(text, edit)]
  {
    hide Anchored, Replaceable, Index;
    SpotIsAnchor(text, edit);
    MadeInOrder(text, [edit]);
    MadeOfAnchors(text, [edit]);
    var reps := Made(text, [edit]);
    var k := PlaceOf(text, [edit], 0);
    assert multiset(Arrange(Locate(text, [edit]))) == multiset(Locate(text, [edit]));
    assert |reps| == |Locate(text, [edit])| == 1;
    EndingByIs(|text|, reps, At(text, edit), 0);
    NothingEnded(text, reps);
    assert text[0..At(text, edit)] == text[..At(text, edit)];
  }

  lemma LineIsJoined()
    ensures !HasOwnLines(X_JOINED, [97, 10])
  {
    forall at | LinesAt(X_JOINED, [97, 10], at) ensures !AtBoundary(X_JOINED, at) {
      assert at != 0 by { assert X_JOINED[0..2][0] == 120; }
    }
  }

  lemma JoinIsExact()
    ensures Anchored(X_A, JOIN_A) && At(X_A, JOIN_A) == 1 && ExactEdits(X_A, [JOIN_A])
  {
    hide Anchored, Index, ValidUtf8;
    HeldLines.JoinIsAnchored();
    AsciiIsValid([10, 97]);
    AsciiIsValid([97]);
  }

  lemma JoinIsChecked()
    requires Anchored(X_A, JOIN_A) && At(X_A, JOIN_A) == 1
    ensures KeepsBlock(X_A, JOIN_A, 2, 4) && Index(Extended(X_A, JOIN_A, 2, 4), X_A[2..4]) == 0
  {
    hide Anchored, Index, Count;
    var block, before, after: Text := [97, 10], [10, 97, 10], [97, 10];
    assert X_A[2..4] == block && X_A[1..4] == before;
    assert Extended(X_A, JOIN_A, 2, 4) == after;
    assert OccursAt(before, block, 1) && OccursAt(after, block, 0);
    assert !OccursAt(before, block, 0) by { assert before[0..2][0] == 10; }
    UniqueCountsOnce(before, block, 1);
    UniqueCountsOnce(after, block, 0);
  }

  lemma {:induction false} AsciiIsValid(text: Text)
    requires forall k :: 0 <= k < |text| ==> text[k] < 128
    ensures ValidUtf8(text)
  {
    if text != [] { AsciiIsValid(text[1..]); }
  }

  const LOCATES_A := Locator(
    (l: SourceLocation) => l == HeldLines.HELD_A,
    (l: SourceLocation) => if l == HeldLines.HELD_A then Found(l) else Missing)

  lemma JoinKeepsHolds()
    ensures NamesLines(LOCATES_A, X_A) && KeepsHolds(HeldLines.HELD_PLAN, [JOIN_A], X_A, LOCATES_A)
  {
    hide Anchored, Index, Count, KeepsBlock, ExactEdits, IsBlank, LineTokens;
    HeldLines.LinesOfXA();
    JoinIsExact();
    JoinIsChecked();
    CheckAllowsJoining();
    var plan := HeldLines.HELD_PLAN;
    PlainReason();
    assert plan.items[..0] == [] && HoldsOf(plan.items) == [HoldOf(plan.items[0])];
    assert LocationKept(X_A, [JOIN_A], HeldLines.HELD_A);
  }

  lemma PlainReason()
    ensures !IsBlank("x")
  {
    assert "x"[0] !in SPACES && TrimLeft("x") == "x";
  }

  /** One input for all the checks: they accept the candidate, and the line they hold does not start a line any more. */
  method HoldsAreJoined() returns (kept: bool, attributed: Attributions.RangesResult, untouched: bool)
    ensures kept && attributed.Ranges? && untouched
    ensures HeldLines.IsHeld(HeldLines.HELD_PLAN, 2) && Candidate(X_A, [JOIN_A]) == X_JOINED
    ensures !HasOwnLines(X_JOINED, LineTokens(X_A)[1])
  {
    hide Attributions.Unclear, Attributions.Accounted, KeepsHolds, NamesLines, HasOwnLines, Candidate, Replaceable,
        LineTokens;
    JoinKeepsHolds();
    kept := CheckCandidateHolds(HeldLines.HELD_PLAN, [JOIN_A], X_A, LOCATES_A);
    HeldLines.JoinMakes();
    HeldLines.JoinIsAttributed();
    ghost var owners, blocks;
    attributed, owners, blocks := Attributions.VerifiedEditLineRanges(X_A, X_JOINED, [JOIN_A]);
    HeldLines.GuardAllowsJoining(owners, attributed.ranges, blocks);
    untouched := HeldLines.CandidateHeldRangesUnchanged(HeldLines.HELD_PLAN, attributed.ranges);
    HeldLines.LinesOfXA();
    LineIsJoined();
  }

  const AACC: Text := [97, 10, 97, 10, 99, 10, 99, 10]
  const ADD_C := HeldLines.ForBoth([97, 10, 97, 10], [97, 10, 97, 10, 99, 10])
  const ADD_A := HeldLines.ForBoth([99, 10, 99, 10], [97, 10, 99, 10, 99, 10])
  const AACACC: Text := [97, 10, 97, 10, 99, 10, 97, 10, 99, 10, 99, 10]

  /**
   * Edits are checked one by one: each of these two seems to add a line behind or before the held lines, since a
   * like line stands there, but together they push two lines in between.
   */
  lemma CheckAllowsSplitting()
    ensures ExactEdits(AACC, [ADD_C, ADD_A]) && WholeLines(AACC, 0, 8) && AllKeep(AACC, [ADD_C, ADD_A], 0, 8)
    ensures NoneSwallows(AACC, [ADD_C, ADD_A], 0, 8) && !HasLines(Candidate(AACC, [ADD_C, ADD_A]), AACC[0..8])
  {
    hide Count, Index, OccursAt, Candidate, Anchored;
    SplitAnchors();
    SplitIsExact();
    assert AACC[0..8] == AACC;
    FirstSplitIsChecked();
    SecondSplitIsChecked();
    TwoEdits(AACC, ADD_C, ADD_A);
    assert Candidate(AACC, [ADD_C, ADD_A]) == AACACC;
    LinesAreApart();
  }

  /** Their pieces do not fit: one puts three of the four lines before byte 4, the other three of them behind it. */
  lemma SplittingDoesNotFit()
    ensures SplitAt(AACC, [ADD_C, ADD_A], [ADD_C], [ADD_A], 4)
    ensures !PiecesFit(HeadOf(AACC, [ADD_C], 4), TailOf(AACC, [ADD_A], 4), AACC[0..8], false)
  {
    hide Index, Candidate, Anchored, HasLines, HasOwnLines, PiecesFit, HeadOf, TailOf, ExactEdits, AllKeep,
        NoneSwallows;
    CheckAllowsSplitting();
    SplitAnchors();
    ExactIsReplaceable(AACC, [ADD_C, ADD_A]);
    assert [ADD_C, ADD_A] == [ADD_C] + [ADD_A];
    PartedEditsKeepLines(AACC, [ADD_C, ADD_A], [ADD_C], [ADD_A], 4, AACC[0..8]);
  }

  lemma SplitAnchors()
    ensures Anchored(AACC, ADD_C) && At(AACC, ADD_C) == 0
    ensures Anchored(AACC, ADD_A) && At(AACC, ADD_A) == 4
  {
    assert OccursAt(AACC, [97, 10, 97, 10], 0) && OccursAt(AACC, [99, 10, 99, 10], 4);
    forall k | OccursAt(AACC, [97, 10, 97, 10], k) ensures k == 0 {
      assert AACC[k..k + 4][0] == AACC[k] && AACC[k..k + 4][2] == AACC[k + 2];
    }
    forall k | OccursAt(AACC, [99, 10, 99, 10], k) ensures k == 4 {
      assert AACC[k..k + 4][0] == AACC[k] && AACC[k..k + 4][2] == AACC[k + 2];
    }
  }

  lemma SplitIsExact()
    requires Anchored(AACC, ADD_C) && At(AACC, ADD_C) == 0 && Anchored(AACC, ADD_A) && At(AACC, ADD_A) == 4
    ensures ExactEdits(AACC, [ADD_C, ADD_A])
  {
    hide Anchored, Index, ValidUtf8;
    AsciiIsValid(ADD_C.oldText);
    AsciiIsValid(ADD_C.newText);
    AsciiIsValid(ADD_A.oldText);
    AsciiIsValid(ADD_A.newText);
    assert RealChange(ADD_C) by { assert |ADD_C.oldText| != |ADD_C.newText|; }
    assert RealChange(ADD_A) by { assert |ADD_A.oldText| != |ADD_A.newText|; }
  }

  lemma OnlyItself(text: Text)
    ensures UniqueAt(text, text, 0)
  {
    WholeOccurs(text);
  }

  lemma FirstSplitIsChecked()
    requires Anchored(AACC, ADD_C) && At(AACC, ADD_C) == 0
    ensures KeepsBlock(AACC, ADD_C, 0, 8)
  {
    hide Anchored, Index, Count, OccursAt;
    var after: Text := [97, 10, 97, 10, 99, 10, 99, 10, 99, 10];
    assert AACC[0..8] == AACC && Extended(AACC, ADD_C, 0, 8) == after;
    OnlyItself(AACC);
    UniqueCountsOnce(AACC, AACC, 0);
    BlockAtFront(after);
    UniqueCountsOnce(after, AACC, 0);
  }

  lemma BlockAtFront(after: Text)
    requires after == [97, 10, 97, 10, 99, 10, 99, 10, 99, 10]
    ensures UniqueAt(after, AACC, 0)
  {
    assert after[0..8] == AACC;
    forall k | OccursAt(after, AACC, k) ensures k == 0 {
      assert after[k..k + 8][2] == after[k + 2] && after[k..k + 8][0] == after[k];
    }
  }

  lemma SecondSplitIsChecked()
    requires Anchored(AACC, ADD_A) && At(AACC, ADD_A) == 4
    ensures KeepsBlock(AACC, ADD_A, 0, 8)
  {
    hide Anchored, Index, Count, OccursAt;
    var after: Text := [97, 10, 97, 10, 97, 10, 99, 10, 99, 10];
    assert AACC[0..8] == AACC && Extended(AACC, ADD_A, 0, 8) == after;
    OnlyItself(AACC);
    UniqueCountsOnce(AACC, AACC, 0);
    BlockAtSecond(after);
    UniqueCountsOnce(after, AACC, 2);
  }

  lemma BlockAtSecond(after: Text)
    requires after == [97, 10, 97, 10, 97, 10, 99, 10, 99, 10]
    ensures UniqueAt(after, AACC, 2)
  {
    assert after[2..10] == AACC;
    forall k | OccursAt(after, AACC, k) ensures k == 2 {
      assert after[k..k + 8][4] == after[k + 4] && after[k..k + 8][1] == after[k + 1];
    }
  }

  lemma ByteOfOccurrence(text: Text, pattern: Text, at: int, i: nat)
    requires OccursAt(text, pattern, at) && i < |pattern|
    ensures 0 <= at && at + i < |text| && text[at + i] == pattern[i]
  {
    assert text[at..at + |pattern|][i] == text[at + i];
  }

  lemma LinesAreApart()
    ensures !HasLines(AACACC, AACC)
  {
    hide OccursAt;
    forall k ensures !OccursAt(AACACC, AACC, k) {
      if OccursAt(AACACC, AACC, k) {
        ByteOfOccurrence(AACACC, AACC, k, 7);
        ByteOfOccurrence(AACACC, AACC, k, 0);
        ByteOfOccurrence(AACACC, AACC, k, 2);
        ByteOfOccurrence(AACACC, AACC, k, 6);
      }
    }
  }

  // ----- adopted candidates -----

  /** No two edits overlap the bytes. */
  ghost predicate AtMostOneOverlaps(original: Text, edits: seq<Edit>, start: nat, stop: nat) {
    exists e :: -1 <= e < |edits| && OnlyOverlaps(original, edits, e, start, stop)
  }

  /** An edit that begins before the lines begins its stretch with them, in the middle of a line. */
  ghost predicate Swallows(original: Text, edits: seq<Edit>, edit: Edit, start: nat, stop: nat) {
    && start < stop <= |original| && Anchored(original, edit)
    && NearBlock(original, edit, start, stop) && At(original, edit) < start
    && Index(Extended(original, edit, start, stop), original[start..stop]) == 0
    && var front := Front(original, edits, At(original, edit)); !AtBoundary(front, |front|)
  }

  ghost predicate NoneSwallows(original: Text, edits: seq<Edit>, start: nat, stop: nat) {
    forall e :: 0 <= e < |edits| ==> !Swallows(original, edits, edits[e], start, stop)
  }

  /** The edit begins before the lines and reaches at least up to them. */
  ghost predicate Reaches(original: Text, edit: Edit, start: nat, stop: nat) {
    Anchored(original, edit) && NearBlock(original, edit, start, stop) && At(original, edit) < start
  }

  lemma OnlyThat(original: Text, edits: seq<Edit>, e: int, g: nat, start: nat, stop: nat)
    requires Replaceable(original, edits) && OnlyOverlaps(original, edits, e, start, stop)
    requires 0 <= e < |edits| && e != g && Anchored(original, edits[e]) ==> !Overlaps(original, edits[e], start, stop)
    ensures OnlyOverlaps(original, edits, g, start, stop)
  {
  }

  lemma ReachingKeepsLines(original: Text, edits: seq<Edit>, g: nat, start: nat, stop: nat)
    requires Replaceable(original, edits) && g < |edits| && WholeLines(original, start, stop)
    requires Reaches(original, edits[g], start, stop) && OnlyOverlaps(original, edits, g, start, stop)
    requires KeepsBlock(original, edits[g], start, stop)
    ensures HasLines(Candidate(original, edits), original[start..stop])
    ensures !Swallows(original, edits, edits[g], start, stop) ==>
        HasOwnLines(Candidate(original, edits), original[start..stop])
  {
    hide Replaceable, Candidate, OnlyOverlaps, KeepsBlock, Anchored, Front, AtBoundary, LinesAt, Extended, Index;
    OneEditKeepsLines(original, edits, g, start, stop);
  }

  /**
   * What an adjoining edit puts before held lines that stand behind it does not join them, or the lines stand twice.
   */
  lemma BehindAdjoining(final: Text, front: Text, text: Text, block: Text)
    requires block != [] && front + text + block <= final && LinesAt(final, block, |front + text|)
    requires 0 <= Index(text + block, block) && KeepsLines(text + block, block, Index(text + block, block))
    requires Index(text + block, block) > 0 || AtBoundary(front, |front|)
    ensures HasOwnLines(final, block)
  {
    hide Index;
    var pos, whole := Index(text + block, block), front + text + block;
    assert final[..|whole|] == whole;
    assert whole == front + (text + block);
    if pos == |text| {
      if pos > 0 { assert final[|front| + pos - 1] == whole[|front| + pos - 1] == (text + block)[pos - 1]; }
      if pos == 0 && |front| > 0 { assert final[|front| - 1] == whole[|front| - 1] == front[|front| - 1]; }
      assert AtBoundary(final, |front + text|);
    } else {
      EarlierStands(final, front, text + block, block, pos);
    }
  }

  lemma EarlierStands(final: Text, front: Text, middle: Text, block: Text, pos: nat)
    requires front + middle <= final && block != [] && OccursAt(middle, block, pos) && KeepsLines(middle, block, pos)
    requires pos + |block| < |middle| && (pos > 0 || AtBoundary(front, |front|))
    ensures HasOwnLines(final, block)
  {
    var whole := front + middle;
    assert final[..|whole|] == whole;
    assert final[|front| + pos..|front| + pos + |block|] == whole[|front| + pos..|front| + pos + |block|]
        == middle[pos..pos + |block|];
    assert final[|front| + pos + |block|] == whole[|front| + pos + |block|] == middle[pos + |block|];
    if |front| + pos > 0 { assert final[|front| + pos - 1] == whole[|front| + pos - 1]; }
    assert LinesAt(final, block, |front| + pos) && AtBoundary(final, |front| + pos);
  }

  /** An edit that overlaps the lines begins behind one that adjoins their start. */
  lemma AdjoinedInOrder(original: Text, edits: seq<Edit>, e: nat, g: nat, start: nat, stop: nat)
    requires Replaceable(original, edits) && e < |edits| && g < |edits| && e != g && start < stop
    requires Anchored(original, edits[e]) && Overlaps(original, edits[e], start, stop)
    requires OnlyOverlaps(original, edits, e, start, stop) && Reaches(original, edits[g], start, stop)
    ensures start <= At(original, edits[e]) && At(original, edits[g]) + |edits[g].oldText| == start
    ensures NearBlock(original, edits[e], start, stop)
  {
    assert if e < g then Apart(original, edits[e], edits[g]) else Apart(original, edits[g], edits[e]);
  }

  lemma AdjoiningKeepsLines(original: Text, edits: seq<Edit>, e: nat, g: nat, start: nat, stop: nat)
    requires Replaceable(original, edits) && WholeLines(original, start, stop)
    requires e < |edits| && g < |edits| && e != g && Anchored(original, edits[e])
    requires Overlaps(original, edits[e], start, stop) && OnlyOverlaps(original, edits, e, start, stop)
    requires Reaches(original, edits[g], start, stop)
    requires KeepsBlock(original, edits[e], start, stop) && KeepsBlock(original, edits[g], start, stop)
    ensures HasLines(Candidate(original, edits), original[start..stop])
    ensures !Swallows(original, edits, edits[g], start, stop) ==>
        HasOwnLines(Candidate(original, edits), original[start..stop])
  {
    hide Replaceable, Candidate, OnlyOverlaps, Overlaps, KeepsBlock, KeepsLines, Anchored, Front, AtBoundary,
        LinesAt, Index, OccursAt, EndsLine;
    AdjoinedInOrder(original, edits, e, g, start, stop);
    OneEditKeepsLines(original, edits, e, start, stop);
    var block, after := original[start..stop], Extended(original, edits[e], start, stop);
    if Index(after, block) == 0 && !Swallows(original, edits, edits[g], start, stop) {
      NearestIsExtended(original, edits, e, start, stop);
      KeptLines(original, edits[e], start, stop);
      KeptLines(original, edits[g], start, stop);
      FrontBehindAdjoining(original, edits, g);
      var front := Front(original, edits, At(original, edits[g]));
      BeginsWithBlock(front + edits[g].newText, after, block, Candidate(original, edits));
      assert Extended(original, edits[g], start, stop) == edits[g].newText + block;
      BehindAdjoining(Candidate(original, edits), front, edits[g].newText, block);
    }
  }

  lemma BeginsWithBlock(front: Text, after: Text, block: Text, final: Text)
    requires front + after <= final && OccursAt(after, block, 0)
    ensures front + block <= final
  {
    assert after == block + after[|block|..];
    assert front + after == front + block + after[|block|..];
  }

  lemma FrontBehindAdjoining(original: Text, edits: seq<Edit>, g: nat)
    requires Replaceable(original, edits) && g < |edits| && Anchored(original, edits[g])
    ensures Front(original, edits, At(original, edits[g]) + |edits[g].oldText|) ==
      Front(original, edits, At(original, edits[g])) + edits[g].newText
  {
    hide Made, Replaceable, Anchored, Ordered, FrontIn, NoneEmpty, OccursAt, Index, Candidate, ReplaceAll;
    MadeInOrder(original, edits);
    MadeOfAnchors(original, edits);
    SpotIsAnchor(original, edits[g]);
    var k := PlaceOf(original, edits, g);
    FrontBehindEdit(original, Made(original, edits), k);
  }

  lemma UnreachedKeepsLines(original: Text, edits: seq<Edit>, e: int, start: nat, stop: nat)
    requires Replaceable(original, edits) && WholeLines(original, start, stop) && AllKeep(original, edits, start, stop)
    requires -1 <= e < |edits| && OnlyOverlaps(original, edits, e, start, stop)
    requires forall g :: 0 <= g < |edits| ==> !Reaches(original, edits[g], start, stop)
    ensures HasOwnLines(Candidate(original, edits), original[start..stop])
  {
    hide Replaceable, Candidate, OnlyOverlaps, KeepsBlock, Anchored, Front, WholeLines, AtBoundary, LinesAt,
        Extended, Index;
    UnreachedFront(original, edits, start, stop);
    if e >= 0 && Overlaps(original, edits[e], start, stop) {
      OneEditKeepsLines(original, edits, e, start, stop);
    } else {
      OnlyThat(original, edits, e, |edits|, start, stop);
      NoSuchEdit(original, edits, start, stop);
      ClearEditsKeepLines(original, edits, start, stop);
    }
  }

  lemma NoSuchEdit(original: Text, edits: seq<Edit>, start: nat, stop: nat)
    requires OnlyOverlaps(original, edits, |edits|, start, stop)
    ensures OnlyOverlaps(original, edits, -1, start, stop)
  {
  }

  lemma EachNonempty(reps: seq<Replacement>)
    requires NoneEmpty(reps)
    ensures forall i :: 0 <= i < |reps| ==> reps[i].start < reps[i].end
  {
  }

  lemma UnreachedFront(original: Text, edits: seq<Edit>, start: nat, stop: nat)
    requires Replaceable(original, edits) && WholeLines(original, start, stop)
    requires forall g :: 0 <= g < |edits| ==> !Reaches(original, edits[g], start, stop)
    ensures AtBoundary(Front(original, edits, start), |Front(original, edits, start)|)
  {
    hide Made, Replaceable, Anchored, Ordered, FrontIn, AtBoundary, Index, OccursAt, Candidate, ReplaceAll, EndsLine,
        NoneEmpty;
    var reps := Made(original, edits);
    MadeInOrder(original, edits);
    MadeOfAnchors(original, edits);
    assert forall i :: 0 <= i < |reps| ==> reps[i].start < reps[i].end by { EachNonempty(reps); }
    forall i | 0 <= i < |reps| ensures reps[i].end != start {
      AnyPlace(original, edits, i);
      var g :| 0 <= g < |edits| && reps[i] == AsReplacement(Spot(original, edits[g]));
      EachIsAnchored(original, edits);
      SpotIsAnchor(original, edits[g]);
      assert !Reaches(original, edits[g], start, stop);
    }
    FrontEndsLine(original, reps, start);
  }

  /**
   * Held lines that at most one edit overlaps are in the candidate, and stay lines unless an edit swallows their start.
   */
  lemma CheckedLinesAreKept(original: Text, edits: seq<Edit>, start: nat, stop: nat)
    requires Replaceable(original, edits) && WholeLines(original, start, stop) && AllKeep(original, edits, start, stop)
    requires AtMostOneOverlaps(original, edits, start, stop)
    ensures HasLines(Candidate(original, edits), original[start..stop])
    ensures
      NoneSwallows(original, edits, start, stop) ==> HasOwnLines(Candidate(original, edits), original[start..stop])
  {
    hide Replaceable, Candidate, OnlyOverlaps, KeepsBlock, Anchored, Front, WholeLines, AtBoundary, LinesAt,
        Swallows, Extended, Index;
    var e :| -1 <= e < |edits| && OnlyOverlaps(original, edits, e, start, stop);
    if g :| 0 <= g < |edits| && Reaches(original, edits[g], start, stop) {
      if 0 <= e != g && Overlaps(original, edits[e], start, stop) {
        AdjoiningKeepsLines(original, edits, e, g, start, stop);
      } else {
        OnlyThat(original, edits, e, g, start, stop);
        ReachingKeepsLines(original, edits, g, start, stop);
      }
    } else {
      UnreachedKeepsLines(original, edits, e, start, stop);
    }
  }

  // ----- several edits that overlap the lines -----

  /** The edits in two lists, one for each side of byte `m`. */
  ghost predicate SplitAt(original: Text, edits: seq<Edit>, early: seq<Edit>, late: seq<Edit>, m: nat) {
    && m <= |original| && multiset(edits) == multiset(early + late)
    && (forall i ::
          0 <= i < |early| ==> Anchored(original, early[i]) && At(original, early[i]) + |early[i].oldText| <= m)
    && (forall i :: 0 <= i < |late| ==> Anchored(original, late[i]) && m <= At(original, late[i]))
  }

  /** What the early edits alone make of the bytes before `m`. */
  ghost function HeadOf(original: Text, early: seq<Edit>, m: nat): Text
    requires m <= |original|
  {
    var made, rest := Candidate(original, early), |original| - m;
    if rest <= |made| then made[..|made| - rest] else []
  }

  /** What the late edits alone make of the bytes from `m` on. */
  ghost function TailOf(original: Text, late: seq<Edit>, m: nat): Text {
    var made := Candidate(original, late);
    if m <= |made| then made[m..] else []
  }

  lemma HalvesAreReplaceable(original: Text, edits: seq<Edit>, early: seq<Edit>, late: seq<Edit>, m: nat)
    requires Replaceable(original, edits) && SplitAt(original, edits, early, late, m)
    ensures Replaceable(original, early + late) && Candidate(original, early + late) == Candidate(original, edits)
    ensures Replaceable(original, early) && Replaceable(original, late)
  {
    OrderDoesNotMatter(original, edits, early + late);
    HalfIsReplaceable(original, early, late);
  }

  lemma HalfIsReplaceable(original: Text, early: seq<Edit>, late: seq<Edit>)
    requires Replaceable(original, early + late)
    ensures Replaceable(original, early) && Replaceable(original, late)
  {
    hide Anchored, Apart;
    var all := early + late;
    assert forall i :: 0 <= i < |early| ==> all[i] == early[i];
    forall i | 0 <= i < |late| ensures late[i] == all[|early| + i] { }
    forall i, j | 0 <= i < j < |late|
      ensures Anchored(original, late[i]) && Anchored(original, late[j]) && Apart(original, late[i], late[j])
    {
      assert Apart(original, all[|early| + i], all[|early| + j]);
    }
    forall i | 0 <= i < |late| ensures Anchored(original, late[i]) {
      assert Anchored(original, all[|early| + i]);
    }
  }

  lemma MadeWithin(original: Text, edits: seq<Edit>, low: nat, high: nat)
    requires forall i :: 0 <= i < |edits| ==> Anchored(original, edits[i]) && low <= At(original, edits[i])
    requires forall i :: 0 <= i < |edits| ==> At(original, edits[i]) + |edits[i].oldText| <= high
    ensures forall i :: 0 <= i < |Made(original, edits)| ==> WithinBytes(Made(original, edits)[i], low, high)
  {
    hide Made, OccursAt, Index, Anchored, Spot;
    forall i | 0 <= i < |Made(original, edits)| ensures WithinBytes(Made(original, edits)[i], low, high) {
      AnyPlace(original, edits, i);
      var e :| 0 <= e < |edits| && Made(original, edits)[i] == AsReplacement(Spot(original, edits[e]));
      SpotIsAnchor(original, edits[e]);
    }
  }

  ghost predicate WithinBytes(rep: Replacement, low: nat, high: nat) { low <= rep.start <= rep.end <= high }

  lemma AnchorsEnd(original: Text, edits: seq<Edit>)
    requires forall i :: 0 <= i < |edits| ==> Anchored(original, edits[i])
    ensures forall i :: 0 <= i < |edits| ==> At(original, edits[i]) + |edits[i].oldText| <= |original|
  {
    forall i | 0 <= i < |edits| ensures At(original, edits[i]) + |edits[i].oldText| <= |original| {
      AnchorFits(original, edits[i]);
    }
  }

  lemma HalvesWithin(original: Text, early: seq<Edit>, late: seq<Edit>, m: nat)
    requires SplitAt(original, early + late, early, late, m)
    ensures forall i :: 0 <= i < |Made(original, early)| ==> WithinBytes(Made(original, early)[i], 0, m)
    ensures forall i :: 0 <= i < |Made(original, late)| ==> WithinBytes(Made(original, late)[i], m, |original|)
  {
    hide Made, Anchored, Index;
    AnchorsEnd(original, late);
    MadeWithin(original, early, 0, m);
    MadeWithin(original, late, m, |original|);
  }

  /** The edits of the two lists are made in the same order as alone. */
  lemma HalvesMade(original: Text, early: seq<Edit>, late: seq<Edit>, m: nat)
    requires Replaceable(original, early + late) && SplitAt(original, early + late, early, late, m)
    ensures Made(original, early + late) == Made(original, early) + Made(original, late)
  {
    hide Replaceable, SortedBy, Candidate, Ordered, ReplaceAll, SplitAt, Locate, Arrange, Disjoint;
    var a, b := Arrange(Locate(original, early)), Arrange(Locate(original, late));
    LocatedInHalves(original, early, late);
    HalvesInOrder(original, early, late, m);
    ArrangementIsUnique(original, early + late, a + b);
    assert Replacing(a + b) == Replacing(a) + Replacing(b);
  }

  lemma LocatedInHalves(original: Text, early: seq<Edit>, late: seq<Edit>)
    ensures multiset(Arrange(Locate(original, early)) + Arrange(Locate(original, late)))
        == multiset(Locate(original, early + late))
  {
    hide Spot, SortedBy;
    assert Locate(original, early + late) == Locate(original, early) + Locate(original, late);
  }

  lemma HalvesInOrder(original: Text, early: seq<Edit>, late: seq<Edit>, m: nat)
    requires SplitAt(original, early + late, early, late, m)
    ensures SortedBy(Arrange(Locate(original, early)) + Arrange(Locate(original, late)), UP)
  {
    hide OccursAt, Index, SplitAt, Locate;
    var a, b := Arrange(Locate(original, early)), Arrange(Locate(original, late));
    HalvesWithin(original, early, late, m);
    forall i | 0 <= i < |a| ensures UP(a[i]) <= m {
      assert WithinBytes(Made(original, early)[i], 0, m);
    }
    forall i | 0 <= i < |b| ensures m <= UP(b[i]) {
      assert WithinBytes(Made(original, late)[i], m, |original|);
    }
    SortedJoin(a, b, m);
  }

  lemma SortedJoin(a: seq<Located>, b: seq<Located>, m: int)
    requires SortedBy(a, UP) && SortedBy(b, UP)
    requires (forall i :: 0 <= i < |a| ==> UP(a[i]) <= m) && forall i :: 0 <= i < |b| ==> m <= UP(b[i])
    ensures SortedBy(a + b, UP)
  {
  }

  /** The text written up to byte `x`. */
  ghost function Written(original: Text, reps: seq<Replacement>, x: nat): Text
    requires Ordered(|original|, reps) && End(reps) <= x <= |original|
  {
    Built(original, reps) + original[End(reps)..x]
  }

  lemma {:induction false} WrittenHalves(original: Text, early: seq<Replacement>, late: seq<Replacement>, m: nat,
      x: nat)
    requires
      Ordered(|original|, early) && Ordered(|original|, late) && End(early) <= m <= x <= |original| && End(late) <= x
    requires forall i :: 0 <= i < |late| ==> m <= late[i].start
    ensures Ordered(|original|, early + late) && End(early + late) <= x
    ensures m <= |Written(original, late, x)| && Written(original, late, x)[..m] == original[..m]
    ensures Written(original, early + late, x) == Written(original, early, m) + Written(original, late, x)[m..]
  {
    if late == [] {
      assert early + late == early;
      NoneLate(original, early, m, x);
    } else {
      hide Built;
      var front, r := WithoutLast(late), Last(late);
      WrittenHalves(original, early, front, m, r.start);
      assert WithoutLast(early + late) == early + front && Last(early + late) == r;
      WrittenStep(original, late, x);
      WrittenStep(original, early + late, x);
      SameTail(Written(original, early, m), Written(original, front, r.start), r.text + original[r.end..x], m);
    }
  }

  lemma NoneLate(original: Text, early: seq<Replacement>, m: nat, x: nat)
    requires Ordered(|original|, early) && End(early) <= m <= x <= |original|
    ensures m <= |Written(original, [], x)| && Written(original, [], x)[..m] == original[..m]
    ensures Written(original, early, x) == Written(original, early, m) + Written(original, [], x)[m..]
  {
    NothingEnded(original, []);
    assert Written(original, [], x) == original[..m] + original[m..x];
    WrittenOn(original, early, m, x);
  }

  lemma WrittenOn(original: Text, early: seq<Replacement>, m: nat, x: nat)
    requires Ordered(|original|, early) && End(early) <= m <= x <= |original|
    ensures Written(original, early, x) == Written(original, early, m) + original[m..x]
  {
    hide Built, Ordered;
    assert original[End(early)..x] == original[End(early)..m] + original[m..x];
    Associates(Built(original, early), original[End(early)..m], original[m..x]);
  }

  lemma WrittenStep(original: Text, reps: seq<Replacement>, x: nat)
    requires reps != [] && Ordered(|original|, reps) && End(reps) <= x <= |original|
    ensures Written(original, reps, x) ==
      Written(original, WithoutLast(reps), Last(reps).start) + (Last(reps).text + original[Last(reps).end..x])
  {
    Associates(Written(original, WithoutLast(reps), Last(reps).start), Last(reps).text, original[Last(reps).end..x]);
  }

  lemma SameTail(a: Text, b: Text, c: Text, m: nat)
    requires m <= |b|
    ensures (b + c)[..m] == b[..m] && a + b[m..] + c == a + (b + c)[m..]
  {
  }

  /** The candidate is what the early edits make before `m` and what the late ones make from there on. */
  lemma HalvesMeet(original: Text, edits: seq<Edit>, early: seq<Edit>, late: seq<Edit>, m: nat)
    requires Replaceable(original, edits) && SplitAt(original, edits, early, late, m)
    ensures Candidate(original, edits) == HeadOf(original, early, m) + TailOf(original, late, m)
  {
    hide Replaceable, Made, Ordered, Anchored, Built, Candidate, ReplaceAll, Written, End;
    HalvesAreReplaceable(original, edits, early, late, m);
    HalvesMade(original, early, late, m);
    MadeInOrder(original, early);
    MadeInOrder(original, late);
    MadeInOrder(original, early + late);
    HalvesEnd(original, early, late, m);
    var a, b := Made(original, early), Made(original, late);
    EndFits(|original|, b);
    WrittenHalves(original, a, b, m, |original|);
    WholeIsWritten(original, a);
    WholeIsWritten(original, b);
    WholeIsWritten(original, a + b);
    WrittenMore(original, a, m);
  }

  lemma WholeIsWritten(original: Text, reps: seq<Replacement>)
    requires Ordered(|original|, reps)
    ensures End(reps) <= |original| && ReplaceAll(original, reps) == Written(original, reps, |original|)
  {
    EndFits(|original|, reps);
  }

  lemma WrittenMore(original: Text, reps: seq<Replacement>, m: nat)
    requires Ordered(|original|, reps) && End(reps) <= m <= |original|
    ensures Written(original, reps, |original|) == Written(original, reps, m) + original[m..]
  {
    assert original[End(reps)..|original|] == original[End(reps)..m] + original[m..];
  }

  lemma HalvesEnd(original: Text, early: seq<Edit>, late: seq<Edit>, m: nat)
    requires SplitAt(original, early + late, early, late, m)
    ensures End(Made(original, early)) <= m
    ensures forall i :: 0 <= i < |Made(original, late)| ==> m <= Made(original, late)[i].start
  {
    hide Made, SplitAt;
    HalvesWithin(original, early, late, m);
    var a := Made(original, early);
    if a != [] { assert WithinBytes(a[|a| - 1], 0, m); }
    forall i | 0 <= i < |Made(original, late)| ensures m <= Made(original, late)[i].start {
      assert WithinBytes(Made(original, late)[i], m, |original|);
    }
  }

  /** The first c bytes of the lines end `head` and the others begin `tail`. */
  ghost predicate MeetAfter(head: Text, tail: Text, block: Text, c: int) {
    && 0 <= c <= |block| && c <= |head| && |block| - c <= |tail|
    && head[|head| - c..] == block[..c] && tail[..|block| - c] == block[c..]
    && (EndsLine(block) || |block| - c == |tail| || tail[|block| - c] == NEWLINE)
  }

  /** The lines stand at `at`; `own` asks that they start a line too. */
  ghost predicate StandsAt(text: Text, block: Text, at: nat, own: bool) {
    LinesAt(text, block, at) && (own ==> AtBoundary(text, at))
  }

  ghost predicate MeetsAt(head: Text, tail: Text, block: Text, c: int, own: bool) {
    MeetAfter(head, tail, block, c) && (own ==> AtBoundary(head, |head| - c))
  }

  /** The lines stand within one of two pieces, or where these meet. */
  ghost predicate PiecesFit(head: Text, tail: Text, block: Text, own: bool) {
    || (exists at: nat :: StandsAt(head, block, at, own) && at + |block| < |head|)
    || (exists at: nat :: StandsAt(tail, block, at, own) && 0 < at)
    || (exists c :: MeetsAt(head, tail, block, c, own))
  }

  lemma InHead(head: Text, tail: Text, block: Text, at: nat)
    requires at + |block| < |head|
    ensures LinesAt(head + tail, block, at) <==> LinesAt(head, block, at)
    ensures AtBoundary(head + tail, at) <==> AtBoundary(head, at)
  {
    assert (head + tail)[at..at + |block|] == head[at..at + |block|];
  }

  lemma InTail(head: Text, tail: Text, block: Text, at: nat)
    requires |head| < at && at + |block| <= |head + tail|
    ensures LinesAt(head + tail, block, at) <==> LinesAt(tail, block, at - |head|)
    ensures AtBoundary(head + tail, at) <==> AtBoundary(tail, at - |head|)
  {
    assert (head + tail)[at..at + |block|] == tail[at - |head|..at - |head| + |block|];
  }

  lemma AcrossBoth(head: Text, tail: Text, block: Text, at: nat)
    requires at <= |head| <= at + |block| <= |head + tail|
    ensures LinesAt(head + tail, block, at) <==> MeetAfter(head, tail, block, |head| - at)
    ensures AtBoundary(head + tail, at) <==> AtBoundary(head, at)
  {
    var c := |head| - at;
    assert (head + tail)[at..at + |block|] == head[at..] + tail[..|block| - c];
    assert block == block[..c] + block[c..];
    assert (head[at..] + tail[..|block| - c])[..c] == head[at..]
      && (head[at..] + tail[..|block| - c])[c..] == tail[..|block| - c];
  }

  lemma LinesFit(text: Text, block: Text, at: nat)
    requires LinesAt(text, block, at)
    ensures at + |block| <= |text|
  {
  }

  lemma StandsAcross(head: Text, tail: Text, block: Text, own: bool)
    requires block != []
    ensures (exists at: nat :: StandsAt(head + tail, block, at, own)) <==> PiecesFit(head, tail, block, own)
  {
    hide StandsAt, MeetsAt;
    if at: nat :| StandsAt(head + tail, block, at, own) {
      PieceOf(head, tail, block, at, own);
    }
    if at: nat :| StandsAt(head, block, at, own) && at + |block| < |head| {
      FromHead(head, tail, block, at, own);
    }
    if at: nat :| StandsAt(tail, block, at, own) && 0 < at {
      FromTail(head, tail, block, at, own);
    }
    if c :| MeetsAt(head, tail, block, c, own) {
      FromBoth(head, tail, block, c, own);
    }
  }

  lemma FromHead(head: Text, tail: Text, block: Text, at: nat, own: bool)
    requires StandsAt(head, block, at, own) && at + |block| < |head|
    ensures StandsAt(head + tail, block, at, own)
  {
    hide OccursAt, EndsLine;
    InHead(head, tail, block, at);
  }

  lemma FromTail(head: Text, tail: Text, block: Text, at: nat, own: bool)
    requires StandsAt(tail, block, at, own) && 0 < at
    ensures StandsAt(head + tail, block, |head| + at, own)
  {
    LinesFit(tail, block, at);
    InTail(head, tail, block, |head| + at);
  }

  lemma FromBoth(head: Text, tail: Text, block: Text, c: int, own: bool)
    requires MeetsAt(head, tail, block, c, own)
    ensures 0 <= c <= |head| && StandsAt(head + tail, block, |head| - c, own)
  {
    hide OccursAt, EndsLine;
    AcrossBoth(head, tail, block, |head| - c);
  }

  lemma PieceOf(head: Text, tail: Text, block: Text, at: nat, own: bool)
    requires block != [] && StandsAt(head + tail, block, at, own)
    ensures PiecesFit(head, tail, block, own)
  {
    LinesFit(head + tail, block, at);
    if at + |block| < |head| {
      InHead(head, tail, block, at);
      assert StandsAt(head, block, at, own);
    } else if |head| < at {
      InTail(head, tail, block, at);
      assert StandsAt(tail, block, at - |head|, own);
    } else {
      AcrossBoth(head, tail, block, at);
      assert MeetsAt(head, tail, block, |head| - at, own);
    }
  }

  lemma HasIsStands(text: Text, block: Text)
    ensures HasLines(text, block) <==> exists at: nat :: StandsAt(text, block, at, false)
    ensures HasOwnLines(text, block) <==> exists at: nat :: StandsAt(text, block, at, true)
  {
    if at: nat :| LinesAt(text, block, at) { assert StandsAt(text, block, at, false); }
    if at: nat :| LinesAt(text, block, at) && AtBoundary(text, at) { assert StandsAt(text, block, at, true); }
  }

  /**
   * For any edits, and wherever they are parted: the candidate has the lines exactly when what the edits of one side
   * make alone has them, or both sides' texts meet within them. So several edits that overlap held lines, each of
   * which leaves them whole, keep them together exactly when their pieces fit.
   */
  lemma PartedEditsKeepLines(original: Text, edits: seq<Edit>, early: seq<Edit>, late: seq<Edit>, m: nat, block: Text)
    requires Replaceable(original, edits) && SplitAt(original, edits, early, late, m) && block != []
    ensures var head, tail := HeadOf(original, early, m), TailOf(original, late, m);
      && (HasLines(Candidate(original, edits), block) <==> PiecesFit(head, tail, block, false))
      && (HasOwnLines(Candidate(original, edits), block) <==> PiecesFit(head, tail, block, true))
  {
    hide Replaceable, Candidate, SplitAt, HasLines, HasOwnLines, PiecesFit, StandsAt, HeadOf, TailOf;
    assert m <= |original| by { PartedInside(original, edits, early, late, m); }
    HalvesMeet(original, edits, early, late, m);
    var head, tail := HeadOf(original, early, m), TailOf(original, late, m);
    HasIsStands(head + tail, block);
    StandsAcross(head, tail, block, false);
    StandsAcross(head, tail, block, true);
  }

  lemma PartedInside(original: Text, edits: seq<Edit>, early: seq<Edit>, late: seq<Edit>, m: nat)
    requires SplitAt(original, edits, early, late, m)
    ensures m <= |original|
  {
  }

  /** Two edits that overlap checked lines: each keeps them alone, and together they do exactly when the pieces fit. */
  lemma TwoEditsKeepLines(original: Text, edits: seq<Edit>, early: seq<Edit>, late: seq<Edit>, m: nat, start: nat,
      stop: nat)
    requires Replaceable(original, edits) && SplitAt(original, edits, early, late, m)
    requires WholeLines(original, start, stop) && AllKeep(original, edits, start, stop)
    requires AtMostOneOverlaps(original, early, start, stop) && AtMostOneOverlaps(original, late, start, stop)
    ensures var block := original[start..stop];
      && HasLines(Candidate(original, early), block) && HasLines(Candidate(original, late), block)
      && (HasLines(Candidate(original, edits), block) <==>
            PiecesFit(HeadOf(original, early, m), TailOf(original, late, m), block, false))
  {
    hide Replaceable, Candidate, HasLines, HasOwnLines, PiecesFit, HeadOf, TailOf, AtMostOneOverlaps, WholeLines;
    KeptByHalves(original, edits, early, late, m, start, stop);
    HalvesAreReplaceable(original, edits, early, late, m);
    CheckedLinesAreKept(original, early, start, stop);
    CheckedLinesAreKept(original, late, start, stop);
    PartedEditsKeepLines(original, edits, early, late, m, original[start..stop]);
  }

  lemma KeptByHalves(original: Text, edits: seq<Edit>, early: seq<Edit>, late: seq<Edit>, m: nat, start: nat, stop: nat)
    requires SplitAt(original, edits, early, late, m) && AllKeep(original, edits, start, stop)
    ensures AllKeep(original, early, start, stop) && AllKeep(original, late, start, stop)
  {
    hide KeepsBlock, Anchored;
    forall e: Edit | e in multiset(early + late) ensures Anchored(original, e) && KeepsBlock(original, e, start, stop) {
      assert e in multiset(edits);
    }
    assert forall i :: 0 <= i < |early| ==> early[i] in multiset(early + late);
    assert forall i :: 0 <= i < |late| ==> late[i] in multiset(early + late);
  }

  /** The loop is run with this check, on a source whose valid locations name its lines. */
  ghost predicate ChecksHolds(task: RepairSteps.Task) {
    && NamesLines(task.at, task.original)
    && forall plan, request :: task.kept(plan, request) <==> KeepsHolds(plan, request.edits, task.original, task.at)
  }

  ghost predicate Adopts(m: RepairSteps.Machine) { m.phase.Done? && m.phase.proposal.outcome == RepairSteps.MODIFIED }

  ghost predicate IsHeldLocation(plan: RepairPlan, loc: SourceLocation) {
    exists i :: 0 <= i < |plan.items| && plan.items[i].status == BLOCKED && loc in plan.items[i].sourceLocations
  }

  /** In every run, an adopted modification has every held location that at most one of its edits overlaps. */
  lemma AdoptedLinesAreKept(task: RepairSteps.Task, events: seq<RepairSteps.Event>, m: RepairSteps.Machine,
      loc: SourceLocation)
    requires Reliable(task.at) && RepairSteps.Possible(task, events) && ChecksHolds(task)
    requires m == RepairSteps.After(task, events) && Adopts(m) && IsHeldLocation(m.live.plan, loc)
    ensures LocationKept(task.original, m.phase.proposal.edits, loc)
    ensures LocationStays(task.original, m.phase.proposal.edits, loc)
  {
    hide ExactEdits, LocationKept, LocationStays, IsHeldLocation, RepairSafety.ModificationEarned, KeepsHolds,
        NamesLines, RepairSteps.After;
    RepairSafety.AdoptedModification(task, events);
    EarnedEdits(task, m);
    CheckedHoldsStay(m.live.plan, m.phase.proposal.edits, task.original, task.at, loc);
  }

  lemma CheckedHoldsStay(plan: RepairPlan, edits: seq<Edit>, original: Text, at: Locator, loc: SourceLocation)
    requires KeepsHolds(plan, edits, original, at) && IsHeldLocation(plan, loc)
    ensures LocationKept(original, edits, loc) && LocationStays(original, edits, loc)
  {
    hide ExactEdits, LocationKept, LocationStays, HoldsOfPlan, ValidPlanLocations;
    var i :| 0 <= i < |plan.items| && plan.items[i].status == BLOCKED && loc in plan.items[i].sourceLocations;
    var hold := HoldOf(plan.items[i]);
    HoldsAreBlockedItems(plan.items, hold);
    var h :| 0 <= h < |HoldsOf(plan.items)| && HoldsOf(plan.items)[h] == hold;
    assert HoldKept(original, edits, hold);
    KeptLocationStays(original, edits, loc);
  }

  lemma EarnedEdits(task: RepairSteps.Task, m: RepairSteps.Machine)
    requires Adopts(m) && RepairSafety.ModificationEarned(task, m, m.phase.proposal)
    ensures m.validated.Some? && m.validated.value.0.edits == m.phase.proposal.edits
    ensures task.kept(m.live.plan, m.validated.value.0) && ExactEdits(task.original, m.phase.proposal.edits)
  {
    hide RepairSafety.ReviewAllows, ExactEdits;
  }

  ghost predicate LocationStays(original: Text, edits: seq<Edit>, loc: SourceLocation) {
    Inside(original, loc) &&
    var start, stop := StartOf(original, loc), StopOf(original, loc);
    && start <= stop <= |original|
    && (AtMostOneOverlaps(original, edits, start, stop) ==>
          && HasLines(Candidate(original, edits), original[start..stop])
          && (NoneSwallows(original, edits, start, stop) ==>
                HasOwnLines(Candidate(original, edits), original[start..stop])))
  }

  lemma KeptLocationStays(original: Text, edits: seq<Edit>, loc: SourceLocation)
    requires ExactEdits(original, edits) && LocationKept(original, edits, loc)
    ensures LocationStays(original, edits, loc)
  {
    hide ExactEdits, Replaceable, WholeLines, AtMostOneOverlaps, NoneSwallows, HasLines, HasOwnLines, Candidate;
    ExactIsReplaceable(original, edits);
    LocationsAreWholeLines(original, loc);
    var start, stop := StartOf(original, loc), StopOf(original, loc);
    if AtMostOneOverlaps(original, edits, start, stop) {
      CheckedLinesAreKept(original, edits, start, stop);
    }
  }
}

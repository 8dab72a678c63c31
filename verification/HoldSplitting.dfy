/** One input that every check of held lines accepts, although the lines it holds come apart. */
module HoldSplitting {
  import opened Bytes
  import opened Sorting
  import opened Spaces
  import opened Scripts
  import opened Substitution
  import opened ByteBlocks
  import opened LineRanges
  import opened Attributions
  import opened Plans
  import opened PlanRuns
  import opened Candidates
  import opened HeldLines
  import opened HoldChecks

  const BOTH := [ADD_C, ADD_A]
  const HELD_AACC := SourceLocation(1, 4, AACC)
  const SPLIT_PLAN := RepairPlan(1, [], [PlanItem("h", "r", "x", "x", "x", "x", BLOCKED, "x", [HELD_AACC])])

  const LOCATES_AACC := Locator(
    (l: SourceLocation) => l == HELD_AACC,
    (l: SourceLocation) => if l == HELD_AACC then Found(l) else Missing)

  const A_LINE: Text := [97, 10]
  const C_LINE: Text := [99, 10]

  lemma ConcatTwo(a: Text, b: Text)
    ensures Concat([a, b]) == a + b
  {
    assert [a, b][1..] == [b] && [b][1..] == [];
    assert Concat([b]) == b + Concat([]) && b + [] == b;
  }

  lemma LinesOfAACC()
    ensures |LineTokens(AACC)| == 4 && LineStart(AACC, 1) == 0 && LineStop(AACC, 4) == 8
  {
    hide LineTokens, Concat;
    var tokens := [A_LINE, A_LINE, C_LINE, C_LINE];
    ConcatTwo(A_LINE, A_LINE);
    ConcatTwo(C_LINE, C_LINE);
    ConcatAppend([A_LINE, A_LINE], [C_LINE, C_LINE]);
    assert [A_LINE, A_LINE] + [C_LINE, C_LINE] == tokens;
    assert Concat(tokens) == AACC;
    TokensAreUnique(tokens, LineTokens(AACC));
    NoTokens();
    assert tokens[..0] == [] && tokens[..4] == tokens;
  }

  lemma NoTokens()
    ensures Concat([]) == []
  {
  }

  lemma SplitKeepsHolds()
    ensures NamesLines(LOCATES_AACC, AACC) && KeepsHolds(SPLIT_PLAN, BOTH, AACC, LOCATES_AACC)
  {
    hide Anchored, Index, HoldChecks.Count, KeepsBlock, ExactEdits, IsBlank, LineTokens, AllKeep, HasLines,
        NoneSwallows, OccursAt, LineStart, LineStop, Candidate, WholeLines;
    LinesOfAACC();
    CheckAllowsSplitting();
    PlainReason();
    var plan := SPLIT_PLAN;
    assert plan.items[..0] == [] && HoldsOf(plan.items) == [HoldOf(plan.items[0])];
    assert LocationKept(AACC, BOTH, HELD_AACC);
  }

  // ----- the attribution -----

  /** An edit that adds one line in one place. */
  lemma AddedLineIsClear(before: Text, after: Text, prefix: nat, line: Text)
    requires before != [] && prefix <= |before| && Edges(before, after, prefix, |before| - prefix)
    requires IsToken(line, true) && |after| == |before| + |line| && after[prefix..prefix + |line|] == line
    ensures !Unclear(ForBoth(before, after))
  {
    hide Unclear, Edges, Scattered, TooLarge, ForBoth;
    var f := Frame(before, after, prefix, |before| - prefix, [], [line]);
    assert [line][1..] == [] && Concat([line]) == line + Concat([]) && line + [] == line;
    assert before[prefix..prefix] == Concat([]);
    DecidedByFrame(f);
    OneRegion(f.oldLines, f.newLines, 0, 0, false);
    BothAreAttributed(before, after);
  }

  lemma AddCIsClear()
    ensures Edges(ADD_C.oldText, ADD_C.newText, 4, 0) && !Unclear(ADD_C)
  {
    hide Unclear;
    assert ADD_C.oldText[..4] == ADD_C.newText[..4] && ADD_C.oldText[4..] == ADD_C.newText[6..];
    assert ADD_C.newText[4..6] == C_LINE;
    AddedLineIsClear(ADD_C.oldText, ADD_C.newText, 4, C_LINE);
  }

  lemma AddAIsClear()
    ensures Edges(ADD_A.oldText, ADD_A.newText, 0, 4) && !Unclear(ADD_A)
  {
    hide Unclear;
    assert ADD_A.oldText[..0] == ADD_A.newText[..0] && ADD_A.oldText[0..] == ADD_A.newText[2..];
    assert ADD_A.newText[0..2] == A_LINE;
    AddedLineIsClear(ADD_A.oldText, ADD_A.newText, 0, A_LINE);
  }

  lemma BothAreClear()
    ensures forall k :: 0 <= k < |BOTH| ==> !Unclear(BOTH[k])
  {
    hide Unclear, Edges;
    AddCIsClear();
    AddAIsClear();
  }

  const ORDERED := [Located(0, ADD_C), Located(4, ADD_A)]

  lemma SplitMakes()
    ensures Replaceable(AACC, BOTH) && Candidate(AACC, BOTH) == AACACC && Arrange(Locate(AACC, BOTH)) == ORDERED
  {
    hide Index, Candidate, Anchored, Arrange, Locate, Spot, Replaceable, ExactEdits, Twice, SortedBy;
    SplitAnchors();
    SplitIsExact();
    ExactIsReplaceable(AACC, BOTH);
    TwoEdits(AACC, ADD_C, ADD_A);
    SpotIsAnchor(AACC, ADD_C);
    SpotIsAnchor(AACC, ADD_A);
    TwoLocated(AACC, ADD_C, ADD_A);
    SortedIsArranged(AACC, BOTH, ORDERED);
    BothReplaced();
  }

  lemma BothReplaced()
    ensures Twice(AACC, AsReplacement(Located(0, ADD_C)), AsReplacement(Located(4, ADD_A))) == AACACC
  {
  }

  lemma SortedIsArranged(original: Text, edits: seq<Edit>, sorted: seq<Located>)
    requires Replaceable(original, edits) && SortedBy(sorted, UP) && sorted == Locate(original, edits)
    ensures sorted == Arrange(Locate(original, edits))
  {
    ArrangementIsUnique(original, edits, sorted);
  }

  lemma SplitLeads()
    ensures Lead(Replacing(ORDERED), 0) == 0 && Lead(Replacing(ORDERED), 1) == 2
  {
    hide Lead;
    LeadOfFirst(ORDERED);
    LeadStep(ORDERED, 0);
  }

  /** The block of a patch that is a whole edit lies in the middle of the edit. */
  lemma BlockOfBoth(l: Located, lead: int, p: int, b: Block, ids: seq<string>, prefix: nat, suffix: nat)
    requires l.edit == ForBoth(l.edit.oldText, l.edit.newText) && l.edit.oldText != []
    requires Owns(l, lead, p, b, ids) && Edges(l.edit.oldText, l.edit.newText, prefix, suffix)
    ensures p == 0 && 0 <= l.start + lead
    ensures l.start + prefix <= b.oldStart <= b.oldEnd <= l.start + |l.edit.oldText| - suffix
    ensures l.start + lead + prefix <= b.newStart <= b.newEnd <= l.start + lead + |l.edit.newText| - suffix
  {
    hide PatchesOf, Edges, Lead;
    OnePatchForBoth(l.edit.oldText, l.edit.newText);
    LeadOfFirst(PatchesOf(l.edit));
    var inner := Unshift(Unshift(b, l.start, l.start + lead), 0, 0);
    var p', s' :| Edges(l.edit.oldText, l.edit.newText, p', s')
      && Between(l.edit.oldText, l.edit.newText, p', s', inner);
    EdgesAreUnique(l.edit.oldText, l.edit.newText, p', s', prefix, suffix);
  }

  /** Each range is of the block of one of the two edits, which adds its line between the second and the third. */
  lemma SplitBlock(owner: Owner, range: EditLineRange, b: Block)
    requires RangeFits(AACC, AACACC, ORDERED, owner, range, b)
    ensures owner == (0, 0) || owner == (1, 0)
    ensures b.oldStart == b.oldEnd == 4 && b.newStart < b.newEnd
    ensures if owner.0 == 0 then 4 <= b.newStart && b.newEnd <= 6 else 6 <= b.newStart && b.newEnd <= 8
    ensures range.range == RangeOf(AACC, AACACC, b)
  {
    hide Owns, Edges, RangeOf, Lead, Unclear;
    SplitLeads();
    AddCIsClear();
    AddAIsClear();
    var l, lead := ORDERED[owner.0], Lead(Replacing(ORDERED), owner.0);
    if owner.0 == 0 {
      BlockOfBoth(l, lead, owner.1, b, range.itemIds, 4, 0);
    } else {
      BlockOfBoth(l, lead, owner.1, b, range.itemIds, 0, 4);
    }
  }

  lemma LeadOfFirst(patches: seq<Located>)
    ensures Lead(Replacing(patches), 0) == 0
  {
  }

  predicate AreForBoth(ordered: seq<Located>) {
    forall i :: 0 <= i < |ordered| ==>
      ordered[i].edit.oldText != [] && ordered[i].edit == ForBoth(ordered[i].edit.oldText, ordered[i].edit.newText)
  }

  function OwnerAt(owners: seq<Owner>, k: nat): (int, int) { if k < |owners| then owners[k] else (0, 0) }

  lemma TwoOwners(ordered: seq<Located>, owners: seq<Owner>)
    requires |ordered| == 2 && AreForBoth(ordered) && EachOwns(ordered, owners, 2)
    requires forall k :: 0 <= k < |owners| ==> owners[k] == (0, 0) || owners[k] == (1, 0)
    ensures |owners| == 2 && owners[0] != owners[1]
  {
    hide PatchesOf;
    OnePatchForBoth(ordered[0].edit.oldText, ordered[0].edit.newText);
    OnePatchForBoth(ordered[1].edit.oldText, ordered[1].edit.newText);
    assert AllOwn(owners, 0, 1) && AllOwn(owners, 1, 1) && HasOwner(owners, 0, 0) && HasOwner(owners, 1, 0);
    forall k, m | 0 <= k < m < |owners| ensures owners[k] != owners[m] {
      assert Shared(ordered[owners[k].0].edit);
    }
    var one, two, three := OwnerAt(owners, 0), OwnerAt(owners, 1), OwnerAt(owners, 2);
    assert three == one || three == two || one == two;
  }

  /** Two insertions at one place follow on each other. */
  lemma TwoInsertions(before: Text, after: Text, b: Block, c: Block)
    requires IsScript(before, after, [b, c]) && b.oldStart == b.oldEnd == c.oldStart == c.oldEnd
    ensures b.newStart == b.oldStart && b.newEnd == c.newStart && |after| - c.newEnd == |before| - c.oldEnd
  {
    assert WithoutLast([b, c]) == [b] && Last([b, c]) == c && WithoutLast([b]) == [] && Last([b]) == b;
    assert Covers(before, after, [b], c.oldStart, c.newStart) && Covers(before, after, [], b.oldStart, b.newStart);
    assert |before[..b.oldStart]| == |after[..b.newStart]|;
    assert |before[b.oldEnd..c.oldStart]| == |after[b.newEnd..c.newStart]|;
    assert |before[c.oldEnd..|before|]| == |after[c.newEnd..|after|]|;
  }

  lemma SplitBlocks(owners: seq<Owner>, ranges: seq<EditLineRange>, blocks: seq<Block>)
    requires Accounted(AACC, AACACC, BOTH, owners, ranges, blocks)
    ensures |ranges| == 2 && blocks == [Block(4, 4, 4, 6), Block(4, 4, 6, 8)]
    ensures forall k :: 0 <= k < 2 ==> ranges[k].range == RangeOf(AACC, AACACC, blocks[k])
  {
    hide Unclear, PatchesOf, Candidate, Replaceable, RangeOf, IsScript, RangeFits, EachOwns;
    SplitMakes();
    forall k | 0 <= k < |owners| ensures owners[k] == (0, 0) || owners[k] == (1, 0) {
      SplitBlock(owners[k], ranges[k], blocks[k]);
    }
    TwoOwners(ORDERED, owners);
    SplitBlock(owners[0], ranges[0], blocks[0]);
    SplitBlock(owners[1], ranges[1], blocks[1]);
    assert blocks == [blocks[0], blocks[1]];
    TwoInsertions(AACC, AACACC, blocks[0], blocks[1]);
  }

  lemma WholeLinesAreAdded(b: Block)
    requires b == Block(4, 4, 4, 6) || b == Block(4, 4, 6, 8)
    ensures !Touches(RangeOf(AACC, AACACC, b), 1, 4)
  {
    assert AACACC[4..6] == C_LINE && AACACC[6..8] == A_LINE;
  }

  /** Whatever ranges the two edits get, none touches a line of the location; yet its lines are no longer together. */
  lemma GuardAllowsSplitting(owners: seq<Owner>, ranges: seq<EditLineRange>, blocks: seq<Block>)
    requires Accounted(AACC, AACACC, BOTH, owners, ranges, blocks)
    ensures HeldUntouched(SPLIT_PLAN, ranges) && !InOnePiece(blocks, 0, 8)
  {
    hide Accounted, RangeOf;
    SplitBlocks(owners, ranges, blocks);
    WholeLinesAreAdded(blocks[0]);
    WholeLinesAreAdded(blocks[1]);
    assert SPLIT_PLAN.items[0].sourceLocations[0] == HELD_AACC;
    ImagesOfSplit(blocks);
  }

  lemma ImagesOfSplit(blocks: seq<Block>)
    requires blocks == [Block(4, 4, 4, 6), Block(4, 4, 6, 8)]
    ensures Image(blocks, 0) == 0 && Image(blocks, 4) == 8
  {
    assert Last(blocks) == Block(4, 4, 6, 8) && WithoutLast(blocks) == [Block(4, 4, 4, 6)];
    assert Last(WithoutLast(blocks)) == Block(4, 4, 4, 6) && WithoutLast(WithoutLast(blocks)) == [];
    assert Image([], 0) == 0 && Image(WithoutLast(blocks), 0) == 0;
  }

  lemma LocationIsHeld()
    ensures |LineTokens(AACC)| == 4 && forall l :: 1 <= l <= 4 ==> IsHeld(SPLIT_PLAN, l)
  {
    hide LineTokens;
    LinesOfAACC();
    assert SPLIT_PLAN.items[0].sourceLocations[0] == HELD_AACC;
  }

  /** One input for all the checks: they accept the candidate, which does not have the held lines in one piece. */
  method HoldsAreSplit() returns (kept: bool, attributed: RangesResult, untouched: bool)
    ensures kept && attributed.Ranges? && untouched
    ensures |LineTokens(AACC)| == 4 && forall l :: 1 <= l <= 4 ==> IsHeld(SPLIT_PLAN, l)
    ensures Candidate(AACC, BOTH) == AACACC && !HasLines(AACACC, AACC)
  {
    hide *;
    SplitKeepsHolds();
    kept := CheckCandidateHolds(SPLIT_PLAN, BOTH, AACC, LOCATES_AACC);
    SplitMakes();
    BothAreClear();
    ghost var owners, blocks;
    attributed, owners, blocks := VerifiedEditLineRanges(AACC, AACACC, BOTH);
    GuardAllowsSplitting(owners, attributed.ranges, blocks);
    untouched := CandidateHeldRangesUnchanged(SPLIT_PLAN, attributed.ranges);
    LocationIsHeld();
    LinesAreApart();
  }
}

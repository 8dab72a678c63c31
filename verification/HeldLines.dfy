/** The engine's guard for held locations, and what it preserves of every held line. */
module HeldLines {
  import opened Bytes
  import opened Scripts
  import opened ByteBlocks
  import opened LineRanges
  import opened Attributions
  import opened Plans
  import opened Spaces

  // ----- the guard -----

  predicate Touches(range: ChangeLineRange, first: int, last: int) {
    range.beforeStart > 0 && range.beforeStart <= last && range.beforeEnd >= first
  }

  ghost predicate LocationUntouched(location: SourceLocation, ranges: seq<EditLineRange>) {
    forall r :: 0 <= r < |ranges| ==> !Touches(ranges[r].range, location.startLine, location.endLine)
  }

  ghost predicate HeldUntouched(plan: RepairPlan, ranges: seq<EditLineRange>) {
    forall i, l ::
      0 <= i < |plan.items| && plan.items[i].status == BLOCKED && 0 <= l < |plan.items[i].sourceLocations| ==>
        LocationUntouched(plan.items[i].sourceLocations[l], ranges)
  }

  method CandidateHeldRangesUnchanged(plan: RepairPlan, ranges: seq<EditLineRange>) returns (ok: bool)
    ensures ok <==> HeldUntouched(plan, ranges)
  {
    for i := 0 to |plan.items|
      invariant forall k, l ::
        0 <= k < i && plan.items[k].status == BLOCKED && 0 <= l < |plan.items[k].sourceLocations| ==>
          LocationUntouched(plan.items[k].sourceLocations[l], ranges)
    {
      if plan.items[i].status == BLOCKED {
        var locations := plan.items[i].sourceLocations;
        for l := 0 to |locations|
          invariant forall m :: 0 <= m < l ==> LocationUntouched(locations[m], ranges)
        {
          for r := 0 to |ranges|
            invariant forall q :: 0 <= q < r ==> !Touches(ranges[q].range, locations[l].startLine, locations[l].endLine)
          {
            if Touches(ranges[r].range, locations[l].startLine, locations[l].endLine) {
              assert !LocationUntouched(plan.items[i].sourceLocations[l], ranges);
              return false;
            }
          }
        }
      }
    }
    return true;
  }

  // ----- where a line stands -----

  ghost predicate HasLine(text: Text, line: int) { 1 <= line <= |LineTokens(text)| }

  ghost function LineStart(text: Text, line: int): nat
    requires HasLine(text, line)
  {
    Offset(LineTokens(text), line - 1)
  }

  ghost function LineStop(text: Text, line: int): nat
    requires HasLine(text, line)
  {
    Offset(LineTokens(text), line)
  }

  lemma {:induction false} NewlinesAppend(s: Text, t: Text)
    ensures Newlines(s + t) == Newlines(s) + Newlines(t)
  {
    if t == [] {
      assert s + t == s;
    } else {
      NewlinesAppend(s, t[..|t| - 1]);
      assert (s + t)[..|s + t| - 1] == s + t[..|t| - 1];
    }
  }

  lemma {:induction false} NoNewlines(text: Text)
    requires forall k :: 0 <= k < |text| ==> text[k] != NEWLINE
    ensures Newlines(text) == 0
  {
    if text != [] { NoNewlines(text[..|text| - 1]); }
  }

  lemma {:induction false} TokensEndLines(tokens: seq<Text>, i: nat)
    requires IsTokenList(tokens) && i < |tokens|
    ensures Newlines(Concat(tokens[..i])) == i
  {
    if i > 0 {
      TokensEndLines(tokens, i - 1);
      var token := tokens[i - 1];
      assert IsToken(token, false);
      assert tokens[..i] == tokens[..i - 1] + [token];
      ConcatAppend(tokens[..i - 1], [token]);
      assert Concat([token]) == token;
      NewlinesAppend(Concat(tokens[..i - 1]), token);
      NoNewlines(token[..|token| - 1]);
    }
  }

  lemma LineBytes(text: Text, line: int)
    requires HasLine(text, line)
    ensures LineStart(text, line) <= LineStop(text, line) <= |text|
    ensures text[LineStart(text, line)..LineStop(text, line)] == LineTokens(text)[line - 1]
    ensures LineStop(text, line) == LineStart(text, line) + |LineTokens(text)[line - 1]|
  {
    var tokens := LineTokens(text);
    OffsetStep(tokens, line - 1);
    OffsetSlice(tokens, line - 1, line);
    assert tokens[line - 1..line] == [tokens[line - 1]] && Concat([tokens[line - 1]]) == tokens[line - 1];
  }

  lemma NewlinesBeforeLine(text: Text, line: int)
    requires HasLine(text, line)
    ensures LineStart(text, line) <= |text| && Newlines(text[..LineStart(text, line)]) == line - 1
  {
    var tokens := LineTokens(text);
    TokensEndLines(tokens, line - 1);
    OffsetSlice(tokens, 0, line - 1);
    assert tokens[0..line - 1] == tokens[..line - 1];
    assert text[0..LineStart(text, line)] == text[..LineStart(text, line)];
  }

  /** Every byte of a line is counted to it, and only the last one can be a newline. */
  lemma BytesOfLine(text: Text, line: int, at: nat)
    requires HasLine(text, line) && LineStart(text, line) <= at < LineStop(text, line)
    ensures at < |text| && LineOf(text, at) == line
    ensures at < LineStop(text, line) - 1 ==> text[at] != NEWLINE
  {
    var token, start := LineTokens(text)[line - 1], LineStart(text, line);
    LineBytes(text, line);
    NewlinesBeforeLine(text, line);
    assert IsToken(token, line == |LineTokens(text)|);
    CountedTo(text, start, token, at);
  }

  lemma CountedTo(text: Text, start: nat, token: Text, at: nat)
    requires start <= at < start + |token| <= |text| && text[start..start + |token|] == token
    requires forall k :: 0 <= k < |token| - 1 ==> token[k] != NEWLINE
    ensures Newlines(text[..at]) == Newlines(text[..start])
    ensures text[at] == token[at - start]
  {
    assert text[..at] == text[..start] + token[..at - start];
    NewlinesAppend(text[..start], token[..at - start]);
    NoNewlines(token[..at - start]);
  }

  lemma LinesAreOrdered(text: Text, x: int, y: int)
    requires HasLine(text, x) && HasLine(text, y) && x <= y
    ensures LineStart(text, x) < LineStop(text, x) <= LineStop(text, y) <= |text|
    ensures x < y ==> LineStop(text, x) <= LineStart(text, y)
  {
    var tokens := LineTokens(text);
    OffsetStep(tokens, x - 1);
    assert IsToken(tokens[x - 1], x == |tokens|);
    OffsetSlice(tokens, x, y);
    if x < y { OffsetSlice(tokens, x, y - 1); }
  }

  lemma LineOfIsMonotone(text: Text, x: nat, y: nat)
    requires x <= y <= |text|
    ensures LineOf(text, x) <= LineOf(text, y)
  {
    assert text[..y] == text[..x] + text[x..y];
    NewlinesAppend(text[..x], text[x..y]);
  }

  // ----- what the guard keeps -----

  predicate Avoids(b: Block, start: nat, stop: nat) { b.oldEnd <= start || stop <= b.oldStart }

  /** A block whose lines do not include the line leaves all of the line's bytes alone. */
  lemma UntouchedIsAvoided(before: Text, after: Text, b: Block, line: int)
    requires Genuine(before, after, b) && HasLine(before, line)
    requires !Touches(RangeOf(before, after, b), line, line)
    ensures Avoids(b, LineStart(before, line), LineStop(before, line))
  {
    var start, stop := LineStart(before, line), LineStop(before, line);
    LinesAreOrdered(before, line, line);
    if start < b.oldEnd && b.oldStart < stop {
      if b.oldStart < b.oldEnd {
        var q := if b.oldStart < start then start else b.oldStart;
        BytesOfLine(before, line, q);
        LineOfIsMonotone(before, b.oldStart, q);
        LineOfIsMonotone(before, q, b.oldEnd - 1);
      } else {
        BytesOfLine(before, line, b.oldStart);
        BytesOfLine(before, line, b.oldStart - 1);
      }
    }
  }

  /** Where the copy of byte `at` stands in the new text. */
  function Image(blocks: seq<Block>, at: nat): nat {
    if blocks == [] then at
    else if Last(blocks).oldEnd <= at then Last(blocks).newEnd + (at - Last(blocks).oldEnd)
    else Image(WithoutLast(blocks), at)
  }

  ghost predicate AllAvoid(blocks: seq<Block>, start: nat, stop: nat) {
    forall k :: 0 <= k < |blocks| ==> Avoids(blocks[k], start, stop)
  }

  /** Bytes that every block avoids are copied, in one piece. */
  lemma {:induction false} AvoidedIsCopied(before: Text, after: Text, blocks: seq<Block>, o: nat, n: nat, start: nat,
      stop: nat)
    requires Covers(before, after, blocks, o, n) && start < stop <= o && AllAvoid(blocks, start, stop)
    ensures Image(blocks, start) + (stop - start) <= n
    ensures after[Image(blocks, start)..Image(blocks, start) + (stop - start)] == before[start..stop]
  {
    if blocks == [] {
      assert |before[..o]| == o && |after[..n]| == n;
      SubSlice(before, 0, before[..o], start, stop);
      SubSlice(after, 0, after[..n], start, stop);
    } else {
      var b := Last(blocks);
      if b.oldEnd <= start {
        SubSlice(before, b.oldEnd, before[b.oldEnd..o], start - b.oldEnd, stop - b.oldEnd);
        SubSlice(after, b.newEnd, after[b.newEnd..n], start - b.oldEnd, stop - b.oldEnd);
      } else {
        AvoidedIsCopied(before, after, WithoutLast(blocks), b.oldStart, b.newStart, start, stop);
      }
    }
  }

  /** Two such stretches keep their order. */
  lemma {:induction false} ImagesAreOrdered(before: Text, after: Text, blocks: seq<Block>, o: nat, n: nat,
                                            start: nat, stop: nat, start': nat, stop': nat)
    requires Covers(before, after, blocks, o, n) && start < stop <= start' < stop' <= o
    requires AllAvoid(blocks, start, stop) && AllAvoid(blocks, start', stop')
    ensures Image(blocks, start) + (stop - start) <= Image(blocks, start')
  {
    if blocks != [] {
      var b, front := Last(blocks), WithoutLast(blocks);
      if b.oldEnd <= start {
      } else if b.oldEnd <= start' {
        AvoidedIsCopied(before, after, front, b.oldStart, b.newStart, start, stop);
      } else {
        ImagesAreOrdered(before, after, front, b.oldStart, b.newStart, start, stop, start', stop');
      }
    }
  }

  ghost predicate IsHeld(plan: RepairPlan, line: int) {
    exists i, l :: 0 <= i < |plan.items| && plan.items[i].status == BLOCKED && 0 <= l < |plan.items[i].sourceLocations|
      && plan.items[i].sourceLocations[l].startLine <= line <= plan.items[i].sourceLocations[l].endLine
  }

  /** The guard's acceptance means that every block avoids every held line. */
  lemma HeldLinesAreAvoided(plan: RepairPlan, before: Text, after: Text, edits: seq<Substitution.Edit>,
                            owners: seq<Owner>, ranges: seq<EditLineRange>, blocks: seq<Block>, line: int)
    requires Accounted(before, after, edits, owners, ranges, blocks) && HeldUntouched(plan, ranges)
    requires IsHeld(plan, line) && HasLine(before, line)
    ensures AllAvoid(blocks, LineStart(before, line), LineStop(before, line))
  {
    hide Genuine, RangeOf, Avoids, RangesFit, EachOwns, IsScript, Substitution.Replaceable, Substitution.Candidate,
        Unclear;
    var i, l :| 0 <= i < |plan.items| && plan.items[i].status == BLOCKED && 0 <= l < |plan.items[i].sourceLocations|
      && plan.items[i].sourceLocations[l].startLine <= line <= plan.items[i].sourceLocations[l].endLine;
    assert LocationUntouched(plan.items[i].sourceLocations[l], ranges);
    forall k | 0 <= k < |blocks| ensures Avoids(blocks[k], LineStart(before, line), LineStop(before, line)) {
      RangeIsOfBlock(before, after, Substitution.Arrange(Substitution.Locate(before, edits)), owners, ranges, blocks,
        k);
      UntouchedIsAvoided(before, after, blocks[k], line);
    }
  }

  /**
   * When the attribution of a candidate is accepted and the guard passes, every held line of the
   * original is copied into the candidate in one piece, and held lines keep their order.
   */
  lemma HeldLinesAreKept(plan: RepairPlan, before: Text, after: Text, edits: seq<Substitution.Edit>,
                         owners: seq<Owner>, ranges: seq<EditLineRange>, blocks: seq<Block>, x: int, y: int)
    requires Accounted(before, after, edits, owners, ranges, blocks) && HeldUntouched(plan, ranges)
    requires IsHeld(plan, x) && IsHeld(plan, y) && HasLine(before, x) && HasLine(before, y) && x <= y
    ensures LineIsCopied(before, after, blocks, x) && LineIsCopied(before, after, blocks, y)
    ensures
      x < y ==> Image(blocks, LineStart(before, x)) + |LineTokens(before)[x - 1]| <= Image(blocks, LineStart(before, y))
  {
    HeldLinesAreAvoided(plan, before, after, edits, owners, ranges, blocks, x);
    HeldLinesAreAvoided(plan, before, after, edits, owners, ranges, blocks, y);
    AvoidedLinesAreKept(before, after, blocks, x, y);
  }

  ghost predicate LineIsCopied(before: Text, after: Text, blocks: seq<Block>, line: int)
    requires HasLine(before, line)
  {
    OccursAt(after, LineTokens(before)[line - 1], Image(blocks, LineStart(before, line)))
  }

  lemma AvoidedLinesAreKept(before: Text, after: Text, blocks: seq<Block>, x: int, y: int)
    requires IsScript(before, after, blocks) && HasLine(before, x) && HasLine(before, y) && x <= y
    requires AllAvoid(blocks, LineStart(before, x), LineStop(before, x))
    requires AllAvoid(blocks, LineStart(before, y), LineStop(before, y))
    ensures LineIsCopied(before, after, blocks, x) && LineIsCopied(before, after, blocks, y)
    ensures
      x < y ==> Image(blocks, LineStart(before, x)) + |LineTokens(before)[x - 1]| <= Image(blocks, LineStart(before, y))
  {
    AvoidedLineIsCopied(before, after, blocks, x);
    AvoidedLineIsCopied(before, after, blocks, y);
    if x < y {
      LinesAreOrdered(before, x, y);
      LinesAreOrdered(before, y, y);
      LineBytes(before, x);
      ImagesAreOrdered(before, after, blocks, |before|, |after|,
                       LineStart(before, x), LineStop(before, x), LineStart(before, y), LineStop(before, y));
    }
  }

  lemma AvoidedLineIsCopied(before: Text, after: Text, blocks: seq<Block>, line: int)
    requires IsScript(before, after, blocks) && HasLine(before, line)
    requires AllAvoid(blocks, LineStart(before, line), LineStop(before, line))
    ensures LineIsCopied(before, after, blocks, line)
  {
    LinesAreOrdered(before, line, line);
    LineBytes(before, line);
    AvoidedIsCopied(before, after, blocks, |before|, |after|, LineStart(before, line), LineStop(before, line));
  }

  // ----- locations of several lines -----

  /** Every byte stands as far behind the first one as it did. */
  ghost predicate InOnePiece(blocks: seq<Block>, start: nat, stop: nat) {
    forall at :: start <= at < stop ==> Image(blocks, at) == Image(blocks, start) + (at - start)
  }

  /** Something is added between two bytes. */
  predicate InsertsInside(b: Block, start: nat, stop: nat) { start < b.oldStart == b.oldEnd < stop }

  ghost predicate NoneInside(blocks: seq<Block>, start: nat, stop: nat) {
    forall k :: 0 <= k < |blocks| ==> !InsertsInside(blocks[k], start, stop)
  }

  ghost predicate AvoidLines(before: Text, b: Block, x: int, y: int)
    requires HasLine(before, x) && HasLine(before, y)
  {
    forall l :: x <= l <= y ==> Avoids(b, LineStart(before, l), LineStop(before, l))
  }

  lemma {:induction false} LineWithByte(text: Text, x: int, y: int, at: nat) returns (line: int)
    requires HasLine(text, x) && HasLine(text, y) && x <= y && LineStart(text, x) <= at < LineStop(text, y)
    ensures x <= line <= y && LineStart(text, line) <= at < LineStop(text, line)
    decreases y - x
  {
    if x == y || LineStart(text, y) <= at {
      return y;
    }
    assert LineStop(text, y - 1) == LineStart(text, y);
    line := LineWithByte(text, x, y - 1, at);
  }

  /** A block that avoids each of several lines avoids them all together, unless it adds something between them. */
  lemma BetweenLines(before: Text, b: Block, x: int, y: int)
    requires HasLine(before, x) && HasLine(before, y) && x <= y && AvoidLines(before, b, x, y)
    requires b.oldStart <= b.oldEnd && !InsertsInside(b, LineStart(before, x), LineStop(before, y))
    ensures Avoids(b, LineStart(before, x), LineStop(before, y))
  {
    var start, stop := LineStart(before, x), LineStop(before, y);
    LinesAreOrdered(before, x, y);
    if start < b.oldEnd && b.oldStart < stop {
      var line := LineWithByte(before, x, y, if b.oldStart < start then start else b.oldStart);
    }
  }

  lemma {:induction false} AvoidedImage(blocks: seq<Block>, start: nat, stop: nat, at: nat)
    requires start <= at < stop && AllAvoid(blocks, start, stop)
    requires forall k :: 0 <= k < |blocks| ==> blocks[k].oldStart <= blocks[k].oldEnd
    ensures Image(blocks, at) == Image(blocks, start) + (at - start)
  {
    if blocks != [] && at < Last(blocks).oldEnd {
      AvoidedImage(WithoutLast(blocks), start, stop, at);
    }
  }

  /** Bytes before a block stand before what it makes, and those behind it behind that. */
  lemma {:induction false} ImagesAroundBlock(before: Text, after: Text, blocks: seq<Block>, o: nat, n: nat, k: nat,
      at: nat)
    requires Covers(before, after, blocks, o, n) && k < |blocks| && at < o && AllAvoid(blocks, at, at + 1)
    ensures at < blocks[k].oldStart ==> Image(blocks, at) < blocks[k].newStart
    ensures blocks[k].oldEnd <= at ==> blocks[k].newEnd <= Image(blocks, at)
  {
    var b, front := Last(blocks), WithoutLast(blocks);
    BlocksAreOrdered(before, after, blocks, o, n);
    if at < b.oldEnd {
      AvoidedIsCopied(before, after, front, b.oldStart, b.newStart, at, at + 1);
      if k < |front| { ImagesAroundBlock(before, after, front, b.oldStart, b.newStart, k, at); }
    }
  }

  lemma InsertionParts(before: Text, after: Text, blocks: seq<Block>, k: nat, start: nat, stop: nat)
    requires IsScript(before, after, blocks) && k < |blocks| && Genuine(before, after, blocks[k])
    requires InsertsInside(blocks[k], start, stop) && stop <= |before|
    requires AllAvoid(blocks, blocks[k].oldStart - 1, blocks[k].oldStart)
    requires AllAvoid(blocks, blocks[k].oldStart, blocks[k].oldStart + 1)
    ensures !InOnePiece(blocks, start, stop)
  {
    var at := blocks[k].oldStart;
    ImagesAroundBlock(before, after, blocks, |before|, |after|, k, at - 1);
    ImagesAroundBlock(before, after, blocks, |before|, |after|, k, at);
  }

  lemma AvoidsByte(before: Text, b: Block, x: int, y: int, at: nat)
    requires HasLine(before, x) && HasLine(before, y) && x <= y && AvoidLines(before, b, x, y)
    requires LineStart(before, x) <= at < LineStop(before, y)
    ensures Avoids(b, at, at + 1)
  {
    var line := LineWithByte(before, x, y, at);
  }

  /**
   * Lines that every block leaves alone, one by one, stay in one piece exactly when no block adds anything between
   * them.
   */
  lemma LinesStayTogether(before: Text, after: Text, blocks: seq<Block>, x: int, y: int)
    requires IsScript(before, after, blocks) && HasLine(before, x) && HasLine(before, y) && x <= y
    requires forall k :: 0 <= k < |blocks| ==> Genuine(before, after, blocks[k]) && AvoidLines(before, blocks[k], x, y)
    ensures var start, stop := LineStart(before, x), LineStop(before, y);
      && start < stop <= |before|
      && (InOnePiece(blocks, start, stop) <==> NoneInside(blocks, start, stop))
      && (NoneInside(blocks, start, stop) ==> OccursAt(after, before[start..stop], Image(blocks, start)))
  {
    hide Genuine, IsScript, AvoidLines, Avoids, LineStart, LineStop;
    var start, stop := LineStart(before, x), LineStop(before, y);
    LinesAreOrdered(before, x, y);
    if NoneInside(blocks, start, stop) {
      NoneInsideAvoids(before, after, blocks, x, y);
      forall k | 0 <= k < |blocks| ensures blocks[k].oldStart <= blocks[k].oldEnd {
        BlockInside(before, after, blocks[k]);
      }
      forall at | start <= at < stop ensures Image(blocks, at) == Image(blocks, start) + (at - start) {
        AvoidedImage(blocks, start, stop, at);
      }
      AvoidedScript(before, after, blocks, start, stop);
    } else {
      var k :| 0 <= k < |blocks| && InsertsInside(blocks[k], start, stop);
      forall j | 0 <= j < |blocks|
        ensures Avoids(blocks[j], blocks[k].oldStart - 1, blocks[k].oldStart)
          && Avoids(blocks[j], blocks[k].oldStart, blocks[k].oldStart + 1)
      {
        AvoidsByte(before, blocks[j], x, y, blocks[k].oldStart - 1);
        AvoidsByte(before, blocks[j], x, y, blocks[k].oldStart);
      }
      InsertionParts(before, after, blocks, k, start, stop);
    }
  }

  lemma NoneInsideAvoids(before: Text, after: Text, blocks: seq<Block>, x: int, y: int)
    requires HasLine(before, x) && HasLine(before, y) && x <= y
    requires forall k :: 0 <= k < |blocks| ==> Genuine(before, after, blocks[k]) && AvoidLines(before, blocks[k], x, y)
    requires NoneInside(blocks, LineStart(before, x), LineStop(before, y))
    ensures AllAvoid(blocks, LineStart(before, x), LineStop(before, y))
  {
    hide AvoidLines, Avoids;
    forall k | 0 <= k < |blocks| ensures Avoids(blocks[k], LineStart(before, x), LineStop(before, y)) {
      BetweenLines(before, blocks[k], x, y);
    }
  }

  lemma AvoidedScript(before: Text, after: Text, blocks: seq<Block>, start: nat, stop: nat)
    requires IsScript(before, after, blocks) && start < stop <= |before| && AllAvoid(blocks, start, stop)
    ensures OccursAt(after, before[start..stop], Image(blocks, start))
  {
    AvoidedIsCopied(before, after, blocks, |before|, |after|, start, stop);
  }

  /** The guard keeps a held location in one piece exactly when no block adds lines between its lines. */
  lemma HeldLocationStaysTogether(plan: RepairPlan, before: Text, after: Text, edits: seq<Substitution.Edit>,
                                  owners: seq<Owner>, ranges: seq<EditLineRange>, blocks: seq<Block>, x: int, y: int)
    requires Accounted(before, after, edits, owners, ranges, blocks) && HeldUntouched(plan, ranges)
    requires HasLine(before, x) && HasLine(before, y) && x <= y && forall l :: x <= l <= y ==> IsHeld(plan, l)
    ensures var start, stop := LineStart(before, x), LineStop(before, y);
      && start < stop <= |before|
      && (InOnePiece(blocks, start, stop) <==> NoneInside(blocks, start, stop))
      && (NoneInside(blocks, start, stop) ==> OccursAt(after, before[start..stop], Image(blocks, start)))
  {
    hide Accounted, HeldUntouched, IsHeld, Genuine, IsScript, LineStart, LineStop, InOnePiece, NoneInside, OccursAt;
    AccountedBlocks(before, after, edits, owners, ranges, blocks);
    forall k | 0 <= k < |blocks| ensures AvoidLines(before, blocks[k], x, y) {
      forall l | x <= l <= y ensures Avoids(blocks[k], LineStart(before, l), LineStop(before, l)) {
        HeldLinesAreAvoided(plan, before, after, edits, owners, ranges, blocks, l);
      }
    }
    LinesStayTogether(before, after, blocks, x, y);
  }

  lemma AccountedBlocks(before: Text, after: Text, edits: seq<Substitution.Edit>, owners: seq<Owner>,
                        ranges: seq<EditLineRange>, blocks: seq<Block>)
    requires Accounted(before, after, edits, owners, ranges, blocks)
    ensures IsScript(before, after, blocks) && forall k :: 0 <= k < |blocks| ==> Genuine(before, after, blocks[k])
  {
    hide Genuine, RangeOf, RangesFit, EachOwns, IsScript, Substitution.Replaceable, Substitution.Candidate, Unclear;
    forall k | 0 <= k < |blocks| ensures Genuine(before, after, blocks[k]) {
      RangeIsOfBlock(before, after, Substitution.Arrange(Substitution.Locate(before, edits)), owners, ranges, blocks,
        k);
    }
  }

  // ----- what the guard does not keep -----

  /** The last block that ends where the line starts takes a newline away and leaves no line boundary. */
  ghost predicate JoinsLine(after: Text, blocks: seq<Block>, k: int, start: nat) {
    && 0 <= k < |blocks| && blocks[k].newStart <= |after| && blocks[k].oldStart < blocks[k].oldEnd == start
    && (k + 1 < |blocks| ==> start < blocks[k + 1].oldEnd)
    && (blocks[k].newStart < blocks[k].newEnd || !AtBoundary(after, blocks[k].newStart))
  }

  /**
   * A kept line still starts a line of the candidate exactly when no block joins it to what stands
   * before it; the guard itself only looks at lines that a block's own bytes lie on.
   */
  lemma KeptLineStartsALine(before: Text, after: Text, blocks: seq<Block>, line: int)
    requires IsScript(before, after, blocks) && HasLine(before, line)
    requires forall k ::
        0 <= k < |blocks| ==>
          Genuine(before, after, blocks[k]) && !Touches(RangeOf(before, after, blocks[k]), line, line)
    ensures var start := LineStart(before, line);
      Image(blocks, start) <= |after| &&
      (AtBoundary(after, Image(blocks, start)) <==> Unjoined(after, blocks, start))
  {
    var start, stop := LineStart(before, line), LineStop(before, line);
    LinesAreOrdered(before, line, line);
    LineStartsBehindNewline(before, line);
    forall k | 0 <= k < |blocks| ensures SparesLine(before, after, blocks[k], start, stop) {
      UntouchedIsAvoided(before, after, blocks[k], line);
      BytesOfLine(before, line, start);
    }
    StartsALine(before, after, blocks, |before|, |after|, start, stop);
  }

  /** What is added right where the line starts ends with a newline. */
  ghost predicate InsertsLines(after: Text, b: Block, start: nat) {
    b.newStart <= b.newEnd <= |after| && (b.oldStart == b.oldEnd == start ==> EndsLine(after[b.newStart..b.newEnd]))
  }

  ghost predicate Unjoined(after: Text, blocks: seq<Block>, start: nat) {
    forall k :: !JoinsLine(after, blocks, k, start)
  }

  ghost predicate SparesLine(before: Text, after: Text, b: Block, start: nat, stop: nat) {
    Genuine(before, after, b) && Avoids(b, start, stop) && InsertsLines(after, b, start)
  }

  lemma {:induction false} StartsALine(before: Text, after: Text, blocks: seq<Block>, o: nat, n: nat, start: nat,
      stop: nat)
    requires Covers(before, after, blocks, o, n) && start < stop <= o && AtBoundary(before, start)
    requires forall k :: 0 <= k < |blocks| ==> SparesLine(before, after, blocks[k], start, stop)
    ensures Image(blocks, start) <= |after|
    ensures AtBoundary(after, Image(blocks, start)) <==> Unjoined(after, blocks, start)
  {
    if blocks == [] {
      assert start > 0 ==> after[..n][start - 1] == before[..o][start - 1];
    } else {
      var b, front, last := Last(blocks), WithoutLast(blocks), |blocks| - 1;
      assert SparesLine(before, after, blocks[last], start, stop);
      if start < b.oldEnd {
        StartsALine(before, after, front, b.oldStart, b.newStart, start, stop);
        assert forall k ::
          0 <= k < last ==> (JoinsLine(after, blocks, k, start) <==> JoinsLine(after, front, k, start));
      } else {
        StartsBehindLast(before, after, blocks, o, n, start, stop);
      }
    }
  }

  /** The stretch the line lies in is copied from the last block on. */
  lemma StartsBehindLast(before: Text, after: Text, blocks: seq<Block>, o: nat, n: nat, start: nat, stop: nat)
    requires Covers(before, after, blocks, o, n) && start < stop <= o && AtBoundary(before, start)
    requires blocks != [] && Last(blocks).oldEnd <= start && SparesLine(before, after, Last(blocks), start, stop)
    ensures Image(blocks, start) <= |after|
    ensures AtBoundary(after, Image(blocks, start)) <==> Unjoined(after, blocks, start)
  {
    var b, last := Last(blocks), |blocks| - 1;
    assert before[b.oldEnd..o] == after[b.newEnd..n];
    assert |before[b.oldEnd..o]| == o - b.oldEnd && |after[b.newEnd..n]| == n - b.newEnd;
    BlocksAreOrdered(before, after, blocks, o, n);
    assert forall k :: 0 < k <= last ==> blocks[k].oldEnd <= start;
    if b.oldEnd < start {
      assert before[b.oldEnd..o][start - 1 - b.oldEnd] == after[b.newEnd..n][start - 1 - b.oldEnd];
      assert !JoinsLine(after, blocks, last, start);
    } else {
      LastJoins(before, after, b, start);
      assert JoinsLine(after, blocks, last, start) <==> Joins(after, b);
    }
    assert Unjoined(after, blocks, start) <==> !JoinsLine(after, blocks, last, start);
  }

  ghost predicate Joins(after: Text, b: Block) {
    b.newStart <= |after| && b.oldStart < b.oldEnd && (b.newStart < b.newEnd || !AtBoundary(after, b.newStart))
  }

  lemma LastJoins(before: Text, after: Text, b: Block, start: nat)
    requires Genuine(before, after, b) && b.oldEnd == start && InsertsLines(after, b, start)
    requires AtBoundary(before, start)
    ensures AtBoundary(after, b.newEnd) <==> !Joins(after, b)
  {
  }

  lemma LineStartsBehindNewline(text: Text, line: int)
    requires HasLine(text, line)
    ensures LineStart(text, line) <= |text| && AtBoundary(text, LineStart(text, line))
  {
    LineBytes(text, line);
    if line > 1 {
      LineBytes(text, line - 1);
      assert IsToken(LineTokens(text)[line - 2], false);
    }
  }

  // ----- what both checks let through -----

  const X_A: Text := [120, 10, 97, 10]
  const X_JOINED: Text := [120, 97, 10]
  const NEWLINE_A: Text := [10, 97]
  const ONLY_A: Text := [97]

  /** One change that two items share. */
  function ForBoth(oldText: Text, newText: Text): Substitution.Edit {
    Substitution.Edit(oldText, newText, ["p", "q"],
      [Substitution.Attribution("p", oldText, newText), Substitution.Attribution("q", oldText, newText)])
  }

  function PatchForBoth(oldText: Text, newText: Text): Substitution.Edit {
    Substitution.Edit(oldText, newText, ["p", "q"], [])
  }

  /** It takes away the newline before line 2 and puts the line's text back. */
  const JOIN_A := ForBoth(NEWLINE_A, ONLY_A)

  const HELD_A := SourceLocation(2, 2, ONLY_A)
  const HELD_PLAN := RepairPlan(1, [], [PlanItem("h", "r", "x", "x", "x", "x", BLOCKED, "x", [HELD_A])])

  lemma JoinIsAnchored()
    ensures Substitution.Anchored(X_A, JOIN_A) && Substitution.At(X_A, JOIN_A) == 1
  {
    assert OccursAt(X_A, NEWLINE_A, 1);
    assert !OccursAt(X_A, NEWLINE_A, 0) by { assert X_A[0..2][0] == 120; }
    assert !OccursAt(X_A, NEWLINE_A, 2) by { assert X_A[2..4][0] == 97; }
  }

  lemma JoinMakes()
    ensures Substitution.Replaceable(X_A, [JOIN_A]) && Substitution.Candidate(X_A, [JOIN_A]) == X_JOINED
    ensures Substitution.Arrange(Substitution.Locate(X_A, [JOIN_A])) == [Substitution.Located(1, JOIN_A)]
  {
    hide Substitution.Anchored, Substitution.At, Substitution.Candidate, Substitution.Locate, Substitution.Arrange;
    JoinIsAnchored();
    Alone(X_A, JOIN_A);
    Substitution.OneEdit(X_A, JOIN_A);
  }

  lemma Alone(text: Text, edit: Substitution.Edit)
    requires Substitution.Anchored(text, edit)
    ensures Substitution.Replaceable(text, [edit])
  {
  }

  lemma WholeIsAnchored(text: Text, edit: Substitution.Edit)
    requires text != [] && edit.oldText == text
    ensures Substitution.Anchored(text, edit) && Substitution.At(text, edit) == 0
  {
    assert OccursAt(text, text, 0);
  }

  /** Both items together have one patch, which is the whole change. */
  lemma OnePatchForBoth(oldText: Text, newText: Text)
    requires oldText != []
    ensures var edit, patch := ForBoth(oldText, newText), PatchForBoth(oldText, newText);
      && Fragments(edit) == edit.attributions && Group(edit.attributions) == [patch]
      && PatchesOf(edit) == [Substitution.Located(0, patch)]
      && Substitution.Replaceable(oldText, [patch]) && Substitution.Candidate(oldText, [patch]) == newText
  {
    hide Substitution.Anchored, Substitution.At, Substitution.Candidate, Substitution.Locate, Substitution.Arrange,
        Substitution.Replaceable;
    var edit, patch := ForBoth(oldText, newText), PatchForBoth(oldText, newText);
    var f, g := edit.attributions[0], edit.attributions[1];
    assert WithoutLast([f, g]) == [f] && WithoutLast([f]) == [];
    assert Group([f]) == [Substitution.Edit(oldText, newText, ["p"], [])];
    assert Attributions.Find(Group([f]), g) == 0;
    assert ["p"] + ["q"] == ["p", "q"];
    WholeIsAnchored(oldText, patch);
    Alone(oldText, patch);
    Substitution.OneEdit(oldText, patch);
    assert oldText[..0] + newText + oldText[|oldText|..] == newText;
  }

  lemma JoinIsOneRegion()
    ensures !TooLarge(NEWLINE_A, ONLY_A) && !Scattered(NEWLINE_A, ONLY_A)
  {
    var f := Frame(NEWLINE_A, ONLY_A, 0, 1, [[NEWLINE]], []);
    assert Concat(f.oldLines) == [NEWLINE] by { assert f.oldLines[1..] == []; }
    assert f.before[0..1] == [NEWLINE] && f.after[0..0] == [];
    assert f.before[1..] == f.after[0..] == ONLY_A;
    DecidedByFrame(f);
    OneRegion(f.oldLines, f.newLines, 0, 0, false);
  }

  lemma BothAreAttributed(oldText: Text, newText: Text)
    requires oldText != [] && oldText != newText && !TooLarge(oldText, newText) && !Scattered(oldText, newText)
    ensures !Unclear(ForBoth(oldText, newText))
  {
    hide TooLarge, Scattered, Substitution.Candidate, Substitution.Replaceable, Substitution.Anchored, PatchesOf,
        Group, IsBlank;
    OnePatchForBoth(oldText, newText);
    NotBlank("p");
    NotBlank("q");
    var edit := ForBoth(oldText, newText);
    forall f | f in Fragments(edit) ensures FragmentFits(edit, f) {
      WholeIsAnchored(oldText, Substitution.Edit(f.beforeText, f.afterText, [], []));
    }
    assert edit.attributions[0] in Fragments(edit) && edit.attributions[1] in Fragments(edit);
  }

  /** An edit of one item needs no fragments: it is its own. */
  lemma OneItemIsAttributed(edit: Substitution.Edit)
    requires |edit.itemIds| == 1 && !IsBlank(edit.itemIds[0]) && edit.attributions == []
    requires edit.oldText != [] && edit.oldText != edit.newText
    ensures Attributed(edit)
    ensures PatchesOf(edit)
      == [Substitution.Located(0, Substitution.Edit(edit.oldText, edit.newText, edit.itemIds, []))]
  {
    hide Substitution.Candidate, Substitution.Replaceable, Substitution.Anchored, IsBlank, Substitution.Locate,
        Substitution.Arrange, Substitution.At;
    var fragments := Fragments(edit);
    var patch := Substitution.Edit(edit.oldText, edit.newText, edit.itemIds, []);
    assert fragments == [fragments[0]] && WithoutLast(fragments) == [] && edit.itemIds == [edit.itemIds[0]];
    assert Group([]) == [] && Attributions.Find([], fragments[0]) == 0;
    assert Group(fragments) == [] + [patch] == [patch];
    assert fragments[0] in fragments;
    WholeIsAnchored(edit.oldText, patch);
    WholeIsAnchored(edit.oldText, Substitution.Edit(fragments[0].beforeText, fragments[0].afterText, [], []));
    Alone(edit.oldText, patch);
    Substitution.OneEdit(edit.oldText, patch);
    assert edit.oldText[..0] + edit.newText + edit.oldText[|edit.oldText|..] == edit.newText;
  }

  lemma JoinIsAttributed()
    ensures !Unclear(JOIN_A)
  {
    JoinIsOneRegion();
    BothAreAttributed(NEWLINE_A, ONLY_A);
  }

  lemma NotBlank(s: string)
    requires s == "p" || s == "q"
    ensures !IsBlank(s)
  {
    assert s[0] !in SPACES && TrimLeft(s) == s;
  }

  /** However its lines are attributed, the change is one block, the newline. */
  lemma JoinIsOneBlock(owners: seq<Owner>, ranges: seq<EditLineRange>, blocks: seq<Block>)
    requires Accounted(X_A, X_JOINED, [JOIN_A], owners, ranges, blocks)
    ensures |ranges| == 1 && blocks == [Block(1, 2, 1, 1)] && ranges[0].range == RangeOf(X_A, X_JOINED, blocks[0])
  {
    hide Unclear, PatchesOf, Substitution.Candidate, Substitution.Replaceable, Genuine, RangeOf, IsScript;
    JoinMakes();
    OnePatchForBoth(NEWLINE_A, ONLY_A);
    var ordered := [Substitution.Located(1, JOIN_A)];
    forall k | 0 <= k < |owners| ensures owners[k] == (0, 0) {
      assert RangeFits(X_A, X_JOINED, ordered, owners[k], ranges[k], blocks[k]);
    }
    assert AllOwn(owners, 0, 1) && HasOwner(owners, 0, 0);
    AtMostOneOwner(ordered, owners);
    RangeIsOfBlock(X_A, X_JOINED, ordered, owners, ranges, blocks, 0);
    assert blocks == [blocks[0]];
    OnlyTheNewline(blocks[0]);
  }

  lemma CopiedBytes(before: Text, after: Text, o: nat, n: nat, size: nat)
    requires o + size <= |before| && n + size <= |after| && before[o..o + size] == after[n..n + size]
    ensures forall k :: o <= k < o + size ==> before[k] == after[k - o + n]
  {
    forall k | o <= k < o + size ensures before[k] == after[k - o + n] {
      assert before[o..o + size][k - o] == after[n..n + size][k - o];
    }
  }

  lemma OneBlockCopies(before: Text, after: Text, b: Block)
    requires IsScript(before, after, [b]) && Genuine(before, after, b)
    ensures b.oldStart == b.newStart && |before| - b.oldEnd == |after| - b.newEnd
    ensures forall k :: 0 <= k < b.oldStart ==> before[k] == after[k]
    ensures forall k :: b.oldEnd <= k < |before| ==> before[k] == after[k - b.oldEnd + b.newEnd]
  {
    assert WithoutLast([b]) == [] && Last([b]) == b;
    assert Covers(before, after, [], b.oldStart, b.newStart);
    assert |before[..b.oldStart]| == b.oldStart && |after[..b.newStart]| == b.newStart;
    assert before[0..0 + b.oldStart] == before[..b.oldStart] && after[0..0 + b.newStart] == after[..b.newStart];
    CopiedBytes(before, after, 0, 0, b.oldStart);
    assert |before[b.oldEnd..|before|]| == |before| - b.oldEnd && |after[b.newEnd..|after|]| == |after| - b.newEnd;
    CopiedBytes(before, after, b.oldEnd, b.newEnd, |before| - b.oldEnd);
  }

  lemma OnlyTheNewline(b: Block)
    requires IsScript(X_A, X_JOINED, [b]) && Genuine(X_A, X_JOINED, b)
    ensures b == Block(1, 2, 1, 1)
  {
    hide IsScript;
    OneBlockCopies(X_A, X_JOINED, b);
    assert X_A[1] == 10 && X_JOINED[1] == 97 && X_A[0] == 120 && X_JOINED[0] == 120;
  }

  lemma AtMostOneOwner(ordered: seq<Substitution.Located>, owners: seq<Owner>)
    requires |ordered| == 1 && EachOwns(ordered, owners, 1) && Shared(ordered[0].edit)
    requires forall k :: 0 <= k < |owners| ==> owners[k] == (0, 0)
    ensures |owners| <= 1
  {
    hide PatchesOf;
    var first := if |owners| > 0 then owners[0] else (0, 0);
    var last := if |owners| > 0 then owners[|owners| - 1] else (0, 0);
    assert first == last;
  }

  /**
   * The guard lets the newline before a held line go: whatever ranges the accepted candidate gets, none touches the
   * held line, whose bytes are kept; but they no longer start a line.
   */
  lemma GuardAllowsJoining(owners: seq<Owner>, ranges: seq<EditLineRange>, blocks: seq<Block>)
    requires Accounted(X_A, X_JOINED, [JOIN_A], owners, ranges, blocks)
    ensures IsHeld(HELD_PLAN, 2) && HasLine(X_A, 2) && LineStart(X_A, 2) == 2
    ensures HeldUntouched(HELD_PLAN, ranges)
    ensures Image(blocks, 2) <= |X_JOINED| && !AtBoundary(X_JOINED, Image(blocks, 2))
  {
    hide Unclear, Accounted, RangeOf, Newlines, LineTokens, LineStart;
    JoinIsOneBlock(owners, ranges, blocks);
    LinesOfXA();
    JoinTouchesLineOne();
    assert HELD_PLAN.items[0].sourceLocations[0] == HELD_A;
  }

  lemma JoinTouchesLineOne()
    ensures var range := RangeOf(X_A, X_JOINED, Block(1, 2, 1, 1)); range.beforeStart == range.beforeEnd == 1
  {
    NoNewlines(X_A[..1]);
    assert X_A[..1] == [120];
  }

  lemma LinesOfXA()
    ensures LineTokens(X_A) == [[120, 10], [97, 10]] && HasLine(X_A, 2)
    ensures LineStart(X_A, 2) == 2 && LineStop(X_A, 2) == 4
  {
    var tokens: seq<Text> := [[120, 10], [97, 10]];
    assert Concat(tokens) == X_A by { assert tokens[1..] == [[97, 10]]; assert tokens[1..][1..] == []; }
    TokensAreUnique(tokens, LineTokens(X_A));
    assert tokens[..1] == [[120, 10]] && Concat([[120 as byte, 10]]) == [120, 10];
    assert tokens[..2] == tokens;
  }
}

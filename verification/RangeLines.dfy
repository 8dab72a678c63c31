/** What the line numbers of accepted ranges mean, on both sides. */
module RangeLines {
  import opened Bytes
  import opened Scripts
  import opened ByteBlocks
  import opened LineRanges
  import opened Attributions
  import opened HeldLines
  import Substitution

  /** The byte at `at` is one of the line's. */
  ghost predicate HoldsByte(text: Text, line: int, at: int) {
    HasLine(text, line) && LineStart(text, line) <= at < LineStop(text, line)
  }

  /** The lines have whole lines before them, and whole lines are put in their place or nothing follows. */
  predicate BetweenLines(text: Text, at: nat, opposite: Text)
    requires at <= |text|
  {
    && (at == 0 || text[at - 1] == 10)
    && (at == |text| || (opposite != [] && opposite[|opposite| - 1] == 10))
  }

  /**
   * The lines of one side of a change: those of its first and its last byte. A side without bytes has no lines if
   * whole lines come or go there, and otherwise names the line that the change joins: the one it continues, or else
   * the one it begins.
   */
  ghost predicate NamesSide(text: Text, start: nat, end: nat, opposite: Text, first: int, last: int)
    requires start <= end <= |text|
  {
    if start < end then HoldsByte(text, first, start) && HoldsByte(text, last, end - 1)
    else if BetweenLines(text, start, opposite) then first == 0 && last == 0
    else first == last && HoldsByte(text, first, if start > 0 && text[start - 1] != 10 then start - 1 else start)
  }

  lemma {:induction false} LineOfByte(text: Text, at: nat)
    requires at < |text|
    ensures HoldsByte(text, LineOf(text, at), at)
  {
    var tokens := LineTokens(text);
    var n := |tokens|;
    OffsetSlice(tokens, 0, n);
    assert tokens[..0] == [];
    var line := HeldLines.LineWithByte(text, 1, n, at);
    BytesOfLine(text, line, at);
  }

  lemma SideIsNamed(text: Text, start: nat, end: nat, opposite: Text)
    requires start <= end <= |text|
    ensures var lines := ChangedLineRange(text, start, end, opposite);
      NamesSide(text, start, end, opposite, lines.0, lines.1)
  {
    if start < end {
      LineOfByte(text, start);
      LineOfByte(text, end - 1);
    } else if !BetweenLines(text, start, opposite) {
      if start > 0 && text[start - 1] != 10 {
        LineOfByte(text, start - 1);
        assert text[..start][..start - 1] == text[..start - 1];
      } else {
        LineOfByte(text, start);
      }
    }
  }

  ghost predicate NamesBlock(before: Text, after: Text, b: Block, range: ChangeLineRange)
    requires b.oldStart <= b.oldEnd <= |before| && b.newStart <= b.newEnd <= |after|
  {
    && NamesSide(before, b.oldStart, b.oldEnd, after[b.newStart..b.newEnd], range.beforeStart, range.beforeEnd)
    && NamesSide(after, b.newStart, b.newEnd, before[b.oldStart..b.oldEnd], range.afterStart, range.afterEnd)
  }

  /** Every range of an accepted attribution names the lines its block changes, in the original and in the candidate. */
  lemma RangesNameTheirLines(before: Text, after: Text, edits: seq<Substitution.Edit>, owners: seq<Owner>,
      ranges: seq<EditLineRange>, blocks: seq<Block>, k: nat)
    requires Accounted(before, after, edits, owners, ranges, blocks) && k < |ranges|
    ensures |blocks| == |ranges|
    ensures var b := blocks[k];
      && b.oldStart <= b.oldEnd <= |before| && b.newStart <= b.newEnd <= |after|
      && NamesBlock(before, after, b, ranges[k].range)
  {
    hide Genuine, RangeOf, EachOwns, IsScript, Substitution.Replaceable, Substitution.Candidate, Unclear, Owns,
        NamesSide;
    RangeIsOfBlock(before, after, Substitution.Arrange(Substitution.Locate(before, edits)), owners, ranges, blocks, k);
    BlockInside(before, after, blocks[k]);
    BlockIsNamed(before, after, blocks[k]);
  }

  lemma BlockIsNamed(before: Text, after: Text, b: Block)
    requires b.oldStart <= b.oldEnd <= |before| && b.newStart <= b.newEnd <= |after|
    ensures NamesBlock(before, after, b, RangeOf(before, after, b))
  {
    hide NamesSide, ChangedLineRange;
    SideIsNamed(before, b.oldStart, b.oldEnd, after[b.newStart..b.newEnd]);
    SideIsNamed(after, b.newStart, b.newEnd, before[b.oldStart..b.oldEnd]);
  }
}

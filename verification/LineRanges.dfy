/** Line coordinates of byte ranges. */
module LineRanges {
  import opened Bytes
  import opened Scripts

  /** Zero coordinates mean that the side has no lines. */
  datatype ChangeLineRange = ChangeLineRange(beforeStart: int, beforeEnd: int, afterStart: int, afterEnd: int)

  const NO_RANGE := ChangeLineRange(0, 0, 0, 0)

  function BeforeLines(first: int, last: int): ChangeLineRange { ChangeLineRange(first, last, 0, 0) }

  function AfterLines(first: int, last: int): ChangeLineRange { ChangeLineRange(0, 0, first, last) }

  /** The line that holds the byte at `at`, or that a byte added there would stand on. */
  function LineOf(text: Text, at: nat): nat
    requires at <= |text|
  {
    Newlines(text[..at]) + 1
  }

  function AtBoundary(text: Text, at: nat): bool
    requires at <= |text|
  {
    at == 0 || text[at - 1] == NEWLINE
  }

  predicate EndsLine(text: Text) { text != [] && text[|text| - 1] == NEWLINE }

  /** The lines a change touches on one side; whole lines added or taken away leave none on the other. */
  function ChangedLineRange(text: Text, start: nat, end: nat, oppositeChange: Text): (int, int)
    requires start <= end <= |text|
  {
    if start == end then
      if AtBoundary(text, start) && (EndsLine(oppositeChange) || start == |text|) then (0, 0)
      else (LineOf(text, start), LineOf(text, start))
    else (LineOf(text, start), LineOf(text, end - 1))
  }

  function RangeOf(before: Text, after: Text, b: Block): ChangeLineRange
    requires b.oldStart <= b.oldEnd <= |before| && b.newStart <= b.newEnd <= |after|
  {
    var old' := ChangedLineRange(before, b.oldStart, b.oldEnd, after[b.newStart..b.newEnd]);
    var new' := ChangedLineRange(after, b.newStart, b.newEnd, before[b.oldStart..b.oldEnd]);
    ChangeLineRange(old'.0, old'.1, new'.0, new'.1)
  }
}

/** The unified diff as the result page shows it: which source lines its rows stand for. */
module DiffRows {
  import opened Options

  datatype Kind = MetaRow | HunkRow | AddedRow | RemovedRow | ContextRow

  datatype DiffRow = DiffRow(text: string, kind: Kind, oldLine: Option<nat>, newLine: Option<nat>)

  /** What a hunk header announces; an omitted count is 1. */
  datatype Hunk = Hunk(oldStart: nat, oldCount: nat, newStart: nat, newCount: nat)

  /** Reads a hunk header, when the text is one. */
  type HeaderReader = string -> Option<Hunk>

  /** The next source lines, and how many of them the hunk still announces. */
  datatype Position = Position(oldLine: nat, newLine: nat, oldRemaining: nat, newRemaining: nat)

  const NO_NEWLINE := "\\ No newline at end of file"

  predicate IsMarker(text: string) { NO_NEWLINE <= text }

  predicate StartsWith(text: string, c: char) { text != "" && text[0] == c }

  function RowOf(header: HeaderReader, p: Position, text: string): DiffRow {
    if header(text).Some? then DiffRow(text, HunkRow, None, None)
    else if IsMarker(text) then DiffRow(text, MetaRow, None, None)
    else if StartsWith(text, '-') && p.oldRemaining > 0 then DiffRow(text, RemovedRow, Some(p.oldLine), None)
    else if StartsWith(text, '+') && p.newRemaining > 0 then DiffRow(text, AddedRow, None, Some(p.newLine))
    else if StartsWith(text, ' ') && p.oldRemaining > 0 && p.newRemaining > 0
    then DiffRow(text, ContextRow, Some(p.oldLine), Some(p.newLine))
    else DiffRow(text, MetaRow, None, None)
  }

  function Advance(line: nat, row: Option<nat>): nat { if row.Some? then line + 1 else line }

  function Remains(count: nat, row: Option<nat>): nat { if row.Some? && count > 0 then count - 1 else count }

  /** A row that is not announced ends the hunk. */
  function Next(header: HeaderReader, p: Position, text: string): Position {
    var row := RowOf(header, p, text);
    match header(text)
    case Some(h) => Position(h.oldStart, h.newStart, h.oldCount, h.newCount)
    case None =>
      if row.kind.MetaRow? && !IsMarker(text) then Position(p.oldLine, p.newLine, 0, 0)
      else Position(Advance(p.oldLine, row.oldLine), Advance(p.newLine, row.newLine),
        Remains(p.oldRemaining, row.oldLine), Remains(p.newRemaining, row.newLine))
  }

  function PositionAt(header: HeaderReader, texts: seq<string>): Position {
    if texts == [] then Position(0, 0, 0, 0)
    else Next(header, PositionAt(header, texts[..|texts| - 1]), texts[|texts| - 1])
  }

  function Rows(header: HeaderReader, texts: seq<string>): (rows: seq<DiffRow>)
    ensures |rows| == |texts|
    ensures forall i :: 0 <= i < |texts| ==> rows[i].text == texts[i]
  {
    if texts == [] then []
    else
      var front := texts[..|texts| - 1];
      Rows(header, front) + [RowOf(header, PositionAt(header, front), texts[|texts| - 1])]
  }

  method ParseUnifiedDiff(header: HeaderReader, texts: seq<string>) returns (rows: seq<DiffRow>)
    ensures rows == Rows(header, texts)
  {
    rows := [];
    var oldLine: nat, newLine: nat, oldRemaining: nat, newRemaining: nat := 0, 0, 0, 0;
    for i := 0 to |texts|
      invariant rows == Rows(header, texts[..i])
      invariant PositionAt(header, texts[..i]) == Position(oldLine, newLine, oldRemaining, newRemaining)
    {
      var text := texts[i];
      assert texts[..i + 1][..i] == texts[..i];
      var row := DiffRow(text, MetaRow, None, None);
      if header(text).Some? {
        var hunk := header(text).value;
        oldLine, newLine, oldRemaining, newRemaining := hunk.oldStart, hunk.newStart, hunk.oldCount, hunk.newCount;
        row := row.(kind := HunkRow);
      } else if IsMarker(text) {
      } else if StartsWith(text, '-') && oldRemaining > 0 {
        row := row.(kind := RemovedRow, oldLine := Some(oldLine));
        oldLine, oldRemaining := oldLine + 1, oldRemaining - 1;
      } else if StartsWith(text, '+') && newRemaining > 0 {
        row := row.(kind := AddedRow, newLine := Some(newLine));
        newLine, newRemaining := newLine + 1, newRemaining - 1;
      } else if StartsWith(text, ' ') && oldRemaining > 0 && newRemaining > 0 {
        row := row.(kind := ContextRow, oldLine := Some(oldLine), newLine := Some(newLine));
        oldLine, oldRemaining, newLine, newRemaining := oldLine + 1, oldRemaining - 1, newLine + 1, newRemaining - 1;
      } else {
        oldRemaining, newRemaining := 0, 0;
      }
      rows := rows + [row];
    }
    assert texts[..|texts|] == texts;
  }

  // ----- the numbers of a hunk -----

  function OldRows(rows: seq<DiffRow>): nat {
    if rows == [] then 0 else OldRows(rows[..|rows| - 1]) + (if rows[|rows| - 1].oldLine.Some? then 1 else 0)
  }

  function NewRows(rows: seq<DiffRow>): nat {
    if rows == [] then 0 else NewRows(rows[..|rows| - 1]) + (if rows[|rows| - 1].newLine.Some? then 1 else 0)
  }

  /** Texts after a header, up to but not including the next one. */
  predicate Body(header: HeaderReader, texts: seq<string>, h: nat, end: nat) {
    h < end <= |texts| && header(texts[h]).Some? && forall k :: h < k < end ==> header(texts[k]).None?
  }

  lemma {:induction false} RowsPrefix(header: HeaderReader, texts: seq<string>, i: nat)
    requires i <= |texts|
    ensures Rows(header, texts)[..i] == Rows(header, texts[..i])
    ensures i < |texts| ==> Rows(header, texts)[i] == RowOf(header, PositionAt(header, texts[..i]), texts[i])
    decreases |texts|
  {
    hide RowOf, Next;
    if i == |texts| {
      assert texts[..i] == texts;
      assert Rows(header, texts)[..i] == Rows(header, texts);
    } else {
      var front := texts[..|texts| - 1];
      RowsPrefix(header, front, i);
      assert front[..i] == texts[..i];
      assert Rows(header, texts)[..i] == Rows(header, front)[..i];
    }
  }

  function One(n: Option<nat>): nat { if n.Some? then 1 else 0 }

  lemma NextCounts(header: HeaderReader, p: Position, text: string)
    requires header(text).None?
    ensures var row, next := RowOf(header, p, text), Next(header, p, text);
      && next.oldLine == p.oldLine + One(row.oldLine) && next.newLine == p.newLine + One(row.newLine)
      && One(row.oldLine) + next.oldRemaining <= p.oldRemaining
      && One(row.newLine) + next.newRemaining <= p.newRemaining
      && (row.oldLine.Some? ==> row.oldLine.value == p.oldLine && p.oldRemaining > 0)
      && (row.newLine.Some? ==> row.newLine.value == p.newLine && p.newRemaining > 0)
  {
  }

  lemma UsedGrow(rows: seq<DiffRow>, h: nat, end: nat)
    requires h < end < |rows|
    ensures OldRows(rows[h + 1..end + 1]) == OldRows(rows[h + 1..end]) + One(rows[end].oldLine)
    ensures NewRows(rows[h + 1..end + 1]) == NewRows(rows[h + 1..end]) + One(rows[end].newLine)
  {
    var used := rows[h + 1..end + 1];
    assert used[..|used| - 1] == rows[h + 1..end] && used[|used| - 1] == rows[end];
  }

  predicate Counts(hunk: Hunk, p: Position, used: seq<DiffRow>) {
    && p.oldLine == hunk.oldStart + OldRows(used) && p.newLine == hunk.newStart + NewRows(used)
    && OldRows(used) + p.oldRemaining <= hunk.oldCount && NewRows(used) + p.newRemaining <= hunk.newCount
  }

  /** The position inside a hunk counts on from its header, and what remains is what was announced and not yet used. */
  lemma {:induction false} PositionInHunk(header: HeaderReader, texts: seq<string>, h: nat, end: nat)
    requires Body(header, texts, h, end)
    ensures Counts(header(texts[h]).value, PositionAt(header, texts[..end]), Rows(header, texts)[h + 1..end])
    decreases end
  {
    var n := end - 1;
    assert texts[..end][..n] == texts[..n];
    if n > h {
      PositionInHunk(header, texts, h, n);
      RowsPrefix(header, texts, n);
      NextCounts(header, PositionAt(header, texts[..n]), texts[n]);
      UsedGrow(Rows(header, texts), h, n);
    } else {
      assert Rows(header, texts)[h + 1..end] == [];
    }
  }

  /** Inside a hunk the numbers run on from its header, one for each row of their side, and never past its counts. */
  lemma NumbersRunFromHeader(header: HeaderReader, texts: seq<string>, h: nat, i: nat)
    requires Body(header, texts, h, i + 1) && h < i
    ensures var hunk, rows := header(texts[h]).value, Rows(header, texts);
      var used := rows[h + 1..i];
      && (rows[i].oldLine.Some? ==>
            rows[i].oldLine.value == hunk.oldStart + OldRows(used) < hunk.oldStart + hunk.oldCount)
      && (rows[i].newLine.Some? ==>
            rows[i].newLine.value == hunk.newStart + NewRows(used) < hunk.newStart + hunk.newCount)
  {
    PositionInHunk(header, texts, h, i);
    RowsPrefix(header, texts, i);
    NextCounts(header, PositionAt(header, texts[..i]), texts[i]);
  }

  // ----- the kinds of rows -----

  /** A row of the hunk: it has a number, or only says that a newline is missing. */
  predicate Announced(row: DiffRow) { row.oldLine.Some? || row.newLine.Some? || IsMarker(row.text) }

  lemma PositionStep(header: HeaderReader, texts: seq<string>, n: nat)
    requires n < |texts|
    ensures PositionAt(header, texts[..n + 1]) == Next(header, PositionAt(header, texts[..n]), texts[n])
  {
    assert texts[..n + 1][..n] == texts[..n];
  }

  lemma NextRemains(header: HeaderReader, p: Position, text: string)
    requires header(text).None?
    ensures var row, next := RowOf(header, p, text), Next(header, p, text);
      if Announced(row)
      then
        && One(row.oldLine) + next.oldRemaining == p.oldRemaining
        && One(row.newLine) + next.newRemaining == p.newRemaining
      else next.oldRemaining == 0 && next.newRemaining == 0
  {
  }

  /** While every row is announced, what remains is exactly what the header announced and no row has used. */
  lemma {:induction false} RemainsInHunk(header: HeaderReader, texts: seq<string>, h: nat, end: nat)
    requires Body(header, texts, h, end) && forall k :: h < k < end ==> Announced(Rows(header, texts)[k])
    ensures var hunk, p := header(texts[h]).value, PositionAt(header, texts[..end]);
      var used := Rows(header, texts)[h + 1..end];
      OldRows(used) + p.oldRemaining == hunk.oldCount && NewRows(used) + p.newRemaining == hunk.newCount
    decreases end
  {
    hide RowOf, Next;
    var n := end - 1;
    PositionStep(header, texts, n);
    if n > h {
      RemainsInHunk(header, texts, h, n);
      RowsPrefix(header, texts, n);
      NextRemains(header, PositionAt(header, texts[..n]), texts[n]);
      UsedGrow(Rows(header, texts), h, n);
    } else {
      HeaderCounts(header, PositionAt(header, texts[..h]), texts[h]);
      assert Rows(header, texts)[h + 1..end] == [];
    }
  }

  lemma HeaderCounts(header: HeaderReader, p: Position, text: string)
    requires header(text).Some?
    ensures var hunk, next := header(text).value, Next(header, p, text);
      next.oldRemaining == hunk.oldCount && next.newRemaining == hunk.newCount
  {
  }

  /** What a row is, when so many rows of either side are still announced. */
  ghost predicate IsKind(row: DiffRow, isHeader: bool, oldLeft: bool, newLeft: bool) {
    && (row.kind.HunkRow? <==> isHeader)
    && (row.kind.RemovedRow? <==>
          !isHeader && !IsMarker(row.text) && StartsWith(row.text, '-') && oldLeft)
    && (row.kind.AddedRow? <==> !isHeader && !IsMarker(row.text) && StartsWith(row.text, '+') && newLeft)
    && (row.kind.ContextRow? <==>
          !isHeader && !IsMarker(row.text) && StartsWith(row.text, ' ') && oldLeft && newLeft)
    && (row.oldLine.Some? <==> row.kind.RemovedRow? || row.kind.ContextRow?)
    && (row.newLine.Some? <==> row.kind.AddedRow? || row.kind.ContextRow?)
  }

  /**
   * In a hunk a row is removed, added or kept as its first character says, as long as its header announces more rows
   * of that side.
   */
  lemma KindsInHunk(header: HeaderReader, texts: seq<string>, h: nat, i: nat)
    requires Body(header, texts, h, i + 1) && h < i && forall k :: h < k < i ==> Announced(Rows(header, texts)[k])
    ensures var hunk, rows := header(texts[h]).value, Rows(header, texts);
      var used := rows[h + 1..i];
      rows[i].text == texts[i]
      && IsKind(rows[i], false, OldRows(used) < hunk.oldCount, NewRows(used) < hunk.newCount)
  {
    hide RowOf, Next, Rows, PositionAt, Announced;
    RemainsInHunk(header, texts, h, i);
    RowIsKind(header, PositionAt(header, texts[..i]), texts[i]);
    RowsPrefix(header, texts, i);
  }

  /** After a row that is not announced, nothing of the hunk is left. */
  lemma {:induction false} NothingAfterTheEnd(header: HeaderReader, texts: seq<string>, e: nat, i: nat)
    requires e < i < |texts| && !Announced(Rows(header, texts)[e])
    requires forall k :: e <= k < i ==> header(texts[k]).None?
    ensures IsKind(Rows(header, texts)[i], header(texts[i]).Some?, false, false)
    ensures PositionAt(header, texts[..i]).oldRemaining == 0 && PositionAt(header, texts[..i]).newRemaining == 0
  {
    hide RowOf, Next, Announced, Rows, PositionAt;
    PositionStep(header, texts, i - 1);
    RowsPrefix(header, texts, i - 1);
    RowsPrefix(header, texts, i);
    if e < i - 1 {
      NothingAfterTheEnd(header, texts, e, i - 1);
    }
    NextEnded(header, PositionAt(header, texts[..i - 1]), texts[i - 1]);
    RowIsKind(header, PositionAt(header, texts[..i]), texts[i]);
  }

  lemma NextEnded(header: HeaderReader, p: Position, text: string)
    requires header(text).None?
    requires !Announced(RowOf(header, p, text)) || (p.oldRemaining == 0 && p.newRemaining == 0)
    ensures Next(header, p, text).oldRemaining == 0 && Next(header, p, text).newRemaining == 0
  {
  }

  lemma RowIsKind(header: HeaderReader, p: Position, text: string)
    ensures RowOf(header, p, text).text == text
    ensures IsKind(RowOf(header, p, text), header(text).Some?, p.oldRemaining > 0, p.newRemaining > 0)
  {
  }

  lemma HeadersAreHunkRows(header: HeaderReader, texts: seq<string>, i: nat)
    requires i < |texts|
    ensures Rows(header, texts)[i].kind.HunkRow? <==> header(texts[i]).Some?
  {
    hide RowOf, Next, Rows, PositionAt;
    RowIsKind(header, PositionAt(header, texts[..i]), texts[i]);
    RowsPrefix(header, texts, i);
  }

  /** Before the first header no row has a source number. */
  lemma {:induction false} NothingBeforeAHeader(header: HeaderReader, texts: seq<string>)
    requires forall k :: 0 <= k < |texts| ==> header(texts[k]).None?
    ensures PositionAt(header, texts) == Position(0, 0, 0, 0)
    ensures
      forall i :: 0 <= i < |texts| ==> Rows(header, texts)[i].oldLine.None? && Rows(header, texts)[i].newLine.None?
  {
    if texts != [] {
      NothingBeforeAHeader(header, texts[..|texts| - 1]);
    }
  }
}

/**
 * Rebasing recorded line ranges onto the initial and the accepted text: what a reported coordinate
 * means, when a row may be dropped, and where a held location may be shown.
 */
module Provenance {
  import opened Bytes
  import opened Alignment
  import opened LineMapping
  import opened LineRanges

  predicate Within(x: int, start: int, end: int) { 1 <= start <= x <= end }

  // ----- fixed rows -----

  /** The images of the mapped lines of [start, end], in order. */
  function Images(mapping: CumulativeLines, start: int, end: int): (lines: seq<int>)
    ensures forall y :: y in lines <==> exists x :: start <= x <= end && MapsTo(mapping.forward, x, y)
    decreases end - start
  {
    if end < start then []
    else
      var earlier := Images(mapping, start, end - 1);
      if end in mapping.forward then
        assert MapsTo(mapping.forward, end, mapping.forward[end]);
        earlier + [mapping.forward[end]]
      else earlier
  }

  predicate InSource(start: int, end: int, mapping: CumulativeLines) {
    1 <= start <= end <= mapping.sourceLines
  }

  /** Every line of the side is certainly mapped or certainly gone; an absent side is known. */
  ghost predicate Known(start: int, end: int, mapping: CumulativeLines) {
    || (start == 0 && end == 0)
    || (InSource(start, end, mapping) &&
        forall x :: Within(x, start, end) ==> x in mapping.forward || Flag(mapping.removed, x))
  }

  method CumulativeMappedRange(start: int, end: int, mapping: CumulativeLines) returns (lines: seq<int>, known: bool)
    ensures known <==> Known(start, end, mapping)
    ensures lines == if known && start != 0 then Images(mapping, start, end) else []
  {
    if start == 0 && end == 0 {
      return [], true;
    }
    if start <= 0 || end < start || end > mapping.sourceLines {
      return [], false;
    }
    lines := [];
    var line := start;
    while line <= end
      invariant start <= line <= end + 1
      invariant forall x :: start <= x < line ==> x in mapping.forward || Flag(mapping.removed, x)
      invariant lines == Images(mapping, start, line - 1)
    {
      if line in mapping.forward {
        lines := lines + [mapping.forward[line]];
      } else if !Flag(mapping.removed, line) {
        return [], false;
      }
      line := line + 1;
    }
    return lines, true;
  }

  function Selected(lines: seq<int>, changed: map<int, bool>): (selected: seq<int>)
    ensures forall y :: y in selected <==> y in lines && Flag(changed, y)
    ensures selected == [] <==> forall y :: y in lines ==> !Flag(changed, y)
  {
    if lines == [] then []
    else
      var last := lines[|lines| - 1];
      Selected(lines[..|lines| - 1], changed) + (if Flag(changed, last) then [last] else [])
  }

  ghost predicate Certain(lines: seq<int>, changed: map<int, bool>, kept: map<int, int>) {
    forall y :: y in lines ==> Flag(changed, y) || y in kept
  }

  lemma OneMoreLine(lines: seq<int>, i: nat, changed: map<int, bool>, kept: map<int, int>)
    requires i < |lines|
    ensures Selected(lines[..i + 1], changed)
      == Selected(lines[..i], changed) + (if Flag(changed, lines[i]) then [lines[i]] else [])
    ensures Certain(lines[..i + 1], changed, kept) <==>
      Certain(lines[..i], changed, kept) && (Flag(changed, lines[i]) || lines[i] in kept)
  {
    hide Flag;
    assert lines[..i + 1] == lines[..i] + [lines[i]];
    assert lines[..i + 1][..i] == lines[..i];
  }

  method CumulativeChangedLines(lines: seq<int>, changed: map<int, bool>, kept: map<int, int>)
    returns (selected: seq<int>, certain: bool)
    ensures selected == Selected(lines, changed)
    ensures certain <==> Certain(lines, changed, kept)
  {
    selected, certain := [], true;
    for i := 0 to |lines|
      invariant selected == Selected(lines[..i], changed)
      invariant certain <==> Certain(lines[..i], changed, kept)
    {
      OneMoreLine(lines, i, changed, kept);
      if Flag(changed, lines[i]) {
        selected := selected + [lines[i]];
      } else if lines[i] !in kept {
        certain := false;
      }
    }
    assert lines[..|lines|] == lines;
  }

  /** The lines reported for one side of a recorded span. */
  function SideLines(start: int, end: int, mapping: CumulativeLines): seq<int> {
    if start == 0 then [] else Images(mapping, start, end)
  }

  ghost predicate BothKnown(span: ChangeLineRange, oldMap: CumulativeLines, newMap: CumulativeLines) {
    && span != NO_RANGE
    && Known(span.beforeStart, span.beforeEnd, oldMap)
    && Known(span.afterStart, span.afterEnd, newMap)
  }

  /** Every line of the side is certainly gone, or is mapped to a line that is certainly kept. */
  ghost predicate Settled(start: int, end: int, mapping: CumulativeLines, changed: map<int, bool>, kept: map<int,
      int>) {
    && Known(start, end, mapping)
    && forall x :: Within(x, start, end) && x in mapping.forward
         ==> mapping.forward[x] in kept && !Flag(changed, mapping.forward[x])
  }

  function Befores(lines: seq<int>): seq<ChangeLineRange> {
    seq(|lines|, i requires 0 <= i < |lines| => BeforeLines(lines[i], lines[i]))
  }

  function Afters(lines: seq<int>): seq<ChangeLineRange> {
    seq(|lines|, i requires 0 <= i < |lines| => AfterLines(lines[i], lines[i]))
  }

  /** The changed initial lines of the span, then its changed accepted lines. */
  function Reported(span: ChangeLineRange, oldMap: CumulativeLines, newMap: CumulativeLines,
      comparison: CumulativeLines): seq<ChangeLineRange> {
    Befores(Selected(SideLines(span.beforeStart, span.beforeEnd, oldMap), comparison.removed)) +
    Afters(Selected(SideLines(span.afterStart, span.afterEnd, newMap), comparison.added))
  }

  ghost predicate MayDrop(span: ChangeLineRange, oldMap: CumulativeLines, newMap: CumulativeLines,
      comparison: CumulativeLines) {
    && span != NO_RANGE
    && Settled(span.beforeStart, span.beforeEnd, oldMap, comparison.removed, comparison.forward)
    && Settled(span.afterStart, span.afterEnd, newMap, comparison.added, comparison.reverse)
  }

  method CumulativeReportRange(span: ChangeLineRange, oldMap: CumulativeLines, newMap: CumulativeLines,
      comparison: CumulativeLines)
    returns (spans: seq<ChangeLineRange>, removed: bool)
    ensures spans == if BothKnown(span, oldMap, newMap) then Reported(span, oldMap, newMap, comparison) else []
    ensures removed <==> MayDrop(span, oldMap, newMap, comparison)
  {
    if span == NO_RANGE {
      return [], false;
    }
    var oldLines, oldKnown := CumulativeMappedRange(span.beforeStart, span.beforeEnd, oldMap);
    var newLines, newKnown := CumulativeMappedRange(span.afterStart, span.afterEnd, newMap);
    if !oldKnown || !newKnown {
      return [], false;
    }
    var changedOld, oldCertain := CumulativeChangedLines(oldLines, comparison.removed, comparison.forward);
    var changedNew, newCertain := CumulativeChangedLines(newLines, comparison.added, comparison.reverse);
    spans := SpanLines(changedOld, changedNew);
    removed := oldCertain && newCertain && |spans| == 0;
    SettledSide(span.beforeStart, span.beforeEnd, oldMap, comparison.removed, comparison.forward);
    SettledSide(span.afterStart, span.afterEnd, newMap, comparison.added, comparison.reverse);
  }

  method SpanLines(changedOld: seq<int>, changedNew: seq<int>) returns (spans: seq<ChangeLineRange>)
    ensures spans == Befores(changedOld) + Afters(changedNew)
  {
    spans := [];
    for i := 0 to |changedOld|
      invariant spans == Befores(changedOld)[..i]
    {
      spans := spans + [BeforeLines(changedOld[i], changedOld[i])];
    }
    for i := 0 to |changedNew|
      invariant spans == Befores(changedOld) + Afters(changedNew)[..i]
    {
      spans := spans + [AfterLines(changedNew[i], changedNew[i])];
    }
  }

  lemma SettledSide(start: int, end: int, mapping: CumulativeLines, changed: map<int, bool>, kept: map<int, int>)
    requires Known(start, end, mapping)
    ensures Settled(start, end, mapping, changed, kept) <==>
      var lines := SideLines(start, end, mapping); Selected(lines, changed) == [] && Certain(lines, changed, kept)
  {
    var lines := SideLines(start, end, mapping);
    var selected := Selected(lines, changed);
    if Settled(start, end, mapping, changed, kept) {
      forall y | y in lines ensures y in kept && !Flag(changed, y) {
        var x :| start <= x <= end && MapsTo(mapping.forward, x, y);
        assert Within(x, start, end);
      }
    } else {
      var x :| Within(x, start, end) && x in mapping.forward
               && !(mapping.forward[x] in kept && !Flag(changed, mapping.forward[x]));
      assert MapsTo(mapping.forward, x, mapping.forward[x]);
      assert mapping.forward[x] in lines;
    }
  }

  /** Line y of the initial text is the image of a recorded line, and no longest alignment keeps it. */
  ghost predicate GoneImage(span: ChangeLineRange, oldText: Text, before: Text, after: Text, y: int) {
    && LineGone(LineTokens(before), LineTokens(after), y)
    && exists x :: Within(x, span.beforeStart, span.beforeEnd) && SameLine(oldText, before, x, y)
  }

  /** Line y of the accepted text is the image of a recorded line, and no longest alignment keeps it. */
  ghost predicate NewImage(span: ChangeLineRange, newText: Text, before: Text, after: Text, y: int) {
    && LineNew(LineTokens(before), LineTokens(after), y)
    && exists x :: Within(x, span.afterStart, span.afterEnd) && SameLine(newText, after, x, y)
  }

  /** Every coordinate of a fixed row points at a line that was certainly changed. */
  lemma ReportedLinesAreChanged(span: ChangeLineRange, oldMap: CumulativeLines, newMap: CumulativeLines,
      comparison: CumulativeLines,
                                oldText: Text, newText: Text, before: Text, after: Text, r: ChangeLineRange)
    requires IsMapping(oldMap, oldText, before) && IsMapping(newMap, newText, after)
    requires IsMapping(comparison, before, after)
    requires BothKnown(span, oldMap, newMap) && r in Reported(span, oldMap, newMap, comparison)
    ensures
      || (r == BeforeLines(r.beforeStart, r.beforeStart) && GoneImage(span, oldText, before, after, r.beforeStart))
      || (r == AfterLines(r.afterStart, r.afterStart) && NewImage(span, newText, before, after, r.afterStart))
  {
    var y, initial := ReportedSide(span, oldMap, newMap, comparison, r);
    if initial {
      SideLineIsSame(span.beforeStart, span.beforeEnd, oldMap, oldText, before, y);
      FlaggedIsChanged(comparison, before, after, y);
    } else {
      SideLineIsSame(span.afterStart, span.afterEnd, newMap, newText, after, y);
      FlaggedIsChanged(comparison, before, after, y);
    }
  }

  lemma ReportedSide(span: ChangeLineRange, oldMap: CumulativeLines, newMap: CumulativeLines,
      comparison: CumulativeLines, r: ChangeLineRange)
    returns (y: int, initial: bool)
    requires r in Reported(span, oldMap, newMap, comparison)
    ensures initial ==>
        && r == BeforeLines(y, y) && y in SideLines(span.beforeStart, span.beforeEnd, oldMap)
        && Flag(comparison.removed, y)
    ensures !initial ==>
        r == AfterLines(y, y) && y in SideLines(span.afterStart, span.afterEnd, newMap) && Flag(comparison.added, y)
  {
    var olds := Selected(SideLines(span.beforeStart, span.beforeEnd, oldMap), comparison.removed);
    var news := Selected(SideLines(span.afterStart, span.afterEnd, newMap), comparison.added);
    var k :| 0 <= k < |olds| + |news| && r == (Befores(olds) + Afters(news))[k];
    initial := k < |olds|;
    y := if initial then olds[k] else news[k - |olds|];
  }

  lemma FlaggedIsChanged(m: CumulativeLines, before: Text, after: Text, y: int)
    requires IsMapping(m, before, after)
    ensures Flag(m.removed, y) ==> LineGone(LineTokens(before), LineTokens(after), y)
    ensures Flag(m.added, y) ==> LineNew(LineTokens(before), LineTokens(after), y)
  {
    MappingIsSound(m, before, after);
  }

  lemma SideLineIsSame(start: int, end: int, m: CumulativeLines, source: Text, target: Text, y: int)
    requires IsMapping(m, source, target) && Known(start, end, m) && y in SideLines(start, end, m)
    ensures exists x :: Within(x, start, end) && SameLine(source, target, x, y)
  {
    var x :| start <= x <= end && MapsTo(m.forward, x, y);
    MappedIsSame(m, source, target, x, y);
    assert Within(x, start, end);
  }

  /** Line x of one text and line y of another are forced onto each other and read the same. */
  ghost predicate SameLine(source: Text, target: Text, x: int, y: int) {
    var a, b := LineTokens(source), LineTokens(target);
    1 <= x <= |a| && 1 <= y <= |b| && a[x - 1] == b[y - 1] && LineForced(a, b, x, y)
  }

  lemma MappedIsSame(m: CumulativeLines, source: Text, target: Text, x: int, y: int)
    requires IsMapping(m, source, target) && MapsTo(m.forward, x, y)
    ensures SameLine(source, target, x, y)
  {
    MappingIsSound(m, source, target);
    MappedLinesAreEqual(LineTokens(source), LineTokens(target), m, x, y);
  }

  /**
   * A dropped row accounts for every recorded line: it is in no longest alignment with the target
   * text, or it is a line of the target text that every longest alignment of the two texts keeps.
   */
  lemma DroppedLinesAreAccountedFor(span: ChangeLineRange, oldMap: CumulativeLines, newMap: CumulativeLines,
      comparison: CumulativeLines,
                                    oldText: Text, newText: Text, before: Text, after: Text)
    requires IsMapping(oldMap, oldText, before) && IsMapping(newMap, newText, after)
    requires IsMapping(comparison, before, after)
    requires MayDrop(span, oldMap, newMap, comparison)
    ensures forall x :: Within(x, span.beforeStart, span.beforeEnd) ==>
      || LineGone(LineTokens(oldText), LineTokens(before), x)
      || exists y, z :: SameLine(oldText, before, x, y) && SameLine(before, after, y, z)
    ensures forall x :: Within(x, span.afterStart, span.afterEnd) ==>
      || LineGone(LineTokens(newText), LineTokens(after), x)
      || exists y, z :: SameLine(newText, after, x, z) && SameLine(before, after, y, z)
  {
    MappingIsSound(oldMap, oldText, before);
    MappingIsSound(newMap, newText, after);
    MappingIsSound(comparison, before, after);
    forall x | Within(x, span.beforeStart, span.beforeEnd) && !Flag(oldMap.removed, x)
      ensures exists y, z :: SameLine(oldText, before, x, y) && SameLine(before, after, y, z)
    {
      var y := oldMap.forward[x];
      MappedIsSame(oldMap, oldText, before, x, y);
      MappedIsSame(comparison, before, after, y, comparison.forward[y]);
    }
    forall x | Within(x, span.afterStart, span.afterEnd) && !Flag(newMap.removed, x)
      ensures exists y, z :: SameLine(newText, after, x, z) && SameLine(before, after, y, z)
    {
      var z := newMap.forward[x];
      MappedIsSame(newMap, newText, after, x, z);
      assert MapsTo(comparison.reverse, z, comparison.reverse[z]);
      MappedIsSame(comparison, before, after, comparison.reverse[z], z);
    }
  }

  /** A recorded line x of the span stands at line y of the target, which is flagged as changed there. */
  ghost predicate ReportsLine(mapping: CumulativeLines, changed: map<int, bool>, start: int, end: int, x: int, y: int) {
    Within(x, start, end) && MapsTo(mapping.forward, x, y) && Flag(changed, y)
  }

  ghost predicate IsReported(mapping: CumulativeLines, changed: map<int, bool>, start: int, end: int, y: int) {
    exists x :: ReportsLine(mapping, changed, start, end, x, y)
  }

  /** The ranges of a span: one for each changed image of a recorded line, on either side. */
  ghost predicate Reports(span: ChangeLineRange, oldMap: CumulativeLines, newMap: CumulativeLines,
      comparison: CumulativeLines, r: ChangeLineRange) {
    && BothKnown(span, oldMap, newMap)
    && (|| (r == ChangeLineRange(r.beforeStart, r.beforeStart, 0, 0)
            && IsReported(oldMap, comparison.removed, span.beforeStart, span.beforeEnd, r.beforeStart))
        || (r == ChangeLineRange(0, 0, r.afterStart, r.afterStart)
            && IsReported(newMap, comparison.added, span.afterStart, span.afterEnd, r.afterStart)))
  }

  lemma SideIsReported(mapping: CumulativeLines, changed: map<int, bool>, start: int, end: int, y: int)
    requires Known(start, end, mapping)
    ensures y in Selected(SideLines(start, end, mapping), changed) <==> IsReported(mapping, changed, start, end, y)
  {
    if y in Selected(SideLines(start, end, mapping), changed) {
      var x :| start <= x <= end && MapsTo(mapping.forward, x, y);
      assert ReportsLine(mapping, changed, start, end, x, y);
    }
    if x :| ReportsLine(mapping, changed, start, end, x, y) {
      assert y in SideLines(start, end, mapping);
    }
  }

  lemma InSpans(olds: seq<int>, news: seq<int>, r: ChangeLineRange)
    ensures r in Befores(olds) + Afters(news) <==>
      || (r == ChangeLineRange(r.beforeStart, r.beforeStart, 0, 0) && r.beforeStart in olds)
      || (r == ChangeLineRange(0, 0, r.afterStart, r.afterStart) && r.afterStart in news)
  {
    var spans := Befores(olds) + Afters(news);
    if r == ChangeLineRange(r.beforeStart, r.beforeStart, 0, 0) && r.beforeStart in olds {
      var k :| 0 <= k < |olds| && olds[k] == r.beforeStart;
      assert spans[k] == r;
    }
    if r == ChangeLineRange(0, 0, r.afterStart, r.afterStart) && r.afterStart in news {
      var k :| 0 <= k < |news| && news[k] == r.afterStart;
      assert spans[|olds| + k] == r;
    }
  }

  /** Exactly the changed images are reported, of both sides. */
  lemma ReportedExactly(span: ChangeLineRange, oldMap: CumulativeLines, newMap: CumulativeLines,
      comparison: CumulativeLines, r: ChangeLineRange)
    requires BothKnown(span, oldMap, newMap)
    ensures r in Reported(span, oldMap, newMap, comparison) <==> Reports(span, oldMap, newMap, comparison, r)
  {
    hide Selected, SideLines, IsReported, Known, Befores, Afters;
    InSpans(Selected(SideLines(span.beforeStart, span.beforeEnd, oldMap), comparison.removed),
      Selected(SideLines(span.afterStart, span.afterEnd, newMap), comparison.added), r);
    SideIsReported(oldMap, comparison.removed, span.beforeStart, span.beforeEnd, r.beforeStart);
    SideIsReported(newMap, comparison.added, span.afterStart, span.afterEnd, r.afterStart);
  }

  /** With an exact comparison, a recorded line's image is reported whenever no longest alignment keeps it. */
  lemma ChangedLinesAreReported(span: ChangeLineRange, oldMap: CumulativeLines, newMap: CumulativeLines,
      comparison: CumulativeLines, before: Text, after: Text, x: int, y: int)
    requires IsMapping(comparison, before, after) && !Oversized(before, after) && BothKnown(span, oldMap, newMap)
    ensures
      Within(x, span.beforeStart, span.beforeEnd) && MapsTo(oldMap.forward, x, y)
      && LineGone(LineTokens(before), LineTokens(after), y) ==>
        Reports(span, oldMap, newMap, comparison, ChangeLineRange(y, y, 0, 0))
    ensures
      Within(x, span.afterStart, span.afterEnd) && MapsTo(newMap.forward, x, y)
      && LineNew(LineTokens(before), LineTokens(after), y) ==>
        Reports(span, oldMap, newMap, comparison, ChangeLineRange(0, 0, y, y))
  {
    hide LineGone, LineNew, LineForced, LineTokens, Known;
    if Within(x, span.beforeStart, span.beforeEnd) && MapsTo(oldMap.forward, x, y)
        && LineGone(LineTokens(before), LineTokens(after), y) {
      assert ReportsLine(oldMap, comparison.removed, span.beforeStart, span.beforeEnd, x, y);
    }
    if Within(x, span.afterStart, span.afterEnd) && MapsTo(newMap.forward, x, y)
        && LineNew(LineTokens(before), LineTokens(after), y) {
      assert ReportsLine(newMap, comparison.added, span.afterStart, span.afterEnd, x, y);
    }
  }

  // ----- the order of the ranges -----

  ghost predicate InLineOrder(mapping: CumulativeLines, start: int, end: int, y: int, y': int) {
    exists x, x' :: start <= x < x' <= end && MapsTo(mapping.forward, x, y) && MapsTo(mapping.forward, x', y')
  }

  lemma {:induction false} ImagesInOrder(mapping: CumulativeLines, start: int, end: int, i: nat, j: nat)
    requires i < j < |Images(mapping, start, end)|
    ensures InLineOrder(mapping, start, end, Images(mapping, start, end)[i], Images(mapping, start, end)[j])
    decreases end - start
  {
    var earlier, all := Images(mapping, start, end - 1), Images(mapping, start, end);
    if j < |earlier| {
      ImagesInOrder(mapping, start, end - 1, i, j);
    } else {
      assert all[i] in earlier;
      var x :| start <= x <= end - 1 && MapsTo(mapping.forward, x, all[i]);
      assert MapsTo(mapping.forward, end, all[j]);
    }
  }

  /** Where the k-th selected line stands among all. */
  lemma {:induction false} SelectedInOrder(lines: seq<int>, changed: map<int, bool>, i: nat, j: nat)
    returns (k: nat, l: nat)
    requires i < j < |Selected(lines, changed)|
    ensures k < l < |lines| && lines[k] == Selected(lines, changed)[i] && lines[l] == Selected(lines, changed)[j]
  {
    var front, all := lines[..|lines| - 1], Selected(lines, changed);
    if j < |Selected(front, changed)| {
      k, l := SelectedInOrder(front, changed, i, j);
    } else {
      var kept := Selected(front, changed);
      assert all[i] == kept[i] && kept[i] in kept && kept[i] in front;
      k :| 0 <= k < |front| && front[k] == all[i];
      l := |lines| - 1;
    }
  }

  /** Changed initial lines come before changed accepted ones, and each in the order of the recorded lines. */
  lemma ReportedInOrder(span: ChangeLineRange, oldMap: CumulativeLines, newMap: CumulativeLines,
      comparison: CumulativeLines, i: nat, j: nat)
    requires i < j < |Reported(span, oldMap, newMap, comparison)|
    ensures var r, r' := Reported(span, oldMap, newMap, comparison)[i], Reported(span, oldMap, newMap, comparison)[j];
      || (r == ChangeLineRange(r.beforeStart, r.beforeStart, 0, 0)
          && r' == ChangeLineRange(r'.beforeStart, r'.beforeStart, 0, 0)
          && InLineOrder(oldMap, span.beforeStart, span.beforeEnd, r.beforeStart, r'.beforeStart))
      || (r == ChangeLineRange(r.beforeStart, r.beforeStart, 0, 0)
          && r' == ChangeLineRange(0, 0, r'.afterStart, r'.afterStart))
      || (r == ChangeLineRange(0, 0, r.afterStart, r.afterStart)
          && r' == ChangeLineRange(0, 0, r'.afterStart, r'.afterStart)
          && InLineOrder(newMap, span.afterStart, span.afterEnd, r.afterStart, r'.afterStart))
  {
    hide Selected, Images, InLineOrder;
    var olds := SideLines(span.beforeStart, span.beforeEnd, oldMap);
    var news := SideLines(span.afterStart, span.afterEnd, newMap);
    var n := |Selected(olds, comparison.removed)|;
    if j < n {
      var k, l := SelectedInOrder(olds, comparison.removed, i, j);
      ImagesInOrder(oldMap, span.beforeStart, span.beforeEnd, k, l);
    } else if n <= i {
      var k, l := SelectedInOrder(news, comparison.added, i - n, j - n);
      ImagesInOrder(newMap, span.afterStart, span.afterEnd, k, l);
    }
  }

  /** The reported ranges of several spans, one after the other. */
  ghost function AllReported(recorded: seq<ChangeLineRange>, oldMap: CumulativeLines, newMap: CumulativeLines,
      comparison: CumulativeLines): seq<ChangeLineRange> {
    if recorded == [] then []
    else
      var span := recorded[|recorded| - 1];
      AllReported(recorded[..|recorded| - 1], oldMap, newMap, comparison)
      + (if BothKnown(span, oldMap, newMap) then Reported(span, oldMap, newMap, comparison) else [])
  }

  /** The ranges of one span stand together, behind those of the spans before it. */
  lemma {:induction false} AllReportedInOrder(front: seq<ChangeLineRange>, span: ChangeLineRange,
      rest: seq<ChangeLineRange>, oldMap: CumulativeLines, newMap: CumulativeLines, comparison: CumulativeLines)
    ensures AllReported(front + [span] + rest, oldMap, newMap, comparison)
      == AllReported(front, oldMap, newMap, comparison)
         + (if BothKnown(span, oldMap, newMap) then Reported(span, oldMap, newMap, comparison) else [])
         + AllReported(rest, oldMap, newMap, comparison)
  {
    hide Reported, BothKnown;
    var all := front + [span] + rest;
    if rest == [] {
      assert all[..|all| - 1] == front && all[|all| - 1] == span;
    } else {
      assert all[..|all| - 1] == front + [span] + rest[..|rest| - 1] && all[|all| - 1] == rest[|rest| - 1];
      AllReportedInOrder(front, span, rest[..|rest| - 1], oldMap, newMap, comparison);
    }
  }

  lemma {:induction false} AllReportedExactly(recorded: seq<ChangeLineRange>, oldMap: CumulativeLines,
      newMap: CumulativeLines, comparison: CumulativeLines, r: ChangeLineRange)
    ensures r in AllReported(recorded, oldMap, newMap, comparison) <==>
      exists span :: span in recorded && Reports(span, oldMap, newMap, comparison, r)
  {
    hide Reports, Reported, BothKnown;
    if recorded != [] {
      var front, span := recorded[..|recorded| - 1], recorded[|recorded| - 1];
      assert recorded == front + [span];
      AllReportedExactly(front, oldMap, newMap, comparison, r);
      ReportsWhenKnown(span, oldMap, newMap, comparison, r);
      if BothKnown(span, oldMap, newMap) {
        ReportedExactly(span, oldMap, newMap, comparison, r);
      }
    }
  }

  lemma ReportsWhenKnown(span: ChangeLineRange, oldMap: CumulativeLines, newMap: CumulativeLines,
      comparison: CumulativeLines, r: ChangeLineRange)
    ensures Reports(span, oldMap, newMap, comparison, r) ==> BothKnown(span, oldMap, newMap)
  {
  }

  /** One recorded row: its rebased ranges, and whether nothing of it is left. */
  method FixedRow(recorded: seq<ChangeLineRange>, verified: bool, mapped: bool,
                  oldMap: CumulativeLines, newMap: CumulativeLines, comparison: CumulativeLines)
    returns (ranges: seq<ChangeLineRange>, allRemoved: bool)
    ensures ranges == if mapped && verified then AllReported(recorded, oldMap, newMap, comparison) else []
    ensures forall r :: r in ranges <==>
        mapped && verified && exists span :: span in recorded && Reports(span, oldMap, newMap, comparison, r)
    ensures allRemoved <==> verified && mapped && recorded != []
                            && forall span :: span in recorded ==> MayDrop(span, oldMap, newMap, comparison)
  {
    hide Reports, Reported, BothKnown, MayDrop;
    ranges := [];
    allRemoved := verified && |recorded| > 0 && mapped;
    if mapped && verified {
      for i := 0 to |recorded|
        invariant ranges == AllReported(recorded[..i], oldMap, newMap, comparison)
        invariant allRemoved <==> recorded != [] && forall span ::
          span in recorded[..i] ==> MayDrop(span, oldMap, newMap, comparison)
      {
        var spans, removed := CumulativeReportRange(recorded[i], oldMap, newMap, comparison);
        assert recorded[..i + 1] == recorded[..i] + [recorded[i]];
        ranges := ranges + spans;
        allRemoved := allRemoved && removed;
      }
      assert recorded[..|recorded|] == recorded;
    }
    forall r ensures r in AllReported(recorded, oldMap, newMap, comparison) <==>
        exists span :: span in recorded && Reports(span, oldMap, newMap, comparison, r) {
      AllReportedExactly(recorded, oldMap, newMap, comparison, r);
    }
  }

  // ----- held rows -----

  datatype HeldLineMappings = HeldLineMappings(
    toBaseline: CumulativeLines,
    toAccepted: CumulativeLines,
    candidateToOriginal: CumulativeLines,
    candidateAvailable: bool)

  datatype Group = Group(first: int, last: int)

  function WithoutLast<T>(s: seq<T>): seq<T>
    requires s != []
  {
    s[..|s| - 1]
  }

  /** Maximal runs of consecutive line numbers. */
  function Groups(lines: seq<int>): (groups: seq<Group>)
    ensures groups == [] <==> lines == []
  {
    if lines == [] then []
    else
      var earlier, line := Groups(WithoutLast(lines)), lines[|lines| - 1];
      if |earlier| > 0 && earlier[|earlier| - 1].last + 1 == line
      then earlier[|earlier| - 1 := Group(earlier[|earlier| - 1].first, line)]
      else earlier + [Group(line, line)]
  }

  function Run(first: int, last: int): (lines: seq<int>)
    ensures forall y :: y in lines <==> first <= y <= last
    decreases last - first
  {
    if last < first then [] else Run(first, last - 1) + [last]
  }

  function Expand(groups: seq<Group>): seq<int> {
    if groups == [] then []
    else Expand(groups[..|groups| - 1]) + Run(groups[|groups| - 1].first, groups[|groups| - 1].last)
  }

  method ContiguousReportLines(lines: seq<int>) returns (groups: seq<Group>)
    ensures groups == Groups(lines)
  {
    groups := [];
    for i := 0 to |lines|
      invariant groups == Groups(lines[..i])
    {
      assert lines[..i + 1][..i] == lines[..i];
      if |groups| > 0 && groups[|groups| - 1].last + 1 == lines[i] {
        groups := groups[|groups| - 1 := Group(groups[|groups| - 1].first, lines[i])];
      } else {
        groups := groups + [Group(lines[i], lines[i])];
      }
    }
    assert lines[..|lines|] == lines;
  }

  /** Writing the groups out again gives back the lines, in order. */
  lemma {:induction false} GroupsExpand(lines: seq<int>)
    ensures Expand(Groups(lines)) == lines
  {
    if lines != [] {
      var earlier, line, groups := Groups(WithoutLast(lines)), lines[|lines| - 1], Groups(lines);
      GroupsExpand(WithoutLast(lines));
      GroupsAreRuns(WithoutLast(lines));
      if |earlier| > 0 && earlier[|earlier| - 1].last + 1 == line {
        assert WithoutLast(groups) == WithoutLast(earlier);
        assert Expand(earlier) == Expand(WithoutLast(earlier)) + Run(earlier[|earlier| - 1].first, line - 1);
      } else {
        assert WithoutLast(groups) == earlier;
        assert Run(line, line) == [line];
      }
    }
  }

  ghost predicate RunsApart(groups: seq<Group>) {
    && (forall k :: 0 <= k < |groups| ==> groups[k].first <= groups[k].last)
    && (forall k, l :: 0 <= k && l == k + 1 < |groups| ==> groups[l].first != groups[k].last + 1)
  }

  /** Every group is a nonempty run, and no two neighbouring groups could be joined. */
  lemma {:induction false} GroupsAreRuns(lines: seq<int>)
    ensures RunsApart(Groups(lines))
  {
    if lines != [] {
      var earlier, line, groups := Groups(WithoutLast(lines)), lines[|lines| - 1], Groups(lines);
      GroupsAreRuns(WithoutLast(lines));
      if |earlier| > 0 && earlier[|earlier| - 1].last + 1 == line {
        assert groups == earlier[|earlier| - 1 := Group(earlier[|earlier| - 1].first, line)];
      } else {
        assert groups == earlier + [Group(line, line)];
      }
    }
  }

  method ExactSourceLines(start: int, end: int, total: int) returns (lines: seq<int>, ok: bool)
    ensures ok <==> 1 <= start <= end <= total
    ensures lines == if ok then Run(start, end) else []
  {
    if start < 1 || end < start || end > total {
      return [], false;
    }
    lines := [];
    var line := start;
    while line <= end
      invariant start <= line <= end + 1
      invariant lines == Run(start, line - 1)
    {
      lines := lines + [line];
      line := line + 1;
    }
    ok := true;
  }

  predicate AllMapped(lines: seq<int>, mapping: CumulativeLines) {
    lines != [] && forall i :: 0 <= i < |lines| ==> lines[i] in mapping.forward
  }

  function Mapped(lines: seq<int>, mapping: CumulativeLines): seq<int>
    requires AllMapped(lines, mapping)
  {
    seq(|lines|, i requires 0 <= i < |lines| => mapping.forward[lines[i]])
  }

  method UnchangedMappedLines(lines: seq<int>, mapping: CumulativeLines) returns (mapped: seq<int>, ok: bool)
    ensures ok <==> AllMapped(lines, mapping)
    ensures ok ==> mapped == Mapped(lines, mapping)
  {
    mapped := [];
    for i := 0 to |lines|
      invariant |mapped| == i
      invariant forall k :: 0 <= k < i ==> lines[k] in mapping.forward && mapped[k] == mapping.forward[lines[k]]
    {
      if lines[i] !in mapping.forward {
        return [], false;
      }
      mapped := mapped + [mapping.forward[lines[i]]];
    }
    ok := |mapped| > 0;
  }

  /** The source lines a held span names: directly, or through unchanged lines of the candidate. */
  ghost predicate NamesOriginal(m: HeldLineMappings, span: ChangeLineRange, lines: seq<int>) {
    || (InSource(span.beforeStart, span.beforeEnd, m.toBaseline) && lines == Run(span.beforeStart, span.beforeEnd))
    || (m.candidateAvailable && InSource(span.afterStart, span.afterEnd, m.candidateToOriginal)
        && AllMapped(Run(span.afterStart, span.afterEnd), m.candidateToOriginal)
        && lines == Mapped(Run(span.afterStart, span.afterEnd), m.candidateToOriginal))
  }

  ghost predicate ShownFor(m: HeldLineMappings, lines: seq<int>, r: ChangeLineRange) {
    GroupShown(lines, m.toBaseline, true, r) || GroupShown(lines, m.toAccepted, false, r)
  }

  predicate Distinct<T(==)>(s: seq<T>) {
    forall i, j :: 0 <= i < j < |s| ==> s[i] != s[j]
  }

  /** Adds the groups of mapped lines that were not added before. */
  method AppendGroups(ranges: seq<ChangeLineRange>, lines: seq<int>, mapping: CumulativeLines, beforeSide: bool)
    returns (extended: seq<ChangeLineRange>)
    requires Distinct(ranges)
    ensures Distinct(extended)
    ensures forall r :: r in extended <==> r in ranges || GroupShown(lines, mapping, beforeSide, r)
  {
    extended := ranges;
    var mapped, ok := UnchangedMappedLines(lines, mapping);
    if ok {
      var groups := ContiguousReportLines(mapped);
      for i := 0 to |groups|
        invariant Distinct(extended)
        invariant
          forall r :: r in extended <==> r in ranges || exists k :: 0 <= k < i && r == SideRange(groups[k], beforeSide)
      {
        var span := SideRange(groups[i], beforeSide);
        if span !in extended {
          extended := extended + [span];
        }
      }
    }
  }

  function SideRange(g: Group, beforeSide: bool): ChangeLineRange {
    if beforeSide then BeforeLines(g.first, g.last) else AfterLines(g.first, g.last)
  }

  ghost predicate GroupShown(lines: seq<int>, mapping: CumulativeLines, beforeSide: bool, r: ChangeLineRange) {
    && AllMapped(lines, mapping)
    && exists k ::
         0 <= k < |Groups(Mapped(lines, mapping))| && r == SideRange(Groups(Mapped(lines, mapping))[k], beforeSide)
  }

  method AppendOriginal(m: HeldLineMappings, ranges: seq<ChangeLineRange>,
      lines: seq<int>) returns (extended: seq<ChangeLineRange>)
    requires Distinct(ranges)
    ensures Distinct(extended)
    ensures forall r :: r in extended <==> r in ranges || ShownFor(m, lines, r)
  {
    extended := AppendGroups(ranges, lines, m.toBaseline, true);
    extended := AppendGroups(extended, lines, m.toAccepted, false);
  }

  /** The ranges shown for held spans: exactly the mapped groups of the lines they name, each once. */
  method HeldRanges(m: HeldLineMappings, spans: seq<ChangeLineRange>) returns (ranges: seq<ChangeLineRange>)
    ensures Distinct(ranges)
    ensures forall r :: r in ranges <==> Shown(m, spans, r)
  {
    ranges := [];
    for i := 0 to |spans|
      invariant Distinct(ranges)
      invariant forall r :: r in ranges <==> Shown(m, spans[..i], r)
    {
      ghost var earlier := ranges;
      var span := spans[i];
      var direct, named := ExactSourceLines(span.beforeStart, span.beforeEnd, m.toBaseline.sourceLines);
      if named {
        ranges := AppendOriginal(m, ranges, direct);
      }
      if m.candidateAvailable {
        var candidate, inside := ExactSourceLines(span.afterStart, span.afterEnd, m.candidateToOriginal.sourceLines);
        if inside {
          var original, ok := UnchangedMappedLines(candidate, m.candidateToOriginal);
          if ok {
            ranges := AppendOriginal(m, ranges, original);
          }
        }
      }
      assert spans[..i + 1] == spans[..i] + [span];
      assert forall r :: r in ranges <==> r in earlier || ShownForSpan(m, span, r);
      ShownSnoc(m, spans[..i], span);
    }
    assert spans[..|spans|] == spans;
  }

  ghost predicate ShownForSpan(m: HeldLineMappings, span: ChangeLineRange, r: ChangeLineRange) {
    exists lines :: NamesOriginal(m, span, lines) && ShownFor(m, lines, r)
  }

  ghost predicate Shown(m: HeldLineMappings, spans: seq<ChangeLineRange>, r: ChangeLineRange) {
    exists i :: 0 <= i < |spans| && ShownForSpan(m, spans[i], r)
  }

  lemma ShownSnoc(m: HeldLineMappings, spans: seq<ChangeLineRange>, span: ChangeLineRange)
    ensures forall r :: Shown(m, spans + [span], r) <==> Shown(m, spans, r) || ShownForSpan(m, span, r)
  {
    forall r | Shown(m, spans, r) || ShownForSpan(m, span, r) ensures Shown(m, spans + [span], r) {
      if Shown(m, spans, r) {
        var i :| 0 <= i < |spans| && ShownForSpan(m, spans[i], r);
        assert (spans + [span])[i] == spans[i];
      } else {
        assert (spans + [span])[|spans|] == span;
      }
    }
    forall r | Shown(m, spans + [span], r) ensures Shown(m, spans, r) || ShownForSpan(m, span, r) {
      var i :| 0 <= i < |spans + [span]| && ShownForSpan(m, (spans + [span])[i], r);
    }
  }

  /** A source line of the attempt that a held span names, directly or through its candidate. */
  ghost predicate HeldSource(span: ChangeLineRange, original: Text, candidate: Text, x: int) {
    || Within(x, span.beforeStart, span.beforeEnd)
    || exists c :: Within(c, span.afterStart, span.afterEnd) && SameLine(candidate, original, c, x)
  }

  /** Line y of the target reads exactly as a source line the span names. */
  ghost predicate Quotes(span: ChangeLineRange, original: Text, candidate: Text, target: Text, y: int) {
    exists x :: HeldSource(span, original, candidate, x) && SameLine(original, target, x, y)
  }

  ghost predicate QuotesAll(span: ChangeLineRange, original: Text, candidate: Text, target: Text, first: int,
      last: int) {
    first <= last && forall y :: first <= y <= last ==> Quotes(span, original, candidate, target, y)
  }

  /**
   * Every line inside a shown range reads exactly as a source line the span names: through one map
   * for a direct location, through two for a location of the candidate.
   */
  lemma HeldRangesQuoteTheSource(m: HeldLineMappings, span: ChangeLineRange, r: ChangeLineRange,
                                 original: Text, candidate: Text, baseline: Text, accepted: Text)
    requires IsMapping(m.toBaseline, original, baseline) && IsMapping(m.toAccepted, original, accepted)
    requires IsMapping(m.candidateToOriginal, candidate, original)
    requires ShownForSpan(m, span, r)
    ensures
      || (&& r == BeforeLines(r.beforeStart, r.beforeEnd)
          && QuotesAll(span, original, candidate, baseline, r.beforeStart, r.beforeEnd))
      || (&& r == AfterLines(r.afterStart, r.afterEnd)
          && QuotesAll(span, original, candidate, accepted, r.afterStart, r.afterEnd))
  {
    var lines :| NamesOriginal(m, span, lines) && ShownFor(m, lines, r);
    NamedLinesAreSources(m, span, original, candidate, lines);
    if GroupShown(lines, m.toBaseline, true, r) {
      var g := GroupQuotes(m.toBaseline, span, original, candidate, baseline, lines, true, r);
    } else {
      var g := GroupQuotes(m.toAccepted, span, original, candidate, accepted, lines, false, r);
    }
  }

  lemma NamedLinesAreSources(m: HeldLineMappings, span: ChangeLineRange, original: Text, candidate: Text,
      lines: seq<int>)
    requires IsMapping(m.candidateToOriginal, candidate, original) && NamesOriginal(m, span, lines)
    ensures forall k :: 0 <= k < |lines| ==> HeldSource(span, original, candidate, lines[k])
  {
    forall k | 0 <= k < |lines| ensures HeldSource(span, original, candidate, lines[k]) {
      if InSource(span.beforeStart, span.beforeEnd, m.toBaseline) && lines == Run(span.beforeStart, span.beforeEnd) {
        assert lines[k] in lines;
      } else {
        var named := Run(span.afterStart, span.afterEnd);
        assert named[k] in named;
        MappedIsSame(m.candidateToOriginal, candidate, original, named[k], lines[k]);
        assert Within(named[k], span.afterStart, span.afterEnd);
      }
    }
  }

  lemma GroupQuotes(mapping: CumulativeLines, span: ChangeLineRange, original: Text, candidate: Text, target: Text,
                    lines: seq<int>, beforeSide: bool, r: ChangeLineRange)
    returns (g: Group)
    requires IsMapping(mapping, original, target)
    requires forall k :: 0 <= k < |lines| ==> HeldSource(span, original, candidate, lines[k])
    requires GroupShown(lines, mapping, beforeSide, r)
    ensures r == SideRange(g, beforeSide) && QuotesAll(span, original, candidate, target, g.first, g.last)
  {
    var mapped := Mapped(lines, mapping);
    var groups := Groups(mapped);
    var k :| 0 <= k < |groups| && r == SideRange(groups[k], beforeSide);
    g := groups[k];
    GroupsAreRuns(mapped);
    forall y | g.first <= y <= g.last ensures Quotes(span, original, candidate, target, y) {
      GroupLinesAreLines(mapped, k, y);
      var i :| 0 <= i < |mapped| && mapped[i] == y;
      MappedIsSame(mapping, original, target, lines[i], y);
    }
  }

  lemma GroupLinesAreLines(lines: seq<int>, k: nat, y: int)
    requires k < |Groups(lines)| && Groups(lines)[k].first <= y <= Groups(lines)[k].last
    ensures y in lines
  {
    GroupsExpand(lines);
    ExpandHolds(Groups(lines), k, y);
  }

  lemma {:induction false} ExpandHolds(groups: seq<Group>, k: nat, y: int)
    requires k < |groups| && groups[k].first <= y <= groups[k].last
    ensures y in Expand(groups)
  {
    if k < |groups| - 1 {
      ExpandHolds(WithoutLast(groups), k, y);
    }
  }

  // ----- every held line that can be shown is shown -----

  /** A shown range has line y of the initial text, or of the accepted one. */
  ghost predicate ShowsLine(m: HeldLineMappings, span: ChangeLineRange, initial: bool, y: int) {
    exists r :: ShownForSpan(m, span, r)
      && (if initial then r == ChangeLineRange(r.beforeStart, r.beforeEnd, 0, 0) && r.beforeStart <= y <= r.beforeEnd
          else r == ChangeLineRange(0, 0, r.afterStart, r.afterEnd) && r.afterStart <= y <= r.afterEnd)
  }

  /** The lines are all unchanged in both texts, or in one of them, and then line x of them is shown there. */
  ghost predicate ShownIn(m: HeldLineMappings, span: ChangeLineRange, first: int, last: int, x: int) {
    && ((forall l :: first <= l <= last ==> l in m.toBaseline.forward) ==>
          x in m.toBaseline.forward && ShowsLine(m, span, true, m.toBaseline.forward[x]))
    && ((forall l :: first <= l <= last ==> l in m.toAccepted.forward) ==>
          x in m.toAccepted.forward && ShowsLine(m, span, false, m.toAccepted.forward[x]))
  }

  lemma {:induction false} SomeGroupHolds(groups: seq<Group>, y: int) returns (k: nat)
    requires y in Expand(groups)
    ensures k < |groups| && groups[k].first <= y <= groups[k].last
  {
    var n := |groups| - 1;
    if y in Expand(groups[..n]) {
      k := SomeGroupHolds(groups[..n], y);
    } else {
      k := n;
    }
  }

  lemma MappedLineIsShown(m: HeldLineMappings, span: ChangeLineRange, lines: seq<int>, initial: bool, i: nat)
    requires NamesOriginal(m, span, lines) && i < |lines|
    requires AllMapped(lines, if initial then m.toBaseline else m.toAccepted)
    ensures
      ShowsLine(m, span, initial, (if initial then m.toBaseline else m.toAccepted).forward[lines[i]])
  {
    hide Groups, NamesOriginal;
    var mapping := if initial then m.toBaseline else m.toAccepted;
    var mapped := Mapped(lines, mapping);
    GroupsExpand(mapped);
    assert mapped[i] in mapped;
    var k := SomeGroupHolds(Groups(mapped), mapped[i]);
    var r := SideRange(Groups(mapped)[k], initial);
    assert GroupShown(lines, mapping, initial, r);
    assert ShownFor(m, lines, r);
    assert ShownForSpan(m, span, r);
  }

  /** Lines that a held span names are shown in each text that has all of them unchanged. */
  lemma HeldLinesAreShown(m: HeldLineMappings, span: ChangeLineRange, x: int)
    requires 1 <= span.beforeStart <= x <= span.beforeEnd <= m.toBaseline.sourceLines
    ensures ShownIn(m, span, span.beforeStart, span.beforeEnd, x)
  {
    hide ShowsLine;
    var lines := Run(span.beforeStart, span.beforeEnd);
    assert NamesOriginal(m, span, lines) && x in lines;
    var i :| 0 <= i < |lines| && lines[i] == x;
    forall k | 0 <= k < |lines| ensures span.beforeStart <= lines[k] <= span.beforeEnd {
      assert lines[k] in lines;
    }
    if forall l :: span.beforeStart <= l <= span.beforeEnd ==> l in m.toBaseline.forward {
      MappedLineIsShown(m, span, lines, true, i);
    }
    if forall l :: span.beforeStart <= l <= span.beforeEnd ==> l in m.toAccepted.forward {
      MappedLineIsShown(m, span, lines, false, i);
    }
  }

  /** And lines of the candidate that a held span names, through the original lines they are unchanged from. */
  lemma HeldCandidateLinesAreShown(m: HeldLineMappings, span: ChangeLineRange, c: int)
    requires m.candidateAvailable && 1 <= span.afterStart <= c <= span.afterEnd <= m.candidateToOriginal.sourceLines
    requires forall l :: span.afterStart <= l <= span.afterEnd ==> l in m.candidateToOriginal.forward
    ensures var original := m.candidateToOriginal.forward;
      && ((forall l :: span.afterStart <= l <= span.afterEnd ==> original[l] in m.toBaseline.forward) ==>
            ShowsLine(m, span, true, m.toBaseline.forward[original[c]]))
      && ((forall l :: span.afterStart <= l <= span.afterEnd ==> original[l] in m.toAccepted.forward) ==>
            ShowsLine(m, span, false, m.toAccepted.forward[original[c]]))
  {
    hide ShowsLine;
    var named := Run(span.afterStart, span.afterEnd);
    forall k | 0 <= k < |named| ensures span.afterStart <= named[k] <= span.afterEnd {
      assert named[k] in named;
    }
    assert c in named;
    var i :| 0 <= i < |named| && named[i] == c;
    var lines := Mapped(named, m.candidateToOriginal);
    assert NamesOriginal(m, span, lines);
    if forall l :: span.afterStart <= l <= span.afterEnd ==>
        m.candidateToOriginal.forward[l] in m.toBaseline.forward {
      MappedLineIsShown(m, span, lines, true, i);
    }
    if forall l :: span.afterStart <= l <= span.afterEnd ==>
        m.candidateToOriginal.forward[l] in m.toAccepted.forward {
      MappedLineIsShown(m, span, lines, false, i);
    }
  }
}

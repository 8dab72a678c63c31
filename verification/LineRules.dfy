/** Which recorded changes the result page explains at which row of a diff. */
module LineRules {
  import opened Options
  import opened DiffRows

  datatype Side = OldSide | NewSide

  datatype LineRange = LineRange(beforeStart: int, beforeEnd: int, afterStart: int, afterEnd: int)

  /** One entry of the change report; `uid` stands for its identity as an object. */
  datatype Change = Change(
    uid: nat,
    ruleId: string,
    ruleTitle: string,
    status: string,
    noted: bool,
    attributionVersion: int,
    lineRanges: seq<LineRange>)

  datatype Annotation = Annotation(ruleId: string, ruleTitle: string, changes: seq<Change>)

  const NEEDS_HUMAN := "needs_human"
  const LINE_ATTRIBUTION_VERSION := 2
  const MAX_SAFE_INTEGER: int := 0x1F_FFFF_FFFF_FFFF

  predicate Recorded(c: Change) { c.status == NEEDS_HUMAN || c.noted }

  predicate Safe(n: int) { -MAX_SAFE_INTEGER <= n <= MAX_SAFE_INTEGER }

  function ValidRange(range: LineRange, side: Side): Option<(int, int)> {
    var start := if side.OldSide? then range.beforeStart else range.afterStart;
    var end := if side.OldSide? then range.beforeEnd else range.afterEnd;
    if Safe(start) && Safe(end) && start > 0 && end >= start then Some((start, end)) else None
  }

  predicate Inside(range: LineRange, side: Side, line: int) {
    ValidRange(range, side).Some? && ValidRange(range, side).value.0 <= line <= ValidRange(range, side).value.1
  }

  /** A range covers the lines of its side that it names, as far as these are exact numbers. */
  lemma CoversItsLines(range: LineRange, line: int)
    ensures Inside(range, OldSide, line) <==>
      0 < range.beforeStart <= line <= range.beforeEnd <= 9_007_199_254_740_991
    ensures Inside(range, NewSide, line) <==>
      0 < range.afterStart <= line <= range.afterEnd <= 9_007_199_254_740_991
  {
  }

  predicate Explains(c: Change, side: Side, line: int) {
    && Recorded(c) && (c.ruleId != "" || c.status == NEEDS_HUMAN) && c.attributionVersion == LINE_ATTRIBUTION_VERSION
    && exists k :: 0 <= k < |c.lineRanges| && Inside(c.lineRanges[k], side, line)
  }

  /** The recorded changes a line is covered by. */
  function Matching(changes: seq<Change>, side: Side, line: Option<nat>): set<Change> {
    if line.None? || line.value == 0 || !Safe(line.value) then {}
    else set c | c in changes && Explains(c, side, line.value)
  }

  // ----- annotations grouped by rule -----

  function FlatSeq(annotations: seq<Annotation>): seq<Change> {
    if annotations == [] then [] else FlatSeq(annotations[..|annotations| - 1]) + annotations[|annotations| - 1].changes
  }

  function Flat(annotations: seq<Annotation>): multiset<Change> { multiset(FlatSeq(annotations)) }

  /** Every annotation holds changes of its own rule, under the title of the first, and no rule has two. */
  predicate Grouped(annotations: seq<Annotation>) {
    && (forall k, c :: 0 <= k < |annotations| && c in annotations[k].changes ==> c.ruleId == annotations[k].ruleId)
    && (forall k, l :: 0 <= k < l < |annotations| ==> annotations[k].ruleId != annotations[l].ruleId)
    && (forall k :: 0 <= k < |annotations| ==>
          annotations[k].changes != [] && annotations[k].ruleTitle == annotations[k].changes[0].ruleTitle)
  }

  function Group(annotations: seq<Annotation>, ruleId: string): (k: nat)
    ensures k <= |annotations| && (k < |annotations| ==> annotations[k].ruleId == ruleId)
    ensures forall l :: 0 <= l < k ==> annotations[l].ruleId != ruleId
  {
    if annotations == [] || annotations[0].ruleId == ruleId then 0 else 1 + Group(annotations[1..], ruleId)
  }

  function AddTo(annotations: seq<Annotation>, c: Change): seq<Annotation> {
    var k := Group(annotations, c.ruleId);
    if k < |annotations| then annotations[k := annotations[k].(changes := annotations[k].changes + [c])]
    else annotations + [Annotation(c.ruleId, c.ruleTitle, [c])]
  }

  lemma {:induction false} FlatUpdate(annotations: seq<Annotation>, k: nat, c: Change)
    requires k < |annotations|
    ensures Flat(annotations[k := annotations[k].(changes := annotations[k].changes + [c])])
        == Flat(annotations) + multiset{c}
  {
    var n := |annotations| - 1;
    var next := annotations[k := annotations[k].(changes := annotations[k].changes + [c])];
    if k == n {
      assert next[..n] == annotations[..n];
    } else {
      FlatUpdate(annotations[..n], k, c);
      assert next[..n] == annotations[..n][k := next[k]];
    }
  }

  lemma AddToGrouped(annotations: seq<Annotation>, c: Change)
    requires Grouped(annotations)
    ensures Grouped(AddTo(annotations, c))
  {
  }

  lemma AddToHolds(annotations: seq<Annotation>, c: Change)
    ensures Flat(AddTo(annotations, c)) == Flat(annotations) + multiset{c}
    ensures Grouped(annotations) ==> Grouped(AddTo(annotations, c))
  {
    hide Grouped;
    if Grouped(annotations) {
      AddToGrouped(annotations, c);
    }
    var k := Group(annotations, c.ruleId);
    if k < |annotations| {
      FlatUpdate(annotations, k, c);
    } else {
      var next := AddTo(annotations, c);
      assert next[..|annotations|] == annotations;
    }
  }

  lemma {:induction false} FlatHas(annotations: seq<Annotation>, c: Change)
    ensures c in Flat(annotations) <==> exists k :: 0 <= k < |annotations| && c in annotations[k].changes
  {
    if annotations != [] {
      var front := annotations[..|annotations| - 1];
      FlatHas(front, c);
      if k :| 0 <= k < |annotations| && c in annotations[k].changes {
        assert k < |front| ==> c in front[k].changes;
      }
      if k :| 0 <= k < |front| && c in front[k].changes {
        assert c in annotations[k].changes;
      }
    }
  }

  /** In grouped annotations a change can only be in the group of its rule. */
  lemma InItsGroup(annotations: seq<Annotation>, c: Change)
    requires Grouped(annotations)
    ensures var k := Group(annotations, c.ruleId);
      c in Flat(annotations) <==> k < |annotations| && c in annotations[k].changes
  {
    FlatHas(annotations, c);
    var k := Group(annotations, c.ruleId);
    forall l | 0 <= l < |annotations| && c in annotations[l].changes ensures l == k {
      assert c.ruleId == annotations[l].ruleId;
    }
  }

  lemma MatchingStep(changes: seq<Change>, side: Side, line: nat, i: nat)
    requires i < |changes| && line > 0 && Safe(line)
    ensures Matching(changes[..i + 1], side, Some(line)) ==
      Matching(changes[..i], side, Some(line)) + (if Explains(changes[i], side, line) then {changes[i]} else {})
  {
    assert changes[..i + 1] == changes[..i] + [changes[i]];
  }

  method RulesForLine(changes: seq<Change>, side: Side, line: Option<nat>) returns (matches: seq<Annotation>)
    ensures Grouped(matches) && Flat(matches) == multiset(Matching(changes, side, line))
  {
    hide Explains, AddTo;
    matches := [];
    if line.None? || line.value == 0 || !Safe(line.value) {
      return;
    }
    for i := 0 to |changes|
      invariant Grouped(matches) && Flat(matches) == multiset(Matching(changes[..i], side, line))
    {
      var change := changes[i];
      MatchingStep(changes, side, line.value, i);
      if Explains(change, side, line.value) {
        InItsGroup(matches, change);
        AddToHolds(matches, change);
        var k := Group(matches, change.ruleId);
        if k == |matches| || change !in matches[k].changes {
          matches := AddTo(matches, change);
        }
      }
    }
    assert changes[..|changes|] == changes;
  }

  // ----- one block of removed and added rows -----

  predicate Changed(row: DiffRow) { row.kind.RemovedRow? || row.kind.AddedRow? }

  function RowMatches(changes: seq<Change>, row: DiffRow): set<Change> {
    if row.kind.RemovedRow? then Matching(changes, OldSide, row.oldLine) else Matching(changes, NewSide, row.newLine)
  }

  /** A change whose lines may be shown, by one of its ranges, between two bounds that are exact numbers. */
  predicate Covers(c: Change, first: LineRange -> int, last: LineRange -> int, line: int) {
    && (c.status == "needs_human" || (c.noted && c.ruleId != "")) && c.attributionVersion == 2
    && exists k :: 0 <= k < |c.lineRanges|
         && 0 < first(c.lineRanges[k]) <= line <= last(c.lineRanges[k]) <= 9_007_199_254_740_991
  }

  const BEFORE_START: LineRange -> int := (r: LineRange) => r.beforeStart
  const BEFORE_END: LineRange -> int := (r: LineRange) => r.beforeEnd
  const AFTER_START: LineRange -> int := (r: LineRange) => r.afterStart
  const AFTER_END: LineRange -> int := (r: LineRange) => r.afterEnd

  /** Removed rows are explained by the original's lines, all others by the candidate's. */
  lemma RowsAreCoveredBySide(changes: seq<Change>, row: DiffRow, c: Change)
    ensures row.kind.RemovedRow? ==> (c in RowMatches(changes, row) <==>
      c in changes && row.oldLine.Some? && Covers(c, BEFORE_START, BEFORE_END, row.oldLine.value))
    ensures !row.kind.RemovedRow? ==> (c in RowMatches(changes, row) <==>
      c in changes && row.newLine.Some? && Covers(c, AFTER_START, AFTER_END, row.newLine.value))
  {
    var side := if row.kind.RemovedRow? then OldSide else NewSide;
    var number := if row.kind.RemovedRow? then row.oldLine else row.newLine;
    if number.Some? {
      SideIsCovered(c, side, number.value);
    }
  }

  lemma SideIsCovered(c: Change, side: Side, line: nat)
    ensures side.OldSide? ==>
      (Explains(c, side, line) && line > 0 && Safe(line) <==> Covers(c, BEFORE_START, BEFORE_END, line))
    ensures side.NewSide? ==>
      (Explains(c, side, line) && line > 0 && Safe(line) <==> Covers(c, AFTER_START, AFTER_END, line))
  {
    forall k | 0 <= k < |c.lineRanges| {
      CoversItsLines(c.lineRanges[k], line);
    }
    if side.OldSide? && Covers(c, BEFORE_START, BEFORE_END, line) {
      var k :| 0 <= k < |c.lineRanges|
        && 0 < BEFORE_START(c.lineRanges[k]) <= line <= BEFORE_END(c.lineRanges[k]) <= 9_007_199_254_740_991;
      assert Inside(c.lineRanges[k], side, line);
    }
    if side.NewSide? && Covers(c, AFTER_START, AFTER_END, line) {
      var k :| 0 <= k < |c.lineRanges|
        && 0 < AFTER_START(c.lineRanges[k]) <= line <= AFTER_END(c.lineRanges[k]) <= 9_007_199_254_740_991;
      assert Inside(c.lineRanges[k], side, line);
    }
  }

  /** The changes that some row of a block is covered by. */
  function BlockMatches(changes: seq<Change>, rows: seq<DiffRow>, block: seq<nat>): set<Change>
    requires forall k :: 0 <= k < |block| ==> block[k] < |rows|
  {
    if block == [] then {}
    else BlockMatches(changes, rows, block[..|block| - 1]) + RowMatches(changes, rows[block[|block| - 1]])
  }

  lemma {:induction false} RowIsInBlock(changes: seq<Change>, rows: seq<DiffRow>, block: seq<nat>, k: nat)
    requires (forall k :: 0 <= k < |block| ==> block[k] < |rows|) && k < |block|
    ensures RowMatches(changes, rows[block[k]]) <= BlockMatches(changes, rows, block)
  {
    if k < |block| - 1 {
      RowIsInBlock(changes, rows, block[..|block| - 1], k);
    }
  }

  /** Everything that is shown at the rows of a block, with how often. */
  function Placed(annotations: seq<seq<Annotation>>, block: seq<nat>): multiset<Change>
    requires forall k :: 0 <= k < |block| ==> block[k] < |annotations|
  {
    if block == []
    then multiset{}
    else Placed(annotations, block[..|block| - 1]) + Flat(annotations[block[|block| - 1]])
  }

  lemma {:induction false} PlacedElsewhere(annotations: seq<seq<Annotation>>, other: seq<seq<Annotation>>,
      block: seq<nat>)
    requires
      && |other| == |annotations|
      && forall k :: 0 <= k < |block| ==> block[k] < |annotations| && other[block[k]] == annotations[block[k]]
    ensures Placed(other, block) == Placed(annotations, block)
  {
    if block != [] {
      PlacedElsewhere(annotations, other, block[..|block| - 1]);
    }
  }

  lemma {:induction false} PlacedAdd(annotations: seq<seq<Annotation>>, block: seq<nat>, at: nat, c: Change)
    requires forall k :: 0 <= k < |block| ==> block[k] < |annotations|
    requires forall k, l :: 0 <= k < l < |block| ==> block[k] != block[l]
    requires at < |block|
    ensures Placed(annotations[block[at] := AddTo(annotations[block[at]], c)], block)
        == Placed(annotations, block) + multiset{c}
  {
    hide AddTo, Flat;
    var n := |block| - 1;
    var next := annotations[block[at] := AddTo(annotations[block[at]], c)];
    if at == n {
      PlacedElsewhere(annotations, next, block[..n]);
      AddToHolds(annotations[block[at]], c);
    } else {
      PlacedAdd(annotations, block[..n], at, c);
    }
  }

  predicate IsBlock(rows: seq<DiffRow>, block: seq<nat>) {
    && (forall k :: 0 <= k < |block| ==> block[k] < |rows| && Changed(rows[block[k]]))
    && (forall k, l :: 0 <= k < l < |block| ==> block[k] < block[l])
  }

  // ----- the row of a block that a change is shown at -----

  /** Row k of the block is an added one, or a removed one, that the change covers. */
  ghost predicate CoversAt(changes: seq<Change>, rows: seq<DiffRow>, block: seq<nat>, c: Change, added: bool, k: nat) {
    && k < |block| && block[k] < |rows| && rows[block[k]].kind.AddedRow? == added
    && c in RowMatches(changes, rows[block[k]])
  }

  /** The first such row from `from` on, or the length of the block. */
  ghost function First(changes: seq<Change>, rows: seq<DiffRow>, block: seq<nat>, c: Change, added: bool,
      from: nat): (k: nat)
    requires from <= |block|
    ensures from <= k <= |block| && (k < |block| ==> CoversAt(changes, rows, block, c, added, k))
    ensures forall j :: from <= j < k ==> !CoversAt(changes, rows, block, c, added, j)
    decreases |block| - from
  {
    if from == |block| || CoversAt(changes, rows, block, c, added, from) then from
    else First(changes, rows, block, c, added, from + 1)
  }

  ghost function FirstAdded(changes: seq<Change>, rows: seq<DiffRow>, block: seq<nat>, c: Change): nat {
    First(changes, rows, block, c, true, 0)
  }

  ghost function FirstRemoved(changes: seq<Change>, rows: seq<DiffRow>, block: seq<nat>, c: Change): nat {
    First(changes, rows, block, c, false, 0)
  }

  /**
   * The changes that first appear at added row `at` are all explained at row k: before the first line any of them
   * removes.
   */
  ghost predicate IsAnchor(changes: seq<Change>, rows: seq<DiffRow>, block: seq<nat>, at: nat, k: nat) {
    && k <= at
    && (forall c :: FirstAdded(changes, rows, block, c) == at ==> k <= FirstRemoved(changes, rows, block, c))
    && (k == at || exists c :: FirstAdded(changes, rows, block, c) == at && FirstRemoved(changes, rows, block, c) == k)
  }

  /** Where a change belongs: at the anchor of its first added row, or else where it is first removed. */
  ghost predicate Belongs(changes: seq<Change>, rows: seq<DiffRow>, block: seq<nat>, c: Change, k: nat) {
    var at := FirstAdded(changes, rows, block, c);
    k < |block| &&
    if at < |block| then IsAnchor(changes, rows, block, at, k) else k == FirstRemoved(changes, rows, block, c)
  }

  ghost predicate ShownAt(annotations: seq<seq<Annotation>>, block: seq<nat>, c: Change, k: nat) {
    k < |block| && block[k] < |annotations| && c in Flat(annotations[block[k]])
  }

  ghost predicate InPlace(changes: seq<Change>, rows: seq<DiffRow>, annotations: seq<seq<Annotation>>,
      block: seq<nat>, c: Change) {
    exists k: nat :: ShownAt(annotations, block, c, k) && Belongs(changes, rows, block, c, k)
  }

  /** What is shown once the added rows up to i, or all of them and the removed rows up to i, were gone through. */
  ghost predicate Reached(changes: seq<Change>, rows: seq<DiffRow>, block: seq<nat>, c: Change, added: bool, i: nat) {
    if added then FirstAdded(changes, rows, block, c) < i
    else FirstAdded(changes, rows, block, c) < |block| || FirstRemoved(changes, rows, block, c) < i
  }

  lemma {:induction false} MatchedSomewhere(changes: seq<Change>, rows: seq<DiffRow>, block: seq<nat>, c: Change)
    requires IsBlock(rows, block) && c in BlockMatches(changes, rows, block)
    ensures exists k: nat :: CoversAt(changes, rows, block, c, true, k) || CoversAt(changes, rows, block, c, false, k)
  {
    var n := |block| - 1;
    if c in RowMatches(changes, rows[block[n]]) {
      assert CoversAt(changes, rows, block, c, rows[block[n]].kind.AddedRow?, n);
    } else {
      MatchedSomewhere(changes, rows, block[..n], c);
      var k: nat :| CoversAt(changes, rows, block[..n], c, true, k) || CoversAt(changes, rows, block[..n], c, false, k);
      assert CoversAt(changes, rows, block, c, true, k) || CoversAt(changes, rows, block, c, false, k);
    }
  }

  lemma MatchedIsReached(changes: seq<Change>, rows: seq<DiffRow>, block: seq<nat>, c: Change)
    requires IsBlock(rows, block) && c in BlockMatches(changes, rows, block)
    ensures Reached(changes, rows, block, c, false, |block|)
  {
    MatchedSomewhere(changes, rows, block, c);
  }

  /** The position of the block where a change is first removed. */
  predicate FirstPlaces(block: seq<nat>, before: map<Change, nat>) {
    forall c :: c in before ==> before[c] < |block|
  }

  lemma AddedIsThere(annotations: seq<Annotation>, c: Change)
    ensures forall d :: d in Flat(AddTo(annotations, c)) <==> d in Flat(annotations) || d == c
  {
    AddToHolds(annotations, c);
  }

  /** Shows a list of changes at one row of the block. */
  method Show(block: seq<nat>, at: nat, list: seq<Change>, ghost shown: set<Change>, annotations: seq<seq<Annotation>>)
    returns (next: seq<seq<Annotation>>)
    requires (forall k :: 0 <= k < |block| ==> block[k] < |annotations|) && at < |block|
    requires forall k, l :: 0 <= k < l < |block| ==> block[k] != block[l]
    requires Placed(annotations, block) == multiset(shown)
    requires
      (forall i, j :: 0 <= i < j < |list| ==> list[i] != list[j]) && forall i :: 0 <= i < |list| ==> list[i] !in shown
    ensures |next| == |annotations| && forall r :: 0 <= r < |next| && r != block[at] ==> next[r] == annotations[r]
    ensures Placed(next, block) == multiset(shown + ElementsOf(list))
    ensures forall c :: c in Flat(annotations[block[at]]) || c in ElementsOf(list) ==> c in Flat(next[block[at]])
  {
    hide AddTo, Placed, Flat, ElementsOf;
    next := annotations;
    NoElements(list, shown);
    for i := 0 to |list|
      invariant |next| == |annotations| && forall r :: 0 <= r < |next| && r != block[at] ==> next[r] == annotations[r]
      invariant
        forall c :: c in Flat(annotations[block[at]]) || c in ElementsOf(list[..i]) ==> c in Flat(next[block[at]])
      invariant Placed(next, block) == multiset(shown + ElementsOf(list[..i]))
    {
      OneShown(block, at, list, i, shown, next);
      next := next[block[at] := AddTo(next[block[at]], list[i])];
    }
    assert list[..|list|] == list;
  }

  lemma NoElements(list: seq<Change>, shown: set<Change>)
    ensures ElementsOf(list[..0]) == {} && shown + ElementsOf(list[..0]) == shown
  {
  }

  lemma OneShown(block: seq<nat>, at: nat, list: seq<Change>, i: nat, shown: set<Change>,
      annotations: seq<seq<Annotation>>)
    requires (forall k :: 0 <= k < |block| ==> block[k] < |annotations|) && at < |block| && i < |list|
    requires forall k, l :: 0 <= k < l < |block| ==> block[k] != block[l]
    requires (forall i, j :: 0 <= i < j < |list| ==> list[i] != list[j]) && list[i] !in shown
    requires Placed(annotations, block) == multiset(shown + ElementsOf(list[..i]))
    ensures ElementsOf(list[..i + 1]) == ElementsOf(list[..i]) + {list[i]}
    ensures var next := annotations[block[at] := AddTo(annotations[block[at]], list[i])];
      && Placed(next, block) == multiset(shown + ElementsOf(list[..i + 1]))
      && forall c :: c in Flat(next[block[at]]) <==> c in Flat(annotations[block[at]]) || c == list[i]
  {
    hide AddTo, Placed, Flat;
    PlacedAdd(annotations, block, at, list[i]);
    AddedIsThere(annotations[block[at]], list[i]);
    ElementsGrow(list, i);
    var before := shown + ElementsOf(list[..i]);
    assert list[i] !in before;
    assert shown + ElementsOf(list[..i + 1]) == before + {list[i]};
  }

  function ElementsOf(list: seq<Change>): set<Change> { set i | 0 <= i < |list| :: list[i] }

  lemma ElementsGrow(list: seq<Change>, i: nat)
    requires i < |list|
    ensures ElementsOf(list[..i + 1]) == ElementsOf(list[..i]) + {list[i]}
    ensures list[i] in ElementsOf(list[..i]) ==> exists k :: 0 <= k < i && list[k] == list[i]
  {
    assert list[..i + 1] == list[..i] + [list[i]];
    var front := list[..i];
    if list[i] in ElementsOf(front) {
      var k :| 0 <= k < |front| && front[k] == list[i];
      assert list[k] == list[i];
    }
  }

  /** The changes of a row that are not shown yet. */
  method Unshown(matches: seq<Annotation>, shown: set<Change>, ghost all: set<Change>) returns (list: seq<Change>)
    requires Flat(matches) == multiset(all)
    ensures (forall i, j :: 0 <= i < j < |list| ==> list[i] != list[j]) && ElementsOf(list) == all - shown
  {
    var flat := FlatSeq(matches);
    list := [];
    for i := 0 to |flat|
      invariant forall k, l :: 0 <= k < l < |list| ==> list[k] != list[l]
      invariant ElementsOf(list) == ElementsOf(flat[..i]) - shown
    {
      ElementsGrow(flat, i);
      OnceEach(flat, all, i);
      if flat[i] !in shown {
        assert (list + [flat[i]])[..|list|] == list && (list + [flat[i]])[..|list| + 1] == list + [flat[i]];
        ElementsGrow(list + [flat[i]], |list|);
        forall k | 0 <= k < |list| ensures list[k] != flat[i] {
          assert list[k] in ElementsOf(list);
        }
        list := list + [flat[i]];
      }
    }
    assert flat[..|flat|] == flat;
    assert forall c :: c in ElementsOf(flat) <==> c in multiset(flat);
  }

  lemma TwiceCounts(flat: seq<Change>, k: nat, i: nat)
    requires k < i < |flat| && flat[k] == flat[i]
    ensures multiset(flat)[flat[i]] >= 2
  {
    assert flat == flat[..k] + [flat[k]] + flat[k + 1..i] + [flat[i]] + flat[i + 1..];
  }

  lemma OnceEach(flat: seq<Change>, all: set<Change>, i: nat)
    requires multiset(flat) == multiset(all) && i < |flat|
    ensures flat[i] !in ElementsOf(flat[..i])
  {
    if flat[i] in ElementsOf(flat[..i]) {
      ElementsGrow(flat, i);
      var k :| 0 <= k < i && flat[k] == flat[i];
      TwiceCounts(flat, k, i);
      assert false;
    }
  }

  /** The changes covered by a row, from the side the row stands for. */
  method MatchesAt(changes: seq<Change>, row: DiffRow) returns (matches: seq<Annotation>)
    ensures Flat(matches) == multiset(RowMatches(changes, row))
  {
    if row.kind.RemovedRow? {
      matches := RulesForLine(changes, OldSide, row.oldLine);
    } else {
      matches := RulesForLine(changes, NewSide, row.newLine);
    }
  }

  /** Each change that some removed row of the block is covered by, and the first such row. */
  ghost predicate AreRemovals(changes: seq<Change>, rows: seq<DiffRow>, block: seq<nat>, before: map<Change, nat>,
      i: nat) {
    && (forall c :: c in before <==> FirstRemoved(changes, rows, block, c) < i)
    && (forall c :: c in before ==> before[c] == FirstRemoved(changes, rows, block, c))
  }

  /** Where in the block each change is first removed. */
  method FirstRemovals(changes: seq<Change>, rows: seq<DiffRow>, block: seq<nat>) returns (before: map<Change, nat>)
    requires IsBlock(rows, block)
    ensures FirstPlaces(block, before) && AreRemovals(changes, rows, block, before, |block|)
  {
    hide RowMatches, Flat;
    before := map[];
    for i := 0 to |block|
      invariant AreRemovals(changes, rows, block, before, i)
    {
      if rows[block[i]].kind.RemovedRow? {
        var matches := MatchesAt(changes, rows[block[i]]);
        before := AddRemovals(changes, rows, block, before, i, matches);
      } else {
        assert Changed(rows[block[i]]);
        forall c ensures FirstRemoved(changes, rows, block, c) < i + 1 <==> FirstRemoved(changes, rows, block, c) < i {
          assert !CoversAt(changes, rows, block, c, false, i);
        }
      }
    }
  }

  method AddRemovals(changes: seq<Change>, rows: seq<DiffRow>, block: seq<nat>, before: map<Change, nat>, i: nat,
      matches: seq<Annotation>) returns (next: map<Change, nat>)
    requires IsBlock(rows, block) && i < |block| && rows[block[i]].kind.RemovedRow?
    requires
      Flat(matches) == multiset(RowMatches(changes, rows[block[i]])) && AreRemovals(changes, rows, block, before, i)
    ensures AreRemovals(changes, rows, block, next, i + 1)
  {
    hide RowMatches, First;
    next := before;
    var flat := FlatSeq(matches);
    for j := 0 to |flat|
      invariant forall c :: c in next <==> c in before || c in ElementsOf(flat[..j])
      invariant forall c :: c in next ==> next[c] == if c in before then before[c] else i
    {
      ElementsGrow(flat, j);
      if flat[j] !in next {
        next := next[flat[j] := i];
      }
    }
    assert flat[..|flat|] == flat && !rows[block[i]].kind.AddedRow?;
    assert multiset(flat) == multiset(RowMatches(changes, rows[block[i]]));
    forall c ensures c in next <==> FirstRemoved(changes, rows, block, c) < i + 1
      ensures c in next ==> next[c] == FirstRemoved(changes, rows, block, c)
    {
      assert c in ElementsOf(flat) <==> c in multiset(flat);
      assert c in multiset(flat) <==> c in RowMatches(changes, rows[block[i]]);
      assert CoversAt(changes, rows, block, c, false, i) <==> c in RowMatches(changes, rows[block[i]]);
    }
  }

  /** The first place of a list of changes, or the row itself; a replacement is explained before its removed rows. */
  method AnchorOf(block: seq<nat>, before: map<Change, nat>, list: seq<Change>, at: nat) returns (anchor: nat)
    requires FirstPlaces(block, before) && at < |block|
    ensures anchor <= at && anchor < |block|
    ensures forall i :: 0 <= i < |list| && list[i] in before ==> anchor <= before[list[i]]
    ensures anchor == at || exists i :: 0 <= i < |list| && list[i] in before && before[list[i]] == anchor
  {
    anchor := at;
    for i := 0 to |list|
      invariant anchor <= at && anchor < |block|
      invariant forall k :: 0 <= k < i && list[k] in before ==> anchor <= before[list[k]]
      invariant anchor == at || exists k :: 0 <= k < i && list[k] in before && before[list[k]] == anchor
    {
      if list[i] in before && before[list[i]] < anchor {
        anchor := before[list[i]];
      }
    }
  }

  ghost predicate PassState(changes: seq<Change>, rows: seq<DiffRow>, block: seq<nat>, start: seq<seq<Annotation>>,
      annotations: seq<seq<Annotation>>, shown: set<Change>)
    requires IsBlock(rows, block) && |start| == |rows|
  {
    && |annotations| == |start| && (forall r :: 0 <= r < |start| && r !in block ==> annotations[r] == start[r])
    && Placed(annotations, block) == multiset(shown)
    && shown <= BlockMatches(changes, rows, block)
    && forall c :: c in shown ==> InPlace(changes, rows, annotations, block, c)
  }

  ghost predicate ShownUpTo(changes: seq<Change>, rows: seq<DiffRow>, block: seq<nat>, shown: set<Change>,
      added: bool, i: nat) {
    forall c :: c in shown <==> Reached(changes, rows, block, c, added, i)
  }

  /** The changes of a row that are not shown yet are those that first appear at it. */
  lemma NewAtRow(changes: seq<Change>, rows: seq<DiffRow>, block: seq<nat>, shown: set<Change>, added: bool, i: nat)
    requires IsBlock(rows, block) && i < |block| && rows[block[i]].kind.AddedRow? == added
    requires ShownUpTo(changes, rows, block, shown, added, i)
    ensures ShownUpTo(changes, rows, block, shown + RowMatches(changes, rows[block[i]]), added, i + 1)
    ensures added ==>
        forall c :: c in RowMatches(changes, rows[block[i]]) - shown <==> FirstAdded(changes, rows, block, c) == i
    ensures
      !added ==> forall c :: c in RowMatches(changes, rows[block[i]]) - shown ==> Belongs(changes, rows, block, c, i)
  {
    hide RowMatches, First;
    forall c ensures CoversAt(changes, rows, block, c, added, i) <==> c in RowMatches(changes, rows[block[i]]) { }
    forall c
      ensures c in shown + RowMatches(changes, rows[block[i]]) <==> Reached(changes, rows, block, c, added, i + 1)
    {
      assert c in shown <==> Reached(changes, rows, block, c, added, i);
    }
  }

  lemma OtherRow(changes: seq<Change>, rows: seq<DiffRow>, block: seq<nat>, shown: set<Change>, added: bool, i: nat)
    requires IsBlock(rows, block) && i < |block| && rows[block[i]].kind.AddedRow? != added
    requires ShownUpTo(changes, rows, block, shown, added, i)
    ensures ShownUpTo(changes, rows, block, shown, added, i + 1)
  {
    hide RowMatches, First;
    forall c ensures c in shown <==> Reached(changes, rows, block, c, added, i + 1) {
      assert !CoversAt(changes, rows, block, c, added, i);
    }
  }

  /** The anchor computed for an added row is the one its new changes belong at. */
  lemma AnchorIsRight(changes: seq<Change>, rows: seq<DiffRow>, block: seq<nat>, before: map<Change, nat>,
      list: seq<Change>,
      at: nat, anchor: nat)
    requires at < |block| && AreRemovals(changes, rows, block, before, |block|)
    requires forall c :: c in ElementsOf(list) <==> FirstAdded(changes, rows, block, c) == at
    requires anchor <= at && forall i :: 0 <= i < |list| && list[i] in before ==> anchor <= before[list[i]]
    requires anchor == at || exists i :: 0 <= i < |list| && list[i] in before && before[list[i]] == anchor
    ensures forall c :: c in ElementsOf(list) ==> Belongs(changes, rows, block, c, anchor)
  {
    hide RowMatches, First;
    forall c | FirstAdded(changes, rows, block, c) == at ensures anchor <= FirstRemoved(changes, rows, block, c) {
      assert c in ElementsOf(list);
      var i :| 0 <= i < |list| && list[i] == c;
    }
    if anchor != at {
      var i :| 0 <= i < |list| && list[i] in before && before[list[i]] == anchor;
      assert list[i] in ElementsOf(list);
      assert FirstAdded(changes, rows, block, list[i]) == at && FirstRemoved(changes, rows, block, list[i]) == anchor;
    }
    assert IsAnchor(changes, rows, block, at, anchor);
  }

  lemma StillInPlace(changes: seq<Change>, rows: seq<DiffRow>, block: seq<nat>, annotations: seq<seq<Annotation>>,
      next: seq<seq<Annotation>>, at: nat, list: set<Change>, shown: set<Change>)
    requires at < |block| && block[at] < |annotations| == |next|
    requires forall r :: 0 <= r < |next| && r != block[at] ==> next[r] == annotations[r]
    requires forall c :: c in Flat(annotations[block[at]]) || c in list ==> c in Flat(next[block[at]])
    requires forall c :: c in shown ==> InPlace(changes, rows, annotations, block, c)
    requires forall c :: c in list ==> Belongs(changes, rows, block, c, at)
    ensures forall c :: c in shown + list ==> InPlace(changes, rows, next, block, c)
  {
    hide Belongs, Flat;
    forall c | c in shown + list ensures InPlace(changes, rows, next, block, c) {
      if c in list {
        assert ShownAt(next, block, c, at);
      } else {
        var k: nat :| ShownAt(annotations, block, c, k) && Belongs(changes, rows, block, c, k);
        assert ShownAt(next, block, c, k);
      }
    }
  }

  /** One half of a block: the added rows, each with its anchor, or the removed rows where they stand. */
  method HalfPass(changes: seq<Change>, rows: seq<DiffRow>, block: seq<nat>, before: map<Change, nat>, added: bool,
                  ghost start: seq<seq<Annotation>>, annotations: seq<seq<Annotation>>, shown: set<Change>)
    returns (next: seq<seq<Annotation>>, more: set<Change>)
    requires IsBlock(rows, block) && |start| == |rows| && FirstPlaces(block, before)
    requires AreRemovals(changes, rows, block, before, |block|)
    requires
      PassState(changes, rows, block, start, annotations, shown) && ShownUpTo(changes, rows, block, shown, added, 0)
    ensures PassState(changes, rows, block, start, next, more) && ShownUpTo(changes, rows, block, more, added, |block|)
  {
    hide RowMatches, BlockMatches, Placed, Changed, PassState, ShownUpTo, AreRemovals;
    next, more := annotations, shown;
    for i := 0 to |block|
      invariant PassState(changes, rows, block, start, next, more) && ShownUpTo(changes, rows, block, more, added, i)
    {
      if rows[block[i]].kind.AddedRow? == added {
        next, more := RowPass(changes, rows, block, before, added, i, start, next, more);
      } else {
        OtherRow(changes, rows, block, more, added, i);
      }
    }
  }

  method RowPass(changes: seq<Change>, rows: seq<DiffRow>, block: seq<nat>, before: map<Change, nat>, added: bool,
      i: nat,
                 ghost start: seq<seq<Annotation>>, annotations: seq<seq<Annotation>>, shown: set<Change>)
    returns (next: seq<seq<Annotation>>, more: set<Change>)
    requires IsBlock(rows, block) && |start| == |rows| && FirstPlaces(block, before)
    requires AreRemovals(changes, rows, block, before, |block|) && i < |block| && rows[block[i]].kind.AddedRow? == added
    requires
      PassState(changes, rows, block, start, annotations, shown) && ShownUpTo(changes, rows, block, shown, added, i)
    ensures PassState(changes, rows, block, start, next, more) && ShownUpTo(changes, rows, block, more, added, i + 1)
  {
    hide RowMatches, BlockMatches, Placed, Changed, ShownUpTo, InPlace, Belongs, First, Flat, AreRemovals, FirstAdded;
    var matches := MatchesAt(changes, rows[block[i]]);
    var list := Unshown(matches, shown, RowMatches(changes, rows[block[i]]));
    NewAtRow(changes, rows, block, shown, added, i);
    RowIsInBlock(changes, rows, block, i);
    var anchor := i;
    if added {
      anchor := AnchorOf(block, before, list, i);
      AnchorIsRight(changes, rows, block, before, list, i, anchor);
    }
    NoneShown(list, RowMatches(changes, rows[block[i]]), shown);
    next := Show(block, anchor, list, shown, annotations);
    StillInPlace(changes, rows, block, annotations, next, anchor, ElementsOf(list), shown);
    more := shown + ElementsOf(list);
    assert more == shown + RowMatches(changes, rows[block[i]]);
  }

  lemma NoneShown(list: seq<Change>, all: set<Change>, shown: set<Change>)
    requires ElementsOf(list) == all - shown
    ensures forall i :: 0 <= i < |list| ==> list[i] !in shown
  {
    forall i | 0 <= i < |list| ensures list[i] !in shown {
      assert list[i] in ElementsOf(list);
    }
  }

  /**
   * Every change that some row of the block is covered by is shown once, at the one row of the block where it belongs.
   */
  method FlushBlock(changes: seq<Change>, rows: seq<DiffRow>, block: seq<nat>,
      annotations: seq<seq<Annotation>>) returns (next: seq<seq<Annotation>>)
    requires
      IsBlock(rows, block) && |annotations| == |rows| && forall k :: 0 <= k < |block| ==> annotations[block[k]] == []
    ensures |next| == |annotations| && forall r :: 0 <= r < |rows| && r !in block ==> next[r] == annotations[r]
    ensures Placed(next, block) == multiset(BlockMatches(changes, rows, block))
    ensures forall c :: c in BlockMatches(changes, rows, block) ==> InPlace(changes, rows, next, block, c)
  {
    hide BlockMatches, Placed, Changed, InPlace, RowMatches;
    var before := FirstRemovals(changes, rows, block);
    NothingPlaced(annotations, block);
    var shown: set<Change>;
    next, shown := HalfPass(changes, rows, block, before, true, annotations, annotations, {});
    HalfIsStart(changes, rows, block, shown);
    next, shown := HalfPass(changes, rows, block, before, false, annotations, next, shown);
    forall c | c in BlockMatches(changes, rows, block) ensures c in shown {
      MatchedIsReached(changes, rows, block, c);
    }
  }

  lemma HalfIsStart(changes: seq<Change>, rows: seq<DiffRow>, block: seq<nat>, shown: set<Change>)
    requires ShownUpTo(changes, rows, block, shown, true, |block|)
    ensures ShownUpTo(changes, rows, block, shown, false, 0)
  {
    hide First;
  }

  lemma {:induction false} NothingPlaced(annotations: seq<seq<Annotation>>, block: seq<nat>)
    requires forall k :: 0 <= k < |block| ==> block[k] < |annotations| && annotations[block[k]] == []
    ensures Placed(annotations, block) == multiset{}
  {
    if block != [] {
      NothingPlaced(annotations, block[..|block| - 1]);
    }
  }

  // ----- the whole diff -----

  /** Rows between which a block goes on. */
  predicate Continues(row: DiffRow) { Changed(row) || (row.kind.MetaRow? && IsMarker(row.text)) }

  /** The changed rows after the last row that ended a block. */
  function OpenBlock(rows: seq<DiffRow>): seq<nat> {
    if rows == [] then []
    else
      var n := |rows| - 1;
      if Changed(rows[n]) then OpenBlock(rows[..n]) + [n]
      else if Continues(rows[n]) then OpenBlock(rows[..n])
      else []
  }

  /** The blocks that are complete. */
  function ClosedBlocks(rows: seq<DiffRow>): seq<seq<nat>> {
    if rows == [] then []
    else
      var n := |rows| - 1;
      if Continues(rows[n]) then ClosedBlocks(rows[..n]) else ClosedBlocks(rows[..n]) + [OpenBlock(rows[..n])]
  }

  function Blocks(rows: seq<DiffRow>): seq<seq<nat>> { ClosedBlocks(rows) + [OpenBlock(rows)] }

  /** The row where the open block may begin. */
  function Opening(rows: seq<DiffRow>): (start: nat)
    ensures start <= |rows|
  {
    if rows == [] then 0 else if Continues(rows[|rows| - 1]) then Opening(rows[..|rows| - 1]) else |rows|
  }

  predicate BlockIn(rows: seq<DiffRow>, block: seq<nat>, from: nat, to: nat) {
    IsBlock(rows, block) && forall k :: 0 <= k < |block| ==> from <= block[k] < to
  }

  lemma {:induction false} BlocksAreApart(rows: seq<DiffRow>)
    ensures BlockIn(rows, OpenBlock(rows), Opening(rows), |rows|)
    ensures forall b :: 0 <= b < |ClosedBlocks(rows)| ==> BlockIn(rows, ClosedBlocks(rows)[b], 0, Opening(rows))
  {
    if rows != [] {
      var front := rows[..|rows| - 1];
      BlocksAreApart(front);
      assert forall b :: 0 <= b < |ClosedBlocks(front)| ==> BlockIn(rows, ClosedBlocks(front)[b], 0, Opening(front));
      assert BlockIn(rows, OpenBlock(front), Opening(front), |front|);
    }
  }

  /** Every changed row belongs to some block. */
  lemma {:induction false} ChangedRowsAreInBlocks(rows: seq<DiffRow>, i: nat)
    requires i < |rows| && Changed(rows[i])
    ensures exists b :: 0 <= b < |Blocks(rows)| && i in Blocks(rows)[b]
  {
    var n := |rows| - 1;
    var front := rows[..n];
    if i == n {
      assert OpenBlock(rows)[|OpenBlock(front)|] == n;
      assert Blocks(rows)[|ClosedBlocks(rows)|] == OpenBlock(rows);
    } else {
      ChangedRowsAreInBlocks(front, i);
      var b :| 0 <= b < |Blocks(front)| && i in Blocks(front)[b];
      if b < |ClosedBlocks(front)| {
        assert Blocks(rows)[b] == ClosedBlocks(front)[b];
      } else if Changed(rows[n]) {
        assert Blocks(rows)[|ClosedBlocks(rows)|] == OpenBlock(front) + [n];
      } else {
        assert Blocks(rows)[b] == OpenBlock(front);
      }
    }
  }

  ghost predicate ShownOnce(changes: seq<Change>, rows: seq<DiffRow>, annotations: seq<seq<Annotation>>,
      block: seq<nat>) {
    && |annotations| == |rows| && IsBlock(rows, block)
    && Placed(annotations, block) == multiset(BlockMatches(changes, rows, block))
    && forall c :: c in BlockMatches(changes, rows, block) ==> InPlace(changes, rows, annotations, block, c)
  }

  lemma StillShown(changes: seq<Change>, rows: seq<DiffRow>, annotations: seq<seq<Annotation>>,
      next: seq<seq<Annotation>>, block: seq<nat>, limit: nat)
    requires ShownOnce(changes, rows, annotations, block) && BlockIn(rows, block, 0, limit) && limit <= |rows|
    requires |next| == |annotations| && forall r :: 0 <= r < limit ==> next[r] == annotations[r]
    ensures ShownOnce(changes, rows, next, block)
  {
    hide BlockMatches, Belongs, Flat;
    PlacedElsewhere(annotations, next, block);
    forall c | c in BlockMatches(changes, rows, block) ensures InPlace(changes, rows, next, block, c) {
      var k: nat :| ShownAt(annotations, block, c, k) && Belongs(changes, rows, block, c, k);
      assert ShownAt(next, block, c, k);
    }
  }

  lemma BlockOfPrefix(rows: seq<DiffRow>, block: seq<nat>, from: nat, to: nat, i: nat)
    requires i <= |rows| && BlockIn(rows[..i], block, from, to)
    ensures BlockIn(rows, block, from, to)
  {
    assert forall k :: 0 <= k < |block| ==> rows[..i][block[k]] == rows[block[k]];
  }

  ghost predicate Finished(changes: seq<Change>, rows: seq<DiffRow>, annotations: seq<seq<Annotation>>,
      blocks: seq<seq<nat>>) {
    forall b :: 0 <= b < |blocks| ==> ShownOnce(changes, rows, annotations, blocks[b])
  }

  /** Flushing the open block leaves the complete ones as they are. */
  method CloseBlock(changes: seq<Change>, rows: seq<DiffRow>, i: nat, block: seq<nat>,
      annotations: seq<seq<Annotation>>) returns (next: seq<seq<Annotation>>)
    requires i <= |rows| && block == OpenBlock(rows[..i]) && |annotations| == |rows|
    requires Finished(changes, rows, annotations, ClosedBlocks(rows[..i]))
    requires forall r :: Opening(rows[..i]) <= r < |rows| ==> annotations[r] == []
    ensures |next| == |rows| && Finished(changes, rows, next, ClosedBlocks(rows[..i]) + [block])
    ensures forall r :: i <= r < |rows| ==> next[r] == []
  {
    BlocksAreApart(rows[..i]);
    BlockOfPrefix(rows, block, Opening(rows[..i]), i, i);
    next := FlushBlock(changes, rows, block, annotations);
    var closed := ClosedBlocks(rows[..i]);
    forall b | 0 <= b < |closed| ensures ShownOnce(changes, rows, next, closed[b]) {
      BlockOfPrefix(rows, closed[b], 0, Opening(rows[..i]), i);
      StillShown(changes, rows, annotations, next, closed[b], Opening(rows[..i]));
    }
  }

  /** In each block of the diff every change that covers one of its rows is shown once, at the row where it belongs. */
  method BlockAnnotations(changes: seq<Change>, rows: seq<DiffRow>) returns (annotations: seq<seq<Annotation>>)
    ensures |annotations| == |rows|
    ensures forall b :: 0 <= b < |Blocks(rows)| ==> ShownOnce(changes, rows, annotations, Blocks(rows)[b])
  {
    annotations := seq(|rows|, _ => []);
    var block: seq<nat> := [];
    for i := 0 to |rows|
      invariant block == OpenBlock(rows[..i]) && |annotations| == |rows|
      invariant Finished(changes, rows, annotations, ClosedBlocks(rows[..i]))
      invariant forall r :: Opening(rows[..i]) <= r < |rows| ==> annotations[r] == []
    {
      assert rows[..i + 1][..i] == rows[..i];
      if Changed(rows[i]) {
        block := block + [i];
      } else if !rows[i].kind.MetaRow? || !IsMarker(rows[i].text) {
        annotations := CloseBlock(changes, rows, i, block, annotations);
        block := [];
      }
    }
    assert rows[..|rows|] == rows;
    annotations := CloseBlock(changes, rows, |rows|, block, annotations);
  }

  function CountAt(annotations: seq<seq<Annotation>>, block: seq<nat>, l: nat, c: Change): nat
    requires l < |block| && block[l] < |annotations|
  {
    Flat(annotations[block[l]])[c]
  }

  lemma LastCount(annotations: seq<seq<Annotation>>, block: seq<nat>, c: Change)
    requires (forall k :: 0 <= k < |block| ==> block[k] < |annotations|) && block != []
    ensures Placed(annotations, block)[c]
        == Placed(annotations, block[..|block| - 1])[c] + CountAt(annotations, block, |block| - 1, c)
  {
  }

  lemma FrontCounts(annotations: seq<seq<Annotation>>, block: seq<nat>, n: nat, c: Change)
    requires (forall k :: 0 <= k < |block| ==> block[k] < |annotations|) && n <= |block|
    ensures forall l :: 0 <= l < n ==> CountAt(annotations, block[..n], l, c) == CountAt(annotations, block, l, c)
  {
    hide Flat;
  }

  /** Shown once in a block: at one row of it, and there once. */
  lemma {:induction false} OneRowOfBlock(annotations: seq<seq<Annotation>>, block: seq<nat>, c: Change) returns (k: nat)
    requires forall k :: 0 <= k < |block| ==> block[k] < |annotations|
    requires Placed(annotations, block)[c] == 1
    ensures k < |block| && CountAt(annotations, block, k, c) == 1
    ensures forall l :: 0 <= l < |block| && l != k ==> CountAt(annotations, block, l, c) == 0
  {
    hide CountAt, Flat;
    var n := |block| - 1;
    LastCount(annotations, block, c);
    if CountAt(annotations, block, n, c) == 1 {
      k := n;
      NotElsewhere(annotations, block[..n], c);
      FrontCounts(annotations, block, n, c);
    } else {
      k := OneRowOfBlock(annotations, block[..n], c);
      FrontCounts(annotations, block, n, c);
    }
  }

  lemma {:induction false} NotElsewhere(annotations: seq<seq<Annotation>>, block: seq<nat>, c: Change)
    requires (forall k :: 0 <= k < |block| ==> block[k] < |annotations|) && Placed(annotations, block)[c] == 0
    ensures forall l :: 0 <= l < |block| ==> CountAt(annotations, block, l, c) == 0
  {
    hide CountAt, Flat;
    if block != [] {
      var n := |block| - 1;
      LastCount(annotations, block, c);
      NotElsewhere(annotations, block[..n], c);
      FrontCounts(annotations, block, n, c);
    }
  }

  // ----- which rows make a block -----

  /** All rows strictly between two are changed too, or only say that a newline is missing. */
  predicate OnlyChangesBetween(rows: seq<DiffRow>, i: nat, j: nat) {
    forall k :: i < k < j && k < |rows| ==>
      rows[k].kind.RemovedRow? || rows[k].kind.AddedRow? || (rows[k].kind.MetaRow? && IsMarker(rows[k].text))
  }

  ghost predicate Together(rows: seq<DiffRow>, i: nat, j: nat) {
    exists b :: 0 <= b < |Blocks(rows)| && i in Blocks(rows)[b] && j in Blocks(rows)[b]
  }

  lemma {:induction false} InOpenBlock(rows: seq<DiffRow>, i: nat)
    ensures i in OpenBlock(rows) <==> i < |rows| && Changed(rows[i]) && OnlyChangesBetween(rows, i, |rows|)
  {
    if rows != [] {
      var n := |rows| - 1;
      InOpenBlock(rows[..n], i);
    }
  }

  lemma {:induction false} ClosedByRow(rows: seq<DiffRow>, b: nat) returns (n: nat)
    requires b < |ClosedBlocks(rows)|
    ensures n < |rows| && ClosedBlocks(rows)[b] == OpenBlock(rows[..n])
  {
    var last := |rows| - 1;
    if b < |ClosedBlocks(rows[..last])| {
      n := ClosedByRow(rows[..last], b);
      assert rows[..last][..n] == rows[..n];
    } else {
      n := last;
    }
  }

  lemma {:induction false} RowCloses(rows: seq<DiffRow>, n: nat) returns (b: nat)
    requires n < |rows| && !Continues(rows[n])
    ensures b < |ClosedBlocks(rows)| && ClosedBlocks(rows)[b] == OpenBlock(rows[..n])
  {
    var last := |rows| - 1;
    if n < last {
      b := RowCloses(rows[..last], n);
      assert rows[..last][..n] == rows[..n];
    } else {
      b := |ClosedBlocks(rows[..last])|;
    }
  }

  lemma {:induction false} FirstBreak(rows: seq<DiffRow>, from: nat) returns (n: nat)
    requires from <= |rows|
    ensures from <= n <= |rows| && (n < |rows| ==> !Continues(rows[n]))
    ensures forall k :: from <= k < n ==> Continues(rows[k])
    decreases |rows| - from
  {
    n := from;
    if from < |rows| && Continues(rows[from]) {
      n := FirstBreak(rows, from + 1);
    }
  }

  /** Changed rows are in one block exactly when nothing but changed rows and newline markers stands between them. */
  lemma BlocksAreRuns(rows: seq<DiffRow>, i: nat, j: nat)
    requires i < j < |rows| && Changed(rows[i]) && Changed(rows[j])
    ensures Together(rows, i, j) <==> OnlyChangesBetween(rows, i, j)
  {
    if Together(rows, i, j) {
      var b :| 0 <= b < |Blocks(rows)| && i in Blocks(rows)[b] && j in Blocks(rows)[b];
      var n := |rows|;
      if b < |ClosedBlocks(rows)| {
        n := ClosedByRow(rows, b);
      }
      assert rows[..|rows|] == rows;
      InOpenBlock(rows[..n], i);
      InOpenBlock(rows[..n], j);
    }
    if OnlyChangesBetween(rows, i, j) {
      var n := FirstBreak(rows, j);
      assert rows[..|rows|] == rows && n > j;
      InOpenBlock(rows[..n], i);
      InOpenBlock(rows[..n], j);
      var b := |ClosedBlocks(rows)|;
      if n < |rows| {
        b := RowCloses(rows, n);
      }
      assert Blocks(rows)[b] == OpenBlock(rows[..n]);
    }
  }
}

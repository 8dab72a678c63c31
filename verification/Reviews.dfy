/** Independent reviews: what a reviewer's answer must contain, and what an approval of it means. */
module Reviews {
  import opened Bytes
  import opened Keyed
  import opened Lists
  import opened Spaces
  import opened Plans
  import opened PlanRuns
  import opened Candidates

  datatype ReviewAssessment = ReviewAssessment(ruleId: string, status: string, reason: string)

  datatype ReviewIssue = ReviewIssue(
    kind: string,
    ruleId: string,
    place: string,
    lineBasis: string,
    excerpt: Text,
    startLine: int,
    endLine: int,
    reason: string,
    requestedChange: string)

  datatype ReviewHoldAssessment = ReviewHoldAssessment(itemId: string, status: string, reason: string)

  datatype Findings = Findings(
    baseHash: string,
    candidateHash: string,
    verdict: string,
    summary: string,
    assessments: seq<ReviewAssessment>,
    issues: seq<ReviewIssue>,
    holdAssessments: seq<ReviewHoldAssessment>)

  /** What the reviewer is given, and how quoted source lines are checked. */
  datatype ReviewInput = ReviewInput(
    before: Text,
    after: Text,
    baseHash: string,
    candidateHash: string,
    ruleIds: seq<string>,
    holds: seq<ReviewHold>,
    quotes: Quotes)

  datatype Quotes = Quotes(
    blank: Text -> bool,
    resolve: (Text, SourceLocation) -> Resolution,
    valid: (Text, SourceLocation) -> bool)

  datatype ParseResult = Parsed(findings: Findings) | Malformed

  const SATISFIED := "satisfied"
  const NOT_APPLICABLE := "not_applicable"
  const VIOLATED := "violated"
  const NEEDS_HUMAN := "needs_human"
  const NEEDS_CHANGES := "needs_changes"
  const PASSED := "passed"
  const PASSED_WITH_HOLDS := "passed_with_holds"
  const PRESERVED := "preserved"
  const UNSAFE := "unsafe"
  const BEFORE := "before"
  const AFTER := "after"

  const ASSESSED_RULE: ReviewAssessment -> string := (a: ReviewAssessment) => a.ruleId
  const ASSESSED_ITEM: ReviewHoldAssessment -> string := (a: ReviewHoldAssessment) => a.itemId
  const HOLD_ITEM: ReviewHold -> string := (hold: ReviewHold) => hold.itemId
  const HOLD_RULE: ReviewHold -> string := (hold: ReviewHold) => hold.ruleId
  const ISSUE_RULE: ReviewIssue -> string := (issue: ReviewIssue) => issue.ruleId

  // ----- counting distinct keys -----

  lemma SubsetCount(a: set<string>, b: set<string>)
    requires a <= b
    ensures |a| <= |b| && (|a| == |b| ==> a == b)
  {
    var rest := b - a;
    assert b == a + rest && |b| == |a| + |rest|;
    assert a != b ==> rest != {};
  }

  lemma {:induction false} KeysCount<T>(s: seq<T>, key: T -> string)
    ensures |Keys(s, key)| <= |s|
    ensures Distinct(s, key) <==> |Keys(s, key)| == |s|
  {
    if s == [] {
      assert Keys(s, key) == {};
    } else {
      var n := |s| - 1;
      KeysCount(s[..n], key);
      KeysGrow(s, key, n);
      GoodStep(s, _ => true, key, n);
      assert s[..n + 1] == s;
    }
  }

  /** Distinct keys that all belong to an equally long list are that list's keys, each once. */
  lemma Pigeonhole<S, T>(s: seq<S>, key: S -> string, all: seq<T>, name: T -> string)
    requires Distinct(s, key) && |s| == |all| && Keys(s, key) <= Keys(all, name)
    ensures Keys(s, key) == Keys(all, name) && Distinct(all, name)
  {
    KeysCount(s, key);
    KeysCount(all, name);
    SubsetCount(Keys(s, key), Keys(all, name));
  }

  lemma KeyIsIn<T>(s: seq<T>, key: T -> string, i: nat)
    requires i < |s|
    ensures key(s[i]) in Keys(s, key)
  {
  }

  // ----- holds -----

  predicate HoldTest(holds: set<string>, a: ReviewHoldAssessment) {
    a.itemId in holds && (a.status == PRESERVED || a.status == UNSAFE) && ValidPlanText(a.reason)
  }

  function AssessesHold(holds: set<string>): ReviewHoldAssessment -> bool {
    (a: ReviewHoldAssessment) => HoldTest(holds, a)
  }

  predicate HoldAssessmentsFit(assessments: seq<ReviewHoldAssessment>, holds: seq<ReviewHold>) {
    |assessments| == |holds| && Good(assessments, AssessesHold(Keys(holds, HOLD_ITEM)), ASSESSED_ITEM)
  }

  method ScanGood<T>(s: seq<T>, test: T -> bool, key: T -> string) returns (ok: bool, seen: set<string>)
    ensures ok <==> Good(s, test, key)
    ensures ok ==> seen == Keys(s, key)
  {
    seen := {};
    for i := 0 to |s|
      invariant Good(s[..i], test, key) && seen == Keys(s[..i], key)
    {
      GoodStep(s, test, key, i);
      KeysGrow(s, key, i);
      if !test(s[i]) || key(s[i]) in seen {
        return false, seen;
      }
      seen := seen + {key(s[i])};
    }
    assert s[..|s|] == s;
    ok := true;
  }

  method ValidateReviewHoldAssessments(assessments: seq<ReviewHoldAssessment>,
      holds: seq<ReviewHold>) returns (ok: bool)
    ensures ok <==> HoldAssessmentsFit(assessments, holds)
  {
    if |assessments| != |holds| {
      return false;
    }
    var good, _ := ScanGood(assessments, AssessesHold(Keys(holds, HOLD_ITEM)), ASSESSED_ITEM);
    ok := good;
  }

  /** The issue quotes lines inside one of the locations of a hold. */
  predicate InsideLocation(quotes: Quotes, issue: ReviewIssue, loc: SourceLocation) {
    && loc.startLine <= issue.startLine <= issue.endLine <= loc.endLine
    && quotes.valid(loc.excerpt,
         SourceLocation(issue.startLine - loc.startLine + 1, issue.endLine - loc.startLine + 1, issue.excerpt))
  }

  predicate InsideHold(quotes: Quotes, issue: ReviewIssue, hold: ReviewHold) {
    && hold.ruleId == issue.ruleId
    && exists k :: 0 <= k < |hold.sourceLocations| && InsideLocation(quotes, issue, hold.sourceLocations[k])
  }

  predicate WithinHolds(quotes: Quotes, issue: ReviewIssue, holds: seq<ReviewHold>) {
    exists i :: 0 <= i < |holds| && InsideHold(quotes, issue, holds[i])
  }

  method IssueWithinHolds(quotes: Quotes, issue: ReviewIssue, holds: seq<ReviewHold>) returns (within: bool)
    ensures within <==> WithinHolds(quotes, issue, holds)
  {
    for i := 0 to |holds|
      invariant forall k :: 0 <= k < i ==> !InsideHold(quotes, issue, holds[k])
    {
      if holds[i].ruleId == issue.ruleId {
        for j := 0 to |holds[i].sourceLocations|
          invariant forall k :: 0 <= k < j ==> !InsideLocation(quotes, issue, holds[i].sourceLocations[k])
        {
          if InsideLocation(quotes, issue, holds[i].sourceLocations[j]) {
            assert InsideHold(quotes, issue, holds[i]);
            return true;
          }
        }
      }
    }
    return false;
  }

  predicate PreservesTest(holds: set<string>, a: ReviewHoldAssessment) {
    a.itemId in holds && a.status == PRESERVED && !IsBlank(a.reason)
  }

  function Preserves(holds: set<string>): ReviewHoldAssessment -> bool {
    (a: ReviewHoldAssessment) => PreservesTest(holds, a)
  }

  /** Exactly the held rules stay with a human, and nothing is violated. */
  predicate DefersTest(heldRules: set<string>, a: ReviewAssessment) {
    && !IsBlank(a.reason)
    && (if a.ruleId in heldRules then a.status == NEEDS_HUMAN else a.status == SATISFIED || a.status == NOT_APPLICABLE)
  }

  function Defers(heldRules: set<string>): ReviewAssessment -> bool { (a: ReviewAssessment) => DefersTest(heldRules,
      a) }

  predicate HeldIssue(quotes: Quotes, issue: ReviewIssue, holds: seq<ReviewHold>) {
    issue.kind == NEEDS_HUMAN && issue.lineBasis == BEFORE && WithinHolds(quotes, issue, holds)
  }

  predicate ApprovesHolds(quotes: Quotes, findings: Findings, holds: seq<ReviewHold>) {
    && findings.verdict == PASSED_WITH_HOLDS && holds != []
    && |findings.holdAssessments| == |holds|
    && Good(findings.holdAssessments, Preserves(Keys(holds, HOLD_ITEM)), ASSESSED_ITEM)
    && Good(findings.assessments, Defers(Keys(holds, HOLD_RULE)), ASSESSED_RULE)
    && Keys(holds, HOLD_RULE) <= Keys(findings.assessments, ASSESSED_RULE)
    && forall i :: 0 <= i < |findings.issues| ==> HeldIssue(quotes, findings.issues[i], holds)
  }

  method CheckHeldIssues(quotes: Quotes, issues: seq<ReviewIssue>, holds: seq<ReviewHold>) returns (ok: bool)
    ensures ok <==> forall i :: 0 <= i < |issues| ==> HeldIssue(quotes, issues[i], holds)
  {
    for i := 0 to |issues|
      invariant forall k :: 0 <= k < i ==> HeldIssue(quotes, issues[k], holds)
    {
      var within := IssueWithinHolds(quotes, issues[i], holds);
      if issues[i].kind != NEEDS_HUMAN || issues[i].lineBasis != BEFORE || !within {
        return false;
      }
    }
    return true;
  }

  method CheckReviewHoldApproval(quotes: Quotes, findings: Findings, holds: seq<ReviewHold>) returns (ok: bool)
    ensures ok <==> ApprovesHolds(quotes, findings, holds)
  {
    if findings.verdict != PASSED_WITH_HOLDS || |holds| == 0 || |findings.holdAssessments| != |holds| {
      return false;
    }
    var preserved, _ := ScanGood(findings.holdAssessments, Preserves(Keys(holds, HOLD_ITEM)), ASSESSED_ITEM);
    if !preserved {
      return false;
    }
    var deferred, assessed := ScanGood(findings.assessments, Defers(Keys(holds, HOLD_RULE)), ASSESSED_RULE);
    if !deferred || !(Keys(holds, HOLD_RULE) <= assessed) {
      return false;
    }
    ok := CheckHeldIssues(quotes, findings.issues, holds);
  }

  predicate HoldPreserved(findings: Findings, itemId: string) {
    exists i ::
      && 0 <= i < |findings.holdAssessments| && findings.holdAssessments[i].itemId == itemId
      && findings.holdAssessments[i].status == PRESERVED
  }

  /** An approval with holds confirms every hold, and leaves exactly the held rules to a human. */
  lemma ApprovalCoversHolds(quotes: Quotes, findings: Findings, holds: seq<ReviewHold>)
    requires ApprovesHolds(quotes, findings, holds)
    ensures Distinct(holds, HOLD_ITEM)
    ensures forall i :: 0 <= i < |holds| ==> HoldPreserved(findings, holds[i].itemId)
    ensures forall i :: 0 <= i < |findings.assessments| ==>
      (findings.assessments[i].status == NEEDS_HUMAN <==> findings.assessments[i].ruleId in Keys(holds, HOLD_RULE))
    ensures forall i :: 0 <= i < |findings.assessments| ==> findings.assessments[i].status != VIOLATED
  {
    var assessed := findings.holdAssessments;
    var keys := Keys(holds, HOLD_ITEM);
    AllTested(assessed, Preserves(keys), ASSESSED_ITEM, keys);
    Pigeonhole(assessed, ASSESSED_ITEM, holds, HOLD_ITEM);
    forall i | 0 <= i < |holds| ensures HoldPreserved(findings, holds[i].itemId) {
      KeyIsIn(holds, HOLD_ITEM, i);
      assert HasKey(assessed, ASSESSED_ITEM, HOLD_ITEM(holds[i]));
      var k :| 0 <= k < |assessed| && ASSESSED_ITEM(assessed[k]) == HOLD_ITEM(holds[i]);
      assert Preserves(keys)(assessed[k]);
    }
    forall i | 0 <= i < |findings.assessments|
      ensures
        findings.assessments[i].status == NEEDS_HUMAN <==> findings.assessments[i].ruleId in Keys(holds, HOLD_RULE)
      ensures findings.assessments[i].status != VIOLATED
    {
      assert Defers(Keys(holds, HOLD_RULE))(findings.assessments[i]);
    }
  }

  lemma AllTested<T>(s: seq<T>, test: T -> bool, key: T -> string, keys: set<string>)
    requires All(s, test) && forall x :: x in s && test(x) ==> key(x) in keys
    ensures Keys(s, key) <= keys
  {
    forall k | k in Keys(s, key) ensures k in keys {
      var i :| 0 <= i < |s| && key(s[i]) == k;
      assert test(s[i]) && s[i] in s;
    }
  }

  // ----- a partial approval against the plan -----

  predicate ApprovesPlan(quotes: Quotes, findings: Findings, plan: RepairPlan) {
    && HoldsOfPlan(plan).Holds?
    && |findings.assessments| == |plan.ruleDecisions|
    && Keys(findings.assessments, ASSESSED_RULE) <= Keys(plan.ruleDecisions, RULE_OF)
    && ApprovesHolds(quotes, findings, HoldsOf(plan.items))
  }

  method CheckPartialReview(quotes: Quotes, findings: Findings, plan: RepairPlan) returns (ok: bool)
    ensures ok <==> ApprovesPlan(quotes, findings, plan)
  {
    var result := CandidateHolds(plan);
    if result.Unlocalized? || |findings.assessments| != |plan.ruleDecisions| {
      return false;
    }
    var known := Keys(plan.ruleDecisions, RULE_OF);
    for i := 0 to |findings.assessments|
      invariant Keys(findings.assessments[..i], ASSESSED_RULE) <= known
    {
      KeysGrow(findings.assessments, ASSESSED_RULE, i);
      if findings.assessments[i].ruleId !in known {
        KeyIsIn(findings.assessments, ASSESSED_RULE, i);
        return false;
      }
    }
    assert findings.assessments[..|findings.assessments|] == findings.assessments;
    ok := CheckReviewHoldApproval(quotes, findings, result.holds);
  }

  /** A partial approval decides exactly the rules of the plan, and confirms every blocked item. */
  lemma PartialApprovalCoversPlan(quotes: Quotes, findings: Findings, plan: RepairPlan)
    requires ApprovesPlan(quotes, findings, plan)
    ensures Keys(findings.assessments, ASSESSED_RULE) == Keys(plan.ruleDecisions, RULE_OF)
    ensures
      forall i :: 0 <= i < |plan.items| && plan.items[i].status == BLOCKED ==> HoldPreserved(findings, plan.items[i].id)
    ensures forall i :: 0 <= i < |findings.assessments| ==>
      (findings.assessments[i].status == NEEDS_HUMAN <==> HeldRule(plan.items, findings.assessments[i].ruleId))
  {
    var holds := HoldsOf(plan.items);
    Pigeonhole(findings.assessments, ASSESSED_RULE, plan.ruleDecisions, RULE_OF);
    ApprovalCoversHolds(quotes, findings, holds);
    forall i | 0 <= i < |plan.items| && plan.items[i].status == BLOCKED
      ensures HoldPreserved(findings, plan.items[i].id)
    {
      HoldsAreBlockedItems(plan.items, HoldOf(plan.items[i]));
      var k :| 0 <= k < |holds| && holds[k] == HoldOf(plan.items[i]);
    }
    forall i | 0 <= i < |findings.assessments|
      ensures findings.assessments[i].status == NEEDS_HUMAN <==> HeldRule(plan.items, findings.assessments[i].ruleId)
    {
      HeldRulesOfPlan(plan.items, findings.assessments[i].ruleId);
    }
  }

  lemma HeldRulesOfPlan(items: seq<PlanItem>, ruleId: string)
    ensures ruleId in Keys(HoldsOf(items), HOLD_RULE) <==> HeldRule(items, ruleId)
  {
    var holds := HoldsOf(items);
    if HasKey(holds, HOLD_RULE, ruleId) {
      var k :| 0 <= k < |holds| && HOLD_RULE(holds[k]) == ruleId;
      HoldsAreBlockedItems(items, holds[k]);
      var i :| 0 <= i < |items| && items[i].status == BLOCKED && HoldOf(items[i]) == holds[k];
    }
    if HeldRule(items, ruleId) {
      var i :| 0 <= i < |items| && items[i].status == BLOCKED && items[i].ruleId == ruleId;
      HoldsAreBlockedItems(items, HoldOf(items[i]));
      var k :| 0 <= k < |holds| && holds[k] == HoldOf(items[i]);
      assert HOLD_RULE(holds[k]) == ruleId;
    }
  }

  // ----- the reviewer's answer -----

  predicate AssessmentTest(ruleIds: set<string>, a: ReviewAssessment) {
    && a.ruleId in ruleIds && !IsBlank(a.reason)
    && (a.status == SATISFIED || a.status == NOT_APPLICABLE || a.status == VIOLATED || a.status == NEEDS_HUMAN)
  }

  function Assesses(ruleIds: set<string>): ReviewAssessment -> bool {
    (a: ReviewAssessment) => AssessmentTest(ruleIds, a)
  }

  function StatusOf(assessments: seq<ReviewAssessment>, ruleId: string): string {
    var k := Find(assessments, ASSESSED_RULE, ruleId);
    if k < |assessments| then assessments[k].status else ""
  }

  function KindOf(assessments: seq<ReviewAssessment>, issue: ReviewIssue): string {
    if issue.kind != "" then issue.kind
    else if StatusOf(assessments, issue.ruleId) == NEEDS_HUMAN then NEEDS_HUMAN
    else NEEDS_CHANGES
  }

  function QuoteOf(issue: ReviewIssue): SourceLocation { SourceLocation(issue.startLine, issue.endLine, issue.excerpt) }

  function SideOf(input: ReviewInput,
      issue: ReviewIssue): Text { if issue.lineBasis == BEFORE then input.before else input.after }

  function Resolved(input: ReviewInput,
      issue: ReviewIssue): Resolution { input.quotes.resolve(SideOf(input, issue), QuoteOf(issue)) }

  predicate ConcreteIssue(input: ReviewInput, issue: ReviewIssue) {
    && !IsBlank(issue.place) && !input.quotes.blank(issue.excerpt) && !IsBlank(issue.reason)
    && !IsBlank(issue.requestedChange)
  }

  predicate OnOpenRule(input: ReviewInput, assessments: seq<ReviewAssessment>, issue: ReviewIssue) {
    issue.ruleId == "" ||
    (issue.ruleId in Keys(input.ruleIds, SELF) &&
     (StatusOf(assessments, issue.ruleId) == VIOLATED || StatusOf(assessments, issue.ruleId) == NEEDS_HUMAN))
  }

  predicate IssueFits(input: ReviewInput, assessments: seq<ReviewAssessment>, issue: ReviewIssue) {
    && OnOpenRule(input, assessments, issue) && ConcreteIssue(input, issue)
    && (KindOf(assessments, issue) == NEEDS_CHANGES || KindOf(assessments, issue) == NEEDS_HUMAN)
    && (issue.lineBasis == BEFORE || issue.lineBasis == AFTER)
    && Resolved(input, issue).Found?
  }

  function IssueTest(input: ReviewInput, assessments: seq<ReviewAssessment>): ReviewIssue -> bool {
    (issue: ReviewIssue) => IssueFits(input, assessments, issue)
  }

  /** The kind is filled in, and the lines are the ones the quote was found at. */
  function Settle(input: ReviewInput, assessments: seq<ReviewAssessment>): ReviewIssue -> ReviewIssue {
    (issue: ReviewIssue) =>
      match Resolved(input, issue)
      case Missing => issue
      case Found(l) => issue.(kind := KindOf(assessments, issue), startLine := l.startLine, endLine := l.endLine)
  }

  predicate AnyNeedsHuman(assessments: seq<ReviewAssessment>) {
    exists i :: 0 <= i < |assessments| && assessments[i].status == NEEDS_HUMAN
  }

  predicate AnyKind(issues: seq<ReviewIssue>, kind: string) {
    exists i :: 0 <= i < |issues| && issues[i].kind == kind
  }

  predicate ViolationsExplained(findings: Findings) {
    forall i :: 0 <= i < |findings.assessments| && findings.assessments[i].status == VIOLATED ==>
      HasKey(findings.issues, ISSUE_RULE, findings.assessments[i].ruleId)
  }

  predicate VerdictFits(input: ReviewInput, settled: Findings) {
    if settled.verdict == PASSED then
      && !AnyNeedsHuman(settled.assessments) && !AnyKind(settled.issues, NEEDS_HUMAN)
      && input.holds == [] && settled.issues == []
    else if settled.verdict == PASSED_WITH_HOLDS then ApprovesHolds(input.quotes, settled, input.holds)
    else if settled.verdict == NEEDS_CHANGES then AnyKind(settled.issues, NEEDS_CHANGES)
    else settled.verdict == NEEDS_HUMAN
  }

  predicate Identified(input: ReviewInput, wire: Findings) {
    && wire.baseHash == input.baseHash && wire.candidateHash == input.candidateHash
    && !IsBlank(wire.summary) && |wire.assessments| == |input.ruleIds|
  }

  predicate IssuesFit(input: ReviewInput, wire: Findings) {
    All(wire.issues, IssueTest(input, wire.assessments))
  }

  function SettleAll(input: ReviewInput, wire: Findings): Findings {
    wire.(issues := Map(Settle(input, wire.assessments), wire.issues))
  }

  predicate ReviewFits(input: ReviewInput, wire: Findings) {
    && Identified(input, wire) && HoldAssessmentsFit(wire.holdAssessments, input.holds)
    && Good(wire.assessments, Assesses(Keys(input.ruleIds, SELF)), ASSESSED_RULE)
    && IssuesFit(input, wire)
    && ViolationsExplained(SettleAll(input, wire)) && VerdictFits(input, SettleAll(input, wire))
  }

  function Parse(input: ReviewInput, wire: Findings): ParseResult {
    if ReviewFits(input, wire) then Parsed(SettleAll(input, wire)) else Malformed
  }

  method CheckVerdict(input: ReviewInput, settled: Findings) returns (ok: bool)
    ensures ok <==> VerdictFits(input, settled)
  {
    if settled.verdict == PASSED {
      return !AnyNeedsHuman(settled.assessments) && !AnyKind(settled.issues, NEEDS_HUMAN)
        && |input.holds| == 0 && |settled.issues| == 0;
    }
    if settled.verdict == PASSED_WITH_HOLDS {
      ok := CheckReviewHoldApproval(input.quotes, settled, input.holds);
      return;
    }
    return if settled.verdict == NEEDS_CHANGES
      then AnyKind(settled.issues, NEEDS_CHANGES)
      else settled.verdict == NEEDS_HUMAN;
  }

  method ParseIndependentReview(wire: Findings, input: ReviewInput) returns (result: ParseResult)
    ensures result == Parse(input, wire)
  {
    if !Identified(input, wire) {
      return Malformed;
    }
    var held := ValidateReviewHoldAssessments(wire.holdAssessments, input.holds);
    if !held {
      return Malformed;
    }
    var assessed, _ := ScanGood(wire.assessments, Assesses(Keys(input.ruleIds, SELF)), ASSESSED_RULE);
    if !assessed {
      return Malformed;
    }
    var fit, issues := RewriteAll(wire.issues, IssueTest(input, wire.assessments), Settle(input, wire.assessments));
    if !fit {
      return Malformed;
    }
    var settled := wire.(issues := issues);
    var verdict := CheckVerdict(input, settled);
    result := if verdict && ViolationsExplained(settled) then Parsed(settled) else Malformed;
  }

  /** A parsed review assesses every supplied rule exactly once, and nothing else. */
  lemma EveryRuleIsAssessedOnce(input: ReviewInput, wire: Findings)
    ensures var result := Parse(input, wire); result.Parsed? ==>
      && Keys(result.findings.assessments, ASSESSED_RULE) == Keys(input.ruleIds, SELF)
      && Distinct(result.findings.assessments, ASSESSED_RULE) && Distinct(input.ruleIds, SELF)
  {
    if ReviewFits(input, wire) {
      var keys := Keys(input.ruleIds, SELF);
      AllTested(wire.assessments, Assesses(keys), ASSESSED_RULE, keys);
      Pigeonhole(wire.assessments, ASSESSED_RULE, input.ruleIds, SELF);
    }
  }

  predicate CleanAssessment(a: ReviewAssessment) { a.status == SATISFIED || a.status == NOT_APPLICABLE }

  /** A passed review has no holds and no issues, and finds every rule satisfied or not applicable. */
  lemma PassedIsClean(input: ReviewInput, wire: Findings)
    ensures var result := Parse(input, wire); result.Parsed? && result.findings.verdict == PASSED ==>
      && input.holds == [] && result.findings.issues == [] && result.findings.holdAssessments == []
      && forall i :: 0 <= i < |result.findings.assessments| ==> CleanAssessment(result.findings.assessments[i])
  {
    if ReviewFits(input, wire) && wire.verdict == PASSED {
      forall i | 0 <= i < |wire.assessments| ensures CleanAssessment(wire.assessments[i]) {
        assert Assesses(Keys(input.ruleIds, SELF))(wire.assessments[i]);
      }
    }
  }

  /**
   * A review that passes with holds keeps every hold, leaves exactly the held rules open, and raises issues only inside
   * a hold of their rule.
   */
  lemma PassedWithHoldsStaysInside(input: ReviewInput, wire: Findings)
    ensures var result := Parse(input, wire); result.Parsed? && result.findings.verdict == PASSED_WITH_HOLDS ==>
      && input.holds != []
      && (forall i :: 0 <= i < |input.holds| ==> HoldPreserved(result.findings, input.holds[i].itemId))
      && (forall i :: 0 <= i < |result.findings.assessments| ==>
            (result.findings.assessments[i].status == NEEDS_HUMAN
             <==> result.findings.assessments[i].ruleId in Keys(input.holds, HOLD_RULE)))
      && (forall i ::
            0 <= i < |result.findings.issues| ==> HeldIssue(input.quotes, result.findings.issues[i], input.holds))
  {
    var result := Parse(input, wire);
    if result.Parsed? && result.findings.verdict == PASSED_WITH_HOLDS {
      ApprovalCoversHolds(input.quotes, result.findings, input.holds);
    }
  }

  ghost predicate ReliableQuotes(quotes: Quotes) {
    forall text, l :: quotes.resolve(text, l).Found? ==>
      quotes.resolve(text, l).location.excerpt == l.excerpt && quotes.valid(text, quotes.resolve(text, l).location)
  }

  predicate QuotesItsSide(input: ReviewInput, issue: ReviewIssue) {
    && input.quotes.valid(SideOf(input, issue), QuoteOf(issue))
    && (issue.kind == NEEDS_CHANGES || issue.kind == NEEDS_HUMAN)
  }

  /** Every issue of a parsed review has a kind and quotes actual lines of the side it names. */
  lemma IssuesQuoteTheirSide(input: ReviewInput, wire: Findings)
    requires ReliableQuotes(input.quotes)
    ensures var result := Parse(input, wire); result.Parsed? ==>
      forall i :: 0 <= i < |result.findings.issues| ==> QuotesItsSide(input, result.findings.issues[i])
  {
    var result := Parse(input, wire);
    if result.Parsed? {
      forall i | 0 <= i < |result.findings.issues| ensures QuotesItsSide(input, result.findings.issues[i]) {
        assert IssueTest(input, wire.assessments)(wire.issues[i]);
        var l := Resolved(input, wire.issues[i]).location;
        assert QuoteOf(result.findings.issues[i]) == l;
      }
    }
  }

  ghost predicate AssessedAs(assessments: seq<ReviewAssessment>, ruleId: string, status: string) {
    exists k :: 0 <= k < |assessments| && assessments[k].ruleId == ruleId && assessments[k].status == status
  }

  /**
   * Parsing fills in a missing kind, a question for an issue of a rule left to a human and a change for any other, puts
   * the lines where the quote was found, and keeps everything else as the reviewer wrote it.
   */
  lemma OnlyKindAndLinesAreSettled(input: ReviewInput, wire: Findings, i: nat)
    requires Parse(input, wire).Parsed? && i < |wire.issues|
    ensures var settled, issue := Parse(input, wire).findings, wire.issues[i];
      && settled == wire.(issues := settled.issues) && |settled.issues| == |wire.issues|
      && settled.issues[i] == issue.(kind := settled.issues[i].kind, startLine := settled.issues[i].startLine,
           endLine := settled.issues[i].endLine)
      && settled.issues[i].kind ==
           (if issue.kind != "" then issue.kind
            else if AssessedAs(wire.assessments, issue.ruleId, NEEDS_HUMAN) then NEEDS_HUMAN else NEEDS_CHANGES)
      && var quote := SourceLocation(issue.startLine, issue.endLine, issue.excerpt);
         var found := input.quotes.resolve(if issue.lineBasis == BEFORE then input.before else input.after, quote);
         && found.Found? && settled.issues[i].startLine == found.location.startLine
         && settled.issues[i].endLine == found.location.endLine
  {
    hide VerdictFits, ViolationsExplained, HoldAssessmentsFit, Identified, IsBlank;
    assert IssueTest(input, wire.assessments)(wire.issues[i]);
    StatusIsAssessed(wire.assessments, wire.issues[i].ruleId, NEEDS_HUMAN);
  }

  lemma StatusIsAssessed(assessments: seq<ReviewAssessment>, ruleId: string, status: string)
    requires Distinct(assessments, ASSESSED_RULE) && status != ""
    ensures StatusOf(assessments, ruleId) == status <==> AssessedAs(assessments, ruleId, status)
  {
    if k :| 0 <= k < |assessments| && assessments[k].ruleId == ruleId && assessments[k].status == status {
      FindIsOnly(assessments, ASSESSED_RULE, k);
    }
  }

  // ----- a hold the reviewer found, given back to the editor -----

  /** The rules the reviewer leaves to a human. */
  function OpenRules(findings: Findings): set<string> {
    (set i | 0 <= i < |findings.assessments| && findings.assessments[i].status == NEEDS_HUMAN ::
      findings.assessments[i].ruleId)
    + (set i | 0 <= i < |findings.issues| && findings.issues[i].kind == NEEDS_HUMAN :: findings.issues[i].ruleId)
  }

  ghost predicate HasIssue(issues: seq<ReviewIssue>, kind: string) {
    exists k :: 0 <= k < |issues| && issues[k].kind == kind
  }

  ghost predicate HasIssueOf(issues: seq<ReviewIssue>, ruleId: string) {
    exists k :: 0 <= k < |issues| && issues[k].ruleId == ruleId
  }

  /** A request for changes names something to change, a violated rule has an issue, and there is no fifth verdict. */
  lemma VerdictsAreGrounded(input: ReviewInput, wire: Findings)
    requires Parse(input, wire).Parsed?
    ensures var findings := Parse(input, wire).findings;
      && findings.verdict in {"passed", "passed_with_holds", "needs_changes", "needs_human"}
      && (findings.verdict == "needs_changes" ==> HasIssue(findings.issues, "needs_changes"))
      && forall i :: 0 <= i < |findings.assessments| && findings.assessments[i].status == "violated" ==>
           HasIssueOf(findings.issues, findings.assessments[i].ruleId)
  {
    hide IssuesFit, HoldAssessmentsFit, Identified, IsBlank, Settle;
    var findings := Parse(input, wire).findings;
    forall i | 0 <= i < |findings.assessments| && findings.assessments[i].status == VIOLATED
      ensures HasIssueOf(findings.issues, findings.assessments[i].ruleId)
    {
      var k :| 0 <= k < |findings.issues| && ISSUE_RULE(findings.issues[k]) == findings.assessments[i].ruleId;
      assert findings.issues[k].ruleId == findings.assessments[i].ruleId;
    }
  }

  ghost predicate AsksAbout(issues: seq<ReviewIssue>, ruleId: string) {
    exists k :: 0 <= k < |issues| && issues[k].ruleId == ruleId && issues[k].kind == NEEDS_HUMAN
  }

  /** A rule is left open by its assessment, or by an issue that asks about it. */
  lemma OpenByAssessmentOrIssue(findings: Findings, ruleId: string)
    ensures ruleId in OpenRules(findings) <==>
      AssessedAs(findings.assessments, ruleId, NEEDS_HUMAN) || AsksAbout(findings.issues, ruleId)
  {
  }

  predicate Considered(issue: ReviewIssue) { issue.kind == NEEDS_HUMAN || issue.kind == "" }

  predicate Replannable(original: Text, unique: (Text, Text) -> bool, quotes: Quotes, open: set<string>,
      issue: ReviewIssue) {
    issue.ruleId in open &&
    (if issue.lineBasis == AFTER
     then unique(original, issue.excerpt) && quotes.resolve(original, QuoteOf(issue)).Found?
     else issue.lineBasis == BEFORE)
  }

  predicate CanReplan(findings: Findings, noEdits: bool, original: Text, unique: (Text, Text) -> bool, quotes: Quotes) {
    if noEdits then AnyKind(findings.issues, NEEDS_CHANGES)
    else
      && OpenRules(findings) != {}
      && (forall i :: 0 <= i < |findings.issues| && Considered(findings.issues[i]) ==>
            Replannable(original, unique, quotes, OpenRules(findings), findings.issues[i]))
      && forall rule | rule in OpenRules(findings) ::
           exists i :: 0 <= i < |findings.issues| && Considered(findings.issues[i]) && findings.issues[i].ruleId == rule
  }
}

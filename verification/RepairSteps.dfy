/**
 * The repair loop as steps. The editor model may call any tool and give any final answer, the validator
 * and the reviewer may return anything, every save may fail, and the run may end and resume at any point.
 */
module RepairSteps {
  import opened Bytes
  import opened Keyed
  import opened Lists
  import opened Options
  import opened Spaces
  import opened Substitution
  import opened Plans
  import opened PlanUpdates
  import opened PlanRuns
  import opened Candidates
  import opened Reviews

  /** What stays fixed for one file. */
  datatype Task = Task(
    original: Text,
    baseHash: string,
    rules: seq<Rule>,
    at: Locator,
    kept: HoldCheck,
    quotes: Quotes,
    unique: (Text, Text) -> bool)

  datatype Validation = Validation(attributionVersion: int, candidateId: string, candidateHash: string,
      planRevision: int, passed: bool)

  datatype IndependentReview = IndependentReview(id: string, candidateId: string, planRevision: int, findings: Findings)

  datatype CandidateRecord = CandidateRecord(
    noChange: bool,
    request: CandidateRequest,
    result: Validation,
    reviewRequested: bool,
    reviewNote: string,
    review: Option<IndependentReview>)

  datatype RepairState = RepairState(
    plan: RepairPlan,
    lastCandidate: Option<CandidateRecord>,
    staged: seq<StagedEdit>,
    reviews: seq<IndependentReview>,
    readRuleIds: set<string>)

  datatype FinalAnswer = FinalAnswer(outcome: string, candidateId: string, note: string)

  datatype Proposal = Proposal(outcome: string, candidateId: string, note: string, edits: seq<Edit>,
      rulesApplied: seq<string>)

  /** A review that was finished, and the text it judged. */
  datatype Judgement = Judgement(review: IndependentReview, text: Text)

  datatype Phase =
    | Editing
    | Validating(request: CandidateRequest, direct: bool)
    | Reviewing(final: Proposal, record: IndependentReview, index: int)
    | Done(proposal: Proposal)
    | Stopped

  /** The state in memory, the journal on disk, and what was last validated and judged. */
  datatype Machine = Machine(
    live: RepairState,
    saved: RepairState,
    phase: Phase,
    issued: set<string>,
    validated: Option<(CandidateRequest, Validation)>,
    judged: Option<Judgement>)

  datatype Event =
    | UpdateState(update: PlanUpdate, paged: bool, saves: bool)
    | StageBatch(batch: StageRequest, saves: bool)
    | ValidateStaged(planRevision: int, baseHash: string, saves: bool)
    | ValidateDirect(request: CandidateRequest, saves: bool)
    | ValidatorReturns(result: Validation, saves: bool)
    | ValidatorFails
    | Answer(answer: FinalAnswer, candidateId: string, reviewId: string, loads: bool, saves: bool)
    | ReviewProgress(partial: Findings, saves: bool)
    | ReviewReturns(findings: Findings, saves: bool)
    | ReviewFails(saves: bool)
    | ReadRule(ruleId: string)
    | Save
    | Resume(candidateId: string, reviewId: string, loads: bool, saves: bool)

  const LINE_ATTRIBUTION_VERSION := 2
  const MODIFIED := "modified"
  const SKIPPED := "skipped"
  const RUNNING := "running"
  const ERROR := "error"
  const ON_HOLD := "独立レビューで判断保留: "

  const NOTHING := RepairState(EMPTY_PLAN, None, [], [], {})

  function Fresh(): Machine { Machine(NOTHING, NOTHING, Editing, {}, None, None) }

  function Required(task: Task): seq<string> { Map(RULE_ID, task.rules) }

  function Persisted(m: Machine, saves: bool, next: Phase): Machine {
    if saves then m.(saved := m.live, phase := next) else m.(phase := Stopped)
  }

  // ----- tools -----

  function UpdateStep(task: Task, m: Machine, update: PlanUpdate, paged: bool, saves: bool): Machine {
    var catalog := if paged then Registration(task.rules) else task.rules;
    match Register(m.live.plan, update, catalog, m.live.readRuleIds, task.at)
    case Refused => m
    case Accepted(plan) => Persisted(m.(live := m.live.(plan := plan)), saves, Editing)
  }

  ghost function StageStep(task: Task, m: Machine, batch: StageRequest, saves: bool): Machine {
    match StageOf(m.live.plan, m.live.staged, batch, task.original, task.baseHash, task.kept)
    case NotStaged => m
    case Staged(edits) => Persisted(m.(live := m.live.(staged := edits, lastCandidate := None)), saves, Editing)
  }

  ghost predicate Validatable(task: Task, plan: RepairPlan, request: CandidateRequest) {
    && request.baseHash == task.baseHash && CompletePlan(plan, Required(task))
    && FitsPlan(plan, request) && ExactEdits(task.original, request.edits) && task.kept(plan, request)
  }

  /** The previous candidate is given up, on disk too, before the validator is asked. */
  ghost function ValidateStep(task: Task, m: Machine, request: CandidateRequest, direct: bool, saves: bool): Machine {
    if Validatable(task, m.live.plan, request)
    then Persisted(m.(live := m.live.(lastCandidate := None)), saves, Validating(request, direct))
    else m
  }

  ghost function ValidateStagedStep(task: Task, m: Machine, planRevision: int, baseHash: string, saves: bool): Machine {
    if planRevision == m.live.plan.revision && baseHash == task.baseHash
    then ValidateStep(task, m, RequestFor(planRevision, baseHash, m.live.staged), false, saves)
    else m
  }

  predicate Consistent(request: CandidateRequest, result: Validation) {
    && result.candidateId != "" && |result.candidateId| <= 256 && |result.candidateHash| <= 128
    && result.planRevision == request.planRevision
    && (result.passed ==> result.attributionVersion == LINE_ATTRIBUTION_VERSION)
  }

  function Digits(n: nat): (s: string)
    ensures s != ""
  {
    if n < 10 then ["0123456789"[n]] else Digits(n / 10) + ["0123456789"[n % 10]]
  }

  /** The edits of a request, staged again under numbered ids. */
  function Restaged(edits: seq<Edit>): (staged: seq<StagedEdit>)
    ensures |staged| == |edits|
  {
    if edits == [] then []
    else Restaged(edits[..|edits| - 1]) + [StagedEdit("edit-" + Digits(|edits|), edits[|edits| - 1])]
  }

  function ValidatedStep(m: Machine, request: CandidateRequest, direct: bool, result: Validation,
      saves: bool): Machine {
    if !Consistent(request, result) then m.(phase := Stopped)
    else
      var record := CandidateRecord(false, request, result, false, "", None);
      var live := m.live.(lastCandidate := Some(record),
        staged := if direct then Restaged(request.edits) else m.live.staged);
      Persisted(
        m.(live := live, issued := m.issued + {result.candidateId}, validated := Some((request, result)),
          judged := None),
        saves, Editing)
  }

  // ----- the final answer -----

  function Verdict(review: IndependentReview): string { review.findings.verdict }

  predicate HasUnresolvedReview(s: RepairState) {
    if s.reviews != [] then Verdict(s.reviews[|s.reviews| - 1]) != PASSED
    else
      && s.lastCandidate.Some? && s.lastCandidate.value.review.Some?
      && Verdict(s.lastCandidate.value.review.value) != PASSED
  }

  predicate HasHumanBlocker(plan: RepairPlan) {
    || (exists i ::
          && 0 <= i < |plan.ruleDecisions| && plan.ruleDecisions[i].decision == BLOCKED
          && !IsBlank(plan.ruleDecisions[i].reason))
    || (exists i :: 0 <= i < |plan.items| && plan.items[i].status == BLOCKED && !IsBlank(plan.items[i].holdReason))
  }

  predicate MayStopForHuman(task: Task, plan: RepairPlan) {
    && (0 < plan.revision ==> HasHumanBlocker(plan) && ValidSnapshot(plan) && ValidPlanLocations(plan, task.at))
    && (HoldsOfPlan(plan).Holds? && HoldsOf(plan.items) != [] ==>
          forall i :: 0 <= i < |plan.items| ==> plan.items[i].status == BLOCKED)
  }

  predicate MaySkip(s: RepairState) {
    && !HasUnresolvedReview(s) && s.plan.items == []
    && forall i :: 0 <= i < |s.plan.ruleDecisions| ==> s.plan.ruleDecisions[i].decision == NO_CHANGE
  }

  /** The last candidate is the one named, and was validated for this very plan and source. */
  predicate NamesLast(task: Task, s: RepairState, candidateId: string) {
    s.lastCandidate.Some? &&
    var c := s.lastCandidate.value;
    && !c.noChange && c.result.attributionVersion == LINE_ATTRIBUTION_VERSION && c.result.passed
    && c.result.candidateId == candidateId && c.result.planRevision == s.plan.revision
    && c.request.planRevision == s.plan.revision && c.request.baseHash == task.baseHash
  }

  ghost predicate MayModify(task: Task, s: RepairState, candidateId: string) {
    && NamesLast(task, s, candidateId) && FitsPlan(s.plan, s.lastCandidate.value.request)
    && ExactEdits(task.original, s.lastCandidate.value.request.edits)
    && task.kept(s.plan, s.lastCandidate.value.request)
  }

  /** The rules of the addressed items, in plan order. */
  function RulesApplied(items: seq<PlanItem>, addressed: seq<string>): seq<string> {
    if items == [] then []
    else
      var rest, item := RulesApplied(items[..|items| - 1], addressed), items[|items| - 1];
      if HasKey(addressed, SELF, item.id) && !HasKey(rest, SELF, item.ruleId) then rest + [item.ruleId] else rest
  }

  ghost function ParseFinal(task: Task, s: RepairState, answer: FinalAnswer): Option<Proposal> {
    var plain := Proposal(answer.outcome, "", answer.note, [], []);
    if IsBlank(answer.note) || |answer.candidateId| > 256 then None
    else if answer.outcome == NEEDS_HUMAN then
      if answer.candidateId == "" && MayStopForHuman(task, s.plan) then Some(plain) else None
    else if s.plan.revision < 1 || !CompletePlan(s.plan, Required(task)) then None
    else if answer.outcome == SKIPPED then
      if answer.candidateId == "" && MaySkip(s) then Some(plain) else None
    else if answer.outcome == MODIFIED && MayModify(task, s, answer.candidateId) then
      var request := s.lastCandidate.value.request;
      Some(plain.(candidateId := answer.candidateId, edits := request.edits,
        rulesApplied := RulesApplied(s.plan.items, request.addressedItemIds)))
    else None
  }

  // ----- the independent review -----

  datatype Outcome = Adopt(proposal: Proposal) | Feedback | Fail

  predicate Matches(review: IndependentReview, c: CandidateRecord) {
    && review.id != "" && review.candidateId == c.result.candidateId
    && review.findings.baseHash == c.request.baseHash && review.findings.candidateHash == c.result.candidateHash
    && review.planRevision == c.request.planRevision
  }

  function ReviewedOutcome(task: Task, final: Proposal, c: CandidateRecord, plan: RepairPlan): Outcome {
    if c.review.None? || !Matches(c.review.value, c) then Fail
    else
      var findings := c.review.value.findings;
      if findings.verdict == PASSED then
        if HoldsOfPlan(plan) == Holds([]) then Adopt(final) else Fail
      else if findings.verdict == PASSED_WITH_HOLDS then
        if !c.noChange && ApprovesPlan(task.quotes, findings, plan) then Adopt(final) else Fail
      else if findings.verdict == NEEDS_CHANGES then Feedback
      else if findings.verdict == NEEDS_HUMAN then
        if CanReplan(findings, c.noChange || c.request.edits == [], task.original, task.unique, task.quotes)
        then Feedback
        else Adopt(Proposal(NEEDS_HUMAN, "", ON_HOLD + findings.summary, [], []))
      else Fail
  }

  function Decide(task: Task, m: Machine, final: Proposal, c: CandidateRecord): Machine {
    match ReviewedOutcome(task, final, c, m.live.plan)
    case Adopt(proposal) => m.(phase := Done(proposal))
    case Feedback => m.(phase := Editing)
    case Fail => m.(phase := Stopped)
  }

  /** Judged, whatever the verdict; a review that runs or ended in an error may be done again. */
  predicate FinallyReviewed(c: CandidateRecord) {
    c.review.Some? && Verdict(c.review.value) != RUNNING && Verdict(c.review.value) != ERROR
  }

  predicate CurrentNoChange(task: Task, s: RepairState) {
    s.lastCandidate.Some? &&
    var c := s.lastCandidate.value;
    && c.noChange && c.result.passed && c.result.candidateId != ""
    && c.request.baseHash == task.baseHash && c.result.candidateHash == task.baseHash
    && c.request.planRevision == s.plan.revision && c.result.planRevision == s.plan.revision
    && c.request.edits == [] && c.request.addressedItemIds == []
  }

  function NoChangeRecord(task: Task, plan: RepairPlan, candidateId: string): CandidateRecord {
    CandidateRecord(true, CandidateRequest(plan.revision, task.baseHash, [], []),
      Validation(0, candidateId, task.baseHash, plan.revision, true), false, "", None)
  }

  predicate ReviewTarget(task: Task, s: RepairState, final: Proposal) {
    s.lastCandidate.Some? &&
    var c := s.lastCandidate.value;
    && (c.noChange || c.result.attributionVersion == LINE_ATTRIBUTION_VERSION)
    && (c.noChange <==> final.outcome == SKIPPED)
    && c.result.passed && c.result.candidateId == final.candidateId
    && c.request.planRevision == s.plan.revision && c.result.planRevision == s.plan.revision
    && c.request.baseHash == task.baseHash
  }

  function NewReview(task: Task, c: CandidateRecord, reviewId: string): IndependentReview {
    IndependentReview(reviewId, c.result.candidateId, c.request.planRevision,
      Findings(task.baseHash, c.result.candidateHash, RUNNING, "", [], [], []))
  }

  ghost function Gate(task: Task, m: Machine, final: Proposal, reviewId: string, loads: bool, saves: bool): Machine {
    if !ReviewTarget(task, m.live, final) || HoldsOfPlan(m.live.plan).Unlocalized? then m.(phase := Stopped)
    else
      var c := m.live.lastCandidate.value;
      if !c.noChange && !task.kept(m.live.plan, c.request) then m.(phase := Stopped)
      else if FinallyReviewed(c) then Decide(task, m, final, c)
      else if !loads || (!c.noChange && !ExactEdits(task.original, c.request.edits)) then m.(phase := Stopped)
      else
        var asked := c.(reviewRequested := true, reviewNote := final.note);
        Persisted(m.(live := m.live.(lastCandidate := Some(asked))), saves,
          Reviewing(final, NewReview(task, asked, reviewId), -1))
  }

  /** The record of the unchanged source that is to be reviewed, the current one or a new one. */
  function SkipTarget(task: Task, m: Machine, candidateId: string): CandidateRecord {
    if CurrentNoChange(task, m.live) then m.live.lastCandidate.value else NoChangeRecord(task, m.live.plan, candidateId)
  }

  ghost function ReviewFinal(task: Task, m: Machine, final: Proposal, candidateId: string, reviewId: string,
      loads: bool, saves: bool): Machine {
    if final.outcome != MODIFIED && final.outcome != SKIPPED then m.(phase := Done(final))
    else if final.outcome == MODIFIED then Gate(task, m, final, reviewId, loads, saves)
    else if !NoChangePlan(m.live.plan, task.rules) then m.(phase := Stopped)
    else
      var target := SkipTarget(task, m, candidateId);
      var id := target.result.candidateId;
      Gate(task, m.(live := m.live.(lastCandidate := Some(target)), issued := m.issued + {id}),
        final.(candidateId := id), reviewId, loads, saves)
  }

  ghost function AnswerStep(task: Task, m: Machine, answer: FinalAnswer, candidateId: string, reviewId: string,
      loads: bool, saves: bool): Machine {
    match ParseFinal(task, m.live, answer)
    case None => m
    case Some(final) => ReviewFinal(task, m, final, candidateId, reviewId, loads, saves)
  }

  /** The record is put on the candidate and into the history, where it replaces its own earlier version. */
  function Publish(s: RepairState, record: IndependentReview, index: int): RepairState {
    var history := if 0 <= index < |s.reviews| then s.reviews[index := record] else s.reviews + [record];
    if s.lastCandidate.None? then s
    else s.(lastCandidate := Some(s.lastCandidate.value.(review := Some(record))), reviews := history)
  }

  function IndexAfter(s: RepairState, index: int): int { if index < 0 then |s.reviews| else index }

  function ProgressStep(m: Machine, final: Proposal, record: IndependentReview, index: int, partial: Findings,
      saves: bool): Machine {
    var findings := record.findings.(assessments := partial.assessments, issues := partial.issues,
      holdAssessments := partial.holdAssessments);
    var next := record.(findings := findings);
    Persisted(m.(live := Publish(m.live, next, index)), saves, Reviewing(final, next, IndexAfter(m.live, index)))
  }

  ghost function AfterText(task: Task, c: CandidateRecord): Text {
    if c.noChange then task.original else Substitution.Candidate(task.original, c.request.edits)
  }

  function ReviewFailStep(m: Machine, record: IndependentReview, index: int, saves: bool): Machine {
    var failed := record.(findings := record.findings.(verdict := ERROR));
    Persisted(m.(live := Publish(m.live, failed, index)), saves, Stopped)
  }

  ghost function ReviewReturnStep(task: Task, m: Machine, final: Proposal, record: IndependentReview, index: int,
      findings: Findings, saves: bool): Machine {
    if findings.baseHash != record.findings.baseHash || findings.candidateHash != record.findings.candidateHash
      || m.live.lastCandidate.None?
    then ReviewFailStep(m, record, index, saves)
    else
      var next := record.(findings := findings);
      var live := Publish(m.live, next, index);
      var judged := m.(live := live, judged := Some(Judgement(next, AfterText(task, m.live.lastCandidate.value))));
      if saves then Decide(task, judged.(saved := live), final, live.lastCandidate.value) else judged.(phase := Stopped)
  }

  // ----- a new run from the journal -----

  function Upgraded(s: RepairState): RepairState {
    if s.lastCandidate.Some? && s.lastCandidate.value.result.passed && !s.lastCandidate.value.noChange
       && s.lastCandidate.value.result.attributionVersion != LINE_ATTRIBUTION_VERSION
    then s.(lastCandidate := None) else s
  }

  function Recovered(saved: RepairState): RepairState {
    var s := Upgraded(saved);
    if s.staged == [] && s.lastCandidate.Some? && !s.lastCandidate.value.noChange
    then s.(staged := Restaged(s.lastCandidate.value.request.edits)) else s
  }

  ghost function ResumeStep(task: Task, m: Machine, candidateId: string, reviewId: string, loads: bool,
      saves: bool): Machine {
    var s := Recovered(m.saved);
    var next := m.(live := s, phase := Editing);
    if s.lastCandidate.None? then next
    else
      var c := s.lastCandidate.value;
      if !c.reviewRequested || c.request.planRevision != s.plan.revision then next
      else if c.noChange then
        if NoChangePlan(s.plan, task.rules) && CurrentNoChange(task, s) && !IsBlank(c.reviewNote)
        then
          var final := Proposal(SKIPPED, c.result.candidateId, c.reviewNote, [], []);
          ReviewFinal(task, next, final, candidateId, reviewId, loads, saves)
        else next.(phase := Stopped)
      else
        match ParseFinal(task, s, FinalAnswer(MODIFIED, c.result.candidateId, c.reviewNote))
        case None => next.(phase := Stopped)
        case Some(final) => ReviewFinal(task, next, final, candidateId, reviewId, loads, saves)
  }

  // ----- any step -----

  /** Identifiers the runner draws are new; nothing else is asked of the events. */
  predicate DrawsFresh(m: Machine, event: Event) {
    match event
    case ValidatorReturns(result, _) => result.candidateId !in m.issued
    case Answer(_, candidateId, _, _, _) => candidateId != "" && candidateId !in m.issued
    case Resume(candidateId, _, _, _) => candidateId != "" && candidateId !in m.issued
    case _ => true
  }

  ghost function Step(task: Task, m: Machine, event: Event): Machine {
    match event
    case UpdateState(update, paged, saves) => if m.phase.Editing? then UpdateStep(task, m, update, paged, saves) else m
    case StageBatch(batch, saves) => if m.phase.Editing? then StageStep(task, m, batch, saves) else m
    case ValidateStaged(planRevision, baseHash, saves) =>
      if m.phase.Editing? then ValidateStagedStep(task, m, planRevision, baseHash, saves) else m
    case ValidateDirect(request, saves) => if m.phase.Editing? then ValidateStep(task, m, request, true, saves) else m
    case ValidatorReturns(result, saves) =>
      if m.phase.Validating? then ValidatedStep(m, m.phase.request, m.phase.direct, result, saves) else m
    case ValidatorFails => if m.phase.Validating? then m.(phase := Stopped) else m
    case Answer(answer, candidateId, reviewId, loads, saves) =>
      if m.phase.Editing? then AnswerStep(task, m, answer, candidateId, reviewId, loads, saves) else m
    case ReviewProgress(partial, saves) =>
      if m.phase.Reviewing? then ProgressStep(m, m.phase.final, m.phase.record, m.phase.index, partial, saves) else m
    case ReviewReturns(findings, saves) =>
      if m.phase.Reviewing?
      then ReviewReturnStep(task, m, m.phase.final, m.phase.record, m.phase.index, findings, saves)
      else m
    case ReviewFails(saves) => if m.phase.Reviewing? then ReviewFailStep(m, m.phase.record, m.phase.index, saves) else m
    case ReadRule(ruleId) =>
      if m.phase.Editing? then m.(live := m.live.(readRuleIds := m.live.readRuleIds + {ruleId})) else m
    case Save => m.(saved := m.live)
    case Resume(candidateId, reviewId, loads, saves) => ResumeStep(task, m, candidateId, reviewId, loads, saves)
  }

  ghost function After(task: Task, events: seq<Event>): Machine {
    if events == [] then Fresh() else Step(task, After(task, events[..|events| - 1]), events[|events| - 1])
  }

  ghost predicate Possible(task: Task, events: seq<Event>) {
    forall i :: 0 <= i < |events| ==> DrawsFresh(After(task, events[..i]), events[i])
  }
}

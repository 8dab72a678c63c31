/** What every run of the repair loop keeps: what may be adopted, and what a rejection rules out for good. */
module RepairSafety {
  import opened Bytes
  import opened Keyed
  import opened Lists
  import opened Options
  import opened Spaces
  import opened Substitution
  import opened Plans
  import opened PlanUpdates
  import opened PlanRuns
  import opened Candidates
  import opened Reviews
  import opened RepairSteps
  import opened AppliedRules

  // ----- what holds of a state, in memory or on disk -----

  predicate Rejects(review: IndependentReview, candidateId: string) {
    review.candidateId == candidateId && Verdict(review) == NEEDS_CHANGES
  }

  /** Some review in the history asked for changes to a candidate. */
  predicate Rejected(reviews: seq<IndependentReview>, candidateId: string) {
    exists i :: 0 <= i < |reviews| && Rejects(reviews[i], candidateId)
  }

  predicate LastReviewIs(s: RepairState, c: CandidateRecord) {
    c.review.Some? ==>
      && s.reviews != [] && s.reviews[|s.reviews| - 1] == c.review.value
      && c.review.value.candidateId == c.result.candidateId
  }

  ghost predicate RecordSound(task: Task, s: RepairState, c: CandidateRecord, m: Machine) {
    && c.result.candidateId in m.issued
    && c.request.planRevision <= s.plan.revision
    && (!c.noChange ==> m.validated == Some((c.request, c.result)))
    && LastReviewIs(s, c)
    && (FinallyReviewed(c) ==> m.judged == Some(Judgement(c.review.value, AfterText(task, c))))
    && (Rejected(s.reviews, c.result.candidateId) ==> c.review.Some? && Verdict(c.review.value) == NEEDS_CHANGES)
  }

  predicate ReviewsIssued(reviews: seq<IndependentReview>, issued: set<string>) {
    forall i :: 0 <= i < |reviews| ==> reviews[i].candidateId in issued
  }

  ghost predicate CandidateSound(task: Task, s: RepairState, m: Machine) {
    s.lastCandidate.Some? ==> RecordSound(task, s, s.lastCandidate.value, m)
  }

  ghost predicate StateSound(task: Task, s: RepairState, m: Machine) {
    Stored(s.plan, task.at) && ReviewsIssued(s.reviews, m.issued) && CandidateSound(task, s, m)
  }

  /** The journal lags behind, but what it records as finished is never rewritten. */
  predicate Extends(saved: seq<IndependentReview>, live: seq<IndependentReview>) {
    && |saved| <= |live|
    && forall i :: 0 <= i < |saved| && Verdict(saved[i]) != RUNNING ==> live[i] == saved[i]
  }

  // ----- what holds of a phase -----

  ghost predicate ReadyToModify(task: Task, s: RepairState, final: Proposal) {
    && MayModify(task, s, final.candidateId) && CompletePlan(s.plan, Required(task))
    && final.edits == s.lastCandidate.value.request.edits
    && final.rulesApplied == RulesApplied(s.plan.items, s.lastCandidate.value.request.addressedItemIds)
  }

  predicate ReadyToSkip(task: Task, s: RepairState, final: Proposal) {
    && CurrentNoChange(task, s) && NoChangePlan(s.plan, task.rules)
    && s.lastCandidate.value.result.candidateId == final.candidateId && final.edits == [] && final.rulesApplied == []
  }

  ghost predicate Ready(task: Task, s: RepairState, final: Proposal) {
    if final.outcome == MODIFIED
    then ReadyToModify(task, s, final)
    else final.outcome == SKIPPED && ReadyToSkip(task, s, final)
  }

  predicate SameCandidate(c: CandidateRecord, other: CandidateRecord) {
    c.noChange == other.noChange && c.request == other.request && c.result == other.result
  }

  predicate UnderReview(m: Machine) {
    && m.live.lastCandidate.Some? && m.saved.lastCandidate.Some?
    && SameCandidate(m.live.lastCandidate.value, m.saved.lastCandidate.value)
    && !FinallyReviewed(m.live.lastCandidate.value) && !FinallyReviewed(m.saved.lastCandidate.value)
  }

  /** The review is of this candidate, for the plan revision and the texts the candidate was made for. */
  predicate IsOf(record: IndependentReview, c: CandidateRecord) {
    && record.candidateId == c.result.candidateId && record.planRevision == c.request.planRevision
    && record.findings.baseHash == c.request.baseHash && record.findings.candidateHash == c.result.candidateHash
  }

  predicate RecordFits(s: RepairState, record: IndependentReview, index: int) {
    && s.lastCandidate.Some? && IsOf(record, s.lastCandidate.value)
    && Verdict(record) == RUNNING
    && (index < 0 || (index == |s.reviews| - 1 && Verdict(s.reviews[index]) == RUNNING))
  }

  /** What the last review of the candidate says, for the outcome to be adopted. */
  predicate Approved(task: Task, s: RepairState) {
    s.lastCandidate.Some? && s.lastCandidate.value.review.Some? &&
    var c, findings := s.lastCandidate.value, s.lastCandidate.value.review.value.findings;
    && Matches(c.review.value, c)
    && (if c.noChange || findings.verdict == PASSED then findings.verdict == PASSED && HoldsOfPlan(s.plan) == Holds([])
        else ApprovesPlan(task.quotes, findings, s.plan))
  }

  ghost predicate Adopted(task: Task, s: RepairState, proposal: Proposal) {
    proposal.outcome == MODIFIED || proposal.outcome == SKIPPED ==> Ready(task, s, proposal) && Approved(task, s)
  }

  ghost predicate PhaseSound(task: Task, m: Machine) {
    match m.phase
    case Editing => true
    case Validating(request, _) =>
      m.live.lastCandidate.None? && m.saved.lastCandidate.None? && request.planRevision == m.live.plan.revision
    case Reviewing(final, record, index) =>
      Ready(task, m.live, final) && UnderReview(m) && RecordFits(m.live, record, index)
    case Done(proposal) => Adopted(task, m.live, proposal)
    case Stopped => true
  }

  ghost predicate Sound(task: Task, m: Machine) {
    && StateSound(task, m.live, m) && StateSound(task, m.saved, m)
    && Extends(m.saved.reviews, m.live.reviews)
    && PhaseSound(task, m)
  }

  // ----- each step keeps it -----

  lemma ExtendsItself(reviews: seq<IndependentReview>)
    ensures Extends(reviews, reviews)
  {
  }

  lemma PersistedIsSound(task: Task, m: Machine, saves: bool, next: Phase)
    requires StateSound(task, m.live, m) && StateSound(task, m.saved, m) && Extends(m.saved.reviews, m.live.reviews)
    requires saves ==> PhaseSound(task, m.(saved := m.live, phase := next))
    ensures Sound(task, Persisted(m, saves, next))
  {
  }

  lemma UpdateRaisesRevision(current: RepairPlan, update: PlanUpdate, catalog: seq<Rule>, readIds: set<string>,
      at: Locator)
    requires Reliable(at) && Stored(current, at)
    ensures var result := Register(current, update, catalog, readIds, at);
      result.Accepted? ==> Stored(result.plan, at) && result.plan.revision == current.revision + 1
  {
    RegisterConserves(current, update, catalog, readIds, at);
  }

  lemma ReplannedIsSound(task: Task, s: RepairState, plan: RepairPlan, m: Machine)
    requires StateSound(task, s, m) && Stored(plan, task.at) && s.plan.revision <= plan.revision
    ensures StateSound(task, s.(plan := plan), m)
  {
  }

  lemma UpdateIsSound(task: Task, m: Machine, update: PlanUpdate, paged: bool, saves: bool)
    requires Reliable(task.at) && Sound(task, m) && m.phase.Editing?
    ensures Sound(task, UpdateStep(task, m, update, paged, saves))
  {
    var catalog := if paged then Registration(task.rules) else task.rules;
    UpdateRaisesRevision(m.live.plan, update, catalog, m.live.readRuleIds, task.at);
    var result := Register(m.live.plan, update, catalog, m.live.readRuleIds, task.at);
    if result.Accepted? {
      var next := m.(live := m.live.(plan := result.plan));
      ReplannedIsSound(task, m.live, result.plan, m);
      SameLog(task, next.live, m, next);
      SameLog(task, next.saved, m, next);
      PersistedIsSound(task, next, saves, Editing);
    }
  }

  /** Soundness of a state depends on the log alone. */
  lemma SameLog(task: Task, s: RepairState, m: Machine, next: Machine)
    requires StateSound(task, s, m) && m.issued <= next.issued && next.validated == m.validated
    requires next.judged == m.judged
    ensures StateSound(task, s, next)
  {
  }

  lemma StageIsSound(task: Task, m: Machine, batch: StageRequest, saves: bool)
    requires Sound(task, m) && m.phase.Editing?
    ensures Sound(task, StageStep(task, m, batch, saves))
  {
    match StageOf(m.live.plan, m.live.staged, batch, task.original, task.baseHash, task.kept)
    case NotStaged =>
    case Staged(edits) => PersistedIsSound(task, m.(live := m.live.(staged := edits, lastCandidate := None)), saves,
      Editing);
  }

  lemma ValidateIsSound(task: Task, m: Machine, request: CandidateRequest, direct: bool, saves: bool)
    requires Sound(task, m) && m.phase.Editing?
    ensures Sound(task, ValidateStep(task, m, request, direct, saves))
  {
    if Validatable(task, m.live.plan, request) {
      PersistedIsSound(task, m.(live := m.live.(lastCandidate := None)), saves, Validating(request, direct));
    }
  }

  lemma ValidatedIsSound(task: Task, m: Machine, request: CandidateRequest, direct: bool, result: Validation,
      saves: bool)
    requires Sound(task, m) && m.phase == Validating(request, direct) && result.candidateId !in m.issued
    ensures Sound(task, ValidatedStep(m, request, direct, result, saves))
  {
    if Consistent(request, result) {
      var record := CandidateRecord(false, request, result, false, "", None);
      var live := m.live.(lastCandidate := Some(record),
        staged := if direct then Restaged(request.edits) else m.live.staged);
      var next := m.(live := live, issued := m.issued + {result.candidateId}, validated := Some((request, result)),
        judged := None);
      assert !Rejected(live.reviews, result.candidateId);
      assert RecordSound(task, live, record, next);
      PersistedIsSound(task, next, saves, Editing);
    }
  }

  lemma ParsedIsReady(task: Task, s: RepairState, answer: FinalAnswer)
    ensures var parsed := ParseFinal(task, s, answer); parsed.Some? ==>
      && (parsed.value.outcome == MODIFIED ==> ReadyToModify(task, s, parsed.value))
      && (parsed.value.outcome == SKIPPED ==> parsed.value.edits == [] && parsed.value.rulesApplied == [])
  {
    hide ExactEdits, FitsPlan, CompletePlan;
  }

  lemma AdoptIsSound(task: Task, s: RepairState, final: Proposal, c: CandidateRecord, proposal: Proposal)
    requires s.lastCandidate == Some(c) && Ready(task, s, final)
    requires ReviewedOutcome(task, final, c, s.plan) == Adopt(proposal)
    ensures Adopted(task, s, proposal)
  {
    hide ExactEdits, FitsPlan, CompletePlan, NoChangePlan, ApprovesPlan;
    if proposal.outcome == MODIFIED || proposal.outcome == SKIPPED {
      var findings := c.review.value.findings;
      assert findings.verdict == PASSED ==> HoldsOfPlan(s.plan) == Holds([]);
      assert findings.verdict == PASSED_WITH_HOLDS ==> !c.noChange && ApprovesPlan(task.quotes, findings, s.plan);
    }
  }

  lemma DecideIsSound(task: Task, m: Machine, final: Proposal, c: CandidateRecord)
    requires StateSound(task, m.live, m) && StateSound(task, m.saved, m) && Extends(m.saved.reviews, m.live.reviews)
    requires m.live.lastCandidate == Some(c) && Ready(task, m.live, final)
    ensures Sound(task, Decide(task, m, final, c))
  {
    hide ExactEdits, FitsPlan, CompletePlan, Stored, NoChangePlan;
    var next := Decide(task, m, final, c);
    SameLog(task, m.live, m, next);
    SameLog(task, m.saved, m, next);
    var outcome := ReviewedOutcome(task, final, c, m.live.plan);
    if outcome.Adopt? {
      AdoptIsSound(task, m.live, final, c, outcome.proposal);
    }
  }

  lemma AskedIsSound(task: Task, m: Machine, c: CandidateRecord, asked: CandidateRecord)
    requires StateSound(task, m.live, m) && m.live.lastCandidate == Some(c)
    requires asked == c.(reviewRequested := asked.reviewRequested, reviewNote := asked.reviewNote)
    ensures StateSound(task, m.live.(lastCandidate := Some(asked)), m)
  {
  }

  lemma ReadyWhenAsked(task: Task, s: RepairState, final: Proposal, asked: CandidateRecord)
    requires Ready(task, s, final)
    requires asked == s.lastCandidate.value.(reviewRequested := asked.reviewRequested,
        reviewNote := asked.reviewNote, review := asked.review)
    ensures Ready(task, s.(lastCandidate := Some(asked)), final)
  {
  }

  lemma GateIsSound(task: Task, m: Machine, final: Proposal, reviewId: string, loads: bool, saves: bool)
    requires StateSound(task, m.live, m) && StateSound(task, m.saved, m) && Extends(m.saved.reviews, m.live.reviews)
    requires Ready(task, m.live, final)
    ensures Sound(task, Gate(task, m, final, reviewId, loads, saves))
  {
    hide ExactEdits, FitsPlan, CompletePlan, Stored, NoChangePlan;
    var c := m.live.lastCandidate.value;
    var asked := c.(reviewRequested := true, reviewNote := final.note);
    if FinallyReviewed(c) {
      DecideIsSound(task, m, final, c);
    } else {
      AskedIsSound(task, m, c, asked);
      ReadyWhenAsked(task, m.live, final, asked);
      PersistedIsSound(task, m.(live := m.live.(lastCandidate := Some(asked))), saves,
        Reviewing(final, NewReview(task, asked, reviewId), -1));
    }
  }

  lemma SkipTargetIsSound(task: Task, m: Machine, candidateId: string)
    requires StateSound(task, m.live, m) && candidateId !in m.issued
    ensures var target := SkipTarget(task, m, candidateId); var id := target.result.candidateId;
      StateSound(task, m.live.(lastCandidate := Some(target)), m.(issued := m.issued + {id}))
    ensures
      candidateId != "" ==> CurrentNoChange(task, m.live.(lastCandidate := Some(SkipTarget(task, m, candidateId))))
  {
    var target := SkipTarget(task, m, candidateId);
    if !CurrentNoChange(task, m.live) {
      assert !Rejected(m.live.reviews, candidateId);
    }
  }

  lemma ReviewFinalIsSound(task: Task, m: Machine, final: Proposal, candidateId: string, reviewId: string,
      loads: bool, saves: bool)
    requires StateSound(task, m.live, m) && StateSound(task, m.saved, m) && Extends(m.saved.reviews, m.live.reviews)
    requires candidateId !in m.issued && candidateId != ""
    requires final.outcome == MODIFIED ==> ReadyToModify(task, m.live, final)
    requires final.outcome == SKIPPED ==> final.edits == [] && final.rulesApplied == []
    ensures Sound(task, ReviewFinal(task, m, final, candidateId, reviewId, loads, saves))
  {
    hide ExactEdits, FitsPlan, CompletePlan, Stored, NoChangePlan;
    if final.outcome == MODIFIED {
      GateIsSound(task, m, final, reviewId, loads, saves);
    } else if final.outcome == SKIPPED && NoChangePlan(m.live.plan, task.rules) {
      var target := SkipTarget(task, m, candidateId);
      var id := target.result.candidateId;
      var next := m.(live := m.live.(lastCandidate := Some(target)), issued := m.issued + {id});
      SkipTargetIsSound(task, m, candidateId);
      SameLog(task, m.saved, m, next);
      SameLog(task, next.live, m.(issued := m.issued + {id}), next);
      GateIsSound(task, next, final.(candidateId := id), reviewId, loads, saves);
    }
  }

  lemma AnswerIsSound(task: Task, m: Machine, answer: FinalAnswer, candidateId: string, reviewId: string,
      loads: bool, saves: bool)
    requires Sound(task, m) && m.phase.Editing? && candidateId !in m.issued && candidateId != ""
    ensures Sound(task, AnswerStep(task, m, answer, candidateId, reviewId, loads, saves))
  {
    hide ExactEdits, FitsPlan, CompletePlan, Stored, NoChangePlan;
    ParsedIsReady(task, m.live, answer);
    match ParseFinal(task, m.live, answer)
    case None =>
    case Some(final) => ReviewFinalIsSound(task, m, final, candidateId, reviewId, loads, saves);
  }

  // ----- reviews in progress -----

  lemma NotYetRejected(task: Task, s: RepairState, m: Machine)
    requires StateSound(task, s, m) && s.lastCandidate.Some? && !FinallyReviewed(s.lastCandidate.value)
    ensures !Rejected(s.reviews, s.lastCandidate.value.result.candidateId)
  {
  }

  lemma PublishedHistory(s: RepairState, saved: seq<IndependentReview>, record: IndependentReview,
      next: IndependentReview, index: int)
    requires RecordFits(s, record, index) && Extends(saved, s.reviews) && next.candidateId == record.candidateId
    ensures var reviews := Publish(s, next, index).reviews;
      && reviews != [] && reviews[|reviews| - 1] == next
      && Extends(saved, reviews)
      && (Verdict(next) == RUNNING && IsOf(next, s.lastCandidate.value) ==>
            RecordFits(Publish(s, next, index), next, IndexAfter(s, index)))
  {
  }

  lemma PublishedRejections(s: RepairState, record: IndependentReview, next: IndependentReview, index: int)
    requires RecordFits(s, record, index) && next.candidateId == record.candidateId
    requires !Rejected(s.reviews, record.candidateId)
    ensures Rejected(Publish(s, next, index).reviews, record.candidateId) ==> Verdict(next) == NEEDS_CHANGES
  {
    var reviews := Publish(s, next, index).reviews;
    if i :| 0 <= i < |reviews| && Rejects(reviews[i], record.candidateId) {
      assert reviews[i] == next || (i < |s.reviews| && reviews[i] == s.reviews[i]);
    }
  }

  lemma PublishedState(task: Task, m: Machine, record: IndependentReview, index: int, next: IndependentReview,
      judged: Option<Judgement>)
    requires StateSound(task, m.live, m) && UnderReview(m) && RecordFits(m.live, record, index)
    requires next.candidateId == record.candidateId
    requires FinallyReviewed(m.live.lastCandidate.value.(review := Some(next))) ==>
        judged == Some(Judgement(next, AfterText(task, m.live.lastCandidate.value)))
    ensures var live := Publish(m.live, next, index); StateSound(task, live, m.(live := live, judged := judged))
  {
    var live := Publish(m.live, next, index);
    NotYetRejected(task, m.live, m);
    PublishedRejections(m.live, record, next, index);
    PublishedRecord(task, m, record, index, next, judged);
    forall i | 0 <= i < |live.reviews| ensures live.reviews[i].candidateId in m.issued {
      assert live.reviews[i] == next || (i < |m.live.reviews| && live.reviews[i] == m.live.reviews[i]);
    }
  }

  lemma PublishedIsSound(task: Task, m: Machine, final: Proposal, record: IndependentReview, index: int,
      next: IndependentReview, judged: Option<Judgement>)
    requires Sound(task, m) && m.phase == Reviewing(final, record, index)
    requires next.candidateId == record.candidateId
    requires FinallyReviewed(m.live.lastCandidate.value.(review := Some(next))) ==>
        judged == Some(Judgement(next, AfterText(task, m.live.lastCandidate.value)))
    ensures var live, after := Publish(m.live, next, index), m.(live := Publish(m.live, next, index), judged := judged);
      && StateSound(task, live, after) && StateSound(task, m.saved, after) && Extends(m.saved.reviews, live.reviews)
      && Ready(task, live, final)
  {
    hide ExactEdits, FitsPlan, CompletePlan, Stored, NoChangePlan;
    var live := Publish(m.live, next, index);
    PublishedState(task, m, record, index, next, judged);
    PublishedHistory(m.live, m.saved.reviews, record, next, index);
    StillReady(task, m.live, final, next, index);
    SavedWhileJudging(task, m, m.(live := live, judged := judged));
  }

  lemma StillReady(task: Task, s: RepairState, final: Proposal, next: IndependentReview, index: int)
    requires Ready(task, s, final)
    ensures Ready(task, Publish(s, next, index), final)
  {
  }

  lemma PublishedRecord(task: Task, m: Machine, record: IndependentReview, index: int, next: IndependentReview,
      judged: Option<Judgement>)
    requires m.live.lastCandidate.Some? && RecordSound(task, m.live, m.live.lastCandidate.value, m)
    requires RecordFits(m.live, record, index)
    requires next.candidateId == record.candidateId
    requires FinallyReviewed(m.live.lastCandidate.value.(review := Some(next))) ==>
        judged == Some(Judgement(next, AfterText(task, m.live.lastCandidate.value)))
    requires Rejected(Publish(m.live, next, index).reviews, record.candidateId) ==> Verdict(next) == NEEDS_CHANGES
    ensures var live := Publish(m.live, next, index);
      RecordSound(task, live, live.lastCandidate.value, m.(live := live, judged := judged))
  {
    var live, c := Publish(m.live, next, index), m.live.lastCandidate.value;
    assert AfterText(task, live.lastCandidate.value) == AfterText(task, c);
  }

  lemma SavedWhileJudging(task: Task, m: Machine, after: Machine)
    requires StateSound(task, m.saved, m) && UnderReview(m)
    requires after.issued == m.issued && after.validated == m.validated
    ensures StateSound(task, m.saved, after)
  {
  }

  lemma ProgressIsSound(task: Task, m: Machine, partial: Findings, saves: bool)
    requires Sound(task, m) && m.phase.Reviewing?
    ensures Sound(task, ProgressStep(m, m.phase.final, m.phase.record, m.phase.index, partial, saves))
  {
    var final, record, index := m.phase.final, m.phase.record, m.phase.index;
    var findings := record.findings.(assessments := partial.assessments, issues := partial.issues,
      holdAssessments := partial.holdAssessments);
    var next := record.(findings := findings);
    var after := m.(live := Publish(m.live, next, index));
    PublishedIsSound(task, m, final, record, index, next, m.judged);
    PublishedHistory(m.live, m.saved.reviews, record, next, index);
    assert after == m.(live := after.live, judged := m.judged);
    PersistedIsSound(task, after, saves, Reviewing(final, next, IndexAfter(m.live, index)));
  }

  lemma ReviewFailIsSound(task: Task, m: Machine, saves: bool)
    requires Sound(task, m) && m.phase.Reviewing?
    ensures Sound(task, ReviewFailStep(m, m.phase.record, m.phase.index, saves))
  {
    var record, index := m.phase.record, m.phase.index;
    var failed := record.(findings := record.findings.(verdict := ERROR));
    var after := m.(live := Publish(m.live, failed, index));
    PublishedIsSound(task, m, m.phase.final, record, index, failed, m.judged);
    assert after == m.(live := after.live, judged := m.judged);
    PersistedIsSound(task, after, saves, Stopped);
  }


  lemma JudgedIsSound(task: Task, m: Machine, next: IndependentReview, saves: bool)
    requires Sound(task, m) && m.phase.Reviewing? && next.candidateId == m.phase.record.candidateId
    ensures var live := Publish(m.live, next, m.phase.index);
      var judged := m.(live := live, judged := Some(Judgement(next, AfterText(task, m.live.lastCandidate.value))));
      if saves then Sound(task, Decide(task, judged.(saved := live), m.phase.final, live.lastCandidate.value))
      else Sound(task, judged.(phase := Stopped))
  {
    hide ExactEdits, FitsPlan, CompletePlan, Stored, NoChangePlan;
    var final, live := m.phase.final, Publish(m.live, next, m.phase.index);
    var judgement := Some(Judgement(next, AfterText(task, m.live.lastCandidate.value)));
    var judged := m.(live := live, judged := judgement);
    PublishedIsSound(task, m, final, m.phase.record, m.phase.index, next, judgement);
    if saves {
      var kept := judged.(saved := live);
      SameLog(task, live, judged, kept);
      DecideIsSound(task, kept, final, live.lastCandidate.value);
    } else {
      var stopped := judged.(phase := Stopped);
      SameLog(task, live, judged, stopped);
      SameLog(task, m.saved, judged, stopped);
    }
  }

  lemma ReturnedIsSound(task: Task, m: Machine, findings: Findings, saves: bool)
    requires Sound(task, m) && m.phase.Reviewing?
    ensures Sound(task, ReviewReturnStep(task, m, m.phase.final, m.phase.record, m.phase.index, findings, saves))
  {
    hide ExactEdits, FitsPlan, CompletePlan, Stored, NoChangePlan;
    ReviewFailIsSound(task, m, saves);
    JudgedIsSound(task, m, m.phase.record.(findings := findings), saves);
  }

  // ----- a new run from the journal -----

  lemma RecoveredIsSound(task: Task, m: Machine)
    requires StateSound(task, m.saved, m)
    ensures StateSound(task, Recovered(m.saved), m) && Recovered(m.saved).reviews == m.saved.reviews
  {
  }

  lemma ResumedState(task: Task, m: Machine)
    requires Sound(task, m)
    ensures var next := m.(live := Recovered(m.saved), phase := Editing);
      && StateSound(task, next.live, next) && StateSound(task, next.saved, next)
      && Extends(next.saved.reviews, next.live.reviews) && Sound(task, next)
  {
    hide ExactEdits, FitsPlan, CompletePlan, Stored, NoChangePlan;
    var next := m.(live := Recovered(m.saved), phase := Editing);
    RecoveredIsSound(task, m);
    SameLog(task, next.live, m, next);
    SameLog(task, next.saved, m, next);
    ExtendsItself(next.live.reviews);
  }

  lemma StoppedIsSound(task: Task, m: Machine)
    requires Sound(task, m)
    ensures Sound(task, m.(phase := Stopped))
  {
    hide ExactEdits, FitsPlan, CompletePlan, Stored, NoChangePlan;
    var next := m.(phase := Stopped);
    SameLog(task, next.live, m, next);
    SameLog(task, next.saved, m, next);
  }

  lemma ResumeIsSound(task: Task, m: Machine, candidateId: string, reviewId: string, loads: bool, saves: bool)
    requires Sound(task, m) && candidateId !in m.issued && candidateId != ""
    ensures Sound(task, ResumeStep(task, m, candidateId, reviewId, loads, saves))
  {
    hide ExactEdits, FitsPlan, CompletePlan, Stored, NoChangePlan, Sound, StateSound, Extends, ReviewFinal,
        ParseFinal, ReadyToModify;
    var s := Recovered(m.saved);
    var next := m.(live := s, phase := Editing);
    ResumedState(task, m);
    StoppedIsSound(task, next);
    if s.lastCandidate.Some? {
      var c := s.lastCandidate.value;
      var answer := FinalAnswer(MODIFIED, c.result.candidateId, c.reviewNote);
      ParsedIsReady(task, s, answer);
      ReviewFinalIsSound(task, next, Proposal(SKIPPED, c.result.candidateId, c.reviewNote, [], []), candidateId,
        reviewId, loads, saves);
      var parsed := ParseFinal(task, s, answer);
      if parsed.Some? {
        ReviewFinalIsSound(task, next, parsed.value, candidateId, reviewId, loads, saves);
      }
    }
  }

  lemma SaveIsSound(task: Task, m: Machine)
    requires Sound(task, m)
    ensures Sound(task, m.(saved := m.live))
  {
  }

  lemma ReadRuleIsSound(task: Task, m: Machine, ruleId: string)
    requires Sound(task, m)
    ensures m.phase.Editing? ==> Sound(task, m.(live := m.live.(readRuleIds := m.live.readRuleIds + {ruleId})))
  {
  }

  lemma StepIsSound(task: Task, m: Machine, event: Event)
    requires Reliable(task.at) && Sound(task, m) && DrawsFresh(m, event)
    ensures Sound(task, Step(task, m, event))
  {
    hide Sound, StateSound, Extends, PhaseSound, ExactEdits, FitsPlan, UpdateStep, StageStep, AnswerStep, ResumeStep,
        ValidatedStep, ProgressStep, ReviewReturnStep, ReviewFailStep, ValidateStep;
    match event
    case UpdateState(update, paged, saves) => if m.phase.Editing? { UpdateIsSound(task, m, update, paged, saves); }
    case StageBatch(batch, saves) => if m.phase.Editing? { StageIsSound(task, m, batch, saves); }
    case ValidateStaged(planRevision, baseHash, saves) =>
      if m.phase.Editing? { ValidateIsSound(task, m, RequestFor(planRevision, baseHash, m.live.staged), false, saves); }
    case ValidateDirect(request, saves) => if m.phase.Editing? { ValidateIsSound(task, m, request, true, saves); }
    case ValidatorReturns(result, saves) =>
      if m.phase.Validating? { ValidatedIsSound(task, m, m.phase.request, m.phase.direct, result, saves); }
    case ValidatorFails => StoppedIsSound(task, m);
    case Answer(answer, candidateId, reviewId, loads, saves) =>
      if m.phase.Editing? { AnswerIsSound(task, m, answer, candidateId, reviewId, loads, saves); }
    case ReviewProgress(partial, saves) => if m.phase.Reviewing? { ProgressIsSound(task, m, partial, saves); }
    case ReviewReturns(findings, saves) => if m.phase.Reviewing? { ReturnedIsSound(task, m, findings, saves); }
    case ReviewFails(saves) => if m.phase.Reviewing? { ReviewFailIsSound(task, m, saves); }
    case ReadRule(ruleId) => ReadRuleIsSound(task, m, ruleId);
    case Save => SaveIsSound(task, m);
    case Resume(candidateId, reviewId, loads, saves) => ResumeIsSound(task, m, candidateId, reviewId, loads, saves);
  }

  // ----- whole runs -----

  lemma PossibleFront(task: Task, events: seq<Event>)
    requires events != [] && Possible(task, events)
    ensures Possible(task, events[..|events| - 1])
    ensures DrawsFresh(After(task, events[..|events| - 1]), events[|events| - 1])
  {
    var front := events[..|events| - 1];
    forall i | 0 <= i < |front| ensures DrawsFresh(After(task, front[..i]), front[i]) {
      assert front[..i] == events[..i];
    }
  }

  lemma {:induction false} EveryRunIsSound(task: Task, events: seq<Event>)
    requires Reliable(task.at) && Possible(task, events)
    ensures Sound(task, After(task, events))
  {
    if events != [] {
      var front := events[..|events| - 1];
      PossibleFront(task, events);
      EveryRunIsSound(task, front);
      StepIsSound(task, After(task, front), events[|events| - 1]);
    }
  }

  /** The candidate was the last one validated, for this plan, and its very text was then reviewed. */
  ghost predicate ValidatedThenReviewed(task: Task, m: Machine, proposal: Proposal, request: CandidateRequest,
      result: Validation) {
    && m.validated == Some((request, result)) && result.passed
    && result.candidateId == proposal.candidateId && request.edits == proposal.edits
    && request.planRevision == result.planRevision == m.live.plan.revision && request.baseHash == task.baseHash
    && m.judged.Some? && m.judged.value.text == Substitution.Candidate(task.original, proposal.edits)
    && m.judged.value.review.candidateId == result.candidateId
    && m.judged.value.review.findings.candidateHash == result.candidateHash
  }

  /** The review lets it through: with no holds at all, or keeping every hold of the plan. */
  ghost predicate ReviewAllows(task: Task, m: Machine) {
    m.judged.Some? &&
    var findings := m.judged.value.review.findings;
    || (findings.verdict == PASSED && HoldsOfPlan(m.live.plan) == Holds([]))
    || (findings.verdict == PASSED_WITH_HOLDS && ApprovesPlan(task.quotes, findings, m.live.plan))
  }

  lemma ApprovedAllows(task: Task, m: Machine, c: CandidateRecord)
    requires m.live.lastCandidate == Some(c) && Approved(task, m.live) && RecordSound(task, m.live, c, m)
    ensures m.judged == Some(Judgement(c.review.value, AfterText(task, c))) && Matches(c.review.value, c)
    ensures ReviewAllows(task, m)
  {
    var verdict := Verdict(c.review.value);
    assert verdict == PASSED || verdict == PASSED_WITH_HOLDS;
    assert FinallyReviewed(c);
  }

  lemma ReadyWasValidated(task: Task, m: Machine, c: CandidateRecord, proposal: Proposal)
    requires m.live.lastCandidate == Some(c) && RecordSound(task, m.live, c, m)
    requires NamesLast(task, m.live, proposal.candidateId) && proposal.edits == c.request.edits
    requires c.review.Some? && m.judged == Some(Judgement(c.review.value, AfterText(task, c)))
    requires Matches(c.review.value, c)
    ensures m.validated == Some((c.request, c.result)) && ValidatedThenReviewed(task, m, proposal, c.request, c.result)
  {
  }

  ghost predicate ModificationEarned(task: Task, m: Machine, proposal: Proposal) {
    && m.validated.Some?
    && ValidatedThenReviewed(task, m, proposal, m.validated.value.0, m.validated.value.1)
    && ReviewAllows(task, m)
    && CompletePlan(m.live.plan, Required(task)) && FitsPlan(m.live.plan, m.validated.value.0)
    && ExactEdits(task.original, proposal.edits) && task.kept(m.live.plan, m.validated.value.0)
    && proposal.rulesApplied == RulesApplied(m.live.plan.items, m.validated.value.0.addressedItemIds)
  }

  lemma ModificationIsEarned(task: Task, m: Machine, proposal: Proposal)
    requires CandidateSound(task, m.live, m) && Adopted(task, m.live, proposal) && proposal.outcome == MODIFIED
    ensures ModificationEarned(task, m, proposal)
  {
    var c := m.live.lastCandidate.value;
    ApprovedAllows(task, m, c);
    ReadyWasValidated(task, m, c, proposal);
  }

  /**
   * In every run, an adopted modification carries exactly the edits last validated as passed and then reviewed, for
   * the current plan, with every rule decided and exactly the items that are not held addressed; and it names exactly
   * the rules of these items, each once, in the order of the plan.
   */
  lemma AdoptedModification(task: Task, events: seq<Event>)
    requires Reliable(task.at) && Possible(task, events)
    ensures var m := After(task, events);
      m.phase.Done? && m.phase.proposal.outcome == MODIFIED ==>
        && ModificationEarned(task, m, m.phase.proposal)
        && NamesSafeRules(m.live.plan.items, m.phase.proposal.rulesApplied)
        && forall id :: id in Linked(m.phase.proposal.edits) <==> IsAddressable(m.live.plan.items, id)
  {
    EveryRunIsSound(task, events);
    var m := After(task, events);
    if m.phase.Done? && m.phase.proposal.outcome == MODIFIED {
      ModificationIsEarned(task, m, m.phase.proposal);
      SafeRulesAreApplied(m.live.plan, m.validated.value.0);
      forall id ensures id in Linked(m.phase.proposal.edits) <==> IsAddressable(m.live.plan.items, id) {
        SafeItemsExactly(m.live.plan, m.validated.value.0, id);
      }
    }
  }

  /** The last review passed, and judged the unchanged source at the current revision. */
  ghost predicate SkipEarned(task: Task, m: Machine, proposal: Proposal) {
    && proposal.edits == [] && proposal.rulesApplied == [] && NoChangePlan(m.live.plan, task.rules)
    && m.judged.Some? && m.judged.value.text == task.original
    && m.live.reviews != [] && m.live.reviews[|m.live.reviews| - 1] == m.judged.value.review
    && m.judged.value.review.findings.verdict == PASSED
    && m.judged.value.review.findings.baseHash == m.judged.value.review.findings.candidateHash == task.baseHash
    && m.judged.value.review.planRevision == m.live.plan.revision
    && m.judged.value.review.candidateId == proposal.candidateId
  }

  lemma SkipIsEarned(task: Task, m: Machine, proposal: Proposal)
    requires CandidateSound(task, m.live, m) && Adopted(task, m.live, proposal) && proposal.outcome == SKIPPED
    ensures SkipEarned(task, m, proposal)
  {
    hide ExactEdits, FitsPlan, CompletePlan, NoChangePlan, ApprovesPlan, Rejected;
    var c := m.live.lastCandidate.value;
    ApprovedAllows(task, m, c);
  }

  /** In every run, an adopted skip rests on a passed review of the unchanged source at the current revision. */
  lemma AdoptedSkip(task: Task, events: seq<Event>)
    requires Reliable(task.at) && Possible(task, events)
    ensures var m := After(task, events);
      m.phase.Done? && m.phase.proposal.outcome == SKIPPED ==> SkipEarned(task, m, m.phase.proposal)
  {
    hide SkipEarned, Adopted, CandidateSound;
    EveryRunIsSound(task, events);
    var m := After(task, events);
    if m.phase.Done? && m.phase.proposal.outcome == SKIPPED {
      SkipIsEarned(task, m, m.phase.proposal);
    }
  }

  // ----- rejection -----

  lemma ExtendsKeepsRejections(saved: seq<IndependentReview>, live: seq<IndependentReview>, candidateId: string)
    requires Extends(saved, live) && Rejected(saved, candidateId)
    ensures Rejected(live, candidateId)
  {
    var i :| 0 <= i < |saved| && Rejects(saved[i], candidateId);
    assert Rejects(live[i], candidateId);
  }

  /** No outcome that is adopted names a candidate the journal records as rejected. */
  lemma RejectedIsNotAdopted(task: Task, m: Machine)
    requires Sound(task, m) && m.phase.Done?
    requires (m.phase.proposal.outcome == MODIFIED || m.phase.proposal.outcome == SKIPPED)
    ensures !Rejected(m.saved.reviews, m.phase.proposal.candidateId)
  {
    if Rejected(m.saved.reviews, m.phase.proposal.candidateId) {
      ExtendsKeepsRejections(m.saved.reviews, m.live.reviews, m.phase.proposal.candidateId);
      assert false;
    }
  }

  /** Every save keeps the rejections of the journal. */
  lemma StepExtends(task: Task, m: Machine, event: Event)
    requires Reliable(task.at) && Sound(task, m) && DrawsFresh(m, event)
    ensures Extends(m.saved.reviews, Step(task, m, event).saved.reviews)
  {
    hide StateSound, PhaseSound, ExactEdits, FitsPlan, AnswerStep, ResumeStep, ProgressStep, ReviewReturnStep,
        ReviewFailStep;
    ExtendsItself(m.saved.reviews);
    match event
    case ReviewProgress(partial, saves) => if m.phase.Reviewing? { ProgressExtends(task, m, partial, saves); }
    case ReviewReturns(findings, saves) => if m.phase.Reviewing? { ReturnExtends(task, m, findings, saves); }
    case ReviewFails(saves) => if m.phase.Reviewing? { FailExtends(task, m, saves); }
    case Answer(answer, candidateId, reviewId, loads, saves) =>
      if m.phase.Editing? { AnswerExtends(task, m, answer, candidateId, reviewId, loads, saves); }
    case Resume(candidateId, reviewId, loads, saves) => ResumeExtends(task, m, candidateId, reviewId, loads, saves);
    case _ =>
  }

  lemma ProgressExtends(task: Task, m: Machine, partial: Findings, saves: bool)
    requires Sound(task, m) && m.phase.Reviewing?
    ensures Extends(m.saved.reviews, ProgressStep(m, m.phase.final, m.phase.record, m.phase.index, partial,
        saves).saved.reviews)
  {
    var record := m.phase.record;
    var next := record.(findings := record.findings.(assessments := partial.assessments, issues := partial.issues,
      holdAssessments := partial.holdAssessments));
    PublishedHistory(m.live, m.saved.reviews, record, next, m.phase.index);
    ExtendsItself(m.saved.reviews);
  }

  lemma FailExtends(task: Task, m: Machine, saves: bool)
    requires Sound(task, m) && m.phase.Reviewing?
    ensures Extends(m.saved.reviews, ReviewFailStep(m, m.phase.record, m.phase.index, saves).saved.reviews)
  {
    var record := m.phase.record;
    PublishedHistory(m.live, m.saved.reviews, record, record.(findings := record.findings.(verdict := ERROR)),
      m.phase.index);
    ExtendsItself(m.saved.reviews);
  }

  lemma ReturnExtends(task: Task, m: Machine, findings: Findings, saves: bool)
    requires Sound(task, m) && m.phase.Reviewing?
    ensures Extends(m.saved.reviews,
      ReviewReturnStep(task, m, m.phase.final, m.phase.record, m.phase.index, findings, saves).saved.reviews)
  {
    hide ExactEdits, FitsPlan, CompletePlan, Stored, NoChangePlan;
    var record := m.phase.record;
    var next := record.(findings := findings);
    FailExtends(task, m, saves);
    PublishedHistory(m.live, m.saved.reviews, record, next, m.phase.index);
    ExtendsItself(m.saved.reviews);
    var live := Publish(m.live, next, m.phase.index);
    var judged := m.(live := live, judged := Some(Judgement(next, AfterText(task, m.live.lastCandidate.value))),
      saved := live);
    DecideKeepsState(task, judged, m.phase.final, live.lastCandidate.value);
  }

  lemma DecideKeepsState(task: Task, m: Machine, final: Proposal, c: CandidateRecord)
    ensures Decide(task, m, final, c) == m.(phase := Decide(task, m, final, c).phase)
  {
  }

  lemma GateExtends(task: Task, m: Machine, final: Proposal, reviewId: string, loads: bool, saves: bool)
    requires Extends(m.saved.reviews, m.live.reviews)
    ensures Extends(m.saved.reviews, Gate(task, m, final, reviewId, loads, saves).saved.reviews)
  {
    ExtendsItself(m.saved.reviews);
  }

  lemma ReviewFinalExtends(task: Task, m: Machine, final: Proposal, candidateId: string, reviewId: string,
      loads: bool, saves: bool)
    requires Extends(m.saved.reviews, m.live.reviews)
    ensures Extends(m.saved.reviews, ReviewFinal(task, m, final, candidateId, reviewId, loads, saves).saved.reviews)
  {
    ExtendsItself(m.saved.reviews);
    GateExtends(task, m, final, reviewId, loads, saves);
    var target := SkipTarget(task, m, candidateId);
    var id := target.result.candidateId;
    GateExtends(task, m.(live := m.live.(lastCandidate := Some(target)), issued := m.issued + {id}),
      final.(candidateId := id), reviewId, loads, saves);
  }

  lemma AnswerExtends(task: Task, m: Machine, answer: FinalAnswer, candidateId: string, reviewId: string,
      loads: bool, saves: bool)
    requires Extends(m.saved.reviews, m.live.reviews)
    ensures Extends(m.saved.reviews, AnswerStep(task, m, answer, candidateId, reviewId, loads, saves).saved.reviews)
  {
    ExtendsItself(m.saved.reviews);
    var parsed := ParseFinal(task, m.live, answer);
    if parsed.Some? {
      ReviewFinalExtends(task, m, parsed.value, candidateId, reviewId, loads, saves);
    }
  }

  lemma ResumeExtends(task: Task, m: Machine, candidateId: string, reviewId: string, loads: bool, saves: bool)
    requires Sound(task, m)
    ensures Extends(m.saved.reviews, ResumeStep(task, m, candidateId, reviewId, loads, saves).saved.reviews)
  {
    ExtendsItself(m.saved.reviews);
    RecoveredIsSound(task, m);
    var s := Recovered(m.saved);
    var next := m.(live := s, phase := Editing);
    if s.lastCandidate.Some? {
      var c := s.lastCandidate.value;
      ReviewFinalExtends(task, next, Proposal(SKIPPED, c.result.candidateId, c.reviewNote, [], []), candidateId,
        reviewId, loads, saves);
      var parsed := ParseFinal(task, s, FinalAnswer(MODIFIED, c.result.candidateId, c.reviewNote));
      if parsed.Some? {
        ReviewFinalExtends(task, next, parsed.value, candidateId, reviewId, loads, saves);
      }
    }
  }

  lemma {:induction false} RejectionsStay(task: Task, events: seq<Event>, k: nat, candidateId: string)
    requires Reliable(task.at) && Possible(task, events) && k <= |events|
    requires Rejected(After(task, events[..k]).saved.reviews, candidateId)
    ensures Rejected(After(task, events).saved.reviews, candidateId)
    decreases |events|
  {
    hide ExactEdits, FitsPlan, CompletePlan, Stored, NoChangePlan;
    if k == |events| {
      assert events[..k] == events;
    } else {
      var front := events[..|events| - 1];
      assert front[..k] == events[..k];
      PossibleFront(task, events);
      RejectionsStay(task, front, k, candidateId);
      EveryRunIsSound(task, front);
      var m := After(task, front);
      StepExtends(task, m, events[|events| - 1]);
      ExtendsKeepsRejections(m.saved.reviews, Step(task, m, events[|events| - 1]).saved.reviews, candidateId);
    }
  }

  /** Once the journal records that a candidate needs changes, no later step of any run adopts that candidate. */
  lemma RejectionIsPermanent(task: Task, events: seq<Event>, k: nat, candidateId: string)
    requires Reliable(task.at) && Possible(task, events) && k <= |events|
    requires Rejected(After(task, events[..k]).saved.reviews, candidateId)
    ensures var m := After(task, events);
      m.phase.Done? && (m.phase.proposal.outcome == MODIFIED || m.phase.proposal.outcome == SKIPPED) ==>
        m.phase.proposal.candidateId != candidateId
  {
    hide ExactEdits, FitsPlan, CompletePlan, Stored, NoChangePlan;
    RejectionsStay(task, events, k, candidateId);
    EveryRunIsSound(task, events);
    var m := After(task, events);
    if m.phase.Done? && (m.phase.proposal.outcome == MODIFIED || m.phase.proposal.outcome == SKIPPED) {
      RejectedIsNotAdopted(task, m);
    }
  }

  // ----- what invalidates a candidate -----

  /**
   * After the plan was updated or edits were staged, no final answer can select a candidate until another is validated.
   */
  lemma ChangesInvalidateTheCandidate(task: Task, m: Machine, event: Event, answer: FinalAnswer)
    requires Reliable(task.at) && Sound(task, m) && m.phase.Editing? && (event.UpdateState? || event.StageBatch?)
    requires Step(task, m, event).live != m.live && answer.outcome == MODIFIED
    ensures ParseFinal(task, Step(task, m, event).live, answer) == None
  {
    hide ExactEdits, FitsPlan, CompletePlan, ApprovesPlan, NoChangePlan;
    if event.UpdateState? {
      var catalog := if event.paged then Registration(task.rules) else task.rules;
      UpdateRaisesRevision(m.live.plan, event.update, catalog, m.live.readRuleIds, task.at);
    }
  }

  /** Skipping is never offered while the last review has not passed. */
  lemma UnresolvedReviewBlocksSkip(task: Task, s: RepairState, answer: FinalAnswer)
    requires s.reviews != [] && Verdict(s.reviews[|s.reviews| - 1]) != PASSED && answer.outcome == SKIPPED
    ensures ParseFinal(task, s, answer) == None
  {
  }
}

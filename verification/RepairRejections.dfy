/** What comes after a rejection: every later acceptance is of a record made after the journal took the rejection. */
module RepairRejections {
  import opened Bytes
  import opened Keyed
  import opened Options
  import opened Spaces
  import Substitution
  import opened Plans
  import opened PlanUpdates
  import opened PlanRuns
  import opened Candidates
  import opened Reviews
  import opened RepairSteps
  import opened RepairSafety

  predicate RecordIs(s: RepairState, candidateId: string) {
    s.lastCandidate.Some? && s.lastCandidate.value.result.candidateId == candidateId
  }

  // ----- where records come from -----

  predicate Carries(s: RepairState, c: CandidateRecord) {
    s.lastCandidate.Some? && SameCandidate(s.lastCandidate.value, c)
  }

  /** A state's record is one of the machine's two, or has an id that was never issued before. */
  predicate ComesFrom(s: RepairState, m: Machine) {
    s.lastCandidate.Some? ==>
      var c := s.lastCandidate.value;
      Carries(m.live, c) || Carries(m.saved, c) || c.result.candidateId !in m.issued
  }

  /** A plan is one of the machine's two, or a later revision of the one in memory. */
  predicate PlanComesFrom(plan: RepairPlan, m: Machine) {
    plan == m.live.plan || plan == m.saved.plan || m.live.plan.revision < plan.revision
  }

  ghost predicate StepOf(m: Machine, next: Machine) {
    && m.issued <= next.issued && ComesFrom(next.live, m) && ComesFrom(next.saved, m)
    && PlanComesFrom(next.live.plan, m) && PlanComesFrom(next.saved.plan, m)
  }

  lemma GateComesFrom(task: Task, m: Machine, final: Proposal, reviewId: string, loads: bool, saves: bool)
    ensures var next := Gate(task, m, final, reviewId, loads, saves);
      && next.issued == m.issued && (next.saved == m.saved || next.saved == next.live)
      && (next.live.lastCandidate.Some? ==> Carries(m.live, next.live.lastCandidate.value))
      && next.live.plan == m.live.plan
  {
    hide Substitution.ExactEdits, HoldsOfPlan, ReviewedOutcome;
  }

  lemma ReviewFinalComesFrom(task: Task, m: Machine, final: Proposal, candidateId: string, reviewId: string,
      loads: bool, saves: bool)
    requires candidateId !in m.issued
    ensures var next := ReviewFinal(task, m, final, candidateId, reviewId, loads, saves);
      && StepOf(m, next) && next.live.plan == m.live.plan
      && (next.saved.plan == m.saved.plan || next.saved.plan == m.live.plan)
  {
    hide Substitution.ExactEdits, HoldsOfPlan, Gate, NoChangePlan;
    GateComesFrom(task, m, final, reviewId, loads, saves);
    var target := SkipTarget(task, m, candidateId);
    var id := target.result.candidateId;
    GateComesFrom(task, m.(live := m.live.(lastCandidate := Some(target)), issued := m.issued + {id}),
      final.(candidateId := id), reviewId, loads, saves);
  }

  lemma ResumeComesFrom(task: Task, m: Machine, candidateId: string, reviewId: string, loads: bool, saves: bool)
    requires candidateId !in m.issued
    ensures StepOf(m, ResumeStep(task, m, candidateId, reviewId, loads, saves))
  {
    hide Substitution.ExactEdits, HoldsOfPlan, ReviewFinal, ParseFinal, NoChangePlan, CurrentNoChange;
    var s := Recovered(m.saved);
    var next := m.(live := s, phase := Editing);
    if s.lastCandidate.Some? {
      var c := s.lastCandidate.value;
      ReviewFinalComesFrom(task, next, Proposal(SKIPPED, c.result.candidateId, c.reviewNote, [], []), candidateId,
        reviewId, loads, saves);
      var parsed := ParseFinal(task, s, FinalAnswer(MODIFIED, c.result.candidateId, c.reviewNote));
      if parsed.Some? {
        ReviewFinalComesFrom(task, next, parsed.value, candidateId, reviewId, loads, saves);
      }
    }
  }

  lemma ReviewComesFrom(task: Task, m: Machine, event: Event)
    requires event.ReviewProgress? || event.ReviewReturns? || event.ReviewFails?
    ensures StepOf(m, Step(task, m, event))
  {
    hide Substitution.ExactEdits, Substitution.Candidate, HoldsOfPlan, ReviewedOutcome;
  }

  lemma ToolComesFrom(task: Task, m: Machine, event: Event)
    requires Reliable(task.at) && Stored(m.live.plan, task.at)
    requires event.UpdateState? || event.StageBatch? || event.ValidateStaged? || event.ValidateDirect?
    ensures StepOf(m, Step(task, m, event))
  {
    hide Register, StageOf, Validatable, RequestFor, Stored;
    if event.UpdateState? {
      var catalog := if event.paged then Registration(task.rules) else task.rules;
      UpdateRaisesRevision(m.live.plan, event.update, catalog, m.live.readRuleIds, task.at);
    }
  }

  lemma StepComesFrom(task: Task, m: Machine, event: Event)
    requires Reliable(task.at) && Stored(m.live.plan, task.at) && DrawsFresh(m, event)
    ensures StepOf(m, Step(task, m, event))
  {
    hide ReviewFinal, ParseFinal, ResumeStep, Restaged, Stored;
    match event
    case Answer(answer, candidateId, reviewId, loads, saves) =>
      var parsed := ParseFinal(task, m.live, answer);
      if parsed.Some? { ReviewFinalComesFrom(task, m, parsed.value, candidateId, reviewId, loads, saves); }
    case Resume(candidateId, reviewId, loads, saves) => ResumeComesFrom(task, m, candidateId, reviewId, loads, saves);
    case UpdateState(_, _, _) => ToolComesFrom(task, m, event);
    case StageBatch(_, _) => ToolComesFrom(task, m, event);
    case ValidateStaged(_, _, _) => ToolComesFrom(task, m, event);
    case ValidateDirect(_, _) => ToolComesFrom(task, m, event);
    case ReviewProgress(_, _) => ReviewComesFrom(task, m, event);
    case ReviewReturns(_, _) => ReviewComesFrom(task, m, event);
    case ReviewFails(_) => ReviewComesFrom(task, m, event);
    case _ =>
  }

  // ----- later records are newer -----

  /** A record either has an id that was not issued then, or is one the journal rejects. */
  predicate NewerOrRejected(s: RepairState, reviews: seq<IndependentReview>, then': set<string>) {
    s.lastCandidate.Some? ==>
      s.lastCandidate.value.result.candidateId !in then' || Rejected(reviews, s.lastCandidate.value.result.candidateId)
  }

  ghost predicate OnlyNewer(m: Machine, then': set<string>) {
    && then' <= m.issued
    && NewerOrRejected(m.live, m.saved.reviews, then') && NewerOrRejected(m.saved, m.saved.reviews, then')
  }

  lemma SoundIsStored(task: Task, m: Machine)
    requires Sound(task, m)
    ensures Stored(m.live.plan, task.at)
  {
  }

  lemma StepKeepsNewer(task: Task, m: Machine, event: Event, then': set<string>)
    requires Reliable(task.at) && Sound(task, m) && DrawsFresh(m, event) && OnlyNewer(m, then')
    ensures OnlyNewer(Step(task, m, event), then')
  {
    hide Sound, Step, Rejected, Extends, DrawsFresh;
    SoundIsStored(task, m);
    StepComesFrom(task, m, event);
    StepExtends(task, m, event);
    var next := Step(task, m, event);
    forall id | Rejected(m.saved.reviews, id) ensures Rejected(next.saved.reviews, id) {
      ExtendsKeepsRejections(m.saved.reviews, next.saved.reviews, id);
    }
  }

  lemma {:induction false} RunKeepsNewer(task: Task, events: seq<Event>, k: nat, then': set<string>)
    requires Reliable(task.at) && Possible(task, events) && k <= |events|
    requires OnlyNewer(After(task, events[..k]), then')
    ensures OnlyNewer(After(task, events), then')
    decreases |events|
  {
    hide Sound, Step, OnlyNewer, DrawsFresh;
    if k == |events| {
      assert events[..k] == events;
    } else {
      var front := events[..|events| - 1];
      assert front[..k] == events[..k];
      PossibleFront(task, events);
      RunKeepsNewer(task, front, k, then');
      EveryRunIsSound(task, front);
      StepKeepsNewer(task, After(task, front), events[|events| - 1], then');
    }
  }

  // ----- when the journal takes a rejection -----

  /** A rejection that is not in the journal is the one a save has just missed, in a run that has ended. */
  ghost predicate Lingers(m: Machine) {
    forall id ::
      Rejected(m.live.reviews, id) && !Rejected(m.saved.reviews, id) ==> m.phase.Stopped? && RecordIs(m.live, id)
  }

  /** What a step does to the histories: only the record under review may come to be rejected. */
  ghost predicate HistoryStep(m: Machine, next: Machine) {
    || next == m
    || next == m.(saved := m.live)
    || (next.live.reviews == m.saved.reviews && (next.saved == m.saved || next.saved == next.live))
    || (!m.phase.Stopped? && next.live.reviews == m.live.reviews && (next.saved == m.saved || next.saved == next.live))
    || (&& m.phase.Reviewing? && OnlyReviewed(m, next)
        && (next.saved == next.live || (next.saved == m.saved && next.phase.Stopped?)))
  }

  ghost predicate OnlyReviewed(m: Machine, next: Machine) {
    forall id :: Rejected(next.live.reviews, id) ==> Rejected(m.live.reviews, id) || RecordIs(next.live, id)
  }

  lemma PublishRejects(s: RepairState, record: IndependentReview, index: int)
    requires s.lastCandidate.Some? && record.candidateId == s.lastCandidate.value.result.candidateId
    ensures forall id :: Rejected(Publish(s, record, index).reviews, id) ==>
      Rejected(s.reviews, id) || RecordIs(Publish(s, record, index), id)
  {
    var next := Publish(s, record, index);
    forall id | Rejected(next.reviews, id) ensures Rejected(s.reviews, id) || RecordIs(next, id) {
      var i :| 0 <= i < |next.reviews| && Rejects(next.reviews[i], id);
      assert i < |s.reviews| && next.reviews[i] == s.reviews[i] ==> Rejects(s.reviews[i], id);
    }
  }

  lemma ProgressHistory(task: Task, m: Machine, partial: Findings, saves: bool)
    requires Sound(task, m) && m.phase.Reviewing?
    ensures HistoryStep(m, ProgressStep(m, m.phase.final, m.phase.record, m.phase.index, partial, saves))
  {
    hide Rejected, StateSound, Extends, Ready, UnderReview;
    var record := m.phase.record;
    PublishRejects(m.live, record.(findings := record.findings.(assessments := partial.assessments,
      issues := partial.issues, holdAssessments := partial.holdAssessments)), m.phase.index);
  }

  lemma FailHistory(task: Task, m: Machine, saves: bool)
    requires Sound(task, m) && m.phase.Reviewing?
    ensures HistoryStep(m, ReviewFailStep(m, m.phase.record, m.phase.index, saves))
  {
    hide Rejected, StateSound, Extends, Ready, UnderReview;
    var record := m.phase.record;
    PublishRejects(m.live, record.(findings := record.findings.(verdict := ERROR)), m.phase.index);
  }

  lemma ReturnHistory(task: Task, m: Machine, findings: Findings, saves: bool)
    requires Sound(task, m) && m.phase.Reviewing?
    ensures HistoryStep(m, ReviewReturnStep(task, m, m.phase.final, m.phase.record, m.phase.index, findings, saves))
  {
    hide Substitution.ExactEdits, Rejected, ReviewedOutcome, StateSound, Extends, Ready, UnderReview, ReviewFailStep,
        HistoryStep;
    var record := m.phase.record;
    FailHistory(task, m, saves);
    PublishRejects(m.live, record.(findings := findings), m.phase.index);
    ReturnedHistory(task, m, findings, saves);
  }

  lemma ReturnedHistory(task: Task, m: Machine, findings: Findings, saves: bool)
    requires m.phase.Reviewing? && m.live.lastCandidate.Some?
    requires OnlyReviewed(m, m.(live := Publish(m.live, m.phase.record.(findings := findings), m.phase.index)))
    ensures var next := ReviewReturnStep(task, m, m.phase.final, m.phase.record, m.phase.index, findings, saves);
      next == ReviewFailStep(m, m.phase.record, m.phase.index, saves) || HistoryStep(m, next)
  {
    hide Substitution.ExactEdits, Rejected, ReviewedOutcome, Publish, ReviewFailStep, Substitution.Candidate;
  }

  lemma GateKeepsHistory(task: Task, m: Machine, final: Proposal, reviewId: string, loads: bool, saves: bool)
    ensures var next := Gate(task, m, final, reviewId, loads, saves);
      next.live.reviews == m.live.reviews && (next.saved == m.saved || next.saved == next.live)
  {
    hide Substitution.ExactEdits, HoldsOfPlan, ReviewTarget, ReviewedOutcome;
  }

  lemma ReviewFinalKeepsHistory(task: Task, m: Machine, final: Proposal, candidateId: string, reviewId: string,
      loads: bool, saves: bool)
    ensures var next := ReviewFinal(task, m, final, candidateId, reviewId, loads, saves);
      next.live.reviews == m.live.reviews && (next.saved == m.saved || next.saved == next.live)
  {
    hide Substitution.ExactEdits, HoldsOfPlan, Gate, NoChangePlan, CurrentNoChange;
    GateKeepsHistory(task, m, final, reviewId, loads, saves);
    var target := SkipTarget(task, m, candidateId);
    var id := target.result.candidateId;
    GateKeepsHistory(task, m.(live := m.live.(lastCandidate := Some(target)), issued := m.issued + {id}),
      final.(candidateId := id), reviewId, loads, saves);
  }

  lemma ResumeHistory(task: Task, m: Machine, candidateId: string, reviewId: string, loads: bool, saves: bool)
    ensures HistoryStep(m, ResumeStep(task, m, candidateId, reviewId, loads, saves))
  {
    hide Substitution.ExactEdits, HoldsOfPlan, ReviewFinal, ParseFinal, NoChangePlan, CurrentNoChange;
    var s := Recovered(m.saved);
    var next := m.(live := s, phase := Editing);
    if s.lastCandidate.Some? {
      var c := s.lastCandidate.value;
      ReviewFinalKeepsHistory(task, next, Proposal(SKIPPED, c.result.candidateId, c.reviewNote, [], []), candidateId,
        reviewId, loads, saves);
      var parsed := ParseFinal(task, s, FinalAnswer(MODIFIED, c.result.candidateId, c.reviewNote));
      if parsed.Some? {
        ReviewFinalKeepsHistory(task, next, parsed.value, candidateId, reviewId, loads, saves);
      }
    }
  }

  lemma StepHistory(task: Task, m: Machine, event: Event)
    requires Sound(task, m)
    ensures HistoryStep(m, Step(task, m, event))
  {
    hide Substitution.ExactEdits, HoldsOfPlan, ReviewFinal, ParseFinal, ResumeStep, Register, StageOf, FitsPlan,
        CompletePlan,
        ReviewedOutcome, Sound, OnlyReviewed, ReviewReturnStep, ReviewFailStep, ProgressStep;
    match event
    case ReviewProgress(partial, saves) => if m.phase.Reviewing? { ProgressHistory(task, m, partial, saves); }
    case ReviewReturns(findings, saves) => if m.phase.Reviewing? { ReturnHistory(task, m, findings, saves); }
    case ReviewFails(saves) => if m.phase.Reviewing? { FailHistory(task, m, saves); }
    case Answer(answer, candidateId, reviewId, loads, saves) =>
      var parsed := ParseFinal(task, m.live, answer);
      if parsed.Some? { ReviewFinalKeepsHistory(task, m, parsed.value, candidateId, reviewId, loads, saves); }
    case Resume(candidateId, reviewId, loads, saves) => ResumeHistory(task, m, candidateId, reviewId, loads, saves);
    case _ =>
  }

  lemma HistoryKeepsLingering(m: Machine, next: Machine)
    requires Lingers(m) && HistoryStep(m, next)
    ensures Lingers(next)
  {
    hide Rejected;
  }

  lemma {:induction false} RunLingers(task: Task, events: seq<Event>)
    requires Reliable(task.at) && Possible(task, events)
    ensures Lingers(After(task, events))
  {
    hide Sound, Step, Lingers, DrawsFresh;
    if events == [] {
      NothingLingers();
    } else {
      var front := events[..|events| - 1];
      PossibleFront(task, events);
      RunLingers(task, front);
      EveryRunIsSound(task, front);
      StepHistory(task, After(task, front), events[|events| - 1]);
      HistoryKeepsLingering(After(task, front), After(task, events));
    }
  }

  lemma NothingLingers()
    ensures Lingers(Fresh())
  {
  }

  /** The step at which the journal takes the rejection. */
  ghost predicate Journals(task: Task, events: seq<Event>, k: nat, candidateId: string) {
    k < |events| && !Rejected(After(task, events[..k]).saved.reviews, candidateId)
    && Rejected(After(task, events[..k + 1]).saved.reviews, candidateId)
  }

  /** Both records are then the rejected one. */
  lemma JournaledIsRecord(m: Machine, next: Machine, candidateId: string)
    requires Lingers(m) && HistoryStep(m, next)
    requires !Rejected(m.saved.reviews, candidateId) && Rejected(next.saved.reviews, candidateId)
    ensures next.saved == next.live && RecordIs(next.live, candidateId)
  {
    hide Rejected;
  }

  lemma {:induction false} RejectionHasMoment(task: Task, events: seq<Event>, candidateId: string)
    requires Rejected(After(task, events).saved.reviews, candidateId)
    ensures exists k: nat :: Journals(task, events, k, candidateId)
  {
    hide Step;
    if events != [] {
      var front := events[..|events| - 1];
      if Rejected(After(task, front).saved.reviews, candidateId) {
        RejectionHasMoment(task, front, candidateId);
        var k: nat :| Journals(task, front, k, candidateId);
        assert events[..k] == front[..k] && events[..k + 1] == front[..k + 1];
        assert Journals(task, events, k, candidateId);
      } else {
        assert events[..|events| - 1 + 1] == events;
        assert Journals(task, events, |events| - 1, candidateId);
      }
    }
  }

  lemma {:induction false} PossibleUpTo(task: Task, events: seq<Event>, k: nat)
    requires Possible(task, events) && k <= |events|
    ensures Possible(task, events[..k])
    decreases |events|
  {
    if k == |events| {
      assert events[..k] == events;
    } else {
      PossibleFront(task, events);
      assert events[..|events| - 1][..k] == events[..k];
      PossibleUpTo(task, events[..|events| - 1], k);
    }
  }

  ghost predicate Accepts(m: Machine) {
    m.phase.Done? && (m.phase.proposal.outcome == MODIFIED || m.phase.proposal.outcome == SKIPPED)
  }

  /** Once the journal takes a rejection, whatever is accepted later has a record made after that moment. */
  lemma LaterAcceptanceIsNewer(task: Task, events: seq<Event>, k: nat, candidateId: string)
    requires Reliable(task.at) && Possible(task, events) && Journals(task, events, k, candidateId)
    ensures var m := After(task, events);
      Accepts(m) ==> m.phase.proposal.candidateId !in After(task, events[..k + 1]).issued
  {
    hide Sound, Step, Lingers, HistoryStep, DrawsFresh;
    var before, m := After(task, events[..k]), After(task, events);
    PossibleUpTo(task, events, k);
    PossibleUpTo(task, events, k + 1);
    RunLingers(task, events[..k]);
    EveryRunIsSound(task, events[..k]);
    NextAfter(task, events, k);
    StepHistory(task, before, events[k]);
    JournaledIsRecord(before, After(task, events[..k + 1]), candidateId);
    RunKeepsNewer(task, events, k + 1, After(task, events[..k + 1]).issued);
    if Accepts(m) {
      EveryRunIsSound(task, events);
      AcceptedIsRecord(task, m);
      RejectedIsNotAdopted(task, m);
    }
  }

  lemma NextAfter(task: Task, events: seq<Event>, k: nat)
    requires k < |events|
    ensures After(task, events[..k + 1]) == Step(task, After(task, events[..k]), events[k])
  {
    hide Step;
    assert events[..k + 1][..k] == events[..k];
  }

  lemma AcceptedIsRecord(task: Task, m: Machine)
    requires Sound(task, m) && Accepts(m)
    ensures RecordIs(m.live, m.phase.proposal.candidateId)
  {
    hide Substitution.ExactEdits, FitsPlan, CompletePlan, StateSound, Approved, NoChangePlan;
  }

  ghost predicate AcceptedAfter(task: Task, events: seq<Event>, k: nat) {
    k < |events| &&
    var m := After(task, events);
    Accepts(m) ==> m.phase.proposal.candidateId !in After(task, events[..k + 1]).issued
  }

  /** So a candidate that the journal rejects is never accepted again, nor any record that was there at that moment. */
  lemma AcceptanceAfterRejection(task: Task, events: seq<Event>, j: nat, candidateId: string)
    requires Reliable(task.at) && Possible(task, events) && j <= |events|
    requires Rejected(After(task, events[..j]).saved.reviews, candidateId)
    ensures exists k: nat :: Journals(task, events, k, candidateId) && k < j && AcceptedAfter(task, events, k)
  {
    hide Step, Accepts;
    RejectionHasMoment(task, events[..j], candidateId);
    var k: nat :| Journals(task, events[..j], k, candidateId);
    assert events[..j][..k] == events[..k] && events[..j][..k + 1] == events[..k + 1];
    assert Journals(task, events, k, candidateId);
    LaterAcceptanceIsNewer(task, events, k, candidateId);
  }

  // ----- a rejection that no save took -----

  const ONLY_RULE := Rule("r", true)
  const TEXT := "x"
  const LEAVE := PlanDecision("r", NO_CHANGE, TEXT)
  const LEFT_ALONE := RepairPlan(1, [LEAVE], [])

  function Verdicts(task: Task, verdict: string): Findings {
    Findings(task.baseHash, task.baseHash, verdict, TEXT, [], [], [])
  }

  /** The plan leaves the source alone, and the editor skips; the review asks for changes, but its save fails. */
  function LostRejection(task: Task): seq<Event> {
    [UpdateState(PlanUpdate(0, [LEAVE], [], []), false, true),
     Event.Answer(FinalAnswer(SKIPPED, "", TEXT), "c", "v", true, true),
     ReviewReturns(Verdicts(task, NEEDS_CHANGES), false),
     Event.Resume("d", "w", true, true),
     ReviewReturns(Verdicts(task, PASSED), true)]
  }

  function PlannedState(): RepairState { NOTHING.(plan := LEFT_ALONE) }

  function Asked(task: Task): CandidateRecord {
    NoChangeRecord(task, LEFT_ALONE, "c").(reviewRequested := true, reviewNote := TEXT)
  }

  function AskedState(task: Task): RepairState { PlannedState().(lastCandidate := Some(Asked(task))) }

  const SKIP_C := Proposal(SKIPPED, "c", TEXT, [], [])

  function Judged(task: Task, reviewId: string, verdict: string): IndependentReview {
    NewReview(task, Asked(task), reviewId).(findings := Verdicts(task, verdict))
  }

  ghost function AtPlanned(): Machine { Machine(PlannedState(), PlannedState(), Editing, {}, None, None) }

  ghost function AtReview(task: Task, reviewId: string, judged: Option<Judgement>): Machine {
    Machine(AskedState(task), AskedState(task), Reviewing(SKIP_C, NewReview(task, Asked(task), reviewId), -1), {"c"},
      None, judged)
  }

  ghost function AtLost(task: Task): Machine {
    var review := Judged(task, "v", NEEDS_CHANGES);
    var live := Publish(AskedState(task), review, -1);
    Machine(live, AskedState(task), Stopped, {"c"}, None, Some(Judgement(review, task.original)))
  }

  lemma PlainText()
    ensures Trim(TEXT) == TEXT && !IsBlank(TEXT) && ValidPlanText(TEXT)
  {
    assert TEXT[0] !in SPACES;
    assert TrimLeft(TEXT) == TEXT;
  }

  lemma LeavingIsRegistered(task: Task)
    requires task.rules == [ONLY_RULE]
    ensures Register(EMPTY_PLAN, PlanUpdate(0, [LEAVE], [], []), task.rules, {}, task.at) == Accepted(LEFT_ALONE)
  {
    PlainText();
    var update := PlanUpdate(0, [LEAVE], [], []);
    var catalog := Registration(task.rules);
    assert catalog == [Rule("r", false)];
    assert [LEAVE][..0] == [];
    assert UpsertAll(EMPTY_PLAN.ruleDecisions, RULE_OF, [LEAVE]) == [LEAVE];
    assert Merged(EMPTY_PLAN, update) == PlanUpdate(0, [LEAVE], [], []);
    assert NextPlan(EMPTY_PLAN, update) == LEFT_ALONE;
    assert task.rules[0].always && task.rules[0].id in AllRead(task.rules, {});
    assert catalog[0].id == "r" && MayDecide(catalog, AllRead(task.rules, {}), "r");
    assert ValidRuleId("r");
    assert FixPlan(LEFT_ALONE, task.at) == LEFT_ALONE;
  }

  lemma LeavingIsComplete(task: Task)
    requires task.rules == [ONLY_RULE]
    ensures CompletePlan(LEFT_ALONE, Required(task)) && NoChangePlan(LEFT_ALONE, task.rules)
    ensures HoldsOfPlan(LEFT_ALONE) == Holds([])
  {
    PlainText();
    assert RULE_OF(LEFT_ALONE.ruleDecisions[0]) == "r" && RULE_ID(task.rules[0]) == "r";
    forall k ensures k in Keys(LEFT_ALONE.ruleDecisions, RULE_OF) <==> k in Keys(task.rules, RULE_ID) {
    }
  }

  lemma PlanningStep(task: Task)
    requires task.rules == [ONLY_RULE]
    ensures Step(task, Fresh(), LostRejection(task)[0]) == AtPlanned()
  {
    hide Register;
    LeavingIsRegistered(task);
  }

  lemma SkippingStep(task: Task)
    requires task.rules == [ONLY_RULE]
    ensures Step(task, AtPlanned(), LostRejection(task)[1]) == AtReview(task, "v", None)
  {
    hide CompletePlan, NoChangePlan, HoldsOfPlan, IsBlank;
    PlainText();
    LeavingIsComplete(task);
  }

  lemma LosingStep(task: Task)
    requires task.rules == [ONLY_RULE]
    ensures Step(task, AtReview(task, "v", None), LostRejection(task)[2]) == AtLost(task)
  {
  }

  lemma ResumingStep(task: Task)
    requires task.rules == [ONLY_RULE]
    ensures Step(task, AtLost(task), LostRejection(task)[3]) == AtReview(task, "w", AtLost(task).judged)
  {
    hide CompletePlan, NoChangePlan, HoldsOfPlan, IsBlank;
    PlainText();
    LeavingIsComplete(task);
  }

  lemma AcceptingStep(task: Task)
    requires task.rules == [ONLY_RULE]
    ensures
      var m := Step(task, AtReview(task, "w", AtLost(task).judged), LostRejection(task)[4]); m.phase == Done(SKIP_C)
  {
    hide CompletePlan, NoChangePlan, HoldsOfPlan, IsBlank;
    LeavingIsComplete(task);
  }

  /**
   * A rejection counts only from the journal on: in this run a review asks for changes to candidate c and its save
   * fails; the next run asks for the review again, and c is accepted.
   */
  lemma UnsavedRejectionIsAskedAgain(task: Task)
    requires task.rules == [ONLY_RULE]
    ensures Possible(task, LostRejection(task))
    ensures Rejected(After(task, LostRejection(task)[..3]).live.reviews, "c")
    ensures
      Accepts(After(task, LostRejection(task))) && After(task, LostRejection(task)).phase.proposal.candidateId == "c"
  {
    hide Step;
    var events := LostRejection(task);
    forall k: nat | k < |events|
      ensures After(task, events[..k + 1]) == Step(task, After(task, events[..k]), events[k])
    {
      NextAfter(task, events, k);
    }
    assert events[..0] == [] && events[..5] == events;
    PlanningStep(task);
    SkippingStep(task);
    LosingStep(task);
    ResumingStep(task);
    AcceptingStep(task);
    assert After(task, events[..0 + 1]) == AtPlanned();
    assert After(task, events[..1 + 1]) == AtReview(task, "v", None);
    assert After(task, events[..2 + 1]) == AtLost(task);
    assert After(task, events[..3 + 1]) == AtReview(task, "w", AtLost(task).judged);
    assert After(task, events[..4 + 1]).phase == Done(SKIP_C);
    assert Rejects(AtLost(task).live.reviews[0], "c");
  }
}

/** What a staged edit or a changed plan does to the candidates there were: none of them is accepted any more. */
module RepairChanges {
  import opened Bytes
  import opened Keyed
  import opened Lists
  import opened Options
  import opened Spaces
  import opened Substitution
  import opened Plans
  import opened PlanUpdates
  import opened PlanRuns
  import opened Candidates
  import opened Reviews
  import opened RepairSteps
  import opened RepairSafety
  import opened RepairRejections

  /** An edit batch or a plan update that the loop takes. */
  ghost predicate Changes(task: Task, m: Machine, event: Event) {
    m.phase.Editing? &&
    match event
    case UpdateState(update, paged, _) =>
      var catalog := if paged then Registration(task.rules) else task.rules;
      Register(m.live.plan, update, catalog, m.live.readRuleIds, task.at).Accepted?
    case StageBatch(batch, _) =>
      StageOf(m.live.plan, m.live.staged, batch, task.original, task.baseHash, task.kept).Staged?
    case _ => false
  }

  predicate IsSaved(event: Event) { (event.UpdateState? || event.StageBatch?) && event.saves }

  // ----- what a change leaves behind -----

  /** A record either has an id that was not issued then, or is for a revision that was left behind. */
  predicate NewerOrOutdated(s: RepairState, then': set<string>, revision: int) {
    s.lastCandidate.Some? ==>
      var c := s.lastCandidate.value; c.result.candidateId !in then' || c.request.planRevision < revision
  }

  ghost predicate OnlyCurrent(m: Machine, then': set<string>, revision: int) {
    && then' <= m.issued && revision <= m.live.plan.revision && revision <= m.saved.plan.revision
    && NewerOrOutdated(m.live, then', revision) && NewerOrOutdated(m.saved, then', revision)
  }

  lemma ChangeLeavesBehind(task: Task, m: Machine, event: Event)
    requires Reliable(task.at) && Sound(task, m) && Changes(task, m, event) && IsSaved(event)
    ensures var next := Step(task, m, event); OnlyCurrent(next, next.issued, next.live.plan.revision)
  {
    hide Register, StageOf, Stored, Extends, PhaseSound, AfterText;
    if event.UpdateState? {
      var catalog := if event.paged then Registration(task.rules) else task.rules;
      UpdateRaisesRevision(m.live.plan, event.update, catalog, m.live.readRuleIds, task.at);
    }
  }

  lemma StepKeepsCurrent(task: Task, m: Machine, event: Event, then': set<string>, revision: int)
    requires Reliable(task.at) && Sound(task, m) && DrawsFresh(m, event) && OnlyCurrent(m, then', revision)
    ensures OnlyCurrent(Step(task, m, event), then', revision)
  {
    hide Sound, Step, DrawsFresh, Stored;
    SoundIsStored(task, m);
    StepComesFrom(task, m, event);
  }

  lemma {:induction false} RunKeepsCurrent(task: Task, events: seq<Event>, k: nat, then': set<string>, revision: int)
    requires Reliable(task.at) && Possible(task, events) && k <= |events|
    requires OnlyCurrent(After(task, events[..k]), then', revision)
    ensures OnlyCurrent(After(task, events), then', revision)
    decreases |events|
  {
    hide Sound, Step, OnlyCurrent, DrawsFresh;
    if k == |events| {
      assert events[..k] == events;
    } else {
      var front := events[..|events| - 1];
      assert front[..k] == events[..k];
      PossibleFront(task, events);
      RunKeepsCurrent(task, front, k, then', revision);
      EveryRunIsSound(task, front);
      StepKeepsCurrent(task, After(task, front), events[|events| - 1], then', revision);
    }
  }

  lemma AcceptedIsCurrent(task: Task, m: Machine)
    requires Sound(task, m) && Accepts(m)
    ensures RecordIs(m.live, m.phase.proposal.candidateId)
    ensures m.live.lastCandidate.value.request.planRevision == m.live.plan.revision
  {
    hide ExactEdits, FitsPlan, CompletePlan, StateSound, Approved, NoChangePlan, Extends;
  }

  /**
   * Once the journal has an accepted change, whatever is accepted later, in this run or after any others, has a
   * record made after the change.
   */
  lemma ChangesInvalidateForGood(task: Task, events: seq<Event>, k: nat)
    requires Reliable(task.at) && Possible(task, events) && k < |events|
    requires Changes(task, After(task, events[..k]), events[k]) && IsSaved(events[k])
    ensures var m := After(task, events);
      Accepts(m) ==> m.phase.proposal.candidateId !in After(task, events[..k + 1]).issued
  {
    hide Sound, Step, Changes, DrawsFresh, Accepts;
    var then' := After(task, events[..k + 1]);
    PossibleUpTo(task, events, k);
    EveryRunIsSound(task, events[..k]);
    NextAfter(task, events, k);
    ChangeLeavesBehind(task, After(task, events[..k]), events[k]);
    RunKeepsCurrent(task, events, k + 1, then'.issued, then'.live.plan.revision);
    if Accepts(After(task, events)) {
      EveryRunIsSound(task, events);
      AcceptedIsCurrent(task, After(task, events));
    }
  }

  // ----- a change that no save took -----

  /** A new run after an unsaved change goes on exactly as if the change had never been made. */
  lemma UnsavedChangeIsForgotten(task: Task, m: Machine, change: Event, resume: Event)
    requires Changes(task, m, change) && !IsSaved(change) && resume.Resume?
    ensures Step(task, Step(task, m, change), resume) == Step(task, m, resume)
  {
    hide Register, StageOf, ReviewFinal, ParseFinal, Recovered, NoChangePlan, CurrentNoChange;
  }

  // ----- a run in which it counts -----

  const CHANGE := PlanDecision("r", MODIFY, TEXT)
  const ITEM := PlanItem("i", "r", TEXT, "", TEXT, TEXT, PENDING, "", [])
  const A_TO_B := Edit([97], [98], ["i"], [])
  const HASH := "h"

  /** The plan that changes the only rule's item, and its later revisions. */
  function PlanAt(revision: int): RepairPlan { RepairPlan(revision, [CHANGE], [ITEM]) }

  function Asking(task: Task): CandidateRequest { CandidateRequest(1, task.baseHash, [A_TO_B], ["i"]) }

  const VALID := Validation(LINE_ATTRIBUTION_VERSION, "c", HASH, 1, true)

  const PLANNING := UpdateState(PlanUpdate(0, [CHANGE], [ITEM], []), false, true)
  const REPLANNING := UpdateState(PlanUpdate(1, [CHANGE], [], []), false, false)

  /** One letter, one rule, and no lines held. */
  predicate Small(task: Task) {
    task.rules == [ONLY_RULE] && task.original == [97] && task.kept(PlanAt(1), Asking(task))
  }

  function Passing(task: Task): Findings { Findings(task.baseHash, HASH, PASSED, TEXT, [], [], []) }

  /** A candidate is validated; the save of the next plan fails; a new run accepts the candidate. */
  function LostChange(task: Task): seq<Event> {
    [PLANNING,
     ValidateDirect(Asking(task), true),
     ValidatorReturns(VALID, true),
     REPLANNING,
     Event.Resume("d", "v", true, true),
     Event.Answer(FinalAnswer(MODIFIED, "c", TEXT), "e", "w", true, true),
     ReviewReturns(Passing(task), true)]
  }

  lemma PlanIsValid(revision: int)
    ensures ValidSnapshot(PlanAt(revision))
  {
    hide IsBlank;
    PlainText();
    assert ValidItem(ITEM) && ValidDecision(CHANGE);
    assert Belongs(ITEM, PlanAt(revision).ruleDecisions[0]) && ITEM_RULE(PlanAt(revision).items[0]) == "r";
  }

  lemma NothingIsHeld(revision: int)
    ensures HoldsOfPlan(PlanAt(revision)) == Holds([])
  {
    assert ITEM.status != BLOCKED by { assert |PENDING| == |BLOCKED| && PENDING[0] != BLOCKED[0]; }
    assert CHANGE.decision != BLOCKED by { assert |MODIFY| != |BLOCKED|; }
    assert [ITEM][..0] == [] && HoldsOf([ITEM]) == HoldsOf([]);
  }

  predicate IsStep(current: RepairPlan, update: PlanUpdate) {
    || (current == EMPTY_PLAN && update == PLANNING.update)
    || (current == PlanAt(1) && update == REPLANNING.update)
  }

  lemma PlanIsMerged(current: RepairPlan, update: PlanUpdate)
    requires IsStep(current, update)
    ensures Mergeable(current, update) && Merged(current, update) == PlanUpdate(current.revision, [CHANGE], [ITEM], [])
    ensures NextPlan(current, Merged(current, update)) == PlanAt(current.revision + 1)
  {
    hide IsBlank;
    PlainText();
    assert [CHANGE][..0] == [] && [ITEM][..0] == [];
    assert UpsertAll(current.ruleDecisions, RULE_OF, update.ruleDecisions) == [CHANGE];
    assert UpsertAll(current.items, ID_OF, update.items) == [ITEM];
    assert TrimItem(ITEM) == ITEM && TrimDecision(CHANGE) == CHANGE;
  }

  lemma PlanContinues(current: RepairPlan, update: PlanUpdate)
    requires IsStep(current, update)
    ensures Continues(current, PlanAt(current.revision + 1))
  {
    assert RULE_OF(PlanAt(2).ruleDecisions[0]) == "r";
    assert Find([ITEM], ID_OF, "i") == 0;
  }

  lemma PlanIsUpdated(task: Task, current: RepairPlan, update: PlanUpdate)
    requires task.rules == [ONLY_RULE] && IsStep(current, update)
    ensures Updatable(current, Merged(current, update), Registration(task.rules), [], AllRead(task.rules, {}))
  {
    hide ValidSnapshot, Continues, Merged;
    PlanIsMerged(current, update);
    PlanIsValid(current.revision + 1);
    PlanContinues(current, update);
    var catalog := Registration(task.rules);
    assert catalog == [Rule("r", false)] && ValidRuleId("r");
    assert task.rules[0].always && task.rules[0].id in AllRead(task.rules, {});
    assert catalog[0].id == "r" && MayDecide(catalog, AllRead(task.rules, {}), "r");
  }

  lemma PlanIsRegistered(task: Task, current: RepairPlan, update: PlanUpdate)
    requires task.rules == [ONLY_RULE] && IsStep(current, update)
    ensures Register(current, update, task.rules, {}, task.at) == Accepted(PlanAt(current.revision + 1))
  {
    hide Updatable, Mergeable, Merged, AllRead, Registration;
    PlanIsMerged(current, update);
    PlanIsUpdated(task, current, update);
    var plan := PlanAt(current.revision + 1);
    assert FixItem(task.at)(ITEM) == ITEM;
    assert FixPlan(plan, task.at) == plan;
    assert ITEM.status != BLOCKED by { assert |PENDING| == |BLOCKED| && PENDING[0] != BLOCKED[0]; }
  }

  lemma EditIsExact(task: Task)
    requires Small(task)
    ensures ExactEdits(task.original, [A_TO_B])
  {
    assert OccursAt([97], [97], 0);
    assert !OccursAt([97], [97], 1);
  }

  lemma RequestFits(task: Task)
    requires Small(task)
    ensures FitsPlan(PlanAt(1), Asking(task)) && CompletePlan(PlanAt(1), Required(task))
    ensures Validatable(task, PlanAt(1), Asking(task))
  {
    hide ValidSnapshot, HoldsOfPlan, ExactEdits;
    EditIsExact(task);
    PlanIsValid(1);
    NothingIsHeld(1);
    assert ITEM.status != BLOCKED by { assert |PENDING| == |BLOCKED| && PENDING[0] != BLOCKED[0]; }
    assert Find([ITEM], ID_OF, "i") == 0 && SELF(["i"][0]) == "i" && "i" in Keys(["i"], SELF);
    assert [A_TO_B][..0] == [] && Linked([A_TO_B]) == Keys(["i"], SELF);
    assert RULE_OF(PlanAt(1).ruleDecisions[0]) == "r" && Required(task) == ["r"];
  }

  function OnlyPlanned(): RepairState { NOTHING.(plan := PlanAt(1)) }

  function Validated(task: Task): CandidateRecord { CandidateRecord(false, Asking(task), VALID, false, "", None) }

  function WithCandidate(task: Task): RepairState {
    OnlyPlanned().(lastCandidate := Some(Validated(task)), staged := Restaged([A_TO_B]))
  }

  ghost function AtCandidate(task: Task): Machine {
    Machine(WithCandidate(task), WithCandidate(task), Editing, {"c"}, Some((Asking(task), VALID)), None)
  }

  function Chosen(): Proposal { Proposal(MODIFIED, "c", TEXT, [A_TO_B], RulesApplied([ITEM], ["i"])) }

  ghost function AtLastReview(task: Task): Machine {
    var asked := Validated(task).(reviewRequested := true, reviewNote := TEXT);
    var state := WithCandidate(task).(lastCandidate := Some(asked));
    AtCandidate(task).(live := state, saved := state, phase := Reviewing(Chosen(), NewReview(task, asked, "w"), -1))
  }

  lemma CandidateSteps(task: Task)
    requires Small(task)
    ensures var planned := Step(task, Fresh(), PLANNING); var asked := Step(task, planned, LostChange(task)[1]);
      asked.issued == {} && Step(task, asked, LostChange(task)[2]) == AtCandidate(task)
  {
    hide Register, Validatable, Restaged, FitsPlan, CompletePlan, ReviewFinal, ParseFinal;
    PlanIsRegistered(task, EMPTY_PLAN, PLANNING.update);
    RequestFits(task);
  }

  lemma ChangeIsLost(task: Task)
    requires Small(task)
    ensures Changes(task, AtCandidate(task), REPLANNING)
    ensures Step(task, AtCandidate(task), REPLANNING).issued == {"c"}
    ensures Step(task, Step(task, AtCandidate(task), REPLANNING), LostChange(task)[4]) == AtCandidate(task)
  {
    hide Register, Restaged, ReviewFinal, ParseFinal;
    PlanIsRegistered(task, PlanAt(1), REPLANNING.update);
    UnsavedChangeIsForgotten(task, AtCandidate(task), REPLANNING, LostChange(task)[4]);
  }

  lemma CandidateIsChosen(task: Task)
    requires Small(task)
    ensures Step(task, AtCandidate(task), LostChange(task)[5]) == AtLastReview(task)
  {
    hide Restaged, FitsPlan, CompletePlan, ExactEdits, HoldsOfPlan, IsBlank;
    PlainText();
    RequestFits(task);
    EditIsExact(task);
    NothingIsHeld(1);
  }

  lemma CandidatePasses(task: Task)
    requires Small(task)
    ensures Step(task, AtLastReview(task), LostChange(task)[6]).phase == Done(Chosen())
  {
    hide Restaged, FitsPlan, CompletePlan, ExactEdits, HoldsOfPlan;
    NothingIsHeld(1);
  }

  /**
   * A change counts only from the journal on: in this run a candidate is validated, the plan is changed and its save
   * fails, and the next run accepts the candidate.
   */
  lemma UnsavedChangeMayBeSkipped(task: Task)
    requires Small(task)
    ensures Possible(task, LostChange(task))
    ensures Changes(task, After(task, LostChange(task)[..3]), LostChange(task)[3]) && !IsSaved(LostChange(task)[3])
    ensures "c" in After(task, LostChange(task)[..4]).issued
    ensures Accepts(After(task, LostChange(task))) && After(task, LostChange(task)).phase.proposal.candidateId == "c"
  {
    hide Step, Changes, Small;
    var events := LostChange(task);
    forall k: nat | k < |events|
      ensures After(task, events[..k + 1]) == Step(task, After(task, events[..k]), events[k])
    {
      NextAfter(task, events, k);
    }
    assert events[..0] == [] && events[..7] == events;
    CandidateSteps(task);
    ChangeIsLost(task);
    CandidateIsChosen(task);
    CandidatePasses(task);
    assert After(task, events[..0 + 1]) == Step(task, Fresh(), PLANNING);
    assert After(task, events[..1 + 1]).issued == {};
    assert After(task, events[..2 + 1]) == AtCandidate(task);
    assert After(task, events[..3 + 1]).issued == {"c"};
    assert After(task, events[..4 + 1]) == AtCandidate(task);
    assert After(task, events[..5 + 1]) == AtLastReview(task);
    assert After(task, events[..6 + 1]).phase == Done(Chosen());
  }
}

/** The object that runs the loop: it updates its state in place, and every method is one step of the model. */
module RepairSessions {
  import opened Bytes
  import opened Keyed
  import opened Lists
  import opened Options
  import opened Spaces
  import opened Substitution
  import opened Plans
  import opened PlanUpdates
  import opened PlanRuns
  import opened Candidates
  import opened Reviews
  import opened RepairSteps

  class RepairSession {
    const task: Task
    var state: RepairState
    var journal: RepairState
    var phase: Phase
    /** The candidate text the reviewer was sent. */
    var reviewText: Text
    ghost var issued: set<string>
    ghost var validated: Option<(CandidateRequest, Validation)>
    ghost var judged: Option<Judgement>

    ghost function Now(): Machine
      reads this
    {
      Machine(state, journal, phase, issued, validated, judged)
    }

    /** While a review runs, the text sent is the text the candidate's edits make. */
    ghost predicate Valid()
      reads this
    {
      phase.Reviewing? ==> state.lastCandidate.Some? && reviewText == AfterText(task, state.lastCandidate.value)
    }

    constructor (task: Task)
      ensures this.task == task && Valid() && Now() == Fresh()
    {
      this.task := task;
      state, journal, phase, reviewText := NOTHING, NOTHING, Editing, [];
      issued, validated, judged := {}, None, None;
    }

    method Persist(saves: bool, next: Phase)
      requires next.Reviewing? ==> state.lastCandidate.Some? && reviewText == AfterText(task, state.lastCandidate.value)
      modifies this
      ensures Valid() && Now() == Persisted(old(Now()), saves, next) && reviewText == old(reviewText)
    {
      if saves {
        journal, phase := state, next;
      } else {
        phase := Stopped;
      }
    }

    method UpdateState(update: PlanUpdate, paged: bool, saves: bool)
      requires Valid() && phase.Editing?
      modifies this
      ensures Valid() && Now() == Step(task, old(Now()), Event.UpdateState(update, paged, saves))
    {
      var catalog := if paged then Registration(task.rules) else task.rules;
      var merged := MergeRepairPlan(state.plan, update, catalog, state.readRuleIds);
      if merged.Refused? {
        return;
      }
      var resolved := ResolvePlanSourceLocations(merged.plan, task.at);
      if resolved.Refused? {
        return;
      }
      state := state.(plan := resolved.plan);
      Persist(saves, Editing);
    }

    method StageBatch(batch: StageRequest, saves: bool)
      requires Valid() && phase.Editing?
      modifies this
      ensures Valid() && Now() == Step(task, old(Now()), Event.StageBatch(batch, saves))
    {
      var result := StageEdits(state.plan, state.staged, batch, task.original, task.baseHash, task.kept);
      if result.NotStaged? {
        return;
      }
      state := state.(staged := result.edits, lastCandidate := None);
      Persist(saves, Editing);
    }

    method CheckRequest(request: CandidateRequest) returns (ok: bool)
      ensures ok <==> Validatable(task, state.plan, request)
    {
      if request.baseHash != task.baseHash || !CompletePlan(state.plan, Required(task)) {
        return false;
      }
      var fits := CheckCandidatePlan(state.plan, request);
      if !fits {
        return false;
      }
      var exact := ValidateExactEdits(request.edits, task.original);
      ok := exact && task.kept(state.plan, request);
    }

    method BeginValidation(request: CandidateRequest, direct: bool, saves: bool)
      requires Valid() && phase.Editing?
      modifies this
      ensures Valid() && Now() == ValidateStep(task, old(Now()), request, direct, saves)
    {
      var ok := CheckRequest(request);
      if ok {
        state := state.(lastCandidate := None);
        Persist(saves, Validating(request, direct));
      }
    }

    method ValidateStagedCandidate(planRevision: int, baseHash: string, saves: bool)
      requires Valid() && phase.Editing?
      modifies this
      ensures Valid() && Now() == Step(task, old(Now()), Event.ValidateStaged(planRevision, baseHash, saves))
    {
      if planRevision != state.plan.revision || baseHash != task.baseHash {
        return;
      }
      var request := StagedRequest(planRevision, baseHash, state.staged);
      BeginValidation(request, false, saves);
    }

    method Restage(edits: seq<Edit>) returns (staged: seq<StagedEdit>)
      ensures staged == Restaged(edits)
    {
      staged := [];
      for i := 0 to |edits|
        invariant staged == Restaged(edits[..i])
      {
        assert edits[..i + 1][..i] == edits[..i];
        staged := staged + [StagedEdit("edit-" + Digits(i + 1), edits[i])];
      }
      assert edits[..|edits|] == edits;
    }

    method ValidatorReturns(result: Validation, saves: bool)
      requires Valid() && phase.Validating?
      modifies this
      ensures Valid() && Now() == Step(task, old(Now()), Event.ValidatorReturns(result, saves))
    {
      var request, direct := phase.request, phase.direct;
      if !Consistent(request, result) {
        phase := Stopped;
        return;
      }
      state := state.(lastCandidate := Some(CandidateRecord(false, request, result, false, "", None)));
      issued, validated, judged := issued + {result.candidateId}, Some((request, result)), None;
      if direct {
        var again := Restage(request.edits);
        state := state.(staged := again);
      }
      Persist(saves, Editing);
    }

    // ----- the final answer -----

    method CheckModified(candidateId: string) returns (ok: bool)
      ensures ok <==> MayModify(task, state, candidateId)
    {
      if !NamesLast(task, state, candidateId) {
        return false;
      }
      var request := state.lastCandidate.value.request;
      var fits := CheckCandidatePlan(state.plan, request);
      if !fits {
        return false;
      }
      var exact := ValidateExactEdits(request.edits, task.original);
      ok := exact && task.kept(state.plan, request);
    }

    method ParseAnswer(answer: FinalAnswer) returns (parsed: Option<Proposal>)
      ensures parsed == ParseFinal(task, state, answer)
    {
      var plain := Proposal(answer.outcome, "", answer.note, [], []);
      if IsBlank(answer.note) || |answer.candidateId| > 256 {
        return None;
      }
      if answer.outcome == NEEDS_HUMAN {
        return if answer.candidateId == "" && MayStopForHuman(task, state.plan) then Some(plain) else None;
      }
      if state.plan.revision < 1 || !CompletePlan(state.plan, Required(task)) {
        return None;
      }
      if answer.outcome == SKIPPED {
        return if answer.candidateId == "" && MaySkip(state) then Some(plain) else None;
      }
      if answer.outcome != MODIFIED {
        return None;
      }
      var modified := CheckModified(answer.candidateId);
      if !modified {
        return None;
      }
      var request := state.lastCandidate.value.request;
      var applied := CollectRules(state.plan.items, request.addressedItemIds);
      return Some(plain.(candidateId := answer.candidateId, edits := request.edits, rulesApplied := applied));
    }

    method CollectRules(items: seq<PlanItem>, addressed: seq<string>) returns (applied: seq<string>)
      ensures applied == RulesApplied(items, addressed)
    {
      applied := [];
      for i := 0 to |items|
        invariant applied == RulesApplied(items[..i], addressed)
      {
        assert items[..i + 1][..i] == items[..i];
        if HasKey(addressed, SELF, items[i].id) && !HasKey(applied, SELF, items[i].ruleId) {
          applied := applied + [items[i].ruleId];
        }
      }
      assert items[..|items|] == items;
    }

    /** From a final answer that names its review target to an outcome, or to a review that is about to be asked for. */
    method EnterReview(final: Proposal, reviewId: string, loads: bool, saves: bool)
      requires Valid() && phase.Editing?
      modifies this
      ensures Valid() && Now() == Gate(task, old(Now()), final, reviewId, loads, saves)
    {
      var holds := CandidateHolds(state.plan);
      if !ReviewTarget(task, state, final) || holds.Unlocalized? {
        phase := Stopped;
        return;
      }
      var c := state.lastCandidate.value;
      if !c.noChange && !task.kept(state.plan, c.request) {
        phase := Stopped;
        return;
      }
      if FinallyReviewed(c) {
        Settle(final, c);
        return;
      }
      var after := TextResult.Ok(task.original);
      if !c.noChange {
        after := ReviewCandidateText(task.original, c.request.edits);
      }
      if after.Rejected? || !loads {
        phase := Stopped;
        return;
      }
      reviewText := after.text;
      var asked := c.(reviewRequested := true, reviewNote := final.note);
      state := state.(lastCandidate := Some(asked));
      Persist(saves, Reviewing(final, NewReview(task, asked, reviewId), -1));
    }

    method Settle(final: Proposal, c: CandidateRecord)
      modifies this
      ensures Valid() && Now() == Decide(task, old(Now()), final, c)
    {
      var outcome := ReviewedOutcome(task, final, c, state.plan);
      match outcome
      case Adopt(proposal) => phase := Done(proposal);
      case Feedback => phase := Editing;
      case Fail => phase := Stopped;
    }

    method Conclude(final: Proposal, candidateId: string, reviewId: string, loads: bool, saves: bool)
      requires Valid() && phase.Editing?
      modifies this
      ensures Valid() && Now() == ReviewFinal(task, old(Now()), final, candidateId, reviewId, loads, saves)
    {
      if final.outcome != MODIFIED && final.outcome != SKIPPED {
        phase := Done(final);
        return;
      }
      if final.outcome == MODIFIED {
        EnterReview(final, reviewId, loads, saves);
        return;
      }
      var skippable := CheckNoChangePlan(state.plan, task.rules);
      if !skippable {
        phase := Stopped;
        return;
      }
      if !CurrentNoChange(task, state) {
        state := state.(lastCandidate := Some(NoChangeRecord(task, state.plan, candidateId)));
      }
      issued := issued + {state.lastCandidate.value.result.candidateId};
      EnterReview(final.(candidateId := state.lastCandidate.value.result.candidateId), reviewId, loads, saves);
    }

    method Answer(answer: FinalAnswer, candidateId: string, reviewId: string, loads: bool, saves: bool)
      requires Valid() && phase.Editing?
      modifies this
      ensures Valid() && Now() == AnswerStep(task, old(Now()), answer, candidateId, reviewId, loads, saves)
    {
      var parsed := ParseAnswer(answer);
      if parsed.Some? {
        Conclude(parsed.value, candidateId, reviewId, loads, saves);
      }
    }

    // ----- the review -----

    method PublishRecord(record: IndependentReview, index: int)
      requires Valid() && phase.Reviewing?
      modifies this`state
      ensures Valid() && state == Publish(old(state), record, index)
    {
      state := state.(lastCandidate := Some(state.lastCandidate.value.(review := Some(record))));
      if 0 <= index < |state.reviews| {
        state := state.(reviews := state.reviews[index := record]);
      } else {
        state := state.(reviews := state.reviews + [record]);
      }
    }

    method ReviewProgress(partial: Findings, saves: bool)
      requires Valid() && phase.Reviewing?
      modifies this
      ensures Valid() && Now() == Step(task, old(Now()), Event.ReviewProgress(partial, saves))
    {
      var final, index := phase.final, phase.index;
      var record := phase.record.(findings := phase.record.findings.(assessments := partial.assessments,
        issues := partial.issues, holdAssessments := partial.holdAssessments));
      var next := if index < 0 then |state.reviews| else index;
      PublishRecord(record, index);
      Persist(saves, Reviewing(final, record, next));
    }

    method ReviewFails(saves: bool)
      requires Valid() && phase.Reviewing?
      modifies this
      ensures Valid() && Now() == Step(task, old(Now()), Event.ReviewFails(saves))
    {
      PublishRecord(phase.record.(findings := phase.record.findings.(verdict := ERROR)), phase.index);
      Persist(saves, Stopped);
    }

    method ReviewReturns(findings: Findings, saves: bool)
      requires Valid() && phase.Reviewing?
      modifies this
      ensures Valid() && Now() == Step(task, old(Now()), Event.ReviewReturns(findings, saves))
    {
      var final, record := phase.final, phase.record;
      if findings.baseHash != record.findings.baseHash || findings.candidateHash != record.findings.candidateHash {
        ReviewFails(saves);
        return;
      }
      PublishRecord(record.(findings := findings), phase.index);
      judged := Some(Judgement(record.(findings := findings), reviewText));
      if !saves {
        phase := Stopped;
        return;
      }
      journal := state;
      Settle(final, state.lastCandidate.value);
    }

    // ----- a new run -----

    method Resume(candidateId: string, reviewId: string, loads: bool, saves: bool)
      modifies this
      ensures Valid() && Now() == Step(task, old(Now()), Event.Resume(candidateId, reviewId, loads, saves))
    {
      Recover();
      if state.lastCandidate.None? {
        return;
      }
      var c := state.lastCandidate.value;
      if !c.reviewRequested || c.request.planRevision != state.plan.revision {
        return;
      }
      if c.noChange {
        var skippable := CheckNoChangePlan(state.plan, task.rules);
        if !skippable || !CurrentNoChange(task, state) || IsBlank(c.reviewNote) {
          phase := Stopped;
          return;
        }
        Conclude(Proposal(SKIPPED, c.result.candidateId, c.reviewNote, [], []), candidateId, reviewId, loads, saves);
        return;
      }
      var parsed := ParseAnswer(FinalAnswer(MODIFIED, c.result.candidateId, c.reviewNote));
      if parsed.None? {
        phase := Stopped;
        return;
      }
      Conclude(parsed.value, candidateId, reviewId, loads, saves);
    }

    method Recover()
      modifies this
      ensures Valid() && phase.Editing? && Now() == old(Now()).(live := Recovered(old(journal)), phase := Editing)
    {
      state, phase := journal, Editing;
      if state.lastCandidate.Some? {
        var c := state.lastCandidate.value;
        if c.result.passed && !c.noChange && c.result.attributionVersion != LINE_ATTRIBUTION_VERSION {
          state := state.(lastCandidate := None);
        }
      }
      if |state.staged| == 0 && state.lastCandidate.Some? && !state.lastCandidate.value.noChange {
        var again := Restage(state.lastCandidate.value.request.edits);
        state := state.(staged := again);
      }
    }
  }
}

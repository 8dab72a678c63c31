/** What the loop writes down: candidates, reviews and staged edits, and what a new run finds of them. */
module RepairRecords {
  import opened Keyed
  import opened Options
  import opened Spaces
  import opened Substitution
  import opened Plans
  import PlanUpdates
  import PlanRuns
  import opened Candidates
  import opened Reviews
  import opened RepairSteps
  import opened RepairSafety

  // ----- numbered edits -----

  function DigitOf(c: char): nat { if '0' <= c <= '9' then c as nat - '0' as nat else 0 }

  function NumberOf(s: string): nat {
    if s == "" then 0 else 10 * NumberOf(s[..|s| - 1]) + DigitOf(s[|s| - 1])
  }

  lemma {:induction false} DigitsRead(n: nat)
    ensures NumberOf(Digits(n)) == n && forall k :: 0 <= k < |Digits(n)| ==> '0' <= Digits(n)[k] <= '9'
  {
    var last := ["0123456789"[n % 10]];
    if n < 10 {
      assert Digits(n) == last && last[..0] == "";
    } else {
      DigitsRead(n / 10);
      assert Digits(n) == Digits(n / 10) + last && Digits(n)[..|Digits(n)| - 1] == Digits(n / 10);
    }
  }

  const EDIT_PREFIX := "edit-"

  /** The edits of a candidate are staged again in order, under the ids edit-1, edit-2 and so on. */
  lemma {:induction false} RestagedIsNumbered(edits: seq<Edit>, i: nat)
    requires i < |edits|
    ensures var staged := Restaged(edits)[i];
      staged.edit == edits[i] && EDIT_PREFIX <= staged.id && NumberOf(staged.id[5..]) == i + 1
  {
    var n := |edits| - 1;
    if i < n {
      RestagedIsNumbered(edits[..n], i);
    } else {
      DigitsRead(|edits|);
      assert (EDIT_PREFIX + Digits(|edits|))[5..] == Digits(|edits|);
    }
  }

  lemma RestagedIdsDiffer(edits: seq<Edit>)
    ensures Distinct(Restaged(edits), STAGED_ID)
  {
    forall i, j | 0 <= i < j < |edits| ensures STAGED_ID(Restaged(edits)[i]) != STAGED_ID(Restaged(edits)[j]) {
      RestagedIsNumbered(edits, i);
      RestagedIsNumbered(edits, j);
    }
  }

  ghost predicate Numbered(staged: seq<StagedEdit>, edits: seq<Edit>) {
    |staged| == |edits| && forall i :: 0 <= i < |edits| ==>
      staged[i].edit == edits[i] && EDIT_PREFIX <= staged[i].id && NumberOf(staged[i].id[5..]) == i + 1
  }

  lemma RestagedAreNumbered(edits: seq<Edit>)
    ensures Numbered(Restaged(edits), edits)
  {
    forall i | 0 <= i < |edits|
      ensures Restaged(edits)[i].edit == edits[i] && EDIT_PREFIX <= Restaged(edits)[i].id
        && NumberOf(Restaged(edits)[i].id[5..]) == i + 1
    {
      RestagedIsNumbered(edits, i);
    }
  }

  // ----- what is recorded -----

  /** A consistent result becomes the candidate, with nothing reviewed, in memory and on disk. */
  lemma ResultIsRecorded(task: Task, m: Machine, result: Validation)
    requires m.phase.Validating? && Consistent(m.phase.request, result)
    ensures var next := Step(task, m, ValidatorReturns(result, true));
      && next.phase == Editing && next.saved == next.live
      && next.live.lastCandidate == Some(CandidateRecord(false, m.phase.request, result, false, "", None))
      && (if m.phase.direct then Numbered(next.live.staged, m.phase.request.edits)
          else next.live.staged == m.live.staged)
      && next.live.plan == m.live.plan && next.live.reviews == m.live.reviews
      && next.live.readRuleIds == m.live.readRuleIds
  {
    hide Restaged, Consistent, Numbered;
    RestagedAreNumbered(m.phase.request.edits);
  }

  /** What a final answer stands for carries its note, and nothing of a candidate unless one is adopted. */
  lemma FinalKeepsTheAnswer(task: Task, s: RepairState, answer: FinalAnswer)
    ensures var parsed := ParseFinal(task, s, answer); parsed.Some? ==>
      && parsed.value.outcome == answer.outcome && parsed.value.note == answer.note && !IsBlank(answer.note)
      && parsed.value.candidateId == answer.candidateId
      && (answer.outcome != MODIFIED ==>
            answer.candidateId == "" && parsed.value.edits == [] && parsed.value.rulesApplied == [])
  {
    hide ExactEdits, FitsPlan, CompletePlan, MaySkip, MayStopForHuman, IsBlank, RulesApplied;
  }

  /** The review that is asked for: nothing is found yet, and the candidate remembers the answer it is reviewed for. */
  ghost predicate IsAsked(task: Task, m: Machine, reviewId: string, note: string) {
    m.phase.Reviewing? && m.saved == m.live && m.phase.index == -1 && m.live.lastCandidate.Some? &&
    var c := m.live.lastCandidate.value;
    && c.reviewRequested && c.reviewNote == note && m.phase.final.note == note
    && m.phase.record.id == reviewId && m.phase.record.candidateId == c.result.candidateId == m.phase.final.candidateId
    && m.phase.record.planRevision == m.live.plan.revision
    && m.phase.record.findings == Findings(task.baseHash, c.result.candidateHash, "running", "", [], [], [])
  }

  lemma GateAsks(task: Task, m: Machine, final: Proposal, reviewId: string, loads: bool, saves: bool)
    requires !m.phase.Reviewing?
    ensures var next := Gate(task, m, final, reviewId, loads, saves);
      next.phase.Reviewing? ==> IsAsked(task, next, reviewId, final.note)
  {
    hide ExactEdits, HoldsOfPlan, ReviewedOutcome;
  }

  lemma AnswersAsk(task: Task, m: Machine, answer: FinalAnswer, candidateId: string, reviewId: string, loads: bool,
      saves: bool)
    requires m.phase.Editing?
    ensures var next := Step(task, m, Event.Answer(answer, candidateId, reviewId, loads, saves));
      next.phase.Reviewing? ==> IsAsked(task, next, reviewId, answer.note)
  {
    hide Gate, ParseFinal, IsAsked, NoChangePlan, CurrentNoChange;
    FinalKeepsTheAnswer(task, m.live, answer);
    var parsed := ParseFinal(task, m.live, answer);
    if parsed.Some? {
      var target := SkipTarget(task, m, candidateId);
      var id := target.result.candidateId;
      GateAsks(task, m, parsed.value, reviewId, loads, saves);
      GateAsks(task, m.(live := m.live.(lastCandidate := Some(target)), issued := m.issued + {id}),
        parsed.value.(candidateId := id), reviewId, loads, saves);
    }
  }

  /** The history after one more version of the review under way. */
  function WithReview(reviews: seq<IndependentReview>, index: int, record: IndependentReview): seq<IndependentReview> {
    if index < 0 then reviews + [record] else if index < |reviews| then reviews[index := record] else reviews
  }

  ghost predicate IsUnder(m: Machine, next: Machine, record: IndependentReview) {
    && m.phase.Reviewing? && m.live.lastCandidate.Some?
    && next.live.reviews == WithReview(m.live.reviews, m.phase.index, record)
    && next.live.lastCandidate == Some(m.live.lastCandidate.value.(review := Some(record)))
    && next.live.plan == m.live.plan && next.live.staged == m.live.staged
    && next.live.readRuleIds == m.live.readRuleIds
  }

  /** Progress is kept as found so far, in place of the earlier version of the same review, and the review goes on. */
  lemma ProgressIsRecorded(task: Task, m: Machine, partial: Findings, saves: bool)
    requires Sound(task, m) && m.phase.Reviewing?
    ensures var next, old' := Step(task, m, ReviewProgress(partial, saves)), m.phase.record;
      var record := old'.(findings := old'.findings.(assessments := partial.assessments, issues := partial.issues,
        holdAssessments := partial.holdAssessments));
      && IsUnder(m, next, record) && next.saved == (if saves then next.live else m.saved)
      && (if saves
          then next.phase.Reviewing? && next.phase.final == m.phase.final && next.phase.record == record
            && 0 <= next.phase.index < |next.live.reviews| && next.live.reviews[next.phase.index] == record
          else next.phase == Stopped)
  {
    hide StateSound, Ready, Extends, UnderReview;
  }

  /** A finished review is put on the candidate and into the history with everything the reviewer found. */
  lemma FindingsAreRecorded(task: Task, m: Machine, findings: Findings, saves: bool)
    requires Sound(task, m) && m.phase.Reviewing?
    requires findings.baseHash == m.phase.record.findings.baseHash
      && findings.candidateHash == m.phase.record.findings.candidateHash
    ensures var next := Step(task, m, ReviewReturns(findings, saves));
      && IsUnder(m, next, m.phase.record.(findings := findings))
      && next.saved == (if saves then next.live else m.saved)
  {
    hide StateSound, Ready, Extends, UnderReview, ReviewedOutcome, AfterText;
  }

  // ----- a new run -----

  predicate Obsolete(s: RepairState) {
    s.lastCandidate.Some? &&
    var c := s.lastCandidate.value; c.result.passed && !c.noChange && c.result.attributionVersion != 2
  }

  /** A new run has the journal's plan, history and rules; only a candidate with an old attribution is given up. */
  lemma JournalIsRecovered(saved: RepairState)
    ensures var s := Recovered(saved);
      && s.plan == saved.plan && s.reviews == saved.reviews && s.readRuleIds == saved.readRuleIds
      && s.lastCandidate == (if Obsolete(saved) then None else saved.lastCandidate)
      && (if saved.staged == [] && s.lastCandidate.Some? && !s.lastCandidate.value.noChange
          then Numbered(s.staged, s.lastCandidate.value.request.edits)
          else s.staged == saved.staged)
  {
    hide Restaged, Numbered;
    if saved.lastCandidate.Some? {
      RestagedAreNumbered(saved.lastCandidate.value.request.edits);
    }
  }

  /** A rule counts as read from the moment it was read on. */
  lemma ReadingIsRecorded(task: Task, m: Machine, ruleId: string)
    requires m.phase.Editing?
    ensures Step(task, m, ReadRule(ruleId)) == m.(live := m.live.(readRuleIds := m.live.readRuleIds + {ruleId}))
  {
  }

  // ----- tools -----

  /** An accepted update is the new plan, and nothing else changes in memory. */
  lemma UpdateIsRecorded(task: Task, m: Machine, update: PlanUpdate, paged: bool, saves: bool)
    requires m.phase.Editing?
    ensures var next := Step(task, m, UpdateState(update, paged, saves));
      var catalog := if paged then PlanUpdates.Registration(task.rules) else task.rules;
      match PlanRuns.Register(m.live.plan, update, catalog, m.live.readRuleIds, task.at)
      case Refused => next == m
      case Accepted(plan) =>
        && next.live == m.live.(plan := plan) && next.saved == (if saves then next.live else m.saved)
        && next.phase == (if saves then Editing else Stopped)
  {
    hide PlanRuns.Register;
  }

  /** An accepted batch is what is staged, and no candidate is left. */
  lemma StageIsRecorded(task: Task, m: Machine, batch: StageRequest, saves: bool)
    requires m.phase.Editing?
    ensures var next := Step(task, m, StageBatch(batch, saves));
      match StageOf(m.live.plan, m.live.staged, batch, task.original, task.baseHash, task.kept)
      case NotStaged => next == m
      case Staged(edits) =>
        && next.live == m.live.(staged := edits, lastCandidate := None)
        && next.saved == (if saves then next.live else m.saved) && next.phase == (if saves then Editing else Stopped)
  {
    hide StageOf;
  }

  /** A request that passes all checks is given to the validator once the last candidate is given up on disk. */
  lemma ValidationStarts(task: Task, m: Machine, request: CandidateRequest)
    requires m.phase.Editing? && Validatable(task, m.live.plan, request)
    ensures var next := Step(task, m, ValidateDirect(request, true));
      && next.phase == Validating(request, true) && next.live == m.live.(lastCandidate := None)
      && next.saved == next.live
  {
    hide Validatable;
  }

  ghost predicate IsStagedRequest(request: CandidateRequest, task: Task, s: RepairState) {
    && request.planRevision == s.plan.revision && request.baseHash == task.baseHash && |request.edits| == |s.staged|
    && (forall i :: 0 <= i < |s.staged| ==> request.edits[i] == s.staged[i].edit)
    && Distinct(request.addressedItemIds, SELF) && Keys(request.addressedItemIds, SELF) == Linked(request.edits)
  }

  /** And so are the staged edits, for the items they name. */
  lemma StagedValidationStarts(task: Task, m: Machine, request: CandidateRequest)
    requires m.phase.Editing? && IsStagedRequest(request, task, m.live) && Validatable(task, m.live.plan, request)
    requires request == RequestFor(m.live.plan.revision, task.baseHash, m.live.staged)
    ensures var next := Step(task, m, ValidateStaged(m.live.plan.revision, task.baseHash, true));
      && next.phase == Validating(request, false) && next.live == m.live.(lastCandidate := None)
      && next.saved == next.live
  {
    hide Validatable, RequestFor;
  }

  lemma StagedRequestIs(task: Task, s: RepairState)
    ensures IsStagedRequest(RequestFor(s.plan.revision, task.baseHash, s.staged), task, s)
  {
    MentionedAreLinked(Candidates.EditsOf(s.staged));
  }

  // ----- an interrupted review -----

  ghost predicate Interrupted(s: RepairState) {
    s.lastCandidate.Some? &&
    var c := s.lastCandidate.value;
    c.reviewRequested && c.request.planRevision == s.plan.revision && !FinallyReviewed(c)
  }

  /** A review that was asked for and not finished is never passed over: it is asked for again, or the run stops. */
  lemma InterruptedReviewsGoOn(task: Task, m: Machine, candidateId: string, reviewId: string, loads: bool, saves: bool)
    requires Interrupted(Recovered(m.saved))
    ensures var next := Step(task, m, Event.Resume(candidateId, reviewId, loads, saves));
      next.phase.Stopped? || IsAsked(task, next, reviewId, Recovered(m.saved).lastCandidate.value.reviewNote)
  {
    hide ParseFinal, IsAsked, NoChangePlan, Recovered, ExactEdits, HoldsOfPlan;
    var s := Recovered(m.saved);
    var c, next := s.lastCandidate.value, m.(live := s, phase := Editing);
    var answer := FinalAnswer(MODIFIED, c.result.candidateId, c.reviewNote);
    FinalKeepsTheAnswer(task, s, answer);
    var skip := Proposal(SKIPPED, c.result.candidateId, c.reviewNote, [], []);
    GateAsks(task, next.(issued := next.issued + {c.result.candidateId}), skip, reviewId, loads, saves);
    var parsed := ParseFinal(task, s, answer);
    if parsed.Some? {
      GateAsks(task, next, parsed.value, reviewId, loads, saves);
    }
  }

  /** It is asked for again whenever its candidate may still be adopted and the rules load and the save succeeds. */
  lemma InterruptedModificationIsAskedAgain(task: Task, m: Machine, candidateId: string, reviewId: string)
    requires Interrupted(Recovered(m.saved)) && !Recovered(m.saved).lastCandidate.value.noChange
    requires var s := Recovered(m.saved);
      var c := s.lastCandidate.value;
      && MayModify(task, s, c.result.candidateId) && |c.result.candidateId| <= 256 && !IsBlank(c.reviewNote)
      && 1 <= s.plan.revision && CompletePlan(s.plan, Required(task)) && HoldsOfPlan(s.plan).Holds?
    ensures Step(task, m, Event.Resume(candidateId, reviewId, true, true)).phase.Reviewing?
  {
    hide Recovered, ExactEdits, HoldsOfPlan, FitsPlan, CompletePlan, IsBlank, RulesApplied;
  }
}

/** What each verdict of a finished review leads to, in every state a run can be in. */
module ReviewVerdicts {
  import opened Options
  import opened Plans
  import opened Candidates
  import opened Reviews
  import opened RepairSteps
  import opened RepairSafety

  /** The review is one that was asked for, and it answers for the two texts it was given. */
  predicate AnswersFor(m: Machine, findings: Findings) {
    && m.phase.Reviewing? && m.phase.record.id != ""
    && findings.baseHash == m.phase.record.findings.baseHash
    && findings.candidateHash == m.phase.record.findings.candidateHash
  }

  /** The hold the reviewer found may be given back to the editor as something to plan for. */
  ghost predicate GivenBack(task: Task, m: Machine, findings: Findings) {
    m.live.lastCandidate.Some? &&
    var c := m.live.lastCandidate.value;
    CanReplan(findings, c.noChange || c.request.edits == [], task.original, task.unique, task.quotes)
  }

  ghost function Verdicted(task: Task, m: Machine, findings: Findings): Machine {
    Step(task, m, ReviewReturns(findings, true))
  }

  lemma Published(task: Task, m: Machine, findings: Findings)
    requires Sound(task, m) && AnswersFor(m, findings)
    ensures m.live.lastCandidate.Some?
    ensures var next := m.phase.record.(findings := findings);
      var live := Publish(m.live, next, m.phase.index);
      var judgement := Judgement(next, AfterText(task, m.live.lastCandidate.value));
      && live.plan == m.live.plan && live.lastCandidate.Some? && Matches(next, live.lastCandidate.value)
      && live.lastCandidate.value == m.live.lastCandidate.value.(review := Some(next))
      && Verdicted(task, m, findings)
         == Decide(task, m.(live := live, saved := live, judged := Some(judgement)), m.phase.final,
              live.lastCandidate.value)
  {
    hide StateSound, Ready, Extends, UnderReview, AfterText, ReviewedOutcome;
  }

  /** A rejected candidate goes back to the editor, and the journal has the rejection. */
  lemma NeedsChangesGoesBack(task: Task, m: Machine, findings: Findings)
    requires Sound(task, m) && AnswersFor(m, findings) && findings.verdict == NEEDS_CHANGES
    ensures var next := Verdicted(task, m, findings);
      next.phase.Editing? && Rejected(next.saved.reviews, m.phase.record.candidateId) && next.saved == next.live
  {
    hide Sound, AfterText, HoldsOfPlan;
    Published(task, m, findings);
    LastIsRejected(m.live, m.phase.record.(findings := findings), m.phase.index);
  }

  lemma LastIsRejected(s: RepairState, record: IndependentReview, index: int)
    requires s.lastCandidate.Some? && Verdict(record) == NEEDS_CHANGES
    ensures Rejected(Publish(s, record, index).reviews, record.candidateId)
  {
    var reviews := Publish(s, record, index).reviews;
    var k := if 0 <= index < |s.reviews| then index else |s.reviews|;
    assert Rejects(reviews[k], record.candidateId);
  }

  /** An approval ends the run with the proposal that was reviewed, with holds in the plan only if it names them. */
  lemma ApprovalAdopts(task: Task, m: Machine, findings: Findings)
    requires Sound(task, m) && AnswersFor(m, findings)
    requires findings.verdict == PASSED || findings.verdict == PASSED_WITH_HOLDS
    ensures m.live.lastCandidate.Some?
    ensures Verdicted(task, m, findings).phase ==
      if (findings.verdict == PASSED && HoldsOfPlan(m.live.plan) == Holds([]))
         || (findings.verdict == PASSED_WITH_HOLDS && !m.live.lastCandidate.value.noChange
             && ApprovesPlan(task.quotes, findings, m.live.plan))
      then Done(m.phase.final)
      else Stopped
  {
    hide Sound, AfterText, HoldsOfPlan, ApprovesPlan;
    Published(task, m, findings);
  }

  /** A question for a human ends the run without a change, unless the editor can plan for it. */
  lemma QuestionStopsOrGoesBack(task: Task, m: Machine, findings: Findings)
    requires Sound(task, m) && AnswersFor(m, findings) && findings.verdict == Reviews.NEEDS_HUMAN
    ensures Verdicted(task, m, findings).phase ==
      if GivenBack(task, m, findings) then Editing
      else Done(Proposal(Reviews.NEEDS_HUMAN, "", ON_HOLD + findings.summary, [], []))
  {
    hide Sound, AfterText, HoldsOfPlan, CanReplan;
    Published(task, m, findings);
  }

  /** Nothing else counts as an answer. */
  lemma OtherVerdictsStop(task: Task, m: Machine, findings: Findings)
    requires Sound(task, m) && AnswersFor(m, findings)
    requires findings.verdict !in {PASSED, PASSED_WITH_HOLDS, NEEDS_CHANGES, Reviews.NEEDS_HUMAN}
    ensures Verdicted(task, m, findings).phase == Stopped
  {
    hide Sound, AfterText, HoldsOfPlan;
    Published(task, m, findings);
  }

  /** A run that stops at a review that failed or did not answer for its texts leaves it recorded as an error. */
  lemma MismatchIsAnError(task: Task, m: Machine, findings: Findings, saves: bool)
    requires Sound(task, m) && m.phase.Reviewing?
    requires findings.baseHash != m.phase.record.findings.baseHash
      || findings.candidateHash != m.phase.record.findings.candidateHash
    ensures var next := Step(task, m, ReviewReturns(findings, saves));
      && next.phase == Stopped && next.judged == m.judged && next.live.lastCandidate.Some?
      && next.live.lastCandidate.value.review.Some? && Verdict(next.live.lastCandidate.value.review.value) == ERROR
      && next.saved == if saves then next.live else m.saved
  {
    hide StateSound, Ready, Extends, AfterText, ReviewedOutcome;
  }
}

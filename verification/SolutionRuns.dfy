/** The loop between an editor and independent review sessions: a rejected candidate is never reviewed again. */
module SolutionRuns {
  import opened Bytes
  import opened Options
  import opened Paging
  import opened Coverage
  import opened Solutions
  import opened SolutionSessions

  /** What a reviewer may do: read pages, record batches, and try to decide. */
  datatype ReviewAction =
    | ReadDocument(key: DocKey, offset: int)
    | RecordBatch(entries: seq<AssessmentEntry>)
    | Decide(status: string, note: string)

  /** What an editor may do: read pages, stage edits, and try to finish. */
  datatype EditAction =
    | ReadContext(key: DocKey, offset: int)
    | StageEdits(file: string, edits: seq<NamedEdit>, removeIds: seq<string>)
    | Finish(status: string, note: string)

  /** What the editor does until it decides, and what the reviewer of its proposal would do. */
  datatype Round = Round(editing: seq<EditAction>, reviewing: seq<ReviewAction>)

  datatype Attempt = Attempt(entries: seq<FileEdit>, verdict: string)

  datatype RunOutcome =
    | Adopted(status: string, entries: seq<FileEdit>)
    | ForHuman
    | Resubmitted(entries: seq<FileEdit>)
    | Undecided
    | Unfinished

  /** The identity of a proposal is its encoding, which tells proposals apart. */
  ghost predicate Injective(encode: seq<FileEdit> -> string) {
    forall a, b :: encode(a) == encode(b) ==> a == b
  }

  function Identities(reviewed: seq<Attempt>, encode: seq<FileEdit> -> string): set<string> {
    set i | 0 <= i < |reviewed| :: encode(reviewed[i].entries)
  }

  lemma IdentityAdded(reviewed: seq<Attempt>, attempt: Attempt, encode: seq<FileEdit> -> string)
    ensures Identities(reviewed + [attempt], encode) == Identities(reviewed, encode) + {encode(attempt.entries)}
  {
    var more := reviewed + [attempt];
    assert more[|reviewed|] == attempt && forall i :: 0 <= i < |reviewed| ==> more[i] == reviewed[i];
  }

  /** Neither approved nor given to a human. */
  predicate SentBack(attempt: Attempt) { attempt.verdict != PASSED && attempt.verdict != NEEDS_HUMAN }

  /** A review of the candidate that read everything and has a passing assessment wherever one is due. */
  ghost predicate ApprovedBy(input: SolutionInput, candidate: map<string, Text>, batches: seq<seq<AssessmentEntry>>,
      log: seq<Delivery<DocKey>>) {
    AllPass(input, Assessed(input, batches)) && AllDelivered(log, SolutionDocs(input, candidate), ReviewKeys(input))
  }

  /** One conversation of a fresh reviewer session, which ends with the first decision that is accepted. */
  method Review(input: SolutionInput, candidate: map<string, Text>, actions: seq<ReviewAction>, encoded: Encoder)
    returns (verdict: Option<string>, ghost batches: seq<seq<AssessmentEntry>>, ghost log: seq<Delivery<DocKey>>)
    ensures verdict == Some(PASSED) ==> ApprovedBy(input, candidate, batches, log)
    ensures verdict.Some? ==> verdict.value == PASSED || verdict.value == NEEDS_HUMAN || verdict.value == NEEDS_CHANGES
  {
    hide AllPass, Assessed, SessionSound, ReadsSound;
    var session := new SolutionSession.Reviewer(input, candidate);
    for i := 0 to |actions|
      invariant
        fresh(session) && session.Valid() && session.reviewer && session.after == candidate && session.input == input
    {
      match actions[i]
      case ReadDocument(key, offset) =>
        var page := session.ReadPage(key, offset, encoded);
      case RecordBatch(entries) =>
        var ok := session.RecordAssessments(entries);
      case Decide(status, note) =>
        var decision := session.FinishReview(status, note);
        if decision.Decided? {
          return Some(decision.status), session.batches, session.log;
        }
    }
    return None, session.batches, session.log;
  }

  ghost predicate EditorOf(session: SolutionSession, input: SolutionInput)
    reads session
  {
    session.Valid() && !session.reviewer && session.input == input
  }

  /** A finished editor has read the context, and says whether it proposes a change. */
  ghost predicate EditorDecided(session: SolutionSession, status: string)
    reads session
  {
    && session.AllRead(ContextKeys(session.input))
    && ((status == MODIFIED && Proposal(session.staged) != []) || (status == SKIPPED && Proposal(session.staged) == []))
  }

  /** One conversation of the editor's session, which goes on where the last one ended. */
  method Edit(session: SolutionSession, actions: seq<EditAction>, encoded: Encoder) returns (decision: Option<string>)
    requires EditorOf(session, session.input)
    modifies session
    ensures EditorOf(session, session.input)
    ensures decision.Some? && decision.value != NEEDS_HUMAN ==> EditorDecided(session, decision.value)
  {
    hide SessionSound, ReadsSound, Applies, AfterEdits, Proposal, Assessed;
    for i := 0 to |actions|
      invariant EditorOf(session, session.input)
    {
      match actions[i]
      case ReadContext(key, offset) =>
        var page := session.ReadPage(key, offset, encoded);
      case StageEdits(file, edits, removeIds) =>
        var ok := session.Stage(file, edits, removeIds);
      case Finish(status, note) =>
        var end := session.FinishEditing(status, note);
        if end.Decided? {
          return Some(end.status);
        }
    }
    return None;
  }

  /** Each proposal is that of some staged edits, and no two are the same. */
  ghost predicate ProposedOnce(files: map<string, Text>, reviewed: seq<Attempt>, stagings: seq<StagedFiles>) {
    && |stagings| == |reviewed|
    && (forall i :: 0 <= i < |reviewed| ==> reviewed[i].entries == Proposal(stagings[i]))
    && (forall i :: 0 <= i < |reviewed| ==> Applies(files, reviewed[i].entries))
    && (forall i, j :: 0 <= i < j < |reviewed| ==> reviewed[i].entries != reviewed[j].entries)
  }

  /**
   * One editor session keeps proposing, and each new proposal is judged by a session of its own. `reviewed` lists what
   * was sent to review and its verdict, `stagings` what the editor had staged then; `batches` and `log` are what the
   * last review recorded and was given to read.
   */
  method RunSolution(input: SolutionInput, script: seq<Round>, encode: seq<FileEdit> -> string, encoded: Encoder)
    returns (outcome: RunOutcome, editor: SolutionSession, reviewed: seq<Attempt>, ghost stagings: seq<StagedFiles>,
             ghost batches: seq<seq<AssessmentEntry>>, ghost log: seq<Delivery<DocKey>>)
    requires Injective(encode)
    ensures fresh(editor) && EditorOf(editor, input)
    ensures |reviewed| <= |script| && ProposedOnce(input.files, reviewed, stagings)
    ensures forall i :: 0 <= i < |reviewed| - 1 ==> SentBack(reviewed[i])
    ensures outcome.Adopted? ==> reviewed != [] && reviewed[|reviewed| - 1] == Attempt(outcome.entries, PASSED)
    ensures outcome.Adopted? ==> outcome.entries == Proposal(editor.staged) && EditorDecided(editor, outcome.status)
    ensures outcome.Adopted? ==> ApprovedBy(input, AfterEdits(input.files, outcome.entries), batches, log)
    ensures outcome.ForHuman? ==>
      (forall i :: 0 <= i < |reviewed| ==> SentBack(reviewed[i]))
      || (reviewed != [] && reviewed[|reviewed| - 1].verdict == NEEDS_HUMAN)
    ensures outcome.Resubmitted? ==> outcome.entries == Proposal(editor.staged)
    ensures outcome.Resubmitted? ==>
      exists i :: 0 <= i < |reviewed| && reviewed[i].entries == outcome.entries && SentBack(reviewed[i])
    ensures outcome.Unfinished? ==> |reviewed| == |script| && forall i :: 0 <= i < |script| ==> SentBack(reviewed[i])
  {
    hide ApprovedBy, Applies, AfterEdits, SessionSound, ReadsSound, Proposal, Assessed;
    var rejected: set<string> := {};
    editor := new SolutionSession.Editor(input);
    reviewed, stagings, batches, log := [], [], [], [];
    for n := 0 to |script|
      invariant fresh(editor) && EditorOf(editor, input)
      invariant |reviewed| == n && ProposedOnce(input.files, reviewed, stagings)
      invariant rejected == Identities(reviewed, encode) && forall i :: 0 <= i < n ==> SentBack(reviewed[i])
    {
      var decision := Edit(editor, script[n].editing, encoded);
      if decision.None? {
        return Undecided, editor, reviewed, stagings, batches, log;
      }
      if decision.value == NEEDS_HUMAN {
        return ForHuman, editor, reviewed, stagings, batches, log;
      }
      var entries := CollectProposal(editor.staged);
      StagedApplies(editor);
      var applied := ApplySolutionEdits(input.files, entries);
      if applied.NotApplied? {
        assert false;
      }
      var identity := encode(entries);
      if identity in rejected {
        return Resubmitted(entries), editor, reviewed, stagings, batches, log;
      }
      var verdict, recorded, given := Review(input, applied.after, script[n].reviewing, encoded);
      if verdict.None? {
        return Undecided, editor, reviewed, stagings, recorded, given;
      }
      IdentityAdded(reviewed, Attempt(entries, verdict.value), encode);
      reviewed, stagings := reviewed + [Attempt(entries, verdict.value)], stagings + [editor.staged];
      if verdict.value == PASSED {
        return Adopted(decision.value, entries), editor, reviewed, stagings, recorded, given;
      }
      if verdict.value == NEEDS_HUMAN {
        return ForHuman, editor, reviewed, stagings, recorded, given;
      }
      rejected := rejected + {identity};
    }
    return Unfinished, editor, reviewed, stagings, batches, log;
  }

  /** What an editor has staged always applies. */
  lemma StagedApplies(editor: SolutionSession)
    requires editor.Valid() && !editor.reviewer
    ensures Applies(editor.input.files, Proposal(editor.staged))
  {
  }
}

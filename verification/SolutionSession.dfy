/**
 * One conversation about a whole solution: the editor stages edits, the reviewer records assessments, and both must
 * read everything.
 */
module SolutionSessions {
  import opened Bytes
  import opened Keyed
  import opened Lists
  import opened Options
  import opened Spaces
  import opened Utf8
  import opened KeyOrder
  import opened Paging
  import opened Coverage
  import opened Solutions
  import Plans

  datatype DocKey =
    | Manifest
    | BuildOutput
    | RuleDoc(id: string)
    | OriginalDoc(file: string)
    | CandidateDoc(file: string)

  datatype SolutionRule = SolutionRule(id: string, body: Text)

  /** What stays fixed; `paths` are the files in ascending order, and a missing scope means every file. */
  datatype SolutionInput = SolutionInput(
    files: map<string, Text>,
    paths: seq<string>,
    rules: seq<SolutionRule>,
    ruleFiles: Option<map<string, seq<string>>>,
    buildOutput: Text,
    manifest: map<string, Text> -> Text)

  datatype Assessment = Assessment(status: string, reason: string)

  datatype AssessmentEntry = AssessmentEntry(ruleId: string, status: string, reason: string, files: seq<string>)

  datatype Assessments = Assessments(byRule: map<string, Assessment>, byFile: map<string, map<string, Assessment>>)

  datatype NamedEdit = NamedEdit(id: string, edit: StagedFileEdit)

  datatype Decision = Decided(status: string, note: string) | NotAccepted

  const NOT_APPLICABLE := "not_applicable"
  const SATISFIED := "satisfied"
  const VIOLATED := "violated"
  const PASSED := "passed"
  const NEEDS_HUMAN := "needs_human"
  const NEEDS_CHANGES := "needs_changes"
  const MODIFIED := "modified"
  const SKIPPED := "skipped"

  const SOLUTION_RULE: SolutionRule -> string := (rule: SolutionRule) => rule.id
  const EDIT_ID: NamedEdit -> string := (e: NamedEdit) => e.id

  // ----- assessments -----

  function Scope(input: SolutionInput, ruleId: string): seq<string> {
    match input.ruleFiles
    case None => input.paths
    case Some(scopes) => if ruleId in scopes then scopes[ruleId] else []
  }

  function Priority(status: string): nat {
    if status == VIOLATED then 3 else if status == NEEDS_HUMAN then 2 else if status == SATISFIED then 1 else 0
  }

  function Worst(recorded: map<string, Assessment>, scope: seq<string>): string {
    if scope == [] then NOT_APPLICABLE
    else
      var before, file := Worst(recorded, scope[..|scope| - 1]), scope[|scope| - 1];
      if file in recorded && Priority(recorded[file].status) > Priority(before) then recorded[file].status else before
  }

  function Reasons(recorded: map<string, Assessment>, scope: seq<string>): string {
    if scope == [] then ""
    else
      var before, file := Reasons(recorded, scope[..|scope| - 1]), scope[|scope| - 1];
      if file !in recorded then before
      else if before == "" then file + ": " + recorded[file].reason
      else before + "\n" + file + ": " + recorded[file].reason
  }

  function Aggregate(recorded: map<string, Assessment>, scope: seq<string>): Assessment {
    Assessment(Worst(recorded, scope), Reasons(recorded, scope))
  }

  method AggregateAssessment(recorded: map<string, Assessment>, scope: seq<string>) returns (aggregate: Assessment)
    ensures aggregate == Aggregate(recorded, scope)
  {
    var status, reasons := NOT_APPLICABLE, "";
    for i := 0 to |scope|
      invariant status == Worst(recorded, scope[..i]) && reasons == Reasons(recorded, scope[..i])
    {
      assert scope[..i + 1][..i] == scope[..i];
      if scope[i] in recorded {
        var assessment := recorded[scope[i]];
        if Priority(assessment.status) > Priority(status) {
          status := assessment.status;
        }
        reasons := (if reasons == "" then "" else reasons + "\n") + scope[i] + ": " + assessment.reason;
      }
    }
    assert scope[..|scope|] == scope;
    return Assessment(status, reasons);
  }

  predicate Passing(a: Assessment) { a.status == SATISFIED || a.status == NOT_APPLICABLE }

  predicate KnownStatus(status: string) {
    status == SATISFIED || status == NOT_APPLICABLE || status == VIOLATED || status == NEEDS_HUMAN
  }

  /** The aggregate is the worst status recorded in the scope, and so passes exactly when every one of them does. */
  lemma {:induction false} AggregateIsWorst(recorded: map<string, Assessment>, scope: seq<string>)
    requires forall f :: f in recorded ==> KnownStatus(recorded[f].status)
    ensures forall i ::
        0 <= i < |scope| && scope[i] in recorded ==>
          Priority(recorded[scope[i]].status) <= Priority(Worst(recorded, scope))
    ensures Worst(recorded, scope) == NOT_APPLICABLE
      || exists i :: 0 <= i < |scope| && scope[i] in recorded && recorded[scope[i]].status == Worst(recorded, scope)
    ensures Passing(Aggregate(recorded, scope)) <==>
        forall i :: 0 <= i < |scope| && scope[i] in recorded ==> Passing(recorded[scope[i]])
  {
    if scope != [] {
      var front := scope[..|scope| - 1];
      AggregateIsWorst(recorded, front);
      assert forall i :: 0 <= i < |front| ==> front[i] == scope[i];
      if i :| 0 <= i < |front| && front[i] in recorded && recorded[front[i]].status == Worst(recorded, front) {
        assert scope[i] in recorded && recorded[scope[i]].status == Worst(recorded, front);
      }
    }
  }

  ghost predicate SomeRecorded(recorded: map<string, Assessment>, scope: seq<string>, status: string) {
    exists i :: 0 <= i < |scope| && scope[i] in recorded && recorded[scope[i]].status == status
  }

  /** A violation comes first, then a question, then a satisfied rule, and last one that does not apply. */
  lemma SeverityDecides(recorded: map<string, Assessment>, scope: seq<string>)
    requires forall f :: f in recorded ==> KnownStatus(recorded[f].status)
    ensures Aggregate(recorded, scope).status ==
      if SomeRecorded(recorded, scope, VIOLATED) then VIOLATED
      else if SomeRecorded(recorded, scope, NEEDS_HUMAN) then NEEDS_HUMAN
      else if SomeRecorded(recorded, scope, SATISFIED) then SATISFIED
      else NOT_APPLICABLE
  {
    hide Worst;
    AggregateIsWorst(recorded, scope);
    var worst := Worst(recorded, scope);
    assert worst != NOT_APPLICABLE ==> SomeRecorded(recorded, scope, worst);
    assert KnownStatus(worst);
  }

  /** The reasons of two parts of a scope stand one below the other, and a file's reason behind its name. */
  lemma {:induction false} ReasonsAreJoined(recorded: map<string, Assessment>, a: seq<string>, b: seq<string>)
    ensures Aggregate(recorded, a + b).reason ==
      var first, second := Aggregate(recorded, a).reason, Aggregate(recorded, b).reason;
      if first == "" then second else if second == "" then first else first + "\n" + second
  {
    if b == [] {
      assert a + b == a;
    } else {
      assert (a + b)[..|a + b| - 1] == a + b[..|b| - 1];
      ReasonsAreJoined(recorded, a, b[..|b| - 1]);
    }
  }

  lemma ReasonOfFile(recorded: map<string, Assessment>, file: string)
    ensures Aggregate(recorded, [file]).reason == if file in recorded then file + ": " + recorded[file].reason else ""
  {
    assert [file][..0] == [] && Reasons(recorded, []) == "";
    assert Reasons(recorded, [file]) == if file in recorded then file + ": " + recorded[file].reason else "";
  }

  /** What one batch does to the files' staged edits. */
  lemma StagingIsExact(staged: StagedFiles, file: string, edits: seq<NamedEdit>, removeIds: seq<string>)
    requires Distinct(edits, EDIT_ID)
    ensures var next := NextStaged(staged, file, edits, removeIds);
      && next.Keys == staged.Keys + {file}
      && (forall other :: other in staged && other != file ==> next[other] == staged[other])
      && (forall i :: 0 <= i < |edits| ==> edits[i].id in next[file] && next[file][edits[i].id] == edits[i].edit)
      && (forall id :: id in next[file] ==>
            HasKey(edits, EDIT_ID, id) || (file in staged && id in staged[file] && id !in removeIds))
      && (file in staged ==> forall id :: id in staged[file] && id !in removeIds && !HasKey(edits, EDIT_ID, id) ==>
            id in next[file] && next[file][id] == staged[file][id])
  {
    var kept := StagedOf(staged, file) - Keys(removeIds, SELF);
    forall id ensures id in Keys(removeIds, SELF) <==> id in removeIds {
      if id in removeIds {
        var k :| 0 <= k < |removeIds| && removeIds[k] == id;
        assert SELF(removeIds[k]) == id;
      }
    }
    WithEditsIsExact(kept, edits);
  }

  ghost predicate IsWith(next: map<string, StagedFileEdit>, staged: map<string, StagedFileEdit>,
      edits: seq<NamedEdit>) {
    && (forall i :: 0 <= i < |edits| ==> edits[i].id in next && next[edits[i].id] == edits[i].edit)
    && (forall id :: id in next ==> HasKey(edits, EDIT_ID, id) || id in staged)
    && (forall id :: id in staged && !HasKey(edits, EDIT_ID, id) ==> id in next && next[id] == staged[id])
  }

  lemma OneMoreEdit(staged: map<string, StagedFileEdit>, before: map<string, StagedFileEdit>, edits: seq<NamedEdit>)
    requires edits != [] && Distinct(edits, EDIT_ID) && IsWith(before, staged, edits[..|edits| - 1])
    requires forall k :: HasKey(edits, EDIT_ID, k) <==>
      HasKey(edits[..|edits| - 1], EDIT_ID, k) || EDIT_ID(edits[|edits| - 1]) == k
    ensures IsWith(before[edits[|edits| - 1].id := edits[|edits| - 1].edit], staged, edits)
  {
    hide HasKey;
    var n := |edits| - 1;
    var next := before[edits[n].id := edits[n].edit];
    forall i | 0 <= i < n ensures edits[i].id in next && next[edits[i].id] == edits[i].edit {
      assert edits[..n][i] == edits[i] && EDIT_ID(edits[i]) != EDIT_ID(edits[n]);
    }
  }

  lemma {:induction false} WithEditsIsExact(staged: map<string, StagedFileEdit>, edits: seq<NamedEdit>)
    requires Distinct(edits, EDIT_ID)
    ensures IsWith(WithEdits(staged, edits), staged, edits)
  {
    if edits != [] {
      var n := |edits| - 1;
      WithEditsIsExact(staged, edits[..n]);
      KeysStep(edits, EDIT_ID, n);
      assert edits[..n + 1] == edits;
      OneMoreEdit(staged, WithEdits(staged, edits[..n]), edits);
    }
  }

  predicate EntryFits(input: SolutionInput, a: AssessmentEntry) {
    && HasKey(input.rules, SOLUTION_RULE, a.ruleId) && !IsBlank(a.reason) && KnownStatus(a.status)
    && (input.ruleFiles.Some? ==> a.files != [])
    && AllDistinct(a.files) && forall i :: 0 <= i < |a.files| ==> a.files[i] in Scope(input, a.ruleId)
  }

  function WithFiles(recorded: map<string, Assessment>, files: seq<string>, a: Assessment): map<string, Assessment> {
    if files == [] then recorded else WithFiles(recorded, files[..|files| - 1], a)[files[|files| - 1] := a]
  }

  function OfRule(all: Assessments, ruleId: string): map<string, Assessment> {
    if ruleId in all.byFile then all.byFile[ruleId] else map[]
  }

  function RecordOne(input: SolutionInput, all: Assessments, a: AssessmentEntry): Assessments {
    var assessment := Assessment(a.status, a.reason);
    if input.ruleFiles.None? && a.files == [] then all.(byRule := all.byRule[a.ruleId := assessment])
    else
      var recorded := WithFiles(OfRule(all, a.ruleId), a.files, assessment);
      Assessments(all.byRule[a.ruleId := Aggregate(recorded, Scope(input, a.ruleId))], all.byFile[a.ruleId := recorded])
  }

  function RecordAll(input: SolutionInput, all: Assessments, entries: seq<AssessmentEntry>): Assessments {
    if entries == []
    then all
    else RecordOne(input, RecordAll(input, all, entries[..|entries| - 1]), entries[|entries| - 1])
  }

  /** With a fixed scope, what stands for a rule is the aggregate of what was recorded for its files. */
  predicate Aggregated(input: SolutionInput, all: Assessments) {
    && (forall id :: id in all.byFile ==> forall f :: f in all.byFile[id] ==> KnownStatus(all.byFile[id][f].status))
    && (input.ruleFiles.Some? ==>
          forall id :: id in all.byRule ==> all.byRule[id] == Aggregate(OfRule(all, id), Scope(input, id)))
  }

  lemma {:induction false} WithFilesKnown(recorded: map<string, Assessment>, files: seq<string>, a: Assessment)
    requires KnownStatus(a.status) && forall f :: f in recorded ==> KnownStatus(recorded[f].status)
    ensures forall f :: f in WithFiles(recorded, files, a) ==> KnownStatus(WithFiles(recorded, files, a)[f].status)
  {
    if files != [] {
      WithFilesKnown(recorded, files[..|files| - 1], a);
    }
  }

  lemma RecordOneAggregates(input: SolutionInput, all: Assessments, a: AssessmentEntry)
    requires Aggregated(input, all) && EntryFits(input, a)
    ensures Aggregated(input, RecordOne(input, all, a))
  {
    WithFilesKnown(OfRule(all, a.ruleId), a.files, Assessment(a.status, a.reason));
  }

  const UNASSESSED := Assessments(map[], map[])

  predicate BatchFits(input: SolutionInput, entries: seq<AssessmentEntry>) {
    forall i :: 0 <= i < |entries| ==> EntryFits(input, entries[i])
  }

  /** The entries of the batches that were accepted, in order. */
  function Taken(input: SolutionInput, batches: seq<seq<AssessmentEntry>>): seq<AssessmentEntry> {
    if batches == [] then []
    else
      var before, last := Taken(input, batches[..|batches| - 1]), batches[|batches| - 1];
      if BatchFits(input, last) then before + last else before
  }

  /** What stands after any batches, of which those that do not fit change nothing. */
  function Assessed(input: SolutionInput, batches: seq<seq<AssessmentEntry>>): Assessments {
    RecordAll(input, UNASSESSED, Taken(input, batches))
  }

  lemma {:induction false} RecordMore(input: SolutionInput, all: Assessments, a: seq<AssessmentEntry>,
      b: seq<AssessmentEntry>)
    ensures RecordAll(input, all, a + b) == RecordAll(input, RecordAll(input, all, a), b)
  {
    if b == [] {
      assert a + b == a;
    } else {
      RecordMore(input, all, a, b[..|b| - 1]);
      assert (a + b)[..|a + b| - 1] == a + b[..|b| - 1] && (a + b)[|a + b| - 1] == b[|b| - 1];
    }
  }

  lemma AssessedGrows(input: SolutionInput, batches: seq<seq<AssessmentEntry>>, entries: seq<AssessmentEntry>)
    ensures Assessed(input, batches + [entries]) ==
      if BatchFits(input, entries)
      then RecordAll(input, Assessed(input, batches), entries)
      else Assessed(input, batches)
  {
    assert (batches + [entries])[..|batches + [entries]| - 1] == batches;
    RecordMore(input, UNASSESSED, Taken(input, batches), entries);
  }

  lemma {:induction false} TakenFits(input: SolutionInput, batches: seq<seq<AssessmentEntry>>)
    ensures BatchFits(input, Taken(input, batches))
  {
    if batches != [] {
      TakenFits(input, batches[..|batches| - 1]);
    }
  }

  // ----- what the records go back to -----

  predicate Names(a: AssessmentEntry, ruleId: string, file: string) { a.ruleId == ruleId && file in a.files }

  /** The last entry that names the rule and the file. */
  function Latest(entries: seq<AssessmentEntry>, ruleId: string, file: string): Option<AssessmentEntry> {
    if entries == [] then None
    else if Names(entries[|entries| - 1], ruleId, file) then Some(entries[|entries| - 1])
    else Latest(entries[..|entries| - 1], ruleId, file)
  }

  /** The last entry for the rule names files, and so does not assess the rule as a whole. */
  predicate LastNamesFiles(entries: seq<AssessmentEntry>, ruleId: string) {
    entries != [] &&
    if entries[|entries| - 1].ruleId == ruleId then entries[|entries| - 1].files != []
    else LastNamesFiles(entries[..|entries| - 1], ruleId)
  }

  predicate LatestPasses(entries: seq<AssessmentEntry>, ruleId: string, file: string) {
    var latest := Latest(entries, ruleId, file);
    latest.Some? && (latest.value.status == SATISFIED || latest.value.status == NOT_APPLICABLE)
  }

  lemma {:induction false} WithFilesAt(recorded: map<string, Assessment>, files: seq<string>, a: Assessment)
    ensures forall f :: f in WithFiles(recorded, files, a) <==> f in files || f in recorded
    ensures forall f :: f in WithFiles(recorded, files, a) ==>
      WithFiles(recorded, files, a)[f] == if f in files then a else recorded[f]
  {
    if files != [] {
      var front, last := files[..|files| - 1], files[|files| - 1];
      WithFilesAt(recorded, front, a);
      assert files == front + [last];
    }
  }

  /** What is recorded for a rule and a file is what the last entry that names both said, and nothing else. */
  lemma {:induction false} RecordedIsLatest(input: SolutionInput, entries: seq<AssessmentEntry>, ruleId: string,
      file: string)
    requires BatchFits(input, entries)
    ensures var recorded, latest := OfRule(RecordAll(input, UNASSESSED, entries), ruleId),
      Latest(entries, ruleId, file);
      && (file in recorded <==> latest.Some?)
      && (latest.Some? ==> recorded[file] == Assessment(latest.value.status, latest.value.reason))
  {
    if entries != [] {
      var front, last := entries[..|entries| - 1], entries[|entries| - 1];
      RecordedIsLatest(input, front, ruleId, file);
      WithFilesAt(OfRule(RecordAll(input, UNASSESSED, front), last.ruleId), last.files,
        Assessment(last.status, last.reason));
    }
  }

  lemma {:induction false} LatestFits(input: SolutionInput, entries: seq<AssessmentEntry>, ruleId: string, file: string)
    requires BatchFits(input, entries) && Latest(entries, ruleId, file).Some?
    ensures HasKey(input.rules, SOLUTION_RULE, ruleId) && file in Scope(input, ruleId)
    ensures KnownStatus(Latest(entries, ruleId, file).value.status)
  {
    var front, last := entries[..|entries| - 1], entries[|entries| - 1];
    if Names(last, ruleId, file) {
      assert EntryFits(input, last);
    } else {
      LatestFits(input, front, ruleId, file);
    }
  }

  /** After an entry that names files, what stands for the rule is the aggregate of all its records. */
  lemma {:induction false} LastAggregates(input: SolutionInput, entries: seq<AssessmentEntry>, ruleId: string)
    requires LastNamesFiles(entries, ruleId)
    ensures var all := RecordAll(input, UNASSESSED, entries);
      ruleId in all.byRule && all.byRule[ruleId] == Aggregate(OfRule(all, ruleId), Scope(input, ruleId))
  {
    var front, last := entries[..|entries| - 1], entries[|entries| - 1];
    if last.ruleId != ruleId {
      LastAggregates(input, front, ruleId);
    }
  }

  /** With a fixed scope every entry names files. */
  lemma {:induction false} ScopedNamesFiles(input: SolutionInput, entries: seq<AssessmentEntry>, ruleId: string)
    requires BatchFits(input, entries) && input.ruleFiles.Some?
    ensures ruleId in RecordAll(input, UNASSESSED, entries).byRule <==> LastNamesFiles(entries, ruleId)
  {
    if entries != [] {
      assert EntryFits(input, entries[|entries| - 1]);
      ScopedNamesFiles(input, entries[..|entries| - 1], ruleId);
    }
  }

  /** A rule with a recorded file has an entry. */
  lemma {:induction false} NamedHasEntry(entries: seq<AssessmentEntry>, input: SolutionInput, ruleId: string,
      file: string)
    requires Latest(entries, ruleId, file).Some?
    ensures ruleId in RecordAll(input, UNASSESSED, entries).byRule
  {
    if !Names(entries[|entries| - 1], ruleId, file) {
      NamedHasEntry(entries[..|entries| - 1], input, ruleId, file);
    }
  }

  lemma RecordsAreKnown(input: SolutionInput, entries: seq<AssessmentEntry>, ruleId: string)
    requires BatchFits(input, entries)
    ensures forall f :: f in OfRule(RecordAll(input, UNASSESSED, entries), ruleId) ==>
      && f in Scope(input, ruleId) && HasKey(input.rules, SOLUTION_RULE, ruleId)
      && KnownStatus(OfRule(RecordAll(input, UNASSESSED, entries), ruleId)[f].status)
  {
    var recorded := OfRule(RecordAll(input, UNASSESSED, entries), ruleId);
    forall f | f in recorded
      ensures f in Scope(input, ruleId) && HasKey(input.rules, SOLUTION_RULE, ruleId) && KnownStatus(recorded[f].status)
    {
      RecordedIsLatest(input, entries, ruleId, f);
      LatestFits(input, entries, ruleId, f);
    }
  }

  // ----- documents -----

  function RuleText(rules: seq<SolutionRule>, id: string): Option<Text> {
    var k := Find(rules, SOLUTION_RULE, id);
    if k < |rules| then Some(rules[k].body) else None
  }

  function SolutionDocs(input: SolutionInput, after: map<string, Text>): DocKey -> Option<Text> {
    (key: DocKey) =>
      match key
      case Manifest => Some(input.manifest(after))
      case BuildOutput => Some(input.buildOutput)
      case RuleDoc(id) => RuleText(input.rules, id)
      case OriginalDoc(file) => if file in input.files then Some(input.files[file]) else None
      case CandidateDoc(file) => if file in input.files && file in after then Some(after[file]) else None
  }

  /** Documents that no staged edit changes. */
  predicate Fixed(key: DocKey) { key.BuildOutput? || key.RuleDoc? || key.OriginalDoc? }

  ghost predicate KeySound(documents: DocKey -> Option<Text>, ranges: seq<ByteRange>, log: seq<Delivery<DocKey>>,
      key: DocKey) {
    documents(key).Some? && Within(ranges, |documents(key).value|) && RangesDelivered(log, key, ranges)
  }

  /** What is recorded as read was delivered: of everything in a review, of what cannot change while editing. */
  ghost predicate ReadsSound(input: SolutionInput, reviewer: bool, after: map<string, Text>, read: map<DocKey,
      seq<ByteRange>>, log: seq<Delivery<DocKey>>) {
    forall key :: key in read && (reviewer || Fixed(key)) ==> KeySound(SolutionDocs(input, after), read[key], log, key)
  }

  lemma PageIsSound(input: SolutionInput, reviewer: bool, after: map<string, Text>, read: map<DocKey,
      seq<ByteRange>>, log: seq<Delivery<DocKey>>, key: DocKey, range: ByteRange)
    requires ReadsSound(input, reviewer, after, read, log)
    requires SolutionDocs(input, after)(key).Some?
    requires range.start <= range.end <= |SolutionDocs(input, after)(key).value|
    ensures
      ReadsSound(input, reviewer, after, Recorded(read, key, range), log + [Delivery(key, range.start, range.end)])
  {
    var next, more := Recorded(read, key, range), log + [Delivery(key, range.start, range.end)];
    assert Delivery(key, range.start, range.end) in more;
    forall other | other in next && (reviewer || Fixed(other))
      ensures KeySound(SolutionDocs(input, after), next[other], more, other)
    {
      assert other in read ==> KeySound(SolutionDocs(input, after), read[other], log, other);
    }
  }

  lemma StagingKeepsReads(input: SolutionInput, after: map<string, Text>, next: map<string, Text>, read: map<DocKey,
      seq<ByteRange>>, log: seq<Delivery<DocKey>>, dropped: set<DocKey>)
    requires ReadsSound(input, false, after, read, log)
    ensures ReadsSound(input, false, next, read - dropped, log)
  {
    forall key | key in read - dropped && Fixed(key)
      ensures KeySound(SolutionDocs(input, next), (read - dropped)[key], log, key)
    {
      assert KeySound(SolutionDocs(input, after), read[key], log, key);
    }
  }

  // ----- staging -----

  function WithEdits(staged: map<string, StagedFileEdit>, edits: seq<NamedEdit>): map<string, StagedFileEdit> {
    if edits == []
    then staged
    else WithEdits(staged, edits[..|edits| - 1])[edits[|edits| - 1].id := edits[|edits| - 1].edit]
  }

  function StagedOf(staged: StagedFiles, file: string): map<string, StagedFileEdit> {
    if file in staged then staged[file] else map[]
  }

  function NextStaged(staged: StagedFiles, file: string, edits: seq<NamedEdit>, removeIds: seq<string>): StagedFiles {
    staged[file := WithEdits(StagedOf(staged, file) - Keys(removeIds, SELF), edits)]
  }

  predicate EditFits(input: SolutionInput, file: string, e: NamedEdit) {
    Plans.ValidRuleId(e.id) && forall i :: 0 <= i < |e.edit.ruleIds| ==>
      HasKey(input.rules, SOLUTION_RULE, e.edit.ruleIds[i]) && file in Scope(input, e.edit.ruleIds[i])
  }

  function EditTest(input: SolutionInput,
      file: string): NamedEdit -> bool { (e: NamedEdit) => EditFits(input, file, e) }

  method MergeEdits(input: SolutionInput, file: string, current: map<string, StagedFileEdit>, edits: seq<NamedEdit>)
    returns (ok: bool, next: map<string, StagedFileEdit>)
    ensures ok <==> Good(edits, EditTest(input, file), EDIT_ID)
    ensures ok ==> next == WithEdits(current, edits)
  {
    var seen: set<string> := {};
    next := current;
    for i := 0 to |edits|
      invariant Good(edits[..i], EditTest(input, file), EDIT_ID) && seen == Keys(edits[..i], EDIT_ID)
      invariant next == WithEdits(current, edits[..i])
    {
      GoodStep(edits, EditTest(input, file), EDIT_ID, i);
      KeysGrow(edits, EDIT_ID, i);
      assert edits[..i + 1][..i] == edits[..i];
      if !EditFits(input, file, edits[i]) || edits[i].id in seen {
        return false, next;
      }
      seen, next := seen + {edits[i].id}, next[edits[i].id := edits[i].edit];
    }
    assert edits[..|edits|] == edits;
    ok := true;
  }

  ghost predicate Stageable(input: SolutionInput, staged: StagedFiles, file: string, edits: seq<NamedEdit>,
      removeIds: seq<string>) {
    && Good(edits, EditTest(input, file), EDIT_ID)
    && Applies(input.files, Proposal(NextStaged(staged, file, edits, removeIds)))
  }

  /** An editor's candidate is always what its proposal makes of the files. */
  ghost predicate SessionSound(input: SolutionInput, reviewer: bool, after: map<string, Text>, staged: StagedFiles,
      assessed: Assessments,
                               read: map<DocKey, seq<ByteRange>>, log: seq<Delivery<DocKey>>) {
    && ReadsSound(input, reviewer, after, read, log)
    && (!reviewer ==> Applies(input.files, Proposal(staged)) && after == AfterEdits(input.files, Proposal(staged)))
    && Aggregated(input, assessed)
  }

  lemma StagedIsSound(input: SolutionInput, after: map<string, Text>, staged: StagedFiles, assessed: Assessments,
      read: map<DocKey, seq<ByteRange>>, log: seq<Delivery<DocKey>>, next: StagedFiles, dropped: set<DocKey>)
    requires SessionSound(input, false, after, staged, assessed, read, log) && Applies(input.files, Proposal(next))
    ensures SessionSound(input, false, AfterEdits(input.files, Proposal(next)), next, assessed, read - dropped, log)
  {
    StagingKeepsReads(input, after, AfterEdits(input.files, Proposal(next)), read, log, dropped);
  }

  method TryStaging(input: SolutionInput, staged: StagedFiles, file: string, edits: seq<NamedEdit>,
      removeIds: seq<string>)
    returns (ok: bool, next: StagedFiles, after: map<string, Text>)
    ensures ok <==> Stageable(input, staged, file, edits, removeIds)
    ensures
      ok ==> next == NextStaged(staged, file, edits, removeIds) && after == AfterEdits(input.files, Proposal(next))
  {
    var fit, merged := MergeEdits(input, file, StagedOf(staged, file) - Keys(removeIds, SELF), edits);
    if !fit {
      return false, staged, map[];
    }
    next := staged[file := merged];
    var entries := CollectProposal(next);
    var result := ApplySolutionEdits(input.files, entries);
    if result.NotApplied? {
      return false, staged, map[];
    }
    return true, next, result.after;
  }

  class SolutionSession {
    const input: SolutionInput
    const reviewer: bool
    var after: map<string, Text>
    var staged: StagedFiles
    var assessed: Assessments
    var read: map<DocKey, seq<ByteRange>>
    ghost var log: seq<Delivery<DocKey>>
    ghost var batches: seq<seq<AssessmentEntry>>

    ghost predicate Valid()
      reads this
    {
      SessionSound(input, reviewer, after, staged, assessed, read, log) && assessed == Assessed(input, batches)
    }

    constructor Editor(input: SolutionInput)
      ensures this.input == input && !reviewer && Valid() && after == input.files && staged == map[] && batches == []
    {
      this.input, reviewer, after, staged := input, false, input.files, map[];
      assessed, read, log, batches := UNASSESSED, map[], [], [];
      new;
      NothingStaged();
    }

    constructor Reviewer(input: SolutionInput, candidate: map<string, Text>)
      ensures this.input == input && reviewer && Valid() && after == candidate && batches == []
    {
      this.input, reviewer, after, staged := input, true, candidate, map[];
      assessed, read, log, batches := UNASSESSED, map[], [], [];
    }

    function RangesOf(key: DocKey): seq<ByteRange>
      reads this
    {
      if key in read then read[key] else []
    }

    method ReadPage(key: DocKey, offset: int, encoded: Encoder) returns (r: PageResult)
      requires Valid()
      modifies `read, `log
      ensures Valid()
      ensures r.Returned? <==>
          && SolutionDocs(input, after)(key).Some? && 0 <= offset
          && Boundary(SolutionDocs(input, after)(key).value, offset)
      ensures r.Returned? ==> r.page.offset == offset && IsPage(SolutionDocs(input, after)(key).value, r.page)
      ensures r.Returned? ==> read == Recorded(old(read), key, ByteRange(r.page.offset, End(r.page)))
      ensures r.Returned? ==> log == old(log) + [Delivery(key, r.page.offset, End(r.page))]
      ensures r.BadOffset? ==> read == old(read) && log == old(log)
    {
      hide Aggregated, Applies, AfterEdits, Proposal, ReadsSound, Recorded, ValidUtf8;
      var document := SolutionDocs(input, after)(key);
      if document.None? {
        return BadOffset;
      }
      r := PageText(document.value, offset, encoded);
      if r.Returned? {
        var range := ByteRange(r.page.offset, End(r.page));
        PageIsSound(input, reviewer, after, read, log, key, range);
        read := Recorded(read, key, range);
        log := log + [Delivery(key, range.start, range.end)];
      }
    }

    /** What is recorded as read still lies within the document, which an edit may have shortened. */
    ghost predicate InRange(key: DocKey)
      reads this
    {
      SolutionDocs(input, after)(key).Some? && Within(RangesOf(key), |SolutionDocs(input, after)(key).value|)
    }

    ghost predicate AllInRange(keys: seq<DocKey>)
      reads this
    {
      forall i :: 0 <= i < |keys| ==> InRange(keys[i])
    }

    method Covered(key: DocKey) returns (covered: bool)
      requires Valid()
      ensures covered ==>
          SolutionDocs(input, after)(key).Some? && CoversTo(RangesOf(key), |SolutionDocs(input, after)(key).value|)
      ensures SolutionDocs(input, after)(key).Some? && CoversTo(RangesOf(key), |SolutionDocs(input, after)(key).value|)
              && (reviewer || Fixed(key) || InRange(key)) ==>
        covered
      ensures covered && (reviewer || Fixed(key)) ==> FullyDelivered(log, SolutionDocs(input, after), key)
    {
      var document := SolutionDocs(input, after)(key);
      if document.None? {
        return false;
      }
      covered := CoveredReviewBytes(RangesOf(key), |document.value|);
      if covered && (reviewer || Fixed(key)) {
        CoveredIsDelivered(log, key, RangesOf(key), |document.value|);
      }
    }

    method CoveredOriginal(file: string) returns (covered: bool)
      requires Valid()
      ensures covered <==> file in input.files && CoversTo(RangesOf(OriginalDoc(file)), |input.files[file]|)
    {
      hide SessionSound, CoversTo, Within;
      covered := Covered(OriginalDoc(file));
    }

    /** A batch that does not fit, or does not apply as a whole, changes nothing. */
    method Stage(file: string, edits: seq<NamedEdit>, removeIds: seq<string>) returns (ok: bool)
      requires Valid() && !reviewer
      modifies `staged, `after, `read
      ensures Valid()
      ensures ok <==>
        && file in input.files && CoversTo(old(RangesOf(OriginalDoc(file))), |input.files[file]|)
        && Stageable(input, old(staged), file, edits, removeIds)
      ensures if ok
        then staged == NextStaged(old(staged), file, edits, removeIds) && read == old(read) - {CandidateDoc(file)}
        else staged == old(staged) && after == old(after) && read == old(read)
    {
      hide Applies, Proposal, AfterEdits, Good;
      var covered := CoveredOriginal(file);
      if !covered {
        return false;
      }
      var fit, next, text := TryStaging(input, staged, file, edits, removeIds);
      if !fit {
        return false;
      }
      StagedIsSound(input, after, staged, assessed, read, log, next, {CandidateDoc(file)});
      staged, after, read := next, text, read - {CandidateDoc(file)};
      ok := true;
    }

    /** All of a batch of assessments is recorded, or none. */
    method RecordAssessments(entries: seq<AssessmentEntry>) returns (ok: bool)
      requires Valid() && reviewer
      modifies `assessed, `batches
      ensures Valid()
      ensures ok <==> BatchFits(input, entries)
      ensures batches == old(batches) + [entries]
      ensures assessed == if ok then RecordAll(input, old(assessed), entries) else old(assessed)
    {
      hide Assessed, ReadsSound, Applies, AfterEdits, Proposal, EntryFits, RecordOne, Aggregated;
      ghost var before, taken := assessed, batches;
      batches := batches + [entries];
      AssessedGrows(input, taken, entries);
      for i := 0 to |entries|
        invariant forall k :: 0 <= k < i ==> EntryFits(input, entries[k])
      {
        if !EntryFits(input, entries[i]) {
          return false;
        }
      }
      for i := 0 to |entries|
        invariant assessed == RecordAll(input, before, entries[..i]) && Aggregated(input, assessed)
        invariant batches == taken + [entries]
      {
        assert entries[..i + 1][..i] == entries[..i];
        RecordOneAggregates(input, assessed, entries[i]);
        var recorded := Record(entries[i]);
        assessed := recorded;
      }
      assert entries[..|entries|] == entries;
      ok := true;
    }

    method Record(a: AssessmentEntry) returns (next: Assessments)
      ensures next == RecordOne(input, assessed, a)
    {
      var assessment := Assessment(a.status, a.reason);
      if input.ruleFiles.None? && |a.files| == 0 {
        return assessed.(byRule := assessed.byRule[a.ruleId := assessment]);
      }
      var recorded := OfRule(assessed, a.ruleId);
      for i := 0 to |a.files|
        invariant recorded == WithFiles(OfRule(assessed, a.ruleId), a.files[..i], assessment)
      {
        assert a.files[..i + 1][..i] == a.files[..i];
        recorded := recorded[a.files[i] := assessment];
      }
      assert a.files[..|a.files|] == a.files;
      var aggregate := AggregateAssessment(recorded, Scope(input, a.ruleId));
      return Assessments(assessed.byRule[a.ruleId := aggregate], assessed.byFile[a.ruleId := recorded]);
    }

    // ----- the final decision -----

    ghost predicate ReadFully(key: DocKey)
      reads this
    {
      SolutionDocs(input, after)(key).Some? && CoversTo(RangesOf(key), |SolutionDocs(input, after)(key).value|)
    }

    ghost predicate AllRead(keys: seq<DocKey>)
      reads this
    {
      forall i :: 0 <= i < |keys| ==> ReadFully(keys[i])
    }

    method CoveredKeys(keys: seq<DocKey>) returns (covered: bool)
      requires Valid()
      ensures covered ==> AllRead(keys)
      ensures AllRead(keys) && (reviewer || AllInRange(keys)) ==> covered
      ensures covered && reviewer ==> AllDelivered(log, SolutionDocs(input, after), keys)
    {
      hide SessionSound, CoversTo, DeliveredTo, Within, Applies, Proposal, AfterEdits, Assessed;
      for i := 0 to |keys|
        invariant forall k :: 0 <= k < i ==> ReadFully(keys[k])
        invariant reviewer ==> forall k :: 0 <= k < i ==> FullyDelivered(log, SolutionDocs(input, after), keys[k])
      {
        var one := Covered(keys[i]);
        if !one {
          return false;
        }
      }
      return true;
    }

    /**
     * A reviewer approves after reading everything, with a passing assessment of every rule in every file of its scope.
     */
    method FinishReview(status: string, note: string) returns (decision: Decision)
      requires Valid() && reviewer
      ensures decision.Decided? ==> decision == Decided(status, note)
      ensures decision.Decided? <==>
        && !IsBlank(note)
        && (|| status == NEEDS_HUMAN || status == NEEDS_CHANGES
            || (status == PASSED && AllRead(ReviewKeys(input)) && AllPass(input, Assessed(input, batches))))
      ensures decision.Decided? && status == PASSED ==> AllDelivered(log, SolutionDocs(input, after), ReviewKeys(input))
    {
      if IsBlank(note) {
        return NotAccepted;
      }
      if status == NEEDS_HUMAN || status == NEEDS_CHANGES {
        return Decided(status, note);
      }
      var covered := CoveredKeys(ReviewKeys(input));
      if !covered || status != PASSED {
        return NotAccepted;
      }
      var passing := CheckAssessments(input, assessed);
      return if passing then Decided(status, note) else NotAccepted;
    }

    /** An editor finishes with a change exactly when edits are staged, having read the context. */
    method FinishEditing(status: string, note: string) returns (decision: Decision)
      requires Valid() && !reviewer
      ensures decision.Decided? ==> decision == Decided(status, note) && !IsBlank(note)
      ensures decision.Decided? && status != NEEDS_HUMAN ==> AllRead(ContextKeys(input))
      ensures decision.Decided? && status != NEEDS_HUMAN ==>
        || (status == MODIFIED && Proposal(staged) != [])
        || (status == SKIPPED && Proposal(staged) == [] && after == input.files)
      ensures decision.NotAccepted? && !IsBlank(note)
              && AllRead(ContextKeys(input)) && AllInRange(ContextKeys(input)) ==>
        status != NEEDS_HUMAN && status != (if Proposal(staged) == [] then SKIPPED else MODIFIED)
    {
      if IsBlank(note) {
        return NotAccepted;
      }
      if status == NEEDS_HUMAN {
        return Decided(status, note);
      }
      var covered := CoveredKeys(ContextKeys(input));
      if !covered {
        return NotAccepted;
      }
      var entries := CollectProposal(staged);
      if (status != MODIFIED && status != SKIPPED) || ((status == MODIFIED) != (|entries| > 0)) {
        return NotAccepted;
      }
      return Decided(status, note);
    }
  }

  lemma NothingStaged()
    ensures Proposal(map[]) == []
    ensures forall files :: Applies(files, Proposal(map[])) && AfterEdits(files, Proposal(map[])) == files
  {
    var none: StagedFiles := map[];
    assert NonEmpty(none) == {};
    ListingIsUnique(Listing({}), [], {});
  }

  ghost predicate AllDelivered(log: seq<Delivery<DocKey>>, documents: DocKey -> Option<Text>, keys: seq<DocKey>) {
    forall i :: 0 <= i < |keys| ==> FullyDelivered(log, documents, keys[i])
  }

  function RuleDocs(rules: seq<SolutionRule>): seq<DocKey> { Map((rule: SolutionRule) => RuleDoc(rule.id), rules) }

  /** What both the editor and the reviewer must read. */
  function ContextKeys(input: SolutionInput): seq<DocKey> { [Manifest, BuildOutput] + RuleDocs(input.rules) }

  function Originals(paths: seq<string>): seq<DocKey> { Map((file: string) => OriginalDoc(file), paths) }

  function CandidateDocs(paths: seq<string>): seq<DocKey> { Map((file: string) => CandidateDoc(file), paths) }

  /** Everything an approval depends on. */
  function ReviewKeys(input: SolutionInput): seq<DocKey> {
    ContextKeys(input) + Originals(input.paths) + CandidateDocs(input.paths)
  }

  predicate FilePasses(all: Assessments, ruleId: string, file: string) {
    file in OfRule(all, ruleId) && Passing(OfRule(all, ruleId)[file])
  }

  predicate ScopePasses(all: Assessments, ruleId: string, scope: seq<string>) {
    forall i :: 0 <= i < |scope| ==> FilePasses(all, ruleId, scope[i])
  }

  predicate RulePasses(input: SolutionInput, all: Assessments, ruleId: string) {
    && (input.ruleFiles.Some? ==> ScopePasses(all, ruleId, Scope(input, ruleId)))
    && ruleId in all.byRule && Passing(all.byRule[ruleId])
  }

  predicate AllPass(input: SolutionInput, all: Assessments) {
    forall i :: 0 <= i < |input.rules| ==> RulePasses(input, all, input.rules[i].id)
  }

  method CheckScope(all: Assessments, ruleId: string, scope: seq<string>) returns (ok: bool)
    ensures ok <==> ScopePasses(all, ruleId, scope)
  {
    for i := 0 to |scope|
      invariant forall k :: 0 <= k < i ==> FilePasses(all, ruleId, scope[k])
    {
      if !FilePasses(all, ruleId, scope[i]) {
        return false;
      }
    }
    return true;
  }

  method CheckAssessments(input: SolutionInput, all: Assessments) returns (ok: bool)
    ensures ok <==> AllPass(input, all)
  {
    for i := 0 to |input.rules|
      invariant forall k :: 0 <= k < i ==> RulePasses(input, all, input.rules[k].id)
    {
      var id := input.rules[i].id;
      var scoped := CheckScope(all, id, Scope(input, id));
      if (input.ruleFiles.Some? && !scoped) || id !in all.byRule || !Passing(all.byRule[id]) {
        return false;
      }
    }
    return true;
  }

  /** The paths are the files of the solution, and rule ids are distinct. */
  ghost predicate WellFormed(input: SolutionInput) {
    && (forall f :: f in input.files ==> exists i :: 0 <= i < |input.paths| && input.paths[i] == f)
    && Distinct(input.rules, SOLUTION_RULE)
  }

  lemma KeyPositions(input: SolutionInput, i: nat, j: nat)
    requires i < |input.rules| && j < |input.paths|
    ensures var keys, n := ReviewKeys(input), |input.rules|;
      && |keys| == 2 + n + 2 * |input.paths|
      && keys[0] == Manifest && keys[1] == BuildOutput && keys[2 + i] == RuleDoc(input.rules[i].id)
      && keys[2 + n + j] == OriginalDoc(input.paths[j])
      && keys[2 + n + |input.paths| + j] == CandidateDoc(input.paths[j])
  {
  }

  /** An approval rests on every byte of every rule and of both versions of every file. */
  lemma ApprovalReadEverything(input: SolutionInput, after: map<string, Text>, log: seq<Delivery<DocKey>>, i: nat,
      file: string)
    requires WellFormed(input) && i < |input.rules| && file in input.files && file in after
    requires AllDelivered(log, SolutionDocs(input, after), ReviewKeys(input))
    ensures DeliveredTo(log, Manifest, |input.manifest(after)|) && DeliveredTo(log, BuildOutput, |input.buildOutput|)
    ensures DeliveredTo(log, RuleDoc(input.rules[i].id), |input.rules[i].body|)
    ensures DeliveredTo(log, OriginalDoc(file), |input.files[file]|)
    ensures DeliveredTo(log, CandidateDoc(file), |after[file]|)
  {
    var j :| 0 <= j < |input.paths| && input.paths[j] == file;
    KeyPositions(input, i, j);
    FindIsOnly(input.rules, SOLUTION_RULE, i);
    var keys, n, docs := ReviewKeys(input), |input.rules|, SolutionDocs(input, after);
    assert FullyDelivered(log, docs, keys[0]) && FullyDelivered(log, docs, keys[1]);
    assert FullyDelivered(log, docs, keys[2 + i]);
    assert FullyDelivered(log, docs, keys[2 + n + j]) && FullyDelivered(log, docs, keys[2 + n + |input.paths| + j]);
  }

  /**
   * With a fixed scope the assessments allow an approval exactly when every rule has files, and the last accepted
   * entry for each rule and file of its scope passes.
   */
  lemma ScopedApprovalCoversPairs(input: SolutionInput, batches: seq<seq<AssessmentEntry>>)
    requires input.ruleFiles.Some?
    ensures AllPass(input, Assessed(input, batches)) <==>
      forall i :: 0 <= i < |input.rules| ==> PairsPass(input, Taken(input, batches), input.rules[i].id)
  {
    TakenFits(input, batches);
    var entries := Taken(input, batches);
    forall i | 0 <= i < |input.rules|
      ensures
        RulePasses(input, Assessed(input, batches), input.rules[i].id) <==> PairsPass(input, entries, input.rules[i].id)
    {
      ScopedRulePasses(input, entries, input.rules[i].id);
    }
  }

  function FilesFor(scopes: map<string, seq<string>>, ruleId: string): seq<string> {
    if ruleId in scopes then scopes[ruleId] else []
  }

  predicate PairsPass(input: SolutionInput, entries: seq<AssessmentEntry>, ruleId: string)
    requires input.ruleFiles.Some?
  {
    var scope := FilesFor(input.ruleFiles.value, ruleId);
    scope != [] && forall j :: 0 <= j < |scope| ==> LatestPasses(entries, ruleId, scope[j])
  }

  lemma PairIsLatest(input: SolutionInput, entries: seq<AssessmentEntry>, ruleId: string, file: string)
    requires BatchFits(input, entries)
    ensures FilePasses(RecordAll(input, UNASSESSED, entries), ruleId, file) <==> LatestPasses(entries, ruleId, file)
  {
    RecordedIsLatest(input, entries, ruleId, file);
  }

  lemma ScopedRulePasses(input: SolutionInput, entries: seq<AssessmentEntry>, ruleId: string)
    requires input.ruleFiles.Some? && BatchFits(input, entries)
    ensures RulePasses(input, RecordAll(input, UNASSESSED, entries), ruleId) <==> PairsPass(input, entries, ruleId)
  {
    hide FilePasses, EntryFits, Aggregate;
    var all, scope := RecordAll(input, UNASSESSED, entries), Scope(input, ruleId);
    assert scope == FilesFor(input.ruleFiles.value, ruleId);
    forall j | 0 <= j < |scope| ensures FilePasses(all, ruleId, scope[j]) <==> LatestPasses(entries, ruleId, scope[j]) {
      PairIsLatest(input, entries, ruleId, scope[j]);
    }
    ScopedNamesFiles(input, entries, ruleId);
    if RulePasses(input, all, ruleId) {
      LastEntryNames(input, entries, ruleId);
    }
    if PairsPass(input, entries, ruleId) {
      NamedHasEntry(entries, input, ruleId, scope[0]);
      AggregatePasses(input, entries, ruleId);
      ScopeIsAll(input, entries, ruleId);
    }
  }

  /** Nothing is recorded outside the scope of a rule. */
  lemma ScopeIsAll(input: SolutionInput, entries: seq<AssessmentEntry>, ruleId: string)
    requires
      BatchFits(input, entries) && ScopePasses(RecordAll(input, UNASSESSED, entries), ruleId, Scope(input, ruleId))
    ensures RecordsPass(RecordAll(input, UNASSESSED, entries), ruleId)
  {
    var all, scope := RecordAll(input, UNASSESSED, entries), Scope(input, ruleId);
    RecordsAreKnown(input, entries, ruleId);
    forall f | f in OfRule(all, ruleId) ensures Passing(OfRule(all, ruleId)[f]) {
      var j :| 0 <= j < |scope| && scope[j] == f;
      assert FilePasses(all, ruleId, scope[j]);
    }
  }

  /** An entry that names files names some in the scope. */
  lemma {:induction false} LastEntryNames(input: SolutionInput, entries: seq<AssessmentEntry>, ruleId: string)
    requires BatchFits(input, entries) && LastNamesFiles(entries, ruleId)
    ensures Scope(input, ruleId) != []
  {
    var last := entries[|entries| - 1];
    if last.ruleId == ruleId {
      assert EntryFits(input, last) && last.files[0] in Scope(input, ruleId);
    } else {
      LastEntryNames(input, entries[..|entries| - 1], ruleId);
    }
  }

  lemma AggregatePasses(input: SolutionInput, entries: seq<AssessmentEntry>, ruleId: string)
    requires BatchFits(input, entries) && LastNamesFiles(entries, ruleId)
    ensures var all := RecordAll(input, UNASSESSED, entries);
      ruleId in all.byRule && (Passing(all.byRule[ruleId]) <==> RecordsPass(all, ruleId))
  {
    var all, scope := RecordAll(input, UNASSESSED, entries), Scope(input, ruleId);
    LastAggregates(input, entries, ruleId);
    RecordsAreKnown(input, entries, ruleId);
    AggregateIsWorst(OfRule(all, ruleId), scope);
    if Passing(all.byRule[ruleId]) {
      forall f | f in OfRule(all, ruleId) ensures Passing(OfRule(all, ruleId)[f]) {
        var i :| 0 <= i < |scope| && scope[i] == f;
      }
    }
  }

  /** Every status recorded for a file of the rule passes. */
  predicate RecordsPass(all: Assessments, ruleId: string) {
    forall f :: f in OfRule(all, ruleId) ==> Passing(OfRule(all, ruleId)[f])
  }

  /** No recorded status is one that an approval must not have. */
  ghost predicate NothingHidden(all: Assessments) {
    forall id :: id in all.byFile ==> RecordsPass(all, id)
  }

  /** If the last entry for a rule names files, an approval means that every status recorded for its files passes. */
  lemma FileEntriesHideNothing(input: SolutionInput, batches: seq<seq<AssessmentEntry>>, i: nat)
    requires i < |input.rules| && AllPass(input, Assessed(input, batches))
    requires LastNamesFiles(Taken(input, batches), input.rules[i].id)
    ensures RecordsPass(Assessed(input, batches), input.rules[i].id)
  {
    TakenFits(input, batches);
    assert RulePasses(input, Assessed(input, batches), input.rules[i].id);
    AggregatePasses(input, Taken(input, batches), input.rules[i].id);
  }

  lemma ScopedHidesNothing(input: SolutionInput, batches: seq<seq<AssessmentEntry>>)
    requires input.ruleFiles.Some? && AllPass(input, Assessed(input, batches))
    ensures NothingHidden(Assessed(input, batches))
  {
    var entries, all := Taken(input, batches), Assessed(input, batches);
    TakenFits(input, batches);
    forall id | id in all.byFile ensures RecordsPass(all, id) {
      RecordsAreKnown(input, entries, id);
      if f :| f in OfRule(all, id) {
        var i :| 0 <= i < |input.rules| && SOLUTION_RULE(input.rules[i]) == id;
        assert RulePasses(input, all, id);
        ScopedNamesFiles(input, entries, id);
        FileEntriesHideNothing(input, batches, i);
      }
    }
  }

  const REASON := "x"

  lemma ReasonIsText()
    ensures !IsBlank(REASON)
  {
    assert REASON[0] !in SPACES;
    assert TrimLeft(REASON) == REASON;
  }

  function Whole(rules: seq<SolutionRule>): (entries: seq<AssessmentEntry>)
    ensures |entries| == |rules|
    ensures forall i :: 0 <= i < |rules| ==> entries[i] == AssessmentEntry(rules[i].id, SATISFIED, REASON, [])
  {
    Map((rule: SolutionRule) => AssessmentEntry(rule.id, SATISFIED, REASON, []), rules)
  }

  predicate StandsSatisfied(all: Assessments, ruleId: string) {
    ruleId in all.byRule && all.byRule[ruleId].status == SATISFIED
  }

  /** Assessments of whole rules replace what stands for them and leave the records of files. */
  lemma {:induction false} WholeReplaces(input: SolutionInput, all: Assessments, rules: seq<SolutionRule>)
    requires input.ruleFiles.None?
    ensures RecordAll(input, all, Whole(rules)).byFile == all.byFile
    ensures forall i :: 0 <= i < |rules| ==> StandsSatisfied(RecordAll(input, all, Whole(rules)), rules[i].id)
  {
    if rules != [] {
      var front := rules[..|rules| - 1];
      WholeReplaces(input, all, front);
      assert Whole(rules)[..|rules| - 1] == Whole(front);
      assert forall i :: 0 <= i < |front| ==> front[i] == rules[i];
    }
  }

  /** Without a fixed scope any rule may have a violation recorded for any file, and then be assessed as a whole. */
  lemma UnscopedAssessmentHidesFiles(input: SolutionInput, i: nat, j: nat)
    requires input.ruleFiles.None? && i < |input.rules| && j < |input.paths|
    ensures var found := AssessmentEntry(input.rules[i].id, VIOLATED, REASON, [input.paths[j]]);
      var all := Assessed(input, [[found], Whole(input.rules)]);
      && BatchFits(input, [found]) && BatchFits(input, Whole(input.rules)) && AllPass(input, all)
      && input.paths[j] in OfRule(all, input.rules[i].id) && !RecordsPass(all, input.rules[i].id)
  {
    hide WithFiles, Aggregate;
    ReasonIsText();
    var id, file := input.rules[i].id, input.paths[j];
    var found, whole := AssessmentEntry(id, VIOLATED, REASON, [file]), Whole(input.rules);
    assert SOLUTION_RULE(input.rules[i]) == id;
    assert EntryFits(input, found);
    forall k | 0 <= k < |whole| ensures EntryFits(input, whole[k]) {
      assert SOLUTION_RULE(input.rules[k]) == whole[k].ruleId;
    }
    AssessedGrows(input, [], [found]);
    AssessedGrows(input, [[found]], whole);
    assert [] + [[found]] == [[found]] && [[found]] + [whole] == [[found], whole];
    assert [found][..0] == [];
    var first := RecordAll(input, UNASSESSED, [found]);
    assert first == RecordOne(input, UNASSESSED, found);
    WithFilesAt(map[], [file], Assessment(VIOLATED, REASON));
    WholeReplaces(input, first, input.rules);
    assert OfRule(Assessed(input, [[found], whole]), id) == OfRule(first, id);
  }

  /**
   * Whatever batches come, an approval never hides a recorded violation exactly when the scope of the rules is fixed.
   */
  lemma NothingHiddenIffScoped(input: SolutionInput)
    requires WellFormed(input) && input.rules != [] && input.paths != []
    ensures (forall batches :: AllPass(input, Assessed(input, batches)) ==> NothingHidden(Assessed(input, batches)))
      <==> input.ruleFiles.Some?
  {
    if input.ruleFiles.Some? {
      forall batches | AllPass(input, Assessed(input, batches)) ensures NothingHidden(Assessed(input, batches)) {
        ScopedHidesNothing(input, batches);
      }
    } else {
      UnscopedAssessmentHidesFiles(input, 0, 0);
      var found := AssessmentEntry(input.rules[0].id, VIOLATED, REASON, [input.paths[0]]);
      var batches := [[found], Whole(input.rules)];
      assert !NothingHidden(Assessed(input, batches));
    }
  }
}

/** Edits of a whole solution: staged by file and id, listed canonically, and applied file by file. */
module Solutions {
  import opened Bytes
  import opened Keyed
  import opened Lists
  import opened Options
  import opened Utf8
  import opened Substitution
  import opened KeyOrder

  datatype FileEdit = FileEdit(file: string, edits: seq<Edit>, ruleIds: seq<string>)

  datatype StagedFileEdit = StagedFileEdit(oldText: Text, newText: Text, ruleIds: seq<string>)

  /** The saved edits, by file and by their own id. */
  type StagedFiles = map<string, map<string, StagedFileEdit>>

  datatype SolutionResult = Applied(after: map<string, Text>) | NotApplied

  const FILE_OF: FileEdit -> string := (entry: FileEdit) => entry.file

  // ----- applying -----

  ghost predicate Appliable(original: Text, edits: seq<Edit>) {
    ExactEdits(original, edits) && forall i :: 0 <= i < |edits| ==> NUL !in edits[i].newText
  }

  ghost predicate FileApplies(files: map<string, Text>, entry: FileEdit) {
    entry.file in files && Appliable(files[entry.file], entry.edits)
  }

  ghost predicate Applies(files: map<string, Text>, entries: seq<FileEdit>) {
    Distinct(entries, FILE_OF) && forall i :: 0 <= i < |entries| ==> FileApplies(files, entries[i])
  }

  /** Every named file gets the text its edits make of the original; the others stay. */
  ghost function AfterEdits(files: map<string, Text>, entries: seq<FileEdit>): map<string, Text> {
    if entries == [] then files
    else
      var last := entries[|entries| - 1];
      var before := AfterEdits(files, entries[..|entries| - 1]);
      if last.file in files then before[last.file := Substitution.Candidate(files[last.file], last.edits)] else before
  }

  method ApplySolutionEdits(files: map<string, Text>, entries: seq<FileEdit>) returns (result: SolutionResult)
    ensures result.Applied? <==> Applies(files, entries)
    ensures result.Applied? ==> result.after == AfterEdits(files, entries)
  {
    hide ExactEdits, Candidate, HasKey;
    var out, seen: set<string> := files, {};
    for i := 0 to |entries|
      invariant Good(entries[..i], _ => true, FILE_OF) && seen == Keys(entries[..i], FILE_OF)
      invariant forall k :: 0 <= k < i ==> FileApplies(files, entries[k])
      invariant out == AfterEdits(files, entries[..i])
    {
      var file := entries[i].file;
      GoodStep(entries, _ => true, FILE_OF, i);
      KeysGrow(entries, FILE_OF, i);
      assert entries[..i + 1][..i] == entries[..i];
      if file !in files || file in seen {
        return NotApplied;
      }
      var candidate := ApplyFileEdits(files[file], entries[i].edits);
      if candidate.Rejected? {
        return NotApplied;
      }
      out, seen := out[file := candidate.text], seen + {file};
    }
    assert entries[..|entries|] == entries;
    return Applied(out);
  }

  lemma {:induction false} SameFiles(files: map<string, Text>, entries: seq<FileEdit>)
    ensures AfterEdits(files, entries).Keys == files.Keys
  {
    if entries != [] {
      SameFiles(files, entries[..|entries| - 1]);
    }
  }

  /** A file that no entry names stays as it is. */
  lemma {:induction false} OtherFilesStay(files: map<string, Text>, entries: seq<FileEdit>, file: string)
    requires file in files && !HasKey(entries, FILE_OF, file)
    ensures file in AfterEdits(files, entries) && AfterEdits(files, entries)[file] == files[file]
  {
    if entries != [] {
      var n := |entries| - 1;
      KeysStep(entries, FILE_OF, n);
      assert entries[..n + 1] == entries;
      OtherFilesStay(files, entries[..n], file);
    }
  }

  /** A named file becomes the candidate its own entry makes of the original. */
  lemma {:induction false} NamedFileChanges(files: map<string, Text>, entries: seq<FileEdit>, i: nat)
    requires Applies(files, entries) && i < |entries|
    ensures entries[i].file in AfterEdits(files, entries)
    ensures
      AfterEdits(files, entries)[entries[i].file] == Substitution.Candidate(files[entries[i].file], entries[i].edits)
  {
    hide Appliable, Candidate;
    var n := |entries| - 1;
    assert FileApplies(files, entries[i]) && FileApplies(files, entries[n]);
    SameFiles(files, entries);
    if i < n {
      var front := entries[..n];
      assert forall k :: 0 <= k < n ==> front[k] == entries[k];
      NamedFileChanges(files, front, i);
      assert FILE_OF(entries[i]) != FILE_OF(entries[n]);
    }
  }

  // ----- the canonical proposal -----

  function EditOf(edits: map<string, StagedFileEdit>): string -> Edit {
    (id: string) => if id in edits then Edit(edits[id].oldText, edits[id].newText, [], []) else Edit([], [], [], [])
  }

  function RuleIdsOf(edits: map<string, StagedFileEdit>): set<string> {
    set id, i | id in edits && 0 <= i < |edits[id].ruleIds| :: edits[id].ruleIds[i]
  }

  ghost function EntryFor(staged: StagedFiles): string -> FileEdit {
    (file: string) =>
      if file in staged
      then FileEdit(file, Map(EditOf(staged[file]), Listing(staged[file].Keys)), Listing(RuleIdsOf(staged[file])))
      else FileEdit(file, [], [])
  }

  function NonEmpty(staged: StagedFiles): set<string> {
    set file | file in staged && staged[file] != map[]
  }

  /** One entry for each file with edits, everything in ascending order: equal staged edits give equal proposals. */
  ghost function Proposal(staged: StagedFiles): seq<FileEdit> {
    Map(EntryFor(staged), Listing(NonEmpty(staged)))
  }

  method EntryOf(staged: StagedFiles, file: string) returns (entry: FileEdit)
    requires file in staged
    ensures entry == EntryFor(staged)(file)
  {
    var ids := SortKeys(staged[file].Keys);
    var ruleIds := SortKeys(RuleIdsOf(staged[file]));
    return FileEdit(file, Map(EditOf(staged[file]), ids), ruleIds);
  }

  method CollectProposal(staged: StagedFiles) returns (entries: seq<FileEdit>)
    ensures entries == Proposal(staged)
  {
    var files := SortKeys(NonEmpty(staged));
    entries := [];
    for i := 0 to |files|
      invariant entries == Map(EntryFor(staged), files[..i])
    {
      assert files[i] in multiset(files);
      var entry := EntryOf(staged, files[i]);
      MapGrows(EntryFor(staged), files, i);
      entries := entries + [entry];
    }
    assert files[..|files|] == files;
  }

  lemma MapGrows<A, B>(f: A -> B, s: seq<A>, i: nat)
    requires i < |s|
    ensures Map(f, s[..i + 1]) == Map(f, s[..i]) + [f(s[i])]
  {
  }

  lemma EntryNamesFile(staged: StagedFiles, file: string)
    ensures FILE_OF(EntryFor(staged)(file)) == file
  {
  }

  /** A file's entry has exactly its staged edits, in ascending order of their ids, and the rules these name. */
  lemma EntryIsStaged(staged: StagedFiles, file: string)
    requires file in staged
    ensures var entry, ids := EntryFor(staged)(file), Listing(staged[file].Keys);
      && entry.file == file && |entry.edits| == |ids| && IsListing(ids, staged[file].Keys)
      && (forall i :: 0 <= i < |ids| ==>
            ids[i] in staged[file] && entry.edits[i].oldText == staged[file][ids[i]].oldText
            && entry.edits[i].newText == staged[file][ids[i]].newText)
      && forall r :: r in entry.ruleIds <==> exists id :: id in staged[file] && r in staged[file][id].ruleIds
  {
    hide IsListing, Listing, RuleIdsOf;
    var entry, ids := EntryFor(staged)(file), Listing(staged[file].Keys);
    forall i | 0 <= i < |ids| ensures ids[i] in staged[file] {
      assert ids[i] in ids;
      InListing(ids, staged[file].Keys, ids[i]);
    }
    forall r ensures r in entry.ruleIds <==> exists id :: id in staged[file] && r in staged[file][id].ruleIds {
      InListing(entry.ruleIds, RuleIdsOf(staged[file]), r);
      RulesAreNamed(staged[file], r);
    }
  }

  lemma InListing(s: seq<string>, keys: set<string>, k: string)
    requires IsListing(s, keys)
    ensures k in s <==> k in keys
  {
    assert k in s <==> k in multiset(s);
  }

  lemma RulesAreNamed(edits: map<string, StagedFileEdit>, r: string)
    ensures r in RuleIdsOf(edits) <==> exists id :: id in edits && r in edits[id].ruleIds
  {
    if id :| id in edits && r in edits[id].ruleIds {
      var i :| 0 <= i < |edits[id].ruleIds| && edits[id].ruleIds[i] == r;
    }
  }

  lemma ProposalNames(staged: StagedFiles, i: nat)
    requires i < |Proposal(staged)|
    ensures i < |Listing(NonEmpty(staged))| && FILE_OF(Proposal(staged)[i]) == Listing(NonEmpty(staged))[i]
    ensures Listing(NonEmpty(staged))[i] in NonEmpty(staged)
  {
    EntryNamesFile(staged, Listing(NonEmpty(staged))[i]);
    assert Listing(NonEmpty(staged))[i] in multiset(Listing(NonEmpty(staged)));
  }

  lemma ProposalIsDistinct(staged: StagedFiles)
    ensures Distinct(Proposal(staged), FILE_OF)
  {
    var entries := Proposal(staged);
    forall i, j | 0 <= i < j < |entries| ensures FILE_OF(entries[i]) != FILE_OF(entries[j]) {
      ProposalNames(staged, i);
      ProposalNames(staged, j);
      AscendingDistinct(Listing(NonEmpty(staged)), i, j);
    }
  }

  /** Exactly the files with staged edits are named. */
  lemma ProposalCovers(staged: StagedFiles, file: string)
    ensures HasKey(Proposal(staged), FILE_OF, file) <==> file in staged && staged[file] != map[]
  {
    var files, entries := Listing(NonEmpty(staged)), Proposal(staged);
    if file in NonEmpty(staged) {
      assert file in multiset(files);
      var i :| 0 <= i < |files| && files[i] == file;
      ProposalNames(staged, i);
    }
    if i :| 0 <= i < |entries| && FILE_OF(entries[i]) == file {
      ProposalNames(staged, i);
    }
  }

  lemma {:induction false} AscendingDistinct(s: seq<string>, i: nat, j: nat)
    requires Ascending(s) && i < j < |s|
    ensures Before(s[i], s[j]) && s[i] != s[j]
  {
    if i == 0 {
      assert s[1..][j - 1] == s[j];
      assert s[j] in multiset(s[1..]);
      BeforeIsTotal(s[0], s[j]);
    } else {
      AscendingDistinct(s[1..], i - 1, j - 1);
    }
  }
}

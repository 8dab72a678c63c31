# Verification of the OneByOne migration engine

OneByOne repairs a code base file by file. An editor model reads migration rules, records a plan, stages
exact edits and asks for validation; an independent reviewer model judges the candidate; the engine adopts
what was approved and reports, line by line, which rule changed what. This project models that core and
proves what it relies on. `dafny verify dfyconfig.toml` checks everything.

The models are never trusted: an editor may call any tool with any arguments and give any final answer, a
validator and a reviewer may return anything, every save may fail, and a run may end and resume at any point.
What is proved holds of all of that.

## What is modelled

- **Line provenance.** `Bytes`, `Alignment`, `LcsTables` and `LineMapping` model the mapping of lines between two
  texts: what the two tables compute, and that exactly the pairs, removals and additions common to *all* longest
  alignments are reported. `Provenance` rebases recorded coordinates through these maps.
- **Edits.** `Scripts` and `ByteBlocks` model byte blocks and their replay, `Substitution` the five
  implementations that replace disjoint unique anchors, `Attribution` and `LineRanges` the flattening of edits,
  attribution fragments and blocks with running offsets, `RangeLines` what the line numbers mean, `HeldLines` what the
  engine's last check of held lines guarantees in bytes, and `HoldChecks` the earlier check, edit by edit, and what it
  keeps of the candidate.
  `HoldShares` gives a condition for any number of edits, and `HoldSplitting` an input that all of them let through.
- **Plans.** `Plans`, `PlanUpdates`, `PlanRuns` and `Candidates` model snapshots, merged batches, whole runs of
  them, staged edits and what a candidate must address.
- **The repair loop.** `Reviews` models what a review must contain and what an approval means. `RepairSteps` is
  the loop as a transition system over a state in memory and a journal on disk, `RepairSafety` what every run
  of it keeps, `RepairRejections` and `RepairChanges` what a rejection and a change mean for the rest of a run,
  `ReviewVerdicts` what each verdict leads to, `RepairRecords` what is written down, `AppliedRules` which rules an
  adopted modification names, and `RepairSession` the object whose methods are those steps. `Accounting` models
  requests, attempts and the write-ahead journal.
- **Reading.** `Paging`, `Coverage`, `Utf8` (section 4 of RFC 3629) and the escaping of section 7 of RFC 8259
  model bounded pages and the duty to read everything before approving.
- **Whole solutions.** `KeyOrder`, `Solution` and `SolutionSession` model edits across files, the editor's and
  the reviewer's session, and `SolutionRuns` the loop that never reviews a rejected candidate again.
- **The result page and the rule scopes.** `DiffView` and `LineRules` model the diff and its annotations,
  `RuleMatching` and `RuleScopes` batched matching and the two passes that relate rules to files.
- `Keyed`, `Lists`, `Options`, `Sorting` and `Spaces` hold what several of these share.

## What the proofs found

- Exact edits may undo each other. The editor's and the reviewer's checks accept such a list; only the engine's
  own application refuses a candidate equal to the original (`Substitution.ExactEditsMayCancelOut`). They do so
  exactly when every new text already stands where it would be moved (`Substitution.CancelsOutIff`), and never when
  no edit shortens or no edit lengthens (`Substitution.OneWayEditsChange`).
- The check of held ranges keeps the bytes of every held line in one piece and in order, but not that a held line
  still starts a line: a change may remove the newline before it. `HeldLines.KeptLineStartsALine` gives the exact
  condition. The check made edit by edit has the same gap, and neither makes up for the other: one input passes the
  edit check, the attribution and the range check, and its held line is joined to the one before
  (`HoldChecks.HoldsAreJoined`).
- The check made edit by edit has a second gap: two edits that each look harmless can push lines into the middle of
  a held block (`HoldChecks.CheckAllowsSplitting`). The range check does not see it either, since whole lines added
  between two lines touch neither (`HoldSplitting.HoldsAreSplit`); a location stays in one piece exactly when
  nothing is added inside it (`HeldLines.HeldLocationStaysTogether`). A block that at most one edit overlaps stays in
  one piece, however many adjoin it (`HoldChecks.CheckedLinesAreKept`), as does one of which each edit keeps its share
  (`HoldShares.SharesKeepLines`); in general it depends on whether what the edits make on both sides fits together
  (`HoldChecks.PartedEditsKeepLines`).
- Without a fixed scope of rules, a solution review may pass although a violation was recorded for a file, since an
  assessment of the rule as a whole replaces the aggregate; with a fixed scope it cannot
  (`SolutionSessions.NothingHiddenIffScoped`), nor for a rule whose last entry named files
  (`SolutionSessions.FileEntriesHideNothing`).
- A rejection rules a candidate out for good once the journal records it, and what is accepted later is newer
  (`RepairRejections.LaterAcceptanceIsNewer`). A rejection that could not be saved ends the run; the next one asks
  for the review again and may accept the same candidate (`RepairRejections.UnsavedRejectionIsAskedAgain`).
- A staged edit or a plan update invalidates every candidate for good once it is saved
  (`RepairChanges.ChangesInvalidateForGood`). If its save fails, the next run goes on as if there had been no change,
  and may accept the old candidate (`RepairChanges.UnsavedChangeMayBeSkipped`).
- A context limit settles an editor request even when its usage is unknown; a review request stays pending
  (`Accounting.Ledger.Settle`).

## Model

| member | source | states |
|---|---|---|
| `LcsTables.FillPrefix` | internal/engine/cumulative_report.go:118-211 | the table filled row by row holds the length of a longest common subsequence of every two fronts |
| `LcsTables.FillSuffix` | internal/engine/change_line_ranges.go:159-213 | the table filled from the end holds the length of a longest common subsequence of every two tails |
| `Alignment.LongestLength` | internal/engine/cumulative_report.go:118-211 | an alignment is longest exactly when its length is the corner of the table, so the tables measure optimality of all increasing lists of equal pairs |
| `Alignment.SomeLongest` | internal/engine/cumulative_report.go:118-211 | a longest alignment always exists |
| `Alignment.PossibleIff` | internal/engine/cumulative_report.go:118-211 | prefix, one, suffix adding up to the optimum is exactly when some longest alignment pairs the two lines |
| `Alignment.OmittedIff` | internal/engine/cumulative_report.go:118-211 | a cut adding up to the optimum is exactly when some longest alignment leaves the line out |
| `LineMapping.RowForcedIff` | internal/engine/cumulative_report.go:118-211 | the only candidate partner of a never omitted line is exactly the partner every longest alignment gives it |
| `LineMapping.GoneIff` | internal/engine/cumulative_report.go:118-211 | a line without a candidate partner is exactly one that no longest alignment uses |
| `LineMapping.NewIff` | internal/engine/cumulative_report.go:118-211 | the same for the other text |
| `LineMapping.IdenticalIsExact` | internal/engine/cumulative_report.go:118-211 | for identical texts the shortcut gives the very answer of the tables |
| `LineMapping.EmptySideIsExact` | internal/engine/cumulative_report.go:118-211 | so does the shortcut for an empty side |
| `LineMapping.AbsenceIsSound` | internal/engine/cumulative_report.go:118-211 | over the cell limit a line is only flagged when no alignment at all uses it |
| `LcsTables.QuotientIsBudget` | internal/engine/cumulative_report.go:133-135 | dividing the limit by one side compares the product of both with it |
| `LineMapping.MapByTables` | internal/engine/cumulative_report.go:118-211 | both tables and both scans give forced pairs, certainly removed and certainly added lines, each exactly |
| `LineMapping.CumulativeLineMapping` | internal/engine/cumulative_report.go:118-211 | on every input the answer is a mapping: exact for equal texts and up to 2,000,000 cells, and beyond that only what is absent on the other side |
| `LineMapping.MappedLinesAreEqual` | internal/engine/cumulative_report.go:118-211 | lines that are mapped have equal text |
| `LineMapping.MappingIsSound` | internal/engine/cumulative_report.go:118-211 | what the mapping claims holds of every longest alignment, whichever branch made it |
| `Provenance.CumulativeMappedRange` | internal/engine/cumulative_report.go:227-243 | a side is known exactly when each line is mapped or certainly gone, and then the images come in order |
| `Provenance.CumulativeChangedLines` | internal/engine/cumulative_report.go:266-277 | the changed lines, and whether every other one is certainly kept |
| `Provenance.CumulativeReportRange` | internal/engine/cumulative_report.go:245-264 | the reported ranges, of which the next rows say which and in what order, and that a span is dropped exactly when both its sides are settled |
| `Provenance.ReportedExactly` | internal/engine/cumulative_report.go:245-264 | of a known span, exactly the flagged images of its recorded lines are reported, of the before side as before coordinates and of the after side as after coordinates |
| `Provenance.ReportedInOrder` | internal/engine/cumulative_report.go:245-264 | before coordinates come first, and each side in the order of its recorded lines |
| `Provenance.ChangedLinesAreReported` | internal/engine/cumulative_report.go:245-264 | with an exact comparison every image that no longest alignment keeps is reported, of both sides |
| `Provenance.ReportedLinesAreChanged` | internal/engine/cumulative_report.go:245-264 | a reported coordinate names a line that no longest alignment of the initial and accepted text keeps, and that carries the recorded line |
| `Provenance.DroppedLinesAreAccountedFor` | internal/engine/cumulative_report.go:245-264 | of a dropped span every line is certainly gone, or stands at a line every longest alignment keeps |
| `Provenance.FixedRow` | internal/engine/cumulative_report.go:41-55 | the row has exactly the reported ranges of its known spans, one span after the other, and disappears only if every span may be dropped |
| `Provenance.AllReportedInOrder` | internal/engine/cumulative_report.go:41-55 | the ranges of each span stand together, in the order of the recorded spans |
| `Provenance.ContiguousReportLines` | internal/engine/cumulative_report.go:357-367 | the one grouping of the lines into spans, of which the two rows below say what it must be |
| `Provenance.GroupsExpand` | internal/engine/cumulative_report.go:357-367 | expanding the groups gives back exactly the lines |
| `Provenance.GroupsAreRuns` | internal/engine/cumulative_report.go:357-367 | neighbouring groups are never adjacent: each group is a maximal run |
| `Provenance.ExactSourceLines` | internal/engine/cumulative_report.go:334-343 | the lines of a span that lies inside the source, and nothing otherwise |
| `Provenance.UnchangedMappedLines` | internal/engine/cumulative_report.go:345-355 | the images of lines that are all mapped |
| `Provenance.HeldRanges` | internal/engine/cumulative_report.go:297-332 | the ranges shown for held spans, without repetition |
| `Provenance.HeldRangesQuoteTheSource` | internal/engine/cumulative_report.go:297-332 | every held range names lines with the text of the source lines, through one map or two composed ones |
| `Provenance.HeldLinesAreShown` | internal/engine/cumulative_report.go:297-332 | every line a held span names directly is shown, in each of the two texts that has all lines of the span unchanged |
| `Provenance.HeldCandidateLinesAreShown` | internal/engine/cumulative_report.go:297-332 | and every line it names in the candidate, through the original lines these are unchanged from |
| `Bytes.LineTokens` | internal/engine/change_line_ranges.go:225-231 | the pieces join to the text, end at newlines and are never empty |
| `Bytes.TokensAreUnique` | internal/engine/change_line_ranges.go:225-231 | there is only one way to cut a text so |
| `ByteBlocks.CommonByteEdges` | internal/engine/change_line_ranges.go:215-223 | common edges that cannot be extended and do not overlap |
| `ByteBlocks.Walk` | internal/engine/change_line_ranges.go:186-211 | the walk over the table keeps as many lines as a longest alignment, and its blocks account for everything walked over |
| `ByteBlocks.ChangedByteBlocks` | internal/engine/change_line_ranges.go:159-213 | no changes exactly for equal texts, an error exactly over the cell budget, otherwise an ordered script of genuine changes between the common edges that leaves a longest common list of lines alone |
| `ByteBlocks.CellBudget` | internal/engine/change_line_ranges.go:159-213 | within the divided budget the table has at most 1,000,000 cells |
| `ByteBlocks.BudgetIsProduct` | internal/engine/change_line_ranges.go:159-213 | and the division refuses exactly the tables with more |
| `ByteBlocks.DecidedByFrame` | internal/engine/change_line_ranges.go:159-213 | whether two texts are too large to compare, and whether they differ in several stretches, is decided by their lines between the common edges alone |
| `ByteBlocks.ScatteredAsAligned` | internal/engine/change_line_ranges.go:159-213 | texts are taken to differ in several stretches only if some longest alignment leaves several, and not to only if some leaves at most one |
| `ByteBlocks.WalkedThrough` | internal/engine/change_line_ranges.go:159-213 | the finished walk replays the old text into the new one and keeps a maximum number of lines of the middle |
| `Scripts.ScriptReplays` | internal/engine/change_line_ranges.go:159-213 | replaying the blocks of a script gives exactly the new text |
| `Scripts.BlocksAreOrdered` | internal/engine/change_line_ranges.go:159-213 | the blocks of a script are in order and disjoint on both sides |
| `Scripts.Embed` | internal/engine/change_line_ranges.go:14-74 | a script of a part, moved to where the part stands, extends the script of what came before |
| `Scripts.NextReplacement` | internal/engine/change_line_ranges.go:14-74 | a script of one replacement, moved by the running offset, continues the script of the whole |
| `Substitution.ValidateExactEdits` | internal/agent/repair_loop.go:621-644 | accepted exactly when the list is not empty and every edit is a real change with a unique anchor apart from all others |
| `Substitution.ArrangementIsUnique` | internal/agent/repair_loop.go:621-644 | whatever an unstable sort does, the sorted anchors are the one arrangement the candidate is built from |
| `Substitution.OrderDoesNotMatter` | internal/agent/repair_loop.go:621-644 | a permuted list of edits is replaceable too and makes the same text |
| `Substitution.MaterializeEdits` | internal/agent/incremental.go:179-199 | splicing from the right makes the candidate, and no edits leave the original |
| `Substitution.ReviewCandidateText` | internal/agent/review_gate.go:248-266 | the text sent to the reviewer is the same candidate |
| `Substitution.ApplyFileEdits` | internal/agent/solution.go:203-235 | one file of a solution becomes the same candidate, and is refused only for inexact edits or NUL |
| `Substitution.ApplyEdits` | internal/engine/text.go:122-165 | the engine builds the same candidate, refusing carriage returns, NUL, no-ops and emptied files |
| `Substitution.BuildUp` | internal/engine/change_line_ranges.go:14-41 | the left-to-right builder accepts exactly replaceable edits and makes the same candidate |
| `Substitution.ExactEditsMayCancelOut` | internal/agent/repair_loop.go:621-644 | exact edits may undo each other: a concrete list that leaves the text as it was |
| `Substitution.CancelsOutIff` | internal/agent/repair_loop.go:621-644 | for all edits: they leave the text as it was exactly when their lengths even out and every new text already stands where the edits before it would move it |
| `Substitution.OneWayEditsChange` | internal/agent/repair_loop.go:621-644 | so edits of which none shortens, or none lengthens, always change the text, and a single one does |
| `Bytes.UniqueIffFirstIsLast` | internal/agent/repair_loop.go:630-636 | the first occurrence is the last one exactly when there is one and only one |
| `Sorting.SortedIsUnique` | internal/agent/incremental.go:195-195 | with distinct positions every sort gives the same order |
| `Attributions.GroupKeepsItems` | internal/engine/change_line_ranges.go:82-150 | a patch names exactly the items of the fragments with its change |
| `Attributions.VerifiedAttributionPatches` | internal/engine/change_line_ranges.go:82-150 | accepted exactly when the fragments are distinct, fit the edit, cover its items and together make it |
| `HeldLines.OneItemIsAttributed` | internal/engine/change_line_ranges.go:82-150 | an edit of one item needs no fragments: it is its own, as one patch |
| `Attributions.PatchBlocks` | internal/engine/change_line_ranges.go:41-70 | succeeds exactly when no patch is over the budget or, in an edit of several items, in several pieces; the blocks, moved by the inner offset, are one script of the edit, each lies between the common edges of one patch and is credited to its items, and every patch has one |
| `Attributions.EditBlocks` | internal/engine/change_line_ranges.go:41-70 | the same for any edit, whose attribution is checked first: it fails exactly for an unclear edit |
| `Attributions.FlattenEdit` | internal/engine/change_line_ranges.go:41-70 | one more edit, refused exactly when unclear, extends the script of the whole text, moved by the outer offset; its ranges name the items of the patch their block lies in |
| `Attributions.VerifiedEditLineRanges` | internal/engine/change_line_ranges.go:14-74 | success exactly when the edits make the text and none is unclear; then all blocks are one ordered script of both texts, each lies between the common edges of one patch and its range names exactly the items of that patch, every patch has a block, one of a shared edit exactly one, and so every item of every edit has a range |
| `RangeLines.RangesNameTheirLines` | internal/engine/change_line_ranges.go:258-272 | of every accepted range, on both sides: the lines that hold the first and the last byte of its block; none where whole lines come or go; otherwise the line the change joins |
| `HeldLines.CandidateHeldRangesUnchanged` | internal/engine/candidate_validation.go:146-160 | accepted exactly when no range touches a held original line |
| `HeldLines.HeldLinesAreKept` | internal/engine/candidate_validation.go:146-160 | then the bytes of every held line are copied in one piece, and different held lines in order |
| `HeldLines.KeptLineStartsALine` | internal/engine/change_line_ranges.go:258-272 | a kept line still starts a line exactly unless a block before it removes the newline it follows |
| `HeldLines.HeldLocationStaysTogether` | internal/engine/candidate_validation.go:146-160 | after the guard the lines of a held location stay in one piece exactly when no block adds lines between them |
| `HeldLines.GuardAllowsJoining` | internal/engine/candidate_validation.go:146-160 | an edit that removes the newline before a held line: whatever ranges its acceptance gives, the guard accepts them, and the held line no longer starts a line |
| `HeldLines.UntouchedIsAvoided` | internal/engine/change_line_ranges.go:258-272 | a block whose line range does not touch a line leaves its bytes alone |
| `Plans.ValidatePlanSnapshot` | internal/agent/repair_plan.go:264-313 | accepted exactly for distinct, well-formed decisions, items that belong to them, and an item for every rule to modify |
| `Plans.ItemsFitDecisions` | internal/agent/repair_plan.go:264-313 | in a valid plan a rule that is left alone has no items, and a blocked rule only blocked places |
| `Spaces.TrimDropsSpaces` | internal/agent/repair_plan.go:55-64 | trimming takes away the spaces around a text and nothing else, in only one possible way |
| `Spaces.BlankIsAllSpaces` | internal/agent/repair_plan.go:260-262 | a text is blank exactly when it is all spaces |
| `PlanUpdates.UpdateRepairPlan` | internal/agent/repair_plan.go:15-111 | the trimmed next plan exactly when revision, catalog, reading, coverage and continuation all hold |
| `PlanUpdates.TrimmingKeepsEntries` | internal/agent/repair_plan.go:55-64 | of an entry only the texts are trimmed, each by itself |
| `PlanUpdates.MergeRepairPlan` | internal/agent/incremental.go:16-85 | the same plan as merging the batch into the last snapshot and updating once |
| `PlanUpdates.MergeIsAccepted` | internal/agent/incremental.go:16-85 | accepted exactly for a mergeable batch at the current revision whose result is valid, continues the last plan and decides only rules whose text the editor has; no rule is forced on it |
| `PlanUpdates.MergeConserves` | internal/agent/incremental.go:16-85 | an accepted batch raises the revision by one, keeps what it omits, moves no item to another rule, and drops an item only by name and with a revised reason |
| `PlanUpdates.MergeApplies` | internal/agent/incremental.go:16-85 | everything the batch names is done, what it removes is gone, and nothing else appears |
| `PlanRuns.ValidatePlanSourceLocations` | internal/agent/source_locations.go:45-62 | accepted exactly when blocked items are located and no location repeats or is invalid |
| `PlanRuns.ResolvePlanSourceLocations` | internal/agent/source_locations.go:66-78 | the plan with every location found, or a refusal |
| `PlanRuns.LocationsAreFound` | internal/agent/source_locations.go:66-78 | an accepted plan has, for each location, what was found for it, and everything else as it was |
| `PlanRuns.RefusedForALocation` | internal/agent/source_locations.go:66-78 | and is refused only when a location is not found or the result would not be valid |
| `PlanRuns.RegisterConserves` | internal/agent/repair_loop.go:415-431 | one accepted update_state keeps omitted entries exactly as they were and the stored plan valid |
| `PlanRuns.DecidedRulesOnlyGrow` | internal/agent/repair_loop.go:415-431 | over any run the decided rules only grow and the revision rises by at most one a call |
| `Candidates.CandidateHolds` | internal/agent/partial_review.go:13-32 | the blocked items as holds, or a refusal exactly when one is not localized |
| `Candidates.HoldsAreBlockedItems` | internal/agent/partial_review.go:13-32 | the holds are the blocked items and nothing else |
| `Candidates.HoldNamesItsItem` | internal/agent/partial_review.go:13-32 | a hold has the id, rule, locations and reason of its blocked item |
| `Candidates.HoldsAreInOrder` | internal/agent/partial_review.go:13-32 | and the holds stand in the order of the plan |
| `Candidates.CheckEditAttributionShape` | internal/agent/repair_plan.go:179-207 | accepted exactly for distinct, well-formed fragments that cover the items of the edit |
| `Candidates.CheckCandidatePlan` | internal/agent/repair_plan.go:116-175 | accepted exactly when the request is for the current valid plan and is linked to its items |
| `Candidates.SafeItemsExactly` | internal/agent/repair_plan.go:116-175 | such a candidate addresses, and has edits for, exactly the items that are not held |
| `Candidates.CheckNoChangePlan` | internal/agent/review_gate.go:147-165 | accepted exactly when each applicable rule is decided once and left alone |
| `Candidates.StagedRequest` | internal/agent/incremental.go:87-100 | the request that the staged edits make: their texts in order, and each item they name once |
| `Candidates.MentionsAddUp` | internal/agent/incremental.go:87-100 | the items are addressed in the order of their first mention |
| `Candidates.MentionedAreLinked` | internal/agent/incremental.go:87-100 | it addresses each item its edits name, once, and no other |
| `Candidates.StageEdits` | internal/agent/incremental.go:102-177 | the next staged edits exactly when the batch fits and all of it can be applied |
| `Candidates.StagingConserves` | internal/agent/incremental.go:102-177 | an accepted batch does what it names, leaves the rest, keeps ids distinct and the whole applicable |
| `Candidates.StagingInventsNothing` | internal/agent/incremental.go:102-177 | and nothing else appears |
| `HoldChecks.CheckCandidateHolds` | internal/agent/partial_review.go:37-91 | accepted exactly when every blocked item is localized and every edit near a held block, extended to it, has the block once before and after, with its lines unjoined |
| `HoldChecks.LineStarts` | internal/agent/partial_review.go:51-56 | the positions behind newlines: the k-th is the boundary with k newlines before it |
| `HoldChecks.StopIsListed` | internal/agent/partial_review.go:59-62 | so a located line starts and stops where the list says, also at the end of the text |
| `HoldChecks.CountedOnce` | internal/agent/partial_review.go:76-76 | counted once means: it occurs, and every other occurrence overlaps the first |
| `HoldChecks.OneEditKeepsLines` | internal/agent/partial_review.go:64-86 | when an edit comes near a held block and no other overlaps it, an accepted candidate has the block in one piece to its last line end, and it starts a line exactly unless the stretch begins with it and continues a line |
| `HoldChecks.ClearEditsKeepLines` | internal/agent/partial_review.go:67-69 | when no edit overlaps the block, whatever adjoins it, the candidate has it in one piece, and it starts a line exactly when what comes before ends one |
| `HoldChecks.CheckedLinesAreKept` | internal/agent/partial_review.go:64-86 | a checked block that at most one edit overlaps, any number adjoining it, is in the candidate, and as lines of its own unless an edit swallows its start |
| `HoldChecks.PartedEditsKeepLines` | internal/agent/partial_review.go:64-86 | for any edits, parted at any byte: the candidate has the lines, or has them as lines of its own, exactly when one side has them or the two sides meet within them |
| `HoldChecks.TwoEditsKeepLines` | internal/agent/partial_review.go:64-86 | two edits that overlap a checked block keep it one by one, and together exactly when their pieces fit |
| `HoldShares.SharesKeepLines` | internal/agent/partial_review.go:64-86 | if each edit by itself keeps its share of the block in place, the candidate has the block, however many edits overlap it |
| `HoldChecks.AdoptedLinesAreKept` | internal/agent/repair_loop.go:547-602 | in every run of the loop with this check, an adopted modification has every held block that at most one of its edits overlaps, as lines of its own unless an edit swallows its start |
| `HoldChecks.CheckAllowsJoining` | internal/agent/partial_review.go:79-83 | a concrete accepted edit after which a held line no longer starts a line |
| `HoldChecks.HoldsAreJoined` | internal/engine/candidate_validation.go:146-160 | one input that the check edit by edit, the attribution and the check of ranges all accept, after which the held line no longer starts a line |
| `HoldChecks.CheckAllowsSplitting` | internal/agent/partial_review.go:64-86 | two concrete edits, each accepted, that together push lines into a held block |
| `HoldChecks.SplittingDoesNotFit` | internal/agent/partial_review.go:64-86 | the pieces of these two do not fit, as the condition for two edits says |
| `HoldSplitting.HoldsAreSplit` | internal/engine/candidate_validation.go:146-160 | one input that the check edit by edit, the attribution and the check of ranges all accept, although the candidate does not have the held lines together |
| `HoldSplitting.GuardAllowsSplitting` | internal/engine/candidate_validation.go:146-160 | whatever ranges that input gets, the guard accepts them |
| `Reviews.ValidateReviewHoldAssessments` | internal/agent/partial_review.go:248-263 | accepted exactly when every hold is assessed once |
| `Reviews.IssueWithinHolds` | internal/agent/partial_review.go:161-176 | true exactly when the issue quotes lines inside a location of a hold of its rule |
| `Reviews.CheckReviewHoldApproval` | internal/agent/partial_review.go:115-159 | accepted exactly for an approval that defers the held rules and confirms the holds |
| `Reviews.ApprovalCoversHolds` | internal/agent/partial_review.go:115-159 | by counting, such an approval confirms every hold, leaves exactly the held rules open and finds no violation |
| `Reviews.CheckPartialReview` | internal/agent/partial_review.go:95-113 | the same against the holds and rules of the plan |
| `Reviews.PartialApprovalCoversPlan` | internal/agent/partial_review.go:95-113 | it assesses exactly the decided rules and confirms every blocked item |
| `Reviews.ParseIndependentReview` | internal/agent/review.go:224-330 | the settled findings exactly when every check on them holds |
| `Reviews.EveryRuleIsAssessedOnce` | internal/agent/review.go:224-330 | a parsed review assesses each supplied rule exactly once |
| `Reviews.PassedIsClean` | internal/agent/review.go:224-330 | passed means no holds, no issues and only satisfied or inapplicable rules |
| `Reviews.PassedWithHoldsStaysInside` | internal/agent/review.go:224-330 | passed with holds means every hold preserved, exactly the held rules open, and issues only inside holds |
| `Reviews.IssuesQuoteTheirSide` | internal/agent/review.go:284-306 | every issue has a kind and quotes actual lines of the side it names |
| `Reviews.OnlyKindAndLinesAreSettled` | internal/agent/review.go:256-306 | parsing fills in a missing kind by what the issue is about, puts the lines where the quote was found, and keeps everything else |
| `Reviews.VerdictsAreGrounded` | internal/agent/review.go:298-328 | a request for changes names something to change, a violated rule has an issue, and there are only four verdicts |
| `Reviews.OpenByAssessmentOrIssue` | internal/agent/partial_review.go:189-199 | a rule is open for replanning when its assessment or an issue leaves it to a human |
| `RepairSessions.RepairSession.UpdateState` | internal/agent/repair_loop.go:415-434 | a plan update changes memory, journal and phase exactly as the modelled step; a refused one changes nothing |
| `RepairSessions.RepairSession.StageBatch` | internal/agent/repair_loop.go:390-406 | after staging, memory, journal and phase are those the modelled step gives, so every theorem about runs holds of the object |
| `RepairSessions.RepairSession.BeginValidation` | internal/agent/repair_loop.go:452-484 | the last candidate is given up and saved before the validator is asked, and only for a request that passes all checks |
| `RepairSessions.RepairSession.ValidateStagedCandidate` | internal/agent/repair_loop.go:435-448 | the staged edits are validated as the modelled step says, and only at the current revision and source |
| `RepairSessions.RepairSession.ValidatorReturns` | internal/agent/repair_loop.go:485-502 | an inconsistent result ends the run; any other is recorded, staged again if it was given directly, and saved |
| `RepairSessions.RepairSession.ParseAnswer` | internal/agent/repair_loop.go:510-602 | the proposal that a final answer may stand for |
| `RepairSessions.RepairSession.EnterReview` | internal/agent/review_gate.go:38-80 | the gate before a review: settled, refused, or asked with the text the edits make |
| `RepairSessions.RepairSession.Conclude` | internal/agent/review_gate.go:16-53 | a final answer taken to the gate, with a record of its own for an unchanged source |
| `RepairSessions.RepairSession.Answer` | internal/agent/repair_loop.go:297-312 | a final answer is one step of the model |
| `RepairSessions.RepairSession.Settle` | internal/agent/review_gate.go:176-206 | the outcome of a finished review |
| `RepairSessions.RepairSession.ReviewProgress` | internal/agent/review_gate.go:78-99 | saved findings replace the earlier version of the same review |
| `RepairSessions.RepairSession.ReviewReturns` | internal/agent/review_gate.go:120-140 | a finished review judges the text that was sent |
| `RepairSessions.RepairSession.ReviewFails` | internal/agent/review_gate.go:124-131 | a failed review is recorded as an error |
| `RepairSessions.RepairSession.Resume` | internal/agent/repair_loop.go:59-178 | a new run from the journal, which may go on with an interrupted review |
| `RepairSafety.StepIsSound` | internal/agent/repair_loop.go:21-365 | every step, from every sound state, leads to a sound state |
| `RepairSafety.EveryRunIsSound` | internal/agent/repair_loop.go:21-365 | so memory and journal are sound after every run of any events |
| `RepairSafety.AdoptedModification` | internal/agent/repair_loop.go:547-602 | in every run an adopted modification carries exactly the edits last validated and then reviewed, for the current plan and source, addressing exactly the items that are not held; it names exactly the rules of these items, each once, in the order of their first such items |
| `AppliedRules.SafeRulesAreApplied` | internal/agent/repair_loop.go:585-598 | the rules a fitting candidate applies, from the items it addresses |
| `RepairSafety.AdoptedSkip` | internal/agent/review_gate.go:16-53 | in every run an adopted skip rests on a passed review of the unchanged source at the current revision |
| `RepairSafety.RejectionIsPermanent` | internal/agent/review_gate.go:176-206 | a candidate whose journal record asks for changes is not adopted or skipped on by any later step of any run |
| `RepairRejections.LaterAcceptanceIsNewer` | internal/agent/review_gate.go:176-206 | once the journal takes a rejection, whatever modification or skip is accepted later has a record made after that moment |
| `RepairRejections.AcceptanceAfterRejection` | internal/agent/review_gate.go:84-95 | every rejection in the journal has such a moment, in every run |
| `RepairRejections.UnsavedRejectionIsAskedAgain` | internal/agent/review_gate.go:84-99 | a possible run in which the save of a rejection fails, the review is asked for again and the same candidate is accepted |
| `RepairSafety.RejectionsStay` | internal/agent/review_gate.go:84-95 | no save ever loses a rejection |
| `RepairSafety.ChangesInvalidateTheCandidate` | internal/agent/incremental.go:163-176 | directly after an update or a stage that changes the state no modified answer is selected |
| `RepairChanges.ChangesInvalidateForGood` | internal/agent/incremental.go:163-176 | in every run, once an accepted update or stage is saved, whatever modification or skip is accepted later has a record made after it |
| `RepairChanges.UnsavedChangeIsForgotten` | internal/agent/repair_loop.go:59-178 | a new run after an unsaved change goes on exactly as if the change had not been made |
| `RepairChanges.UnsavedChangeMayBeSkipped` | internal/agent/repair_loop.go:415-434 | a possible run in which the save of a plan change fails and the next run accepts the old candidate |
| `RepairSafety.UnresolvedReviewBlocksSkip` | internal/agent/review_gate.go:169-174 | a skip is not accepted while the last review has not passed |
| `ReviewVerdicts.NeedsChangesGoesBack` | internal/agent/review_gate.go:196-197 | in every sound state a finished review that asks for changes gives the candidate back to the editor, with the rejection in the journal |
| `ReviewVerdicts.ApprovalAdopts` | internal/agent/review_gate.go:182-195 | an approval ends the run with the reviewed proposal exactly when the plan has no holds, or the approval keeps them all |
| `ReviewVerdicts.QuestionStopsOrGoesBack` | internal/agent/review_gate.go:198-206 | a question ends the run with its summary unless the editor can plan for it |
| `ReviewVerdicts.OtherVerdictsStop` | internal/agent/review_gate.go:176-206 | no other verdict counts |
| `ReviewVerdicts.MismatchIsAnError` | internal/agent/review_gate.go:120-135 | findings about other texts are recorded as an error and end the run |
| `RepairRecords.ResultIsRecorded` | internal/agent/repair_loop.go:485-502 | a consistent result is the new candidate, in memory and on disk, with the edits of a direct request staged in order under numbered ids |
| `RepairRecords.FinalKeepsTheAnswer` | internal/agent/repair_loop.go:510-602 | a parsed answer keeps its outcome, note and candidate, and has edits and rules only for a modification |
| `RepairRecords.AnswersAsk` | internal/agent/review_gate.go:56-80 | the review that an answer asks for names its candidate, revision and texts, has found nothing yet, and is saved with the note |
| `RepairRecords.ProgressIsRecorded` | internal/agent/review_gate.go:78-99 | progress takes the place of the earlier version of the same review |
| `RepairRecords.FindingsAreRecorded` | internal/agent/review_gate.go:120-140 | the findings are put on the candidate and into the history as they are |
| `RepairRecords.ReadingIsRecorded` | internal/agent/incremental.go:353-395 | a rule counts as read from the moment it was read on |
| `RepairRecords.UpdateIsRecorded` | internal/agent/repair_loop.go:415-434 | an accepted update is the new plan, and nothing else changes in memory |
| `RepairRecords.StageIsRecorded` | internal/agent/repair_loop.go:390-406 | an accepted batch is what is staged, and no candidate is left |
| `RepairRecords.ValidationStarts` | internal/agent/repair_loop.go:452-484 | a request that passes all checks is given to the validator |
| `RepairRecords.StagedValidationStarts` | internal/agent/repair_loop.go:435-448 | and so are the staged edits, for the items they name |
| `RepairRecords.InterruptedReviewsGoOn` | internal/agent/repair_loop.go:141-178 | a review that was asked for and not finished is never passed over: it is asked for again, or the run stops |
| `RepairRecords.InterruptedModificationIsAskedAgain` | internal/agent/repair_loop.go:141-178 | it is asked for again when its candidate may still be adopted, the rules load and the save succeeds |
| `RepairRecords.JournalIsRecovered` | internal/agent/repair_loop.go:59-140 | a new run has the journal as it is, but for a candidate with an old attribution and for edits staged again |
| `Accounting.Request` | internal/agent/client.go:182-294 | attempts count every post made; usage is unknown exactly when some attempt was ambiguous |
| `Accounting.AttemptsAreCounted` | internal/agent/client.go:182-294 | posts are made until one that is not retried, and all count but one for want of a credential |
| `Accounting.OnlyTheseEnd` | internal/agent/client.go:182-294 | an answer, a refusal and a missing credential end the request, and all other posts but a throttled or ceiling one are ambiguous |
| `Accounting.AddUsageInPlace` | internal/agent/client.go:437-462 | turns grow by the larger of one and the attempts, and implausible counts only mark the usage uncertain |
| `Accounting.UsageGrows` | internal/agent/client.go:437-462 | turns grow by the attempts or one; plausible counts are added as they are and priced part by part; others change nothing but the turns and the uncertainty |
| `Accounting.UsageStaysValid` | internal/agent/repair_loop.go:701-707 | whatever is reported, the counters stay ones a journal may be resumed with |
| `Accounting.Ledger.Begin` | internal/agent/repair_loop.go:205-212 | a request is counted and pending on disk before it is sent |
| `Accounting.Ledger.Settle` | internal/agent/repair_loop.go:217-257 | the reservation becomes the number of attempts, and pending is cleared unless usage is unknown |
| `Accounting.Ledger.Resume` | internal/agent/repair_loop.go:77-89 | a run starts from the journal, and past a pending request only when allowed |
| `Accounting.Ledger.JournalCountsEveryRequest` | internal/agent/review_gate.go:100-118 | wherever the process ends, the journal counts every request sent and shows the unsettled one |
| `Accounting.TotalIsSum` | internal/agent/repair_loop.go:205-257 | the turns of a log: one for a reserved request, the attempts or one for a settled one |
| `Accounting.EveryEntryCounts` | internal/agent/review.go:118-143 | every reserved or settled request is charged at least one turn |
| `Paging.PageText` | internal/agent/incremental.go:206-227 | a page lies between rune boundaries; for valid text it makes progress and its JSON form is at most 24 KiB |
| `Paging.EscapingIsSixfold` | internal/agent/incremental.go:212-219 | escaping as section 7 of RFC 8259 writes at most six bytes for one, and two quotes |
| `Paging.EscapingIsReadBack` | internal/agent/incremental.go:212-219 | what is escaped so is read back unchanged |
| `Paging.EscapedTextLength` | internal/agent/incremental.go:212-219 | and has, with its quotes, the length that is measured |
| `Paging.ChainReadsPrefix` | internal/agent/incremental.go:206-227 | following the next offsets from 0 reads exactly the text, in at most one page a byte |
| `Paging.RuleReader.ReadRulePage` | internal/agent/incremental.go:353-395 | a read-through offset grows only by a page without a gap, and a rule is cached only once read to its end |
| `Paging.RuleReader.constructor` | internal/agent/incremental.go:353-395 | nothing is read at the start |
| `Utf8.BoundaryNearby` | internal/agent/incremental.go:209-212 | valid text has a rune boundary at most three bytes before any position |
| `Utf8.RunesAreRead` | internal/agent/incremental.go:209-212 | every scalar value, as section 3 of RFC 3629 writes it, is read as one rune |
| `Utf8.ReadRunesAreScalars` | internal/agent/incremental.go:209-212 | and nothing else is |
| `Coverage.CoveredReviewBytes` | internal/agent/review_recovery.go:118-129 | for ranges within the document, true exactly when every byte is covered |
| `Coverage.ReviewRecovery.ReadPage` | internal/agent/review_recovery.go:224-276 | a page is recorded as read when and where it is returned |
| `Coverage.RecordingAdds` | internal/agent/review_recovery.go:224-276 | a recorded page adds exactly its own bytes, to its own document |
| `Coverage.ReviewRecovery.MarkAllRead` | internal/agent/review_recovery.go:110-117 | an answered full manifest counts as reading everything |
| `Coverage.ReviewRecovery.CompleteRead` | internal/agent/review_recovery.go:130-143 | true exactly when every needed document is covered, and then all of it was delivered |
| `Coverage.ReviewRecovery.AcceptFinal` | internal/agent/review_recovery.go:205-222 | a final answer is the parsed review exactly when everything was read, and then every byte of the two texts the review is about and of every rule it must assess was delivered |
| `Coverage.NeededIsEverything` | internal/agent/review_recovery.go:130-143 | the needed documents are both sources, every rule, and the catalog when it matters |
| `Solutions.ApplySolutionEdits` | internal/agent/solution.go:203-235 | accepted exactly for distinct files with exact edits, which then become their candidates |
| `Solutions.NamedFileChanges` | internal/agent/solution.go:203-235 | a named file becomes the candidate its own edits make of the original |
| `Solutions.OtherFilesStay` | internal/agent/solution.go:203-235 | a file that is not named stays |
| `Solutions.CollectProposal` | internal/agent/solution.go:278-313 | one entry for each file with staged edits, in ascending order of path, whatever order the map yields |
| `Solutions.EntryIsStaged` | internal/agent/solution.go:278-313 | an entry has exactly the staged edits of its file, by ascending id, and the rules these name |
| `Solutions.ProposalCovers` | internal/agent/solution.go:278-313 | exactly the files with staged edits are named |
| `Solutions.ProposalIsDistinct` | internal/agent/solution.go:278-313 | each of them once |
| `KeyOrder.ListingIsUnique` | internal/agent/solution.go:278-313 | ascending order lists a set in one way only, so equal staged edits have equal identities |
| `KeyOrder.BeforeIsLexicographic` | internal/agent/solution.go:278-313 | one string comes before another exactly when, after a common front, it ends or has the smaller character |
| `SolutionRuns.RunSolution` | internal/agent/solution.go:80-146 | one editor session proposes and no proposal is reviewed twice; all but the last reviewed ones were sent back; what is adopted is what the editor has staged after reading its context, and was passed by a session that was given every byte to read and has a passing assessment wherever one is due; a proposal always applies |
| `SolutionRuns.Review` | internal/agent/solution.go:484-698 | a reviewer session of any actions passes a candidate only with everything read and every assessment passing |
| `SolutionRuns.Edit` | internal/agent/solution.go:590-698 | a conversation of the editor, of any actions, keeps its session valid, and decides only after the context was read, on a change exactly when edits are staged |
| `SolutionSessions.SolutionSession.Editor` | internal/agent/solution.go:237-239 | an editor starts from the files with nothing staged |
| `SolutionSessions.SolutionSession.ReadPage` | internal/agent/solution.go:484-492 | a page is recorded as read where it is returned |
| `SolutionSessions.SolutionSession.Stage` | internal/agent/solution.go:590-641 | staging keeps the candidate equal to what the proposal makes of the files; a refused batch changes nothing |
| `SolutionSessions.StagingIsExact` | internal/agent/solution.go:590-641 | a batch sets what it names, drops what it removes, and leaves the rest of the file and all other files |
| `SolutionSessions.AggregateAssessment` | internal/agent/solution.go:262-276 | the status, by severity, and the reasons of a rule over those files of its scope that have an assessment |
| `SolutionSessions.AggregateIsWorst` | internal/agent/solution.go:262-276 | the status is the worst recorded one, so it passes exactly when all of them do |
| `SolutionSessions.SeverityDecides` | internal/agent/solution.go:262-276 | violated before needs_human before satisfied before not_applicable |
| `SolutionSessions.ReasonsAreJoined` | internal/agent/solution.go:262-276 | the reasons stand one below the other in the order of the scope |
| `SolutionSessions.SolutionSession.RecordAssessments` | internal/agent/solution.go:498-542 | a batch is recorded as a whole or not at all |
| `SolutionSessions.SolutionSession.FinishReview` | internal/agent/solution.go:643-698 | passed exactly when everything was read and every assessment passes |
| `SolutionSessions.SolutionSession.FinishEditing` | internal/agent/solution.go:643-698 | modified exactly with staged edits, skipped exactly without, after reading the context |
| `SolutionSessions.ApprovalReadEverything` | internal/agent/solution.go:643-698 | an approval rests on every byte of the manifest, build output, rules, originals and candidates |
| `SolutionSessions.ScopedApprovalCoversPairs` | internal/agent/solution.go:677-690 | with a fixed scope, after any batches: the assessments allow an approval exactly when every rule has files and the last accepted entry for each of its files passes |
| `SolutionSessions.UnscopedAssessmentHidesFiles` | internal/agent/solution.go:529-542 | without a fixed scope any rule may have a violation recorded for any file and still be approved |
| `SolutionSessions.NothingHiddenIffScoped` | internal/agent/solution.go:529-542 | whatever batches come, no approval hides a recorded violation exactly when the scope is fixed |
| `SolutionSessions.FileEntriesHideNothing` | internal/agent/solution.go:529-542 | in any case an approval hides nothing for a rule whose last entry names files |
| `SolutionSessions.RecordedIsLatest` | internal/agent/solution.go:498-542 | what is recorded for a rule and a file is what the last entry naming both said |
| `DiffRows.ParseUnifiedDiff` | frontend/src/diff.ts:8-56 | the rows one pass makes, of which the next rows say their kinds and numbers |
| `DiffRows.NumbersRunFromHeader` | frontend/src/diff.ts:19-55 | in a hunk the numbers run on from its header, one a row, and never past its counts |
| `DiffRows.KindsInHunk` | frontend/src/diff.ts:19-55 | in a hunk a row is removed, added or kept exactly as its first character says, while its header announces more rows of that side |
| `DiffRows.NothingAfterTheEnd` | frontend/src/diff.ts:19-55 | after a row that is not announced, up to the next header, no row has a kind or a number |
| `DiffRows.NothingBeforeAHeader` | frontend/src/diff.ts:14-24 | before the first header no row has a number |
| `LineRules.RulesForLine` | frontend/src/result-line-rules.ts:55-79 | the changes covering a line, each once, grouped by rule under the title of its first |
| `LineRules.RowsAreCoveredBySide` | frontend/src/result-line-rules.ts:45-79 | a removed row is explained by ranges of the original, any other by ranges of the candidate, with positive exact bounds |
| `LineRules.FlushBlock` | frontend/src/result-line-rules.ts:93-132 | every change covering a row of a block is shown once: at its first added row or the earliest removed row of the changes that share that added row, whichever comes first, or where it is first removed if it adds nothing |
| `LineRules.BlockAnnotations` | frontend/src/result-line-rules.ts:85-137 | the same for every block of a diff |
| `LineRules.ChangedRowsAreInBlocks` | frontend/src/result-line-rules.ts:133-136 | every removed or added row is in a block |
| `LineRules.BlocksAreRuns` | frontend/src/result-line-rules.ts:133-136 | changed rows are in one block exactly when only changed rows and newline markers stand between them |
| `LineRules.OneRowOfBlock` | frontend/src/result-line-rules.ts:85-137 | shown once means at exactly one row |
| `RuleMatching.MatchEncodedFiles` | internal/catalog/rg.go:120-158 | each file is submitted once, in full but bounded batches, and the result is that of matching file by file |
| `RuleMatching.CostsAdd` | internal/catalog/rg.go:130-145 | each file costs twice the bytes of its name and four more |
| `RuleMatching.MatchFilesEncoded` | internal/catalog/rg.go:73-118 | grouping by encoding finds what matching each file in its own encoding finds |
| `RuleScopes.ScanRule` | internal/catalog/catalog.go:264-330 | in order, exactly the files that meet every condition of the rule, in whatever order the conditions narrow them down |
| `RuleScopes.ConditionsAreAll` | internal/catalog/catalog.go:264-330 | the conditions of a rule, one by one |
| `RuleScopes.Scan` | internal/catalog/catalog.go:256-339 | each file has exactly the rules that concern it, in catalog order |
| `RuleScopes.MatchSolutionRules` | internal/catalog/solution_matching.go:19-122 | each rule has exactly the files that meet its conditions; it fails only for repeated files or a rule that cannot be matched |
| `RuleScopes.ScanAndSolutionAgree` | internal/catalog/solution_matching.go:56-120 | over the same files and diagnostics both relate a rule and a file exactly when all its conditions hold, unless only diagnosed files are scanned |

## Left out

- HTTP, provider protocols, prompts, OAuth and retry delays: a request is a list of post outcomes, a response an arbitrary event.
- JSON decoding and the presence checks on raw arguments: tools receive decoded values; only the length of an escaped string is modelled.
- Git, the filesystem, process execution, regular expressions, globs and encodings: functions and predicates given from outside.
- SHA-256 digests and generated identifiers: strings, and a generated identifier is one not issued before.
- Source locations: checking and finding a location are functions given from outside; what is asked of them is that a valid location names lines of the original and is found unchanged, and that what is found is valid.
- Build, snapshot and I/O steps of validateCandidate: the validator's result is arbitrary.
- Elapsed time, tool-call and read-byte counters, logs and conversation history: none of them decides anything that is proved here.
- Termination of the model conversations: runs are finite lists of events of any length.
- Rows of cumulativeChangeReports other than fixed rows and held ranges, and their labels: selection by status.
- Origins of annotations and the note for held lines on context rows (frontend/src/result-line-rules.ts:138-150): the block pass alone is modelled.
- Splitting a diff into lines and reading a hunk header: the rows are given, the header reader is a function from outside.
- React components, settings, navigation and command-line parsing: no algorithm with a property worth stating.
- HoldChecks.AdoptedLinesAreKept: speaks of blocks that at most one edit overlaps; for others what decides is in the candidate's two sides (HoldChecks.PartedEditsKeepLines), which the check does not look at.
- LcsTables.FillPrefix: a two-dimensional array instead of one indexed by row times width plus column.
- LcsTables.FillSuffix: likewise.
- Sorting.SortedIsUnique: the library sort is modelled as any ordered permutation.
- Provenance.HeldRanges: the order of the ranges is not stated; byte-order marks and line ends are normalized before the texts reach the model.
- LineRules.RulesForLine: the order of rules and of changes is not stated.
- RepairSessions.RepairSession.Resume: the check of counters and versions of the journal precedes the model.
- Accounting.Request: a cancelled wait and a cancelled request are the same end of the list of outcomes.
- Accounting.AddUsageInPlace: costs are real numbers, so rounding is not modelled.
- Coverage.ReviewRecovery.ReadPage: reads of the saved review state are not recorded by the source and are not modelled.
- SolutionSessions.SolutionSession.FinishEditing: while editing, the manifest changes with every stage, so what is stated is that the recorded ranges cover it, not that its present text was delivered.
- RuleScopes.Scan: tasks, change detection and the cache of path patterns are not modelled.

/**
 * Attributing the changed lines of a candidate to plan items: edits, their fragments and the byte
 * blocks of each fragment are flattened into one script of the whole text.
 */
module Attributions {
  import opened Alignment
  import opened Bytes
  import opened Lists
  import opened Scripts
  import opened Sorting
  import opened Spaces
  import opened Substitution
  import opened ByteBlocks
  import opened LineRanges

  /** The changed lines that the named plan items account for. */
  datatype EditLineRange = EditLineRange(itemIds: seq<string>, range: ChangeLineRange)

  datatype PatchesResult = Patches(patches: seq<Located>) | BadAttribution

  datatype RangesResult = Ranges(ranges: seq<EditLineRange>) | Unattributable

  // ----- fragments of one edit -----

  /** The edit's own text stands for a missing fragment of its only item. */
  function Fragments(edit: Edit): seq<Attribution> {
    if edit.attributions == [] && |edit.itemIds| == 1
    then [Attribution(edit.itemIds[0], edit.oldText, edit.newText)]
    else edit.attributions
  }

  predicate SameChange(patch: Edit, f: Attribution) { patch.oldText == f.beforeText && patch.newText == f.afterText }

  function Find(patches: seq<Edit>, f: Attribution): (k: nat)
    ensures k <= |patches| && (k < |patches| ==> SameChange(patches[k], f))
    ensures forall l :: 0 <= l < k ==> !SameChange(patches[l], f)
  {
    if patches == [] then 0
    else if SameChange(patches[0], f) then 0
    else 1 + Find(patches[1..], f)
  }

  /** Items that share one exact change share one patch. */
  function AddFragment(patches: seq<Edit>, f: Attribution): seq<Edit> {
    var k := Find(patches, f);
    if k < |patches| then patches[k := patches[k].(itemIds := patches[k].itemIds + [f.itemId])]
    else patches + [Edit(f.beforeText, f.afterText, [f.itemId], [])]
  }

  function Group(fragments: seq<Attribution>): seq<Edit> {
    if fragments == [] then [] else AddFragment(Group(WithoutLast(fragments)), Last(fragments))
  }

  ghost predicate Names(patches: seq<Edit>, f: Attribution, k: int) {
    0 <= k < |patches| && SameChange(patches[k], f) && f.itemId in patches[k].itemIds
  }

  ghost predicate DistinctChanges(patches: seq<Edit>) {
    forall k, l ::
      0 <= k < l < |patches| ==> patches[k].oldText != patches[l].oldText || patches[k].newText != patches[l].newText
  }

  ghost predicate NamedBy(fragments: seq<Attribution>, patch: Edit, id: string) {
    exists f :: f in fragments && SameChange(patch, f) && f.itemId == id
  }

  /** A patch names exactly the items of the fragments with its change, and no change has two patches. */
  lemma {:induction false} GroupKeepsItems(fragments: seq<Attribution>)
    ensures forall f :: f in fragments ==> exists k :: Names(Group(fragments), f, k)
    ensures forall k, id ::
        0 <= k < |Group(fragments)| && id in Group(fragments)[k].itemIds ==> NamedBy(fragments, Group(fragments)[k], id)
    ensures forall k :: 0 <= k < |Group(fragments)| ==> Group(fragments)[k].itemIds != []
    ensures DistinctChanges(Group(fragments))
  {
    if fragments != [] {
      var front, last := WithoutLast(fragments), Last(fragments);
      GroupKeepsItems(front);
      assert fragments == front + [last];
      var earlier, grouped := Group(front), Group(fragments);
      var k := Find(earlier, last);
      assert Names(grouped, last, k);
      forall f | f in front ensures exists l :: Names(grouped, f, l) {
        var l :| Names(earlier, f, l);
        assert Names(grouped, f, l);
      }
      forall l, id | 0 <= l < |grouped| && id in grouped[l].itemIds ensures NamedBy(fragments, grouped[l], id) {
        if l < |earlier| && id in earlier[l].itemIds {
          var f :| f in front && SameChange(earlier[l], f) && f.itemId == id;
          assert f in fragments;
        } else {
          assert last in fragments;
        }
      }
    }
  }

  /** The patch of a fragment's change already names its item exactly when the fragment is a repetition. */
  lemma RepetitionIsSeen(fragments: seq<Attribution>, f: Attribution)
    ensures Names(Group(fragments), f, Find(Group(fragments), f)) <==> f in fragments
  {
    GroupKeepsItems(fragments);
    var patches := Group(fragments);
    var k := Find(patches, f);
    if f in fragments {
      var l :| Names(patches, f, l);
      assert k == l;
    }
    if Names(patches, f, k) {
      assert NamedBy(fragments, patches[k], f.itemId);
      var g :| g in fragments && SameChange(patches[k], g) && g.itemId == f.itemId;
      assert g == f;
    }
  }

  predicate DistinctStrings(s: seq<string>) { forall i, j :: 0 <= i < j < |s| ==> s[i] != s[j] }

  /** What the edit itself must declare. */
  predicate ItemsDeclared(edit: Edit) {
    && edit.itemIds != [] && DistinctStrings(edit.itemIds)
    && (forall i :: 0 <= i < |edit.itemIds| ==> !IsBlank(edit.itemIds[i]))
    && (edit.attributions == [] ==> |edit.itemIds| == 1)
  }

  predicate FragmentFits(edit: Edit, f: Attribution) {
    && f.itemId in edit.itemIds && f.beforeText != f.afterText
    && Anchored(edit.oldText, Edit(f.beforeText, f.afterText, [], []))
  }

  predicate DistinctFragments(fragments: seq<Attribution>) {
    forall i, j :: 0 <= i < j < |fragments| ==> fragments[i] != fragments[j]
  }

  ghost predicate Covered(edit: Edit, fragments: seq<Attribution>) {
    forall id :: id in edit.itemIds ==> exists f :: f in fragments && f.itemId == id
  }

  /** The fragments are exact: together they make the edit, item by item. */
  ghost predicate Attributed(edit: Edit) {
    var fragments := Fragments(edit);
    && ItemsDeclared(edit)
    && (forall f :: f in fragments ==> FragmentFits(edit, f)) && DistinctFragments(fragments)
    && Covered(edit, fragments)
    && Replaceable(edit.oldText, Group(fragments)) && Candidate(edit.oldText, Group(fragments)) == edit.newText
  }

  /** Groups the fragments, refusing one that does not fit the edit or that repeats another. */
  method GroupFragments(edit: Edit, fragments: seq<Attribution>) returns (ok: bool, patches: seq<Edit>)
    ensures ok <==> (forall f :: f in fragments ==> FragmentFits(edit, f)) && DistinctFragments(fragments)
    ensures ok ==> patches == Group(fragments)
  {
    hide FragmentFits, Find;
    patches := [];
    for i := 0 to |fragments|
      invariant patches == Group(fragments[..i]) && DistinctFragments(fragments[..i])
      invariant forall k :: 0 <= k < i ==> FragmentFits(edit, fragments[k])
    {
      if !FragmentFits(edit, fragments[i]) {
        assert fragments[i] in fragments;
        return false, [];
      }
      var k := Find(patches, fragments[i]);
      NextFragment(fragments, i, patches);
      if k < |patches| && fragments[i].itemId in patches[k].itemIds {
        return false, [];
      }
      patches := AddFragment(patches, fragments[i]);
    }
    assert fragments[..|fragments|] == fragments;
    ok := true;
  }

  lemma NextGroup(fragments: seq<Attribution>, i: nat)
    requires i < |fragments|
    ensures AddFragment(Group(fragments[..i]), fragments[i]) == Group(fragments[..i + 1])
  {
    assert WithoutLast(fragments[..i + 1]) == fragments[..i];
  }

  lemma NextDistinct(fragments: seq<Attribution>, i: nat)
    requires i < |fragments| && DistinctFragments(fragments[..i])
    ensures
      if fragments[i] in fragments[..i] then !DistinctFragments(fragments) else DistinctFragments(fragments[..i + 1])
  {
    if fragments[i] in fragments[..i] {
      RepeatedFragment(fragments, i);
    } else {
      var front, next := fragments[..i], fragments[..i + 1];
      forall k, l | 0 <= k < l <= i ensures next[k] != next[l] {
        assert next[k] == front[k];
        assert l < i ==> next[l] == front[l];
      }
    }
  }

  lemma NextFragment(fragments: seq<Attribution>, i: nat, patches: seq<Edit>)
    requires i < |fragments| && patches == Group(fragments[..i]) && DistinctFragments(fragments[..i])
    ensures AddFragment(patches, fragments[i]) == Group(fragments[..i + 1])
    ensures var k := Find(patches, fragments[i]);
      if k < |patches| && fragments[i].itemId in patches[k].itemIds then !DistinctFragments(fragments)
      else DistinctFragments(fragments[..i + 1])
  {
    hide Group, AddFragment, DistinctFragments;
    NextGroup(fragments, i);
    RepetitionIsSeen(fragments[..i], fragments[i]);
    FoundNames(patches, fragments[i]);
    NextDistinct(fragments, i);
  }

  lemma FoundNames(patches: seq<Edit>, f: Attribution)
    ensures var k := Find(patches, f);
      Names(patches, f, k) <==> k < |patches| && f.itemId in patches[k].itemIds
  {
  }

  method VerifiedAttributionPatches(edit: Edit) returns (r: PatchesResult)
    ensures r.Patches? <==> Attributed(edit)
    ensures r.Patches? ==> r.patches == Arrange(Locate(edit.oldText, Group(Fragments(edit))))
  {
    if !ItemsDeclared(edit) {
      return BadAttribution;
    }
    var fragments := Fragments(edit);
    var fit, patches := GroupFragments(edit, fragments);
    if !fit {
      return BadAttribution;
    }
    var covered := AllCovered(edit, fragments);
    if !covered {
      return BadAttribution;
    }
    PatchesAreAnchored(edit, fragments);
    var located := LocateAll(edit.oldText, patches);
    var ordered := SortSlice(located, UP);
    var reproduced := WriteUp(edit.oldText, patches, ordered);
    if reproduced != Ok(edit.newText) {
      return BadAttribution;
    }
    return Patches(ordered);
  }

  lemma RepeatedFragment(fragments: seq<Attribution>, i: nat)
    requires i < |fragments| && fragments[i] in fragments[..i]
    ensures !DistinctFragments(fragments)
  {
    var k :| 0 <= k < i && fragments[..i][k] == fragments[i];
  }

  method AllCovered(edit: Edit, fragments: seq<Attribution>) returns (covered: bool)
    ensures covered <==> Covered(edit, fragments)
  {
    var named: set<string> := {};
    for i := 0 to |fragments|
      invariant forall id :: id in named <==> exists k :: 0 <= k < i && fragments[k].itemId == id
    {
      named := named + {fragments[i].itemId};
    }
    for i := 0 to |edit.itemIds|
      invariant forall k :: 0 <= k < i ==> edit.itemIds[k] in named
    {
      if edit.itemIds[i] !in named {
        assert forall f :: f in fragments ==> f.itemId in named;
        assert edit.itemIds[i] in edit.itemIds;
        return false;
      }
    }
    forall id | id in edit.itemIds ensures exists f :: f in fragments && f.itemId == id {
      var k :| 0 <= k < |fragments| && fragments[k].itemId == id;
      assert fragments[k] in fragments;
    }
    return true;
  }

  lemma PatchesAreAnchored(edit: Edit, fragments: seq<Attribution>)
    requires forall f :: f in fragments ==> FragmentFits(edit, f)
    ensures forall k :: 0 <= k < |Group(fragments)| ==> Anchored(edit.oldText, Group(fragments)[k])
    ensures forall k :: 0 <= k < |Group(fragments)| ==> Group(fragments)[k].oldText != Group(fragments)[k].newText
  {
    GroupKeepsItems(fragments);
    forall k | 0 <= k < |Group(fragments)|
      ensures Anchored(edit.oldText, Group(fragments)[k]) && Group(fragments)[k].oldText != Group(fragments)[k].newText
    {
      var patch := Group(fragments)[k];
      assert patch.itemIds[0] in patch.itemIds;
      assert NamedBy(fragments, patch, patch.itemIds[0]);
    }
  }

  // ----- flattening -----

  /** The patches of an edit, in the order they stand in its text. */
  function PatchesOf(edit: Edit): seq<Located> { Arrange(Locate(edit.oldText, Group(Fragments(edit)))) }

  /** A block of an edit, the items it is attributed to, and which patch they come from. */
  datatype Marked = Marked(block: Block, itemIds: seq<string>, patch: nat)

  function BlocksOf(marked: seq<Marked>): seq<Block> {
    Map((m: Marked) => m.block, marked)
  }

  function Mark(blocks: seq<Block>, itemIds: seq<string>, patch: nat): (marked: seq<Marked>)
    ensures |marked| == |blocks|
    ensures forall k :: 0 <= k < |blocks| ==> marked[k] == Marked(blocks[k], itemIds, patch)
  {
    Map((b: Block) => Marked(b, itemIds, patch), blocks)
  }

  function Move(marked: seq<Marked>, o: nat, n: nat): (moved: seq<Marked>)
    ensures |moved| == |marked|
    ensures forall k :: 0 <= k < |marked| ==> moved[k] == marked[k].(block := Shift(marked[k].block, o, n))
  {
    Map((m: Marked) => m.(block := Shift(m.block, o, n)), marked)
  }

  ghost predicate Declares(edit: Edit, ids: seq<string>) {
    forall id :: id in ids ==> id in edit.itemIds
  }

  ghost function Unshift(b: Block, o: nat, n: nat): Block
    requires o <= b.oldStart <= b.oldEnd && n <= b.newStart <= b.newEnd
  {
    Block(b.oldStart - o, b.oldEnd - o, b.newStart - n, b.newEnd - n)
  }

  /** The block lies inside replacement k, between the common edges of its two texts. */
  ghost predicate LiesIn(located: seq<Located>, k: int, b: Block) {
    0 <= k < |located| &&
    var l, lead := located[k], Lead(Replacing(located), k);
    && l.start <= b.oldStart <= b.oldEnd && 0 <= l.start + lead <= b.newStart <= b.newEnd
    && InMiddle(l.edit.oldText, l.edit.newText, Unshift(b, l.start, l.start + lead))
  }

  ghost predicate MarkFits(before: Text, after: Text, patches: seq<Located>, m: Marked) {
    && Genuine(before, after, m.block) && LiesIn(patches, m.patch, m.block)
    && m.itemIds == patches[m.patch].edit.itemIds
  }

  /** Every block is a genuine change inside its patch, and credited to exactly the items of that patch. */
  ghost predicate MarksFit(before: Text, after: Text, patches: seq<Located>, marked: seq<Marked>) {
    forall k :: 0 <= k < |marked| ==> MarkFits(before, after, patches, marked[k])
  }

  ghost predicate HasBlock(marked: seq<Marked>, patch: int) {
    exists k :: 0 <= k < |marked| && marked[k].patch == patch
  }

  /** Each of the first n patches has a block, and in a shared edit exactly one. */
  ghost predicate Parted(marked: seq<Marked>, n: nat, shared: bool) {
    && (forall k :: 0 <= k < |marked| ==> marked[k].patch < n)
    && (forall p :: 0 <= p < n ==> HasBlock(marked, p))
    && (shared ==> |marked| == n && forall k :: 0 <= k < n ==> marked[k].patch == k)
  }

  predicate Shared(edit: Edit) { |edit.itemIds| > 1 }

  /** A genuine change stays one where the part stands in the whole. */
  lemma GenuineMoves(before: Text, after: Text, b: Block, o: nat, n: nat, part: Text, newPart: Text)
    requires o + |part| <= |before| && before[o..o + |part|] == part
    requires n + |newPart| <= |after| && after[n..n + |newPart|] == newPart
    requires Genuine(part, newPart, b)
    ensures Genuine(before, after, Shift(b, o, n))
  {
    assert forall k :: 0 <= k < |part| ==> part[k] == before[o + k];
    assert forall k :: 0 <= k < |newPart| ==> newPart[k] == after[n + k];
  }

  ghost predicate PatchFits(edit: Edit, patch: Located) {
    && OccursAt(edit.oldText, patch.edit.oldText, patch.start)
    && patch.edit.oldText != patch.edit.newText && patch.edit.itemIds != []
    && Declares(edit, patch.edit.itemIds)
  }

  ghost predicate HasPatch(patches: seq<Edit>, id: string) {
    exists k :: 0 <= k < |patches| && id in patches[k].itemIds
  }

  function EditsOf(located: seq<Located>): (edits: seq<Edit>)
    ensures |edits| == |located| && forall k :: 0 <= k < |located| ==> edits[k] == located[k].edit
  {
    Map((l: Located) => l.edit, located)
  }

  /** The patches, in order, make the edit, and each of its items has a patch. */
  ghost predicate PatchesFit(edit: Edit, patches: seq<Located>) {
    && Ordered(|edit.oldText|, Replacing(patches)) && ReplaceAll(edit.oldText, Replacing(patches)) == edit.newText
    && (forall i :: 0 <= i < |patches| ==> PatchFits(edit, patches[i]))
    && (forall k :: 0 <= k < |edit.itemIds| ==> HasPatch(EditsOf(patches), edit.itemIds[k]))
  }

  lemma VerifiedPatchFits(edit: Edit, patches: seq<Located>, i: nat)
    requires Attributed(edit) && i < |patches|
    requires multiset(patches) == multiset(Locate(edit.oldText, Group(Fragments(edit))))
    ensures PatchFits(edit, patches[i])
  {
    hide Replaceable, Candidate, Locate, DistinctFragments, DistinctChanges;
    var fragments, grouped := Fragments(edit), Group(Fragments(edit));
    PatchesAreAnchored(edit, fragments);
    GroupKeepsItems(fragments);
    var k := SharedPlace(edit.oldText, grouped, patches, patches[i]);
    SpotIsAnchor(edit.oldText, grouped[k]);
    forall id | id in grouped[k].itemIds ensures id in edit.itemIds {
      assert NamedBy(fragments, grouped[k], id);
    }
  }

  lemma VerifiedItemHasPatch(edit: Edit, patches: seq<Located>, id: string)
    requires Covered(edit, Fragments(edit)) && id in edit.itemIds
    requires multiset(patches) == multiset(Locate(edit.oldText, Group(Fragments(edit))))
    ensures HasPatch(EditsOf(patches), id)
  {
    hide Locate;
    var grouped := Group(Fragments(edit));
    EveryItemHasAPatch(edit, id);
    var k :| 0 <= k < |grouped| && id in grouped[k].itemIds;
    var m := SharedSpot(edit.oldText, grouped, patches, k);
    assert EditsOf(patches)[m] == grouped[k];
  }

  lemma VerifiedPatchesFit(edit: Edit, patches: seq<Located>)
    requires Attributed(edit) && patches == Arrange(Locate(edit.oldText, Group(Fragments(edit))))
    ensures PatchesFit(edit, patches)
  {
    hide Replaceable, Candidate, Locate, PatchFits, HasPatch, Ordered, Built, Disjoint, SortedBy, ItemsDeclared,
        FragmentFits, DistinctFragments;
    ArrangementIsUnique(edit.oldText, Group(Fragments(edit)), patches);
    forall i | 0 <= i < |patches| ensures PatchFits(edit, patches[i]) {
      VerifiedPatchFits(edit, patches, i);
    }
    forall l | 0 <= l < |edit.itemIds| ensures HasPatch(EditsOf(patches), edit.itemIds[l]) {
      VerifiedItemHasPatch(edit, patches, edit.itemIds[l]);
    }
  }

  lemma SharedPlace(text: Text, edits: seq<Edit>, sorted: seq<Located>, l: Located) returns (k: nat)
    requires multiset(sorted) == multiset(Locate(text, edits)) && l in sorted
    ensures k < |edits| && l == Spot(text, edits[k])
  {
    assert l in multiset(Locate(text, edits));
    k :| 0 <= k < |edits| && Locate(text, edits)[k] == l;
  }

  lemma SharedSpot(text: Text, edits: seq<Edit>, sorted: seq<Located>, k: nat) returns (m: nat)
    requires multiset(sorted) == multiset(Locate(text, edits)) && k < |edits|
    ensures m < |sorted| && sorted[m] == Spot(text, edits[k])
  {
    assert Locate(text, edits)[k] in multiset(sorted);
    m :| 0 <= m < |sorted| && sorted[m] == Spot(text, edits[k]);
  }

  lemma EveryItemHasAPatch(edit: Edit, id: string)
    requires Covered(edit, Fragments(edit)) && id in edit.itemIds
    ensures HasPatch(Group(Fragments(edit)), id)
  {
    GroupKeepsItems(Fragments(edit));
    var f :| f in Fragments(edit) && f.itemId == id;
    var k :| Names(Group(Fragments(edit)), f, k);
  }

  /** A patch is too large to compare, or shared and not one block. */
  ghost predicate UnclearPatch(edit: Edit, patch: Edit) {
    TooLarge(patch.oldText, patch.newText) || (Shared(edit) && Scattered(patch.oldText, patch.newText))
  }

  ghost predicate AnyUnclear(edit: Edit, patches: seq<Edit>) {
    exists k :: 0 <= k < |patches| && UnclearPatch(edit, patches[k])
  }

  /** Exactly the edits whose lines cannot be attributed. */
  ghost predicate Unclear(edit: Edit) {
    !Attributed(edit) || AnyUnclear(edit, Group(Fragments(edit)))
  }

  /** The blocks of all patches of one edit, in coordinates of the edit's texts. */
  method PatchBlocks(edit: Edit, patches: seq<Located>) returns (ok: bool, marked: seq<Marked>)
    requires PatchesFit(edit, patches)
    ensures ok <==> !AnyUnclear(edit, EditsOf(patches))
    ensures ok ==> IsScript(edit.oldText, edit.newText, BlocksOf(marked))
    ensures ok ==> MarksFit(edit.oldText, edit.newText, patches, marked) && Parted(marked, |patches|, Shared(edit))
  {
    hide UnclearPatch, PatchedUpTo, PatchesFit, Parted, MarksFit, EditsOf;
    marked := [];
    var patchOffset := 0;
    NothingPatched(edit, patches);
    ok := true;
    var i := 0;
    while i < |patches| && ok
      invariant i <= |patches|
      invariant ok ==> patchOffset == Lead(Replacing(patches), i) && PatchedUpTo(edit, patches, marked, i)
      invariant ok ==> forall k :: 0 <= k < i ==> !UnclearPatch(edit, EditsOf(patches)[k])
      invariant !ok ==> AnyUnclear(edit, EditsOf(patches))
    {
      ok, marked, patchOffset := FlattenPatch(edit, patches, i, marked, patchOffset);
      i := i + 1;
    }
    if ok {
      AllPatched(edit, patches, marked);
    }
  }

  method FlattenPatch(edit: Edit, patches: seq<Located>, i: nat, marked: seq<Marked>, patchOffset: int)
    returns (ok: bool, extended: seq<Marked>, nextOffset: int)
    requires PatchesFit(edit, patches) && i < |patches| && PatchedUpTo(edit, patches, marked, i)
    requires patchOffset == Lead(Replacing(patches), i)
    ensures ok <==> !UnclearPatch(edit, EditsOf(patches)[i])
    ensures ok ==> PatchedUpTo(edit, patches, extended, i + 1) && nextOffset == Lead(Replacing(patches), i + 1)
  {
    hide TooLarge, Scattered, PatchedUpTo;
    var patch := patches[i].edit;
    assert PatchFits(edit, patches[i]);
    var r, frame, kept := ChangedByteBlocks(patch.oldText, patch.newText);
    DecidedByFrame(frame);
    if !r.Blocks? || (|edit.itemIds| > 1 && |r.blocks| > 1) {
      return false, [], 0;
    }
    AddPatch(edit, patches, i, marked, frame, r.blocks, kept);
    extended := marked + Added(patches, i, r.blocks, patchOffset);
    nextOffset := patchOffset + |patch.newText| - |patch.oldText|;
    ok := true;
  }

  /** The first patches are flattened: their blocks are a script of their part of the edit. */
  ghost predicate PatchedUpTo(edit: Edit, patches: seq<Located>, marked: seq<Marked>, i: nat)
    requires i <= |patches|
  {
    && CoversFirst(edit.oldText, edit.newText, Replacing(patches), BlocksOf(marked), i)
    && MarksFit(edit.oldText, edit.newText, patches, marked)
    && Parted(marked, i, Shared(edit))
  }

  lemma AllPatched(edit: Edit, patches: seq<Located>, marked: seq<Marked>)
    requires PatchesFit(edit, patches) && PatchedUpTo(edit, patches, marked, |patches|)
    ensures IsScript(edit.oldText, edit.newText, BlocksOf(marked))
    ensures MarksFit(edit.oldText, edit.newText, patches, marked) && Parted(marked, |patches|, Shared(edit))
  {
    LastReplacement(edit.oldText, Replacing(patches), BlocksOf(marked));
  }

  lemma NothingPatched(edit: Edit, patches: seq<Located>)
    requires PatchesFit(edit, patches)
    ensures PatchedUpTo(edit, patches, [], 0)
  {
    assert Replacing(patches)[..0] == [];
  }

  /** What flattening patch i adds, when the edit's text has run ahead by `lead`. */
  function Added(patches: seq<Located>, i: nat, blocks: seq<Block>, lead: int): seq<Marked>
    requires i < |patches| && 0 <= patches[i].start + lead
  {
    Move(Mark(blocks, patches[i].edit.itemIds, i), patches[i].start, patches[i].start + lead)
  }

  lemma MarksJoin(before: Text, after: Text, patches: seq<Located>, marked: seq<Marked>, added: seq<Marked>)
    requires MarksFit(before, after, patches, marked) && MarksFit(before, after, patches, added)
    ensures MarksFit(before, after, patches, marked + added)
  {
    hide MarkFits;
  }

  lemma LeadStep(patches: seq<Located>, i: nat)
    requires i < |patches|
    ensures Lead(Replacing(patches), i + 1)
      == Lead(Replacing(patches), i) + |patches[i].edit.newText| - |patches[i].edit.oldText|
  {
    assert Replacing(patches)[i] == AsReplacement(patches[i]);
  }

  lemma DiffFacts(frame: Frame, blocks: seq<Block>, kept: seq<Pair>)
    requires IsBlockDiff(frame, blocks, kept)
    ensures IsScript(frame.before, frame.after, blocks) && blocks != []
    ensures forall b :: b in blocks ==> Genuine(frame.before, frame.after, b) && InMiddle(frame.before, frame.after, b)
  {
    hide IsScript, Genuine, IsTokenList, Edges, IsLongest;
    forall b | b in blocks ensures InMiddle(frame.before, frame.after, b) {
      assert Between(frame.before, frame.after, frame.prefix, frame.suffix, b);
    }
  }

  lemma AddPatch(edit: Edit, patches: seq<Located>, i: nat, marked: seq<Marked>,
                 frame: Frame, blocks: seq<Block>, kept: seq<Pair>)
    requires PatchesFit(edit, patches) && i < |patches| && PatchedUpTo(edit, patches, marked, i)
    requires frame.before == patches[i].edit.oldText && frame.after == patches[i].edit.newText
    requires IsBlockDiff(frame, blocks, kept) && (Shared(edit) ==> |blocks| <= 1)
    ensures 0 <= patches[i].start + Lead(Replacing(patches), i)
    ensures PatchedUpTo(edit, patches, marked + Added(patches, i, blocks, Lead(Replacing(patches), i)), i + 1)
    ensures Lead(Replacing(patches), i + 1)
      == Lead(Replacing(patches), i) + |patches[i].edit.newText| - |patches[i].edit.oldText|
  {
    hide Placed, CoversFirst, Lead, MarksFit, IsBlockDiff, IsScript, Ordered, Built, PatchFits, HasPatch, Added,
        BlocksOf, Parted, Genuine, InMiddle;
    var reps := Replacing(patches);
    DiffFacts(frame, blocks, kept);
    ReplacementsArePlaced(edit.oldText, reps, i);
    AddedCovers(edit, patches, i, marked, blocks);
    AddedFits(edit, patches, i, blocks);
    MarksJoin(edit.oldText, edit.newText, patches, marked, Added(patches, i, blocks, Lead(reps, i)));
    AddedParts(patches, i, marked, blocks, Lead(reps, i), Shared(edit));
    LeadStep(patches, i);
  }

  lemma MovedBlocks(marked: seq<Marked>, blocks: seq<Block>, ids: seq<string>, p: nat, o: nat, n: nat)
    ensures BlocksOf(marked + Move(Mark(blocks, ids, p), o, n)) == BlocksOf(marked) + ShiftAll(blocks, o, n)
  {
  }

  lemma PatchStands(edit: Edit, patches: seq<Located>, i: nat)
    requires i < |patches| && Placed(edit.oldText, edit.newText, Replacing(patches), i) && PatchFits(edit, patches[i])
    ensures 0 <= patches[i].start + Lead(Replacing(patches), i)
    ensures var r := Replacing(patches)[i];
      && r == AsReplacement(patches[i]) && r.start <= r.end <= |edit.oldText|
      && edit.oldText[r.start..r.end] == patches[i].edit.oldText
  {
  }

  lemma AddedCovers(edit: Edit, patches: seq<Located>, i: nat, marked: seq<Marked>, blocks: seq<Block>)
    requires i < |patches| && Placed(edit.oldText, edit.newText, Replacing(patches), i) && PatchFits(edit, patches[i])
    requires CoversFirst(edit.oldText, edit.newText, Replacing(patches), BlocksOf(marked), i)
    requires IsScript(patches[i].edit.oldText, patches[i].edit.newText, blocks)
    ensures 0 <= patches[i].start + Lead(Replacing(patches), i)
    ensures CoversFirst(edit.oldText, edit.newText, Replacing(patches),
                        BlocksOf(marked + Added(patches, i, blocks, Lead(Replacing(patches), i))), i + 1)
  {
    hide Placed, CoversFirst, Lead, PatchFits, BlocksOf, IsScript;
    var reps := Replacing(patches);
    PatchStands(edit, patches, i);
    NextReplacement(edit.oldText, edit.newText, reps, BlocksOf(marked), i, blocks);
    MovedBlocks(marked, blocks, patches[i].edit.itemIds, i, patches[i].start, patches[i].start + Lead(reps, i));
  }

  lemma PatchPlaces(edit: Edit, patches: seq<Located>, i: nat)
    requires i < |patches| && Placed(edit.oldText, edit.newText, Replacing(patches), i) && PatchFits(edit, patches[i])
    ensures 0 <= patches[i].start + Lead(Replacing(patches), i)
    ensures OccursAt(edit.oldText, patches[i].edit.oldText, patches[i].start)
    ensures OccursAt(edit.newText, patches[i].edit.newText, patches[i].start + Lead(Replacing(patches), i))
  {
    hide Lead;
    assert Replacing(patches)[i] == AsReplacement(patches[i]);
  }

  lemma AddedFits(edit: Edit, patches: seq<Located>, i: nat, blocks: seq<Block>)
    requires i < |patches| && Placed(edit.oldText, edit.newText, Replacing(patches), i) && PatchFits(edit, patches[i])
    requires forall b :: b in blocks ==>
        Genuine(patches[i].edit.oldText, patches[i].edit.newText, b)
        && InMiddle(patches[i].edit.oldText, patches[i].edit.newText, b)
    ensures 0 <= patches[i].start + Lead(Replacing(patches), i)
    ensures MarksFit(edit.oldText, edit.newText, patches, Added(patches, i, blocks, Lead(Replacing(patches), i)))
  {
    hide Placed, Lead, PatchFits, Genuine, InMiddle;
    PatchPlaces(edit, patches, i);
    var at := patches[i].start + Lead(Replacing(patches), i);
    var added := Added(patches, i, blocks, Lead(Replacing(patches), i));
    forall k | 0 <= k < |added| ensures MarkFits(edit.oldText, edit.newText, patches, added[k]) {
      assert blocks[k] in blocks;
      GenuineMoves(edit.oldText, edit.newText, blocks[k], patches[i].start, at, patches[i].edit.oldText,
        patches[i].edit.newText);
      BlockInside(patches[i].edit.oldText, patches[i].edit.newText, blocks[k]);
      assert Unshift(added[k].block, patches[i].start, at) == blocks[k];
    }
  }

  lemma BlockInside(before: Text, after: Text, b: Block)
    requires Genuine(before, after, b)
    ensures b.oldStart <= b.oldEnd <= |before| && b.newStart <= b.newEnd <= |after|
  {
  }

  lemma AddedParts(patches: seq<Located>, i: nat, marked: seq<Marked>, blocks: seq<Block>, lead: int, shared: bool)
    requires i < |patches| && 0 <= patches[i].start + lead && blocks != [] && (shared ==> |blocks| <= 1)
    requires Parted(marked, i, shared)
    ensures Parted(marked + Added(patches, i, blocks, lead), i + 1, shared)
  {
    var all := marked + Added(patches, i, blocks, lead);
    forall p | 0 <= p <= i ensures HasBlock(all, p) {
      if p < i {
        assert HasBlock(marked, p);
        var m :| 0 <= m < |marked| && marked[m].patch == p;
        assert all[m] == marked[m];
      } else {
        assert all[|marked|].patch == i;
      }
    }
  }

  // ----- the whole text -----

  /** The block lies inside patch p of the edit, whose new text runs ahead by `lead`, and the items are the patch's. */
  ghost predicate Owns(l: Located, lead: int, p: int, b: Block, ids: seq<string>) {
    && l.start <= b.oldStart <= b.oldEnd && 0 <= l.start + lead <= b.newStart <= b.newEnd
    && LiesIn(PatchesOf(l.edit), p, Unshift(b, l.start, l.start + lead))
    && ids == PatchesOf(l.edit)[p].edit.itemIds
  }

  lemma RangeIsOfBlock(before: Text, after: Text, ordered: seq<Located>, owners: seq<Owner>, ranges: seq<EditLineRange>,
      blocks: seq<Block>, k: nat)
    requires RangesFit(before, after, ordered, owners, ranges, blocks) && k < |blocks|
    ensures |ranges| == |blocks|
    ensures Genuine(before, after, blocks[k]) && ranges[k].range == RangeOf(before, after, blocks[k])
  {
    hide Genuine, Owns, Lead;
    assert RangeFits(before, after, ordered, owners[k], ranges[k], blocks[k]);
  }

  /** Which edit, and which of its patches. */
  type Owner = (nat, nat)

  /** The range names the lines of a genuine change inside a patch, and exactly the items of that patch. */
  ghost predicate RangeFits(before: Text, after: Text, ordered: seq<Located>, owner: Owner, range: EditLineRange,
      b: Block) {
    && Genuine(before, after, b) && range.range == RangeOf(before, after, b) && owner.0 < |ordered|
    && Owns(ordered[owner.0], Lead(Replacing(ordered), owner.0), owner.1, b, range.itemIds)
  }

  ghost predicate RangesFit(before: Text, after: Text, ordered: seq<Located>, owners: seq<Owner>,
      ranges: seq<EditLineRange>, blocks: seq<Block>) {
    |ranges| == |blocks| == |owners| &&
    forall k :: 0 <= k < |blocks| ==> RangeFits(before, after, ordered, owners[k], ranges[k], blocks[k])
  }

  ghost predicate HasOwner(owners: seq<Owner>, edit: int, patch: int) {
    exists k :: 0 <= k < |owners| && owners[k].0 == edit && owners[k].1 == patch
  }

  ghost predicate AllOwn(owners: seq<Owner>, edit: int, patches: nat) {
    forall p :: 0 <= p < patches ==> HasOwner(owners, edit, p)
  }

  /** Every patch of the first n edits has a block, and a patch of a shared edit exactly one. */
  ghost predicate EachOwns(ordered: seq<Located>, owners: seq<Owner>, n: nat)
    requires n <= |ordered|
  {
    && (forall k :: 0 <= k < |owners| ==> owners[k].0 < n)
    && (forall i :: 0 <= i < n ==> AllOwn(owners, i, |PatchesOf(ordered[i].edit)|))
    && (forall k, m :: 0 <= k < m < |owners| && owners[k] == owners[m] ==> !Shared(ordered[owners[k].0].edit))
  }

  ghost predicate HasRange(ranges: seq<EditLineRange>, id: string) {
    exists k :: 0 <= k < |ranges| && id in ranges[k].itemIds
  }

  ghost predicate AllHaveRanges(ranges: seq<EditLineRange>, ids: seq<string>) {
    forall k :: 0 <= k < |ids| ==> HasRange(ranges, ids[k])
  }

  /** The first edits are flattened. */
  ghost predicate FlattenedUpTo(before: Text, after: Text, ordered: seq<Located>, owners: seq<Owner>,
      ranges: seq<EditLineRange>, blocks: seq<Block>, i: nat)
    requires i <= |ordered|
  {
    && CoversFirst(before, after, Replacing(ordered), blocks, i)
    && RangesFit(before, after, ordered, owners, ranges, blocks)
    && EachOwns(ordered, owners, i)
    && forall k :: 0 <= k < i ==> !Unclear(ordered[k].edit)
  }

  /** The texts, and their edits in the order they stand. */
  ghost predicate Arranged(before: Text, after: Text, ordered: seq<Located>) {
    && Ordered(|before|, Replacing(ordered)) && ReplaceAll(before, Replacing(ordered)) == after
    && forall k :: 0 <= k < |ordered| ==> OccursAt(before, ordered[k].edit.oldText, ordered[k].start)
  }

  ghost function OwnersOf(marked: seq<Marked>, i: nat): (owners: seq<Owner>)
    ensures |owners| == |marked| && forall k :: 0 <= k < |marked| ==> owners[k] == (i, marked[k].patch)
  {
    Map((m: Marked) => (i, m.patch), marked)
  }

  lemma MarkGivesRange(before: Text, after: Text, ordered: seq<Located>, i: nat, m: Marked, at: nat)
    requires i < |ordered| && EditStands(before, after, ordered[i], at)
    requires at == ordered[i].start + Lead(Replacing(ordered), i)
    requires MarkFits(ordered[i].edit.oldText, ordered[i].edit.newText, PatchesOf(ordered[i].edit), m)
    ensures var b := Shift(m.block, ordered[i].start, at);
      && b.oldStart <= b.oldEnd <= |before| && b.newStart <= b.newEnd <= |after|
      && RangeFits(before, after, ordered, (i, m.patch), EditLineRange(m.itemIds, RangeOf(before, after, b)), b)
  {
    hide Genuine, EditStands, PatchesOf, Lead, LiesIn, Owns, MarkFits, RangeOf;
    MarkStands(before, after, ordered[i], at, m);
    BlockInside(before, after, Shift(m.block, ordered[i].start, at));
  }

  /** Line coordinates of one edit's blocks. */
  method AppendRanges(before: Text, after: Text, ordered: seq<Located>, i: nat, marked: seq<Marked>, at: nat)
    returns (ranges: seq<EditLineRange>)
    requires Arranged(before, after, ordered) && i < |ordered| && EditStands(before, after, ordered[i], at)
    requires at == ordered[i].start + Lead(Replacing(ordered), i)
    requires MarksFit(ordered[i].edit.oldText, ordered[i].edit.newText, PatchesOf(ordered[i].edit), marked)
    ensures
      RangesFit(before, after, ordered, OwnersOf(marked, i), ranges, ShiftAll(BlocksOf(marked), ordered[i].start, at))
  {
    hide RangeFits, Arranged, EditStands, PatchesOf, Lead, MarkFits;
    ranges := [];
    ghost var blocks, owners := ShiftAll(BlocksOf(marked), ordered[i].start, at), OwnersOf(marked, i);
    for k := 0 to |marked|
      invariant |ranges| == k
      invariant forall l :: 0 <= l < k ==> RangeFits(before, after, ordered, owners[l], ranges[l], blocks[l])
    {
      var b := Shift(marked[k].block, ordered[i].start, at);
      assert blocks[k] == b;
      MarkGivesRange(before, after, ordered, i, marked[k], at);
      ranges := ranges + [EditLineRange(marked[k].itemIds, RangeOf(before, after, b))];
    }
  }

  /** The edit's two texts stand in the two whole texts. */
  ghost predicate EditStands(before: Text, after: Text, l: Located, at: nat) {
    OccursAt(before, l.edit.oldText, l.start) && OccursAt(after, l.edit.newText, at)
  }

  lemma MarkStands(before: Text, after: Text, l: Located, at: nat, m: Marked)
    requires EditStands(before, after, l, at) && MarkFits(l.edit.oldText, l.edit.newText, PatchesOf(l.edit), m)
    ensures Genuine(before, after, Shift(m.block, l.start, at))
    ensures Owns(l, at - l.start, m.patch, Shift(m.block, l.start, at), m.itemIds)
  {
    hide PatchesOf, Lead;
    GenuineMoves(before, after, m.block, l.start, at, l.edit.oldText, l.edit.newText);
    assert Unshift(Shift(m.block, l.start, at), l.start, at) == m.block;
  }

  /** The attributed blocks of one edit. */
  method EditBlocks(edit: Edit) returns (ok: bool, marked: seq<Marked>)
    ensures ok <==> !Unclear(edit)
    ensures ok ==> EditIsSplit(edit, marked)
  {
    hide Attributed, PatchesFit, EditIsSplit, UnclearPatch;
    var verified := VerifiedAttributionPatches(edit);
    if !verified.Patches? {
      return false, [];
    }
    VerifiedPatchesFit(edit, verified.patches);
    ok, marked := PatchBlocks(edit, verified.patches);
    SamePatches(edit, verified.patches);
    if ok {
      IsSplit(edit, verified.patches, marked);
    }
  }

  lemma IsSplit(edit: Edit, patches: seq<Located>, marked: seq<Marked>)
    requires patches == PatchesOf(edit) && IsScript(edit.oldText, edit.newText, BlocksOf(marked))
    requires MarksFit(edit.oldText, edit.newText, patches, marked) && Parted(marked, |patches|, Shared(edit))
    ensures EditIsSplit(edit, marked)
  {
  }

  lemma SamePatches(edit: Edit, patches: seq<Located>)
    requires patches == PatchesOf(edit)
    ensures AnyUnclear(edit, EditsOf(patches)) <==> AnyUnclear(edit, Group(Fragments(edit)))
  {
    hide UnclearPatch;
    var grouped := Group(Fragments(edit));
    if AnyUnclear(edit, EditsOf(patches)) {
      var k :| 0 <= k < |EditsOf(patches)| && UnclearPatch(edit, EditsOf(patches)[k]);
      var l := SharedPlace(edit.oldText, grouped, patches, patches[k]);
      assert UnclearPatch(edit, grouped[l]);
    }
    if AnyUnclear(edit, grouped) {
      var k :| 0 <= k < |grouped| && UnclearPatch(edit, grouped[k]);
      var m := SharedSpot(edit.oldText, grouped, patches, k);
      assert UnclearPatch(edit, EditsOf(patches)[m]);
    }
  }

  ghost predicate EditIsSplit(edit: Edit, marked: seq<Marked>) {
    && IsScript(edit.oldText, edit.newText, BlocksOf(marked))
    && MarksFit(edit.oldText, edit.newText, PatchesOf(edit), marked)
    && Parted(marked, |PatchesOf(edit)|, Shared(edit))
  }

  method FlattenEdit(before: Text, after: Text, ordered: seq<Located>, i: nat, ghost owners: seq<Owner>,
      ranges: seq<EditLineRange>, ghost blocks: seq<Block>, offset: int)
    returns (ok: bool, ghost owning: seq<Owner>, extended: seq<EditLineRange>, ghost more: seq<Block>, nextOffset: int)
    requires Arranged(before, after, ordered) && i < |ordered|
    requires FlattenedUpTo(before, after, ordered, owners, ranges, blocks, i)
    requires offset == Lead(Replacing(ordered), i)
    ensures ok <==> !Unclear(ordered[i].edit)
    ensures ok ==> FlattenedUpTo(before, after, ordered, owning, extended, more, i + 1)
    ensures ok ==> nextOffset == Lead(Replacing(ordered), i + 1)
  {
    hide Unclear, CoversFirst, RangesFit, Covers, EditStands, Placed, EachOwns, PatchesOf;
    var split, marked := EditBlocks(ordered[i].edit);
    if !split {
      return false, [], [], [], 0;
    }
    StandsAfter(before, after, ordered, i);
    var added := AppendRanges(before, after, ordered, i, marked, ordered[i].start + offset);
    extended, more := ranges + added, blocks + ShiftAll(BlocksOf(marked), ordered[i].start, ordered[i].start + offset);
    owning := owners + OwnersOf(marked, i);
    nextOffset := offset + |ordered[i].edit.newText| - |ordered[i].edit.oldText|;
    AddEdit(before, after, ordered, i, owners, ranges, blocks, marked, added);
    ok := true;
  }

  lemma StandsAfter(before: Text, after: Text, ordered: seq<Located>, i: nat)
    requires Arranged(before, after, ordered) && i < |ordered|
    ensures 0 <= ordered[i].start + Lead(Replacing(ordered), i)
    ensures Placed(before, after, Replacing(ordered), i)
    ensures EditStands(before, after, ordered[i], ordered[i].start + Lead(Replacing(ordered), i))
  {
    hide Built, Ordered;
    ReplacementsArePlaced(before, Replacing(ordered), i);
    assert Replacing(ordered)[i] == AsReplacement(ordered[i]);
  }

  lemma AddEdit(before: Text, after: Text, ordered: seq<Located>, i: nat, owners: seq<Owner>,
      ranges: seq<EditLineRange>,
      blocks: seq<Block>, marked: seq<Marked>, added: seq<EditLineRange>)
    requires Arranged(before, after, ordered) && i < |ordered| && !Unclear(ordered[i].edit)
    requires FlattenedUpTo(before, after, ordered, owners, ranges, blocks, i)
    requires 0 <= ordered[i].start + Lead(Replacing(ordered), i) && EditIsSplit(ordered[i].edit, marked)
    requires RangesFit(before, after, ordered, OwnersOf(marked, i), added,
        ShiftAll(BlocksOf(marked), ordered[i].start, ordered[i].start + Lead(Replacing(ordered), i)))
    ensures FlattenedUpTo(before, after, ordered, owners + OwnersOf(marked, i), ranges + added,
        blocks + ShiftAll(BlocksOf(marked), ordered[i].start, ordered[i].start + Lead(Replacing(ordered), i)), i + 1)
    ensures Lead(Replacing(ordered), i + 1)
      == Lead(Replacing(ordered), i) + |ordered[i].edit.newText| - |ordered[i].edit.oldText|
  {
    hide CoversFirst, Unclear, Placed, Lead, RangeFits, MarksFit, IsScript, Built, Ordered, EditStands, EachOwns,
        PatchesOf, Parted;
    var more := ShiftAll(BlocksOf(marked), ordered[i].start, ordered[i].start + Lead(Replacing(ordered), i));
    StandsAfter(before, after, ordered, i);
    EditContinues(before, after, ordered, i, blocks, BlocksOf(marked));
    RangesJoin(before, after, ordered, owners, ranges, blocks, OwnersOf(marked, i), added, more);
    OwnersJoin(ordered, owners, i, marked);
    LeadStep(ordered, i);
  }

  lemma EditContinues(before: Text, after: Text, ordered: seq<Located>, i: nat, blocks: seq<Block>, inner: seq<Block>)
    requires i < |ordered| && Placed(before, after, Replacing(ordered), i)
    requires CoversFirst(before, after, Replacing(ordered), blocks, i)
    requires OccursAt(before, ordered[i].edit.oldText, ordered[i].start)
    requires IsScript(ordered[i].edit.oldText, ordered[i].edit.newText, inner)
    ensures 0 <= ordered[i].start + Lead(Replacing(ordered), i)
    ensures CoversFirst(before, after, Replacing(ordered),
        blocks + ShiftAll(inner, ordered[i].start, ordered[i].start + Lead(Replacing(ordered), i)), i + 1)
  {
    hide Covers, Placed, Lead;
    assert Replacing(ordered)[i] == AsReplacement(ordered[i]);
    NextReplacement(before, after, Replacing(ordered), blocks, i, inner);
  }

  lemma RangesJoin(before: Text, after: Text, ordered: seq<Located>, owners: seq<Owner>, ranges: seq<EditLineRange>,
      blocks: seq<Block>, owning: seq<Owner>, added: seq<EditLineRange>, more: seq<Block>)
    requires RangesFit(before, after, ordered, owners, ranges, blocks)
    requires RangesFit(before, after, ordered, owning, added, more)
    ensures RangesFit(before, after, ordered, owners + owning, ranges + added, blocks + more)
  {
    hide RangeFits;
  }

  /** The patches of edit i come behind those of the edits before it. */
  lemma OwnersJoin(ordered: seq<Located>, owners: seq<Owner>, i: nat, marked: seq<Marked>)
    requires i < |ordered| && EachOwns(ordered, owners, i)
    requires Parted(marked, |PatchesOf(ordered[i].edit)|, Shared(ordered[i].edit))
    ensures EachOwns(ordered, owners + OwnersOf(marked, i), i + 1)
  {
    hide PatchesOf;
    var all := owners + OwnersOf(marked, i);
    forall k, p | 0 <= k <= i && 0 <= p < |PatchesOf(ordered[k].edit)| ensures HasOwner(all, k, p) {
      if k < i {
        assert AllOwn(owners, k, |PatchesOf(ordered[k].edit)|) && HasOwner(owners, k, p);
        var m :| 0 <= m < |owners| && owners[m].0 == k && owners[m].1 == p;
        assert all[m] == owners[m];
      } else {
        assert HasBlock(marked, p);
        var m :| 0 <= m < |marked| && marked[m].patch == p;
        assert all[|owners| + m] == (i, p);
      }
    }
    forall k, m | 0 <= k < m < |all| && all[k] == all[m] ensures !Shared(ordered[all[k].0].edit) {
      if k < |owners| {
        assert all[k] == owners[k] && (m < |owners| ==> all[m] == owners[m]);
      }
    }
  }

  /**
   * What acceptance means. The blocks are one ordered script of the two texts. Each lies inside one patch of one
   * edit, and its range names its lines and exactly the items of that patch; every patch has a block, one of a
   * shared edit only one, and so every item of every edit has a range.
   */
  ghost predicate Accounted(before: Text, after: Text, edits: seq<Edit>, owners: seq<Owner>, ranges: seq<EditLineRange>,
      blocks: seq<Block>) {
    var ordered := Arrange(Locate(before, edits));
    && Replaceable(before, edits) && Candidate(before, edits) == after
    && IsScript(before, after, blocks)
    && RangesFit(before, after, ordered, owners, ranges, blocks) && EachOwns(ordered, owners, |ordered|)
    && forall k :: 0 <= k < |edits| ==> !Unclear(edits[k]) && AllHaveRanges(ranges, edits[k].itemIds)
  }

  method VerifiedEditLineRanges(before: Text, after: Text, edits: seq<Edit>)
    returns (r: RangesResult, ghost owners: seq<Owner>, ghost blocks: seq<Block>)
    ensures r.Ranges? <==>
      && Replaceable(before, edits) && Candidate(before, edits) == after
      && forall k :: 0 <= k < |edits| ==> !Unclear(edits[k])
    ensures r.Ranges? ==> Accounted(before, after, edits, owners, r.ranges, blocks)
  {
    hide Unclear, FlattenedUpTo, Accounted, Arranged, Replaceable, Candidate;
    var expected, ordered := BuildUp(before, edits);
    if expected != Ok(after) {
      return Unattributable, [], [];
    }
    IsArranged(before, edits, ordered);
    var ranges, offset, i, ok := [], 0, 0, true;
    owners, blocks := [], [];
    while i < |ordered| && ok
      invariant i <= |ordered|
      invariant ok ==> FlattenedUpTo(before, after, ordered, owners, ranges, blocks, i)
      invariant ok ==> offset == Lead(Replacing(ordered), i)
      invariant !ok ==> exists k :: 0 <= k < |ordered| && Unclear(ordered[k].edit)
    {
      ok, owners, ranges, blocks, offset := FlattenEdit(before, after, ordered, i, owners, ranges, blocks, offset);
      i := i + 1;
    }
    if !ok {
      ghost var k :| 0 <= k < |ordered| && Unclear(ordered[k].edit);
      ghost var l := SharedPlace(before, edits, ordered, ordered[k]);
      return Unattributable, [], [];
    }
    IsAccounted(before, after, edits, ordered, owners, ranges, blocks);
    AccountedIsClear(before, after, edits, owners, ranges, blocks);
    return Ranges(ranges), owners, blocks;
  }

  lemma AccountedIsClear(before: Text, after: Text, edits: seq<Edit>, owners: seq<Owner>, ranges: seq<EditLineRange>,
      blocks: seq<Block>)
    requires Accounted(before, after, edits, owners, ranges, blocks)
    ensures Replaceable(before, edits) && forall k :: 0 <= k < |edits| ==> !Unclear(edits[k])
  {
  }

  lemma IsArranged(before: Text, edits: seq<Edit>, ordered: seq<Located>)
    requires Replaceable(before, edits) && ordered == Arrange(Locate(before, edits))
    ensures Arranged(before, Candidate(before, edits), ordered)
    ensures FlattenedUpTo(before, Candidate(before, edits), ordered, [], [], [], 0)
  {
    ArrangementIsUnique(before, edits, ordered);
    assert Replacing(ordered)[..0] == [];
  }

  lemma IsAccounted(before: Text, after: Text, edits: seq<Edit>, ordered: seq<Located>, owners: seq<Owner>,
      ranges: seq<EditLineRange>, blocks: seq<Block>)
    requires Replaceable(before, edits) && Candidate(before, edits) == after
    requires ordered == Arrange(Locate(before, edits))
    requires
      Arranged(before, after, ordered) && FlattenedUpTo(before, after, ordered, owners, ranges, blocks, |ordered|)
    ensures Accounted(before, after, edits, owners, ranges, blocks)
  {
    hide Unclear, RangesFit, EachOwns, PatchesOf, Locate, Arrange;
    LastReplacement(before, Replacing(ordered), blocks);
    forall k | 0 <= k < |edits| ensures !Unclear(edits[k]) && AllHaveRanges(ranges, edits[k].itemIds) {
      var m := SharedSpot(before, edits, ordered, k);
      OwnedItemsHaveRanges(before, after, ordered, owners, ranges, blocks, m);
    }
  }

  lemma OwnedItemsHaveRanges(before: Text, after: Text, ordered: seq<Located>, owners: seq<Owner>,
      ranges: seq<EditLineRange>, blocks: seq<Block>, m: nat)
    requires m < |ordered| && RangesFit(before, after, ordered, owners, ranges, blocks)
    requires EachOwns(ordered, owners, |ordered|) && !Unclear(ordered[m].edit)
    ensures AllHaveRanges(ranges, ordered[m].edit.itemIds)
  {
    var edit := ordered[m].edit;
    forall l | 0 <= l < |edit.itemIds| ensures HasRange(ranges, edit.itemIds[l]) {
      OwnedItemHasRange(before, after, ordered, owners, ranges, blocks, m, edit.itemIds[l]);
    }
  }

  lemma OwnedItemHasRange(before: Text, after: Text, ordered: seq<Located>, owners: seq<Owner>,
      ranges: seq<EditLineRange>, blocks: seq<Block>, m: nat, id: string)
    requires m < |ordered| && RangesFit(before, after, ordered, owners, ranges, blocks)
    requires EachOwns(ordered, owners, |ordered|) && !Unclear(ordered[m].edit) && id in ordered[m].edit.itemIds
    ensures HasRange(ranges, id)
  {
    hide PatchesOf, LiesIn, Genuine, Lead, Unclear, RangeOf;
    var patches := PatchesOf(ordered[m].edit);
    ItemIsPatched(ordered[m].edit, id);
    var p :| 0 <= p < |patches| && id in EditsOf(patches)[p].itemIds;
    assert AllOwn(owners, m, |patches|) && HasOwner(owners, m, p);
    var k :| 0 <= k < |owners| && owners[k].0 == m && owners[k].1 == p;
    assert RangeFits(before, after, ordered, owners[k], ranges[k], blocks[k]);
  }

  lemma ItemIsPatched(edit: Edit, id: string)
    requires !Unclear(edit) && id in edit.itemIds
    ensures HasPatch(EditsOf(PatchesOf(edit)), id)
  {
    hide Replaceable, Candidate, ItemsDeclared, DistinctFragments, FragmentFits, AnyUnclear;
    VerifiedItemHasPatch(edit, PatchesOf(edit), id);
  }
}

/** Staged edits, candidate requests, and what a candidate must address before it may be validated. */
module Candidates {
  import opened Bytes
  import opened Keyed
  import opened Lists
  import opened Spaces
  import opened Utf8
  import opened Substitution
  import opened Plans

  datatype CandidateRequest = CandidateRequest(planRevision: int, baseHash: string, edits: seq<Edit>,
      addressedItemIds: seq<string>)

  datatype StagedEdit = StagedEdit(id: string, edit: Edit)

  datatype StageRequest = StageRequest(planRevision: int, baseHash: string, edits: seq<StagedEdit>,
      removeEditIds: seq<string>)

  datatype StageResult = Staged(edits: seq<StagedEdit>) | NotStaged

  /** An explicit scope that must stay unresolved and unchanged. */
  datatype ReviewHold = ReviewHold(itemId: string, ruleId: string, sourceLocations: seq<SourceLocation>, reason: string)

  datatype HoldsResult = Holds(holds: seq<ReviewHold>) | Unlocalized

  /** A check of the lines a plan holds; HoldChecks models the one the loop is run with. */
  type HoldCheck = (RepairPlan, CandidateRequest) -> bool

  // ----- human holds -----

  function HoldOf(item: PlanItem): ReviewHold { ReviewHold(item.id, item.ruleId, item.sourceLocations,
      item.holdReason) }

  function HoldsOf(items: seq<PlanItem>): seq<ReviewHold> {
    if items == [] then []
    else
      var rest := HoldsOf(items[..|items| - 1]);
      if items[|items| - 1].status == BLOCKED then rest + [HoldOf(items[|items| - 1])] else rest
  }

  predicate Localized(item: PlanItem) {
    item.status == BLOCKED ==> item.sourceLocations != [] && !IsBlank(item.holdReason)
  }

  predicate HeldRule(items: seq<PlanItem>, ruleId: string) {
    exists i :: 0 <= i < |items| && items[i].status == BLOCKED && items[i].ruleId == ruleId
  }

  predicate AllLocalized(plan: RepairPlan) {
    && (forall i :: 0 <= i < |plan.items| ==> Localized(plan.items[i]))
    && (forall i :: 0 <= i < |plan.ruleDecisions| && plan.ruleDecisions[i].decision == BLOCKED ==>
          HeldRule(plan.items, plan.ruleDecisions[i].ruleId))
  }

  function HoldsOfPlan(plan: RepairPlan): HoldsResult {
    if AllLocalized(plan) then Holds(HoldsOf(plan.items)) else Unlocalized
  }

  lemma HeldRuleStep(items: seq<PlanItem>, i: nat)
    requires i < |items|
    ensures forall rule ::
        HeldRule(items[..i + 1], rule) <==>
          HeldRule(items[..i], rule) || (items[i].status == BLOCKED && items[i].ruleId == rule)
  {
    var front, next := items[..i], items[..i + 1];
    forall rule
      ensures HeldRule(next, rule) <==> HeldRule(front, rule) || (items[i].status == BLOCKED && items[i].ruleId == rule)
    {
      if k :| 0 <= k < |front| && front[k].status == BLOCKED && front[k].ruleId == rule {
        assert next[k] == front[k];
      }
      if k :| 0 <= k < |next| && next[k].status == BLOCKED && next[k].ruleId == rule {
        assert k < i ==> front[k] == next[k];
      }
      assert next[i] == items[i];
    }
  }

  method CandidateHolds(plan: RepairPlan) returns (result: HoldsResult)
    ensures result == HoldsOfPlan(plan)
  {
    hide IsBlank;
    var holds: seq<ReviewHold>, localized: set<string> := [], {};
    for i := 0 to |plan.items|
      invariant holds == HoldsOf(plan.items[..i])
      invariant forall rule :: rule in localized <==> HeldRule(plan.items[..i], rule)
      invariant forall k :: 0 <= k < i ==> Localized(plan.items[k])
    {
      var item := plan.items[i];
      HeldRuleStep(plan.items, i);
      assert plan.items[..i + 1][..i] == plan.items[..i];
      if item.status == BLOCKED {
        if |item.sourceLocations| == 0 || IsBlank(item.holdReason) {
          return Unlocalized;
        }
        localized := localized + {item.ruleId};
        holds := holds + [ReviewHold(item.id, item.ruleId, item.sourceLocations, item.holdReason)];
      }
    }
    assert plan.items[..|plan.items|] == plan.items;
    for i := 0 to |plan.ruleDecisions|
      invariant forall k ::
          0 <= k < i && plan.ruleDecisions[k].decision == BLOCKED ==> HeldRule(plan.items, plan.ruleDecisions[k].ruleId)
    {
      if plan.ruleDecisions[i].decision == BLOCKED && plan.ruleDecisions[i].ruleId !in localized {
        return Unlocalized;
      }
    }
    return Holds(holds);
  }

  /** The holds are exactly the blocked items. */
  lemma {:induction false} HoldsAreBlockedItems(items: seq<PlanItem>, hold: ReviewHold)
    ensures
      hold in HoldsOf(items) <==> exists i :: 0 <= i < |items| && items[i].status == BLOCKED && HoldOf(items[i]) == hold
  {
    if items != [] {
      var front, last := items[..|items| - 1], items[|items| - 1];
      HoldsAreBlockedItems(front, hold);
      assert forall i :: 0 <= i < |front| ==> front[i] == items[i];
      if hold in HoldsOf(items) && hold !in HoldsOf(front) {
        assert items[|items| - 1].status == BLOCKED && HoldOf(items[|items| - 1]) == hold;
      }
      if i :| 0 <= i < |items| && items[i].status == BLOCKED && HoldOf(items[i]) == hold {
        assert i < |front| ==> front[i].status == BLOCKED && HoldOf(front[i]) == hold;
      }
    }
  }

  /** A hold says which item and rule it is about, where, and why. */
  predicate IsHoldOf(hold: ReviewHold, item: PlanItem) {
    && hold.itemId == item.id && hold.ruleId == item.ruleId && hold.sourceLocations == item.sourceLocations
    && hold.reason == item.holdReason
  }

  lemma HoldNamesItsItem(items: seq<PlanItem>, hold: ReviewHold)
    ensures
      hold in HoldsOf(items) <==> exists i :: 0 <= i < |items| && items[i].status == BLOCKED && IsHoldOf(hold, items[i])
  {
    HoldsAreBlockedItems(items, hold);
  }

  /** The holds stand in the order of the plan, one for each blocked item. */
  lemma {:induction false} HoldsAreInOrder(a: seq<PlanItem>, b: seq<PlanItem>)
    ensures HoldsOf(a + b) == HoldsOf(a) + HoldsOf(b)
  {
    if b == [] {
      assert a + b == a;
    } else {
      assert (a + b)[..|a + b| - 1] == a + b[..|b| - 1];
      HoldsAreInOrder(a, b[..|b| - 1]);
    }
  }

  lemma HoldOfOne(item: PlanItem)
    ensures |HoldsOf([item])| == (if item.status == BLOCKED then 1 else 0)
    ensures item.status == BLOCKED ==> IsHoldOf(HoldsOf([item])[0], item)
  {
    assert [item][..0] == [];
  }

  // ----- the shape of one edit's attribution -----

  const FRAGMENT_ITEM: Attribution -> string := (fragment: Attribution) => fragment.itemId

  predicate FragmentFits(itemIds: seq<string>, fragment: Attribution) {
    && HasKey(itemIds, SELF, fragment.itemId)
    && fragment.beforeText != [] && fragment.beforeText != fragment.afterText
    && ValidUtf8(fragment.beforeText) && ValidUtf8(fragment.afterText)
  }

  function FragmentTest(itemIds: seq<string>): Attribution -> bool {
    (fragment: Attribution) => FragmentFits(itemIds, fragment)
  }

  predicate Covered(itemIds: seq<string>, covered: set<string>) {
    forall i :: 0 <= i < |itemIds| ==> itemIds[i] in covered
  }

  predicate AttributionShape(edit: Edit) {
    if edit.attributions == [] then |edit.itemIds| <= 1
    else
      && All(edit.attributions, FragmentTest(edit.itemIds)) && AllDistinct(edit.attributions)
      && Covered(edit.itemIds, Keys(edit.attributions, FRAGMENT_ITEM))
  }

  method CheckEditAttributionShape(edit: Edit) returns (ok: bool)
    ensures ok <==> AttributionShape(edit)
  {
    if |edit.attributions| == 0 {
      return |edit.itemIds| <= 1;
    }
    var fit := ScanDistinct(edit.attributions, FragmentTest(edit.itemIds));
    if !fit {
      return false;
    }
    var covered: set<string> := {};
    for i := 0 to |edit.attributions|
      invariant covered == Keys(edit.attributions[..i], FRAGMENT_ITEM)
    {
      KeysGrow(edit.attributions, FRAGMENT_ITEM, i);
      covered := covered + {FRAGMENT_ITEM(edit.attributions[i])};
    }
    assert edit.attributions[..|edit.attributions|] == edit.attributions;
    return Covered(edit.itemIds, covered);
  }

  // ----- the whole candidate -----

  /** An item the plan has and does not hold. */
  predicate IsAddressable(items: seq<PlanItem>, id: string) {
    var k := Find(items, ID_OF, id);
    k < |items| && items[k].status != BLOCKED
  }

  function Addressable(items: seq<PlanItem>): string -> bool { (id: string) => IsAddressable(items, id) }

  function Among(ids: set<string>): string -> bool { (id: string) => id in ids }

  predicate IsLinked(addressed: set<string>, edit: Edit) {
    edit.itemIds != [] && Good(edit.itemIds, Among(addressed), SELF) && AttributionShape(edit)
  }

  /** The items the edits change. */
  function Linked(edits: seq<Edit>): set<string> {
    if edits == [] then {} else Linked(edits[..|edits| - 1]) + Keys(edits[|edits| - 1].itemIds, SELF)
  }

  predicate AddressesAllSafe(plan: RepairPlan, addressed: set<string>) {
    forall i :: 0 <= i < |plan.items| && plan.items[i].status != BLOCKED ==> plan.items[i].id in addressed
  }

  predicate Current(plan: RepairPlan, request: CandidateRequest) {
    && 1 <= plan.revision && request.planRevision == plan.revision
    && ValidSnapshot(plan) && HoldsOfPlan(plan).Holds? && plan.items != []
  }

  predicate AddressesPlan(plan: RepairPlan, request: CandidateRequest) {
    && Good(request.addressedItemIds, Addressable(plan.items), SELF)
    && AddressesAllSafe(plan, Keys(request.addressedItemIds, SELF)) && request.addressedItemIds != []
  }

  predicate AllLinked(edits: seq<Edit>, addressed: set<string>) {
    forall i :: 0 <= i < |edits| ==> IsLinked(addressed, edits[i])
  }

  predicate FitsPlan(plan: RepairPlan, request: CandidateRequest) {
    && Current(plan, request) && AddressesPlan(plan, request)
    && AllLinked(request.edits, Keys(request.addressedItemIds, SELF))
    && Covered(request.addressedItemIds, Linked(request.edits))
  }

  method ScanIds(ids: seq<string>, test: string -> bool) returns (ok: bool, seen: set<string>)
    ensures ok <==> Good(ids, test, SELF)
    ensures ok ==> seen == Keys(ids, SELF)
  {
    seen := {};
    for i := 0 to |ids|
      invariant Good(ids[..i], test, SELF) && seen == Keys(ids[..i], SELF)
    {
      GoodStep(ids, test, SELF, i);
      KeysGrow(ids, SELF, i);
      if !test(ids[i]) || ids[i] in seen {
        return false, seen;
      }
      seen := seen + {ids[i]};
    }
    assert ids[..|ids|] == ids;
    ok := true;
  }

  method CheckLinks(edits: seq<Edit>, addressed: set<string>) returns (ok: bool, linked: set<string>)
    ensures ok <==> AllLinked(edits, addressed)
    ensures ok ==> linked == Linked(edits)
  {
    linked := {};
    for i := 0 to |edits|
      invariant forall k :: 0 <= k < i ==> IsLinked(addressed, edits[k])
      invariant linked == Linked(edits[..i])
    {
      assert edits[..i + 1][..i] == edits[..i];
      var good, seen := ScanIds(edits[i].itemIds, Among(addressed));
      if |edits[i].itemIds| == 0 || !good {
        return false, linked;
      }
      var shaped := CheckEditAttributionShape(edits[i]);
      if !shaped {
        return false, linked;
      }
      linked := linked + seen;
    }
    assert edits[..|edits|] == edits;
    ok := true;
  }

  method CheckCurrent(plan: RepairPlan, request: CandidateRequest) returns (ok: bool)
    ensures ok <==> Current(plan, request)
  {
    if plan.revision < 1 || request.planRevision != plan.revision {
      return false;
    }
    var valid := ValidatePlanSnapshot(plan);
    if !valid {
      return false;
    }
    var holds := CandidateHolds(plan);
    ok := holds.Holds? && |plan.items| != 0;
  }

  method CheckAddressed(plan: RepairPlan, request: CandidateRequest) returns (ok: bool, addressed: set<string>)
    ensures ok <==> AddressesPlan(plan, request)
    ensures ok ==> addressed == Keys(request.addressedItemIds, SELF)
  {
    ok, addressed := ScanIds(request.addressedItemIds, Addressable(plan.items));
    if ok {
      ok := AddressesAllSafe(plan, addressed) && |request.addressedItemIds| != 0;
    }
  }

  method CheckCandidatePlan(plan: RepairPlan, request: CandidateRequest) returns (ok: bool)
    ensures ok <==> FitsPlan(plan, request)
  {
    ok := CheckCurrent(plan, request);
    if !ok {
      return;
    }
    var addressed, linked: set<string>;
    ok, addressed := CheckAddressed(plan, request);
    if !ok {
      return;
    }
    ok, linked := CheckLinks(request.edits, addressed);
    if ok {
      ok := Covered(request.addressedItemIds, linked);
    }
  }

  lemma {:induction false} LinkedAreMentioned(edits: seq<Edit>, id: string)
    ensures id in Linked(edits) <==> exists i :: 0 <= i < |edits| && HasKey(edits[i].itemIds, SELF, id)
  {
    if edits != [] {
      var front := edits[..|edits| - 1];
      LinkedAreMentioned(front, id);
      assert forall i :: 0 <= i < |front| ==> front[i] == edits[i];
      if i :| 0 <= i < |edits| && HasKey(edits[i].itemIds, SELF, id) {
        assert i < |front| ==> HasKey(front[i].itemIds, SELF, id);
      }
    }
  }

  lemma AddressedAreSafe(plan: RepairPlan, request: CandidateRequest, id: string)
    requires AddressesPlan(plan, request)
    ensures id in Keys(request.addressedItemIds, SELF) <==> IsAddressable(plan.items, id)
  {
    var ids := request.addressedItemIds;
    if id in Keys(ids, SELF) {
      var i :| 0 <= i < |ids| && SELF(ids[i]) == id;
      assert Addressable(plan.items)(ids[i]);
    }
  }

  lemma MentionedAreAddressed(edits: seq<Edit>, addressed: set<string>, id: string)
    requires AllLinked(edits, addressed) && id in Linked(edits)
    ensures id in addressed
  {
    hide AttributionShape;
    LinkedAreMentioned(edits, id);
    var e :| 0 <= e < |edits| && HasKey(edits[e].itemIds, SELF, id);
    assert IsLinked(addressed, edits[e]);
    var k :| 0 <= k < |edits[e].itemIds| && SELF(edits[e].itemIds[k]) == id;
    assert Among(addressed)(edits[e].itemIds[k]);
  }

  lemma CoveredKeys(ids: seq<string>, covered: set<string>)
    requires Covered(ids, covered)
    ensures Keys(ids, SELF) <= covered
  {
    forall k | k in Keys(ids, SELF) ensures k in covered {
      var i :| 0 <= i < |ids| && SELF(ids[i]) == k;
      assert ids[i] in covered;
    }
  }

  /** A candidate that fits addresses, and changes code for, exactly the items that are not held. */
  lemma SafeItemsExactly(plan: RepairPlan, request: CandidateRequest, id: string)
    requires FitsPlan(plan, request)
    ensures HasKey(request.addressedItemIds, SELF, id) <==> IsAddressable(plan.items, id)
    ensures id in Linked(request.edits) <==> IsAddressable(plan.items, id)
  {
    hide Current, AddressesPlan, AllLinked, Covered, Linked, IsAddressable;
    var addressed := Keys(request.addressedItemIds, SELF);
    AddressedAreSafe(plan, request, id);
    CoveredKeys(request.addressedItemIds, Linked(request.edits));
    if id in Linked(request.edits) {
      MentionedAreAddressed(request.edits, addressed, id);
    }
  }

  // ----- plans that allow a final answer -----

  predicate CompletePlan(plan: RepairPlan, required: seq<string>) {
    forall i :: 0 <= i < |required| ==> Decided(plan.ruleDecisions, required[i])
  }

  predicate LeavesAlone(d: PlanDecision) { d.decision == NO_CHANGE && !IsBlank(d.reason) }

  const LEAVES_ALONE: PlanDecision -> bool := (d: PlanDecision) => LeavesAlone(d)
  const RULE_ID: Rule -> string := (rule: Rule) => rule.id

  /** Every applicable rule is decided, once, and leaves the source alone. */
  predicate NoChangePlan(plan: RepairPlan, rules: seq<Rule>) {
    && 1 <= plan.revision && plan.items == [] && |plan.ruleDecisions| == |rules|
    && Good(plan.ruleDecisions, LEAVES_ALONE, RULE_OF)
    && Keys(plan.ruleDecisions, RULE_OF) == Keys(rules, RULE_ID)
  }

  method CheckNoChangePlan(plan: RepairPlan, rules: seq<Rule>) returns (ok: bool)
    ensures ok <==> NoChangePlan(plan, rules)
  {
    hide LeavesAlone;
    if plan.revision < 1 || |plan.items| != 0 || |plan.ruleDecisions| != |rules| {
      return false;
    }
    ghost var all := Keys(rules, RULE_ID);
    var wanted := Keys(rules, RULE_ID);
    for i := 0 to |plan.ruleDecisions|
      invariant Good(plan.ruleDecisions[..i], LEAVES_ALONE, RULE_OF)
      invariant Keys(plan.ruleDecisions[..i], RULE_OF) <= all
      invariant wanted == all - Keys(plan.ruleDecisions[..i], RULE_OF)
    {
      var decision := plan.ruleDecisions[i];
      GoodStep(plan.ruleDecisions, LEAVES_ALONE, RULE_OF, i);
      KeysGrow(plan.ruleDecisions, RULE_OF, i);
      if decision.ruleId !in wanted || !LeavesAlone(decision) {
        assert HasKey(plan.ruleDecisions, RULE_OF, RULE_OF(decision));
        return false;
      }
      wanted := wanted - {decision.ruleId};
    }
    assert plan.ruleDecisions[..|plan.ruleDecisions|] == plan.ruleDecisions;
    assert forall k :: k in all - wanted <==> k in Keys(plan.ruleDecisions, RULE_OF);
    assert wanted == {} ==> all - wanted == all;
    assert all - wanted == Keys(plan.ruleDecisions, RULE_OF);
    return wanted == {};
  }

  // ----- staging -----

  const STAGED_ID: StagedEdit -> string := (entry: StagedEdit) => entry.id

  function EditsOf(staged: seq<StagedEdit>): seq<Edit> { Map((entry: StagedEdit) => entry.edit, staged) }

  /** The ids in order of first mention. */
  function AddIds(seen: seq<string>, ids: seq<string>): seq<string> {
    if ids == [] then seen
    else
      var before := AddIds(seen, ids[..|ids| - 1]);
      if HasKey(before, SELF, ids[|ids| - 1]) then before else before + [ids[|ids| - 1]]
  }

  function Mentioned(edits: seq<Edit>): seq<string> {
    if edits == [] then [] else AddIds(Mentioned(edits[..|edits| - 1]), edits[|edits| - 1].itemIds)
  }

  function RequestFor(revision: int, baseHash: string, staged: seq<StagedEdit>): CandidateRequest {
    CandidateRequest(revision, baseHash, EditsOf(staged), Mentioned(EditsOf(staged)))
  }

  lemma KeysAppend(ids: seq<string>, id: string)
    ensures Keys(ids + [id], SELF) == Keys(ids, SELF) + {id}
    ensures Distinct(ids, SELF) && !HasKey(ids, SELF, id) ==> Distinct(ids + [id], SELF)
  {
    KeysGrow(ids + [id], SELF, |ids|);
    assert (ids + [id])[..|ids|] == ids && (ids + [id])[..|ids| + 1] == ids + [id];
  }

  lemma {:induction false} AddIdsKeys(seen: seq<string>, ids: seq<string>)
    requires Distinct(seen, SELF)
    ensures Distinct(AddIds(seen, ids), SELF) && Keys(AddIds(seen, ids), SELF) == Keys(seen, SELF) + Keys(ids, SELF)
  {
    if ids != [] {
      var front, last := ids[..|ids| - 1], ids[|ids| - 1];
      AddIdsKeys(seen, front);
      var before := AddIds(seen, front);
      KeysGrow(ids, SELF, |ids| - 1);
      assert ids[..|ids| - 1 + 1] == ids;
      if !HasKey(before, SELF, last) {
        KeysAppend(before, last);
      }
    }
  }

  /** A staged request addresses exactly the items its edits name, each once. */
  lemma {:induction false} MentionedAreLinked(edits: seq<Edit>)
    ensures Distinct(Mentioned(edits), SELF) && Keys(Mentioned(edits), SELF) == Linked(edits)
  {
    if edits != [] {
      MentionedAreLinked(edits[..|edits| - 1]);
      AddIdsKeys(Mentioned(edits[..|edits| - 1]), edits[|edits| - 1].itemIds);
    }
  }

  /** Items are addressed in the order of their first mention. */
  lemma {:induction false} MentionsAddUp(seen: seq<string>, a: seq<string>, b: seq<string>)
    ensures AddIds(AddIds(seen, a), b) == AddIds(seen, a + b) && AddIds(seen, a) <= AddIds(seen, a + b)
  {
    if b == [] {
      assert a + b == a;
    } else {
      assert (a + b)[..|a + b| - 1] == a + b[..|b| - 1];
      MentionsAddUp(seen, a, b[..|b| - 1]);
    }
  }

  lemma OneMention(seen: seq<string>, id: string)
    ensures AddIds(seen, []) == seen && AddIds(seen, [id]) == if id in seen then seen else seen + [id]
  {
    assert [id][..0] == [];
    assert HasKey(seen, SELF, id) <==> id in seen;
  }

  method StagedRequest(revision: int, baseHash: string, staged: seq<StagedEdit>) returns (request: CandidateRequest)
    ensures request == RequestFor(revision, baseHash, staged)
    ensures request.planRevision == revision && request.baseHash == baseHash && |request.edits| == |staged|
    ensures forall i :: 0 <= i < |staged| ==> request.edits[i] == staged[i].edit
    ensures Distinct(request.addressedItemIds, SELF) && Keys(request.addressedItemIds, SELF) == Linked(request.edits)
  {
    var edits: seq<Edit>, ids: seq<string>, seen: set<string> := [], [], {};
    for i := 0 to |staged|
      invariant edits == EditsOf(staged)[..i] && ids == Mentioned(edits) && seen == Keys(ids, SELF)
      invariant Distinct(ids, SELF)
    {
      var entry := staged[i].edit;
      var before := edits;
      edits := edits + [entry];
      assert edits[..|edits| - 1] == before && EditsOf(staged)[i] == entry;
      AddIdsKeys(ids, entry.itemIds);
      ids, seen := AddMentions(ids, seen, entry.itemIds);
    }
    assert EditsOf(staged)[..|staged|] == EditsOf(staged);
    MentionedAreLinked(edits);
    request := CandidateRequest(revision, baseHash, edits, ids);
  }

  method AddMentions(ids: seq<string>, seen: set<string>, more: seq<string>) returns (all: seq<string>,
      known: set<string>)
    requires seen == Keys(ids, SELF) && Distinct(ids, SELF)
    ensures all == AddIds(ids, more) && known == Keys(all, SELF)
  {
    all, known := ids, seen;
    for i := 0 to |more|
      invariant all == AddIds(ids, more[..i]) && known == Keys(all, SELF)
    {
      assert more[..i + 1][..i] == more[..i];
      if more[i] !in known {
        KeysAppend(all, more[i]);
        all, known := all + [more[i]], known + {more[i]};
      }
    }
    assert more[..|more|] == more;
  }

  predicate EntryFits(items: seq<PlanItem>, entry: StagedEdit) {
    && ValidRuleId(entry.id) && entry.edit.itemIds != []
    && Good(entry.edit.itemIds, Addressable(items), SELF) && AttributionShape(entry.edit)
  }

  predicate EntriesFit(items: seq<PlanItem>, update: StageRequest) {
    && Distinct(update.edits, STAGED_ID)
    && (forall i :: 0 <= i < |update.edits| ==> STAGED_ID(update.edits[i]) !in Keys(update.removeEditIds, SELF))
    && (forall i :: 0 <= i < |update.edits| ==> EntryFits(items, update.edits[i]))
  }

  function NextStaged(staged: seq<StagedEdit>, update: StageRequest): seq<StagedEdit> {
    UpsertAll(RemoveEach(staged, STAGED_ID, update.removeEditIds), STAGED_ID, update.edits)
  }

  ghost predicate Stageable(plan: RepairPlan, staged: seq<StagedEdit>, update: StageRequest, original: Text,
      baseHash: string, kept: HoldCheck) {
    && update.planRevision == plan.revision && 1 <= plan.revision && update.baseHash == baseHash
    && Removable(staged, STAGED_ID, update.removeEditIds, {}) && EntriesFit(plan.items, update)
    && var next := NextStaged(staged, update);
       (next == [] || (ExactEdits(original, EditsOf(next)) && kept(plan, RequestFor(plan.revision, baseHash, next))))
  }

  ghost function StageOf(plan: RepairPlan, staged: seq<StagedEdit>, update: StageRequest, original: Text,
      baseHash: string, kept: HoldCheck): StageResult {
    if Stageable(plan, staged, update, original, baseHash, kept) then Staged(NextStaged(staged, update)) else NotStaged
  }

  method CheckEntry(items: seq<PlanItem>, entry: StagedEdit) returns (ok: bool)
    ensures ok <==> EntryFits(items, entry)
  {
    if !ValidRuleId(entry.id) || |entry.edit.itemIds| == 0 {
      return false;
    }
    var good, _ := ScanIds(entry.edit.itemIds, Addressable(items));
    if !good {
      return false;
    }
    ok := CheckEditAttributionShape(entry.edit);
  }

  method UpsertEntries(items: seq<PlanItem>, update: StageRequest, rest: seq<StagedEdit>, removed: set<string>)
    returns (ok: bool, next: seq<StagedEdit>)
    requires removed == Keys(update.removeEditIds, SELF)
    ensures ok <==> EntriesFit(items, update)
    ensures ok ==> next == UpsertAll(rest, STAGED_ID, update.edits)
  {
    for i := 0 to |update.edits|
      invariant forall k :: 0 <= k < i ==> STAGED_ID(update.edits[k]) !in removed
      invariant forall k :: 0 <= k < i ==> EntryFits(items, update.edits[k])
    {
      if STAGED_ID(update.edits[i]) in removed {
        return false, rest;
      }
      var fits := CheckEntry(items, update.edits[i]);
      if !fits {
        return false, rest;
      }
    }
    var distinct, upserted, _ := UpsertInPlace(rest, STAGED_ID, update.edits);
    return distinct, upserted;
  }

  method StageEdits(plan: RepairPlan, staged: seq<StagedEdit>, update: StageRequest, original: Text,
      baseHash: string, kept: HoldCheck)
    returns (result: StageResult)
    ensures result == StageOf(plan, staged, update, original, baseHash, kept)
  {
    if update.planRevision != plan.revision || plan.revision < 1 || update.baseHash != baseHash {
      return NotStaged;
    }
    var removable, rest, removed := RemoveInPlace(staged, STAGED_ID, update.removeEditIds, {});
    if !removable {
      return NotStaged;
    }
    var fit, next := UpsertEntries(plan.items, update, rest, removed);
    if !fit {
      return NotStaged;
    }
    if |next| > 0 {
      var request := StagedRequest(plan.revision, baseHash, next);
      var exact := ValidateExactEdits(request.edits, original);
      if !exact || !kept(plan, request) {
        return NotStaged;
      }
    }
    return Staged(next);
  }

  /** A batch neither replaces nor removes the entry. */
  predicate LeftAlone(update: StageRequest, entry: StagedEdit) {
    !HasKey(update.edits, STAGED_ID, STAGED_ID(entry)) && !HasKey(update.removeEditIds, SELF, STAGED_ID(entry))
  }

  /** An accepted batch of staged edits: what it names is done, the rest is left alone, and all of it can be applied. */
  lemma StagingConserves(plan: RepairPlan, staged: seq<StagedEdit>, update: StageRequest, original: Text,
      baseHash: string, kept: HoldCheck)
    requires Distinct(staged, STAGED_ID)
    ensures var result := StageOf(plan, staged, update, original, baseHash, kept); result.Staged? ==>
      && Distinct(result.edits, STAGED_ID)
      && (forall i :: 0 <= i < |update.edits| ==> update.edits[i] in result.edits)
      && (forall i :: 0 <= i < |update.removeEditIds| ==> !HasKey(result.edits, STAGED_ID, update.removeEditIds[i]))
      && (forall i :: 0 <= i < |staged| && LeftAlone(update, staged[i]) ==> staged[i] in result.edits)
      && (result.edits == [] || ExactEdits(original, EditsOf(result.edits)))
  {
    var result := StageOf(plan, staged, update, original, baseHash, kept);
    if result.Staged? {
      var rest := RemoveEach(staged, STAGED_ID, update.removeEditIds);
      RemovingKeepsDistinct(staged, STAGED_ID, update.removeEditIds);
      UpsertAllDistinct(rest, STAGED_ID, update.edits);
      UpsertAllKeeps(rest, STAGED_ID, update.edits);
      forall i | 0 <= i < |update.edits| ensures update.edits[i] in result.edits {
        UpsertAllApplies(rest, STAGED_ID, update.edits, i);
      }
      forall i | 0 <= i < |update.removeEditIds| ensures !HasKey(result.edits, STAGED_ID, update.removeEditIds[i]) {
        RemovedAreGone(staged, STAGED_ID, update.removeEditIds, i);
        RemovedAreNotStaged(plan.items, update, i);
      }
      forall i | 0 <= i < |staged| && LeftAlone(update, staged[i])
        ensures staged[i] in result.edits
      {
        RemovingKeeps(staged, STAGED_ID, update.removeEditIds, i);
        var k :| 0 <= k < |rest| && rest[k] == staged[i];
        assert result.edits[k] == rest[k];
      }
    }
  }

  /** And nothing else appears. */
  lemma StagingInventsNothing(staged: seq<StagedEdit>, update: StageRequest, entry: StagedEdit)
    requires entry in NextStaged(staged, update)
    ensures entry in staged || entry in update.edits
  {
    var rest, next := RemoveEach(staged, STAGED_ID, update.removeEditIds), NextStaged(staged, update);
    var k :| 0 <= k < |next| && next[k] == entry;
    UpsertAllInvents(rest, STAGED_ID, update.edits, k);
    if entry !in update.edits {
      var j :| 0 <= j < |rest| && rest[j] == entry;
      RemovingInvents(staged, STAGED_ID, update.removeEditIds, j);
    }
  }

  lemma RemovedAreNotStaged(items: seq<PlanItem>, update: StageRequest, i: nat)
    requires EntriesFit(items, update) && i < |update.removeEditIds|
    ensures !HasKey(update.edits, STAGED_ID, update.removeEditIds[i])
  {
    assert HasKey(update.removeEditIds, SELF, SELF(update.removeEditIds[i]));
  }
}

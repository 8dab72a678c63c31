/** Plans as they are stored, with their source locations resolved, and everything any run of batches keeps. */
module PlanRuns {
  import opened Keyed
  import opened Lists
  import opened Spaces
  import opened Plans
  import opened PlanUpdates

  datatype Resolution = Found(location: SourceLocation) | Missing

  /** How locations are checked against, and found in, the immutable original. */
  datatype Locator = Locator(valid: SourceLocation -> bool, resolve: SourceLocation -> Resolution)

  /** A valid location is left alone, and whatever is found is valid. */
  ghost predicate Reliable(at: Locator) {
    && (forall l :: at.valid(l) ==> at.resolve(l) == Found(l))
    && (forall l :: at.resolve(l).Found? ==> at.valid(at.resolve(l).location))
  }

  predicate LocatedWhenBlocked(item: PlanItem) {
    item.status == BLOCKED ==> item.sourceLocations != [] && !IsBlank(item.holdReason)
  }

  predicate ValidLocations(item: PlanItem, at: Locator) {
    LocatedWhenBlocked(item) && AllDistinct(item.sourceLocations)
    && All(item.sourceLocations, at.valid)
  }

  predicate ValidPlanLocations(plan: RepairPlan, at: Locator) {
    forall i :: 0 <= i < |plan.items| ==> ValidLocations(plan.items[i], at)
  }

  function Fix(at: Locator): SourceLocation -> SourceLocation {
    (l: SourceLocation) => match at.resolve(l) case Found(found) => found case Missing => l
  }

  function FixItem(at: Locator): PlanItem -> PlanItem {
    (item: PlanItem) => item.(sourceLocations := Map(Fix(at), item.sourceLocations))
  }

  predicate Resolvable(item: PlanItem, at: Locator) {
    forall i :: 0 <= i < |item.sourceLocations| ==> at.resolve(item.sourceLocations[i]).Found?
  }

  function FixPlan(plan: RepairPlan, at: Locator): RepairPlan {
    plan.(items := Map(FixItem(at), plan.items))
  }

  function Resolve(plan: RepairPlan, at: Locator): PlanResult {
    if (forall i :: 0 <= i < |plan.items| ==> Resolvable(plan.items[i], at))
      && ValidPlanLocations(FixPlan(plan, at), at)
    then Accepted(FixPlan(plan, at))
    else Refused
  }

  method CheckLocations(item: PlanItem, at: Locator) returns (ok: bool)
    ensures ok <==> ValidLocations(item, at)
  {
    if !LocatedWhenBlocked(item) {
      return false;
    }
    ok := ScanDistinct(item.sourceLocations, at.valid);
  }

  method ValidatePlanSourceLocations(plan: RepairPlan, at: Locator) returns (ok: bool)
    ensures ok <==> ValidPlanLocations(plan, at)
  {
    for i := 0 to |plan.items|
      invariant forall k :: 0 <= k < i ==> ValidLocations(plan.items[k], at)
    {
      var valid := CheckLocations(plan.items[i], at);
      if !valid {
        return false;
      }
    }
    ok := true;
  }

  method ResolveItem(item: PlanItem, at: Locator) returns (ok: bool, fixed: PlanItem)
    ensures ok <==> Resolvable(item, at)
    ensures ok ==> fixed == FixItem(at)(item)
  {
    var locations := item.sourceLocations;
    for i := 0 to |locations|
      invariant |locations| == |item.sourceLocations|
      invariant forall k :: 0 <= k < i ==> at.resolve(item.sourceLocations[k]) == Found(locations[k])
      invariant forall k :: i <= k < |locations| ==> locations[k] == item.sourceLocations[k]
    {
      match at.resolve(locations[i])
      case Missing => return false, item;
      case Found(found) => locations := locations[i := found];
    }
    assert locations == Map(Fix(at), item.sourceLocations);
    return true, item.(sourceLocations := locations);
  }

  method ResolvePlanSourceLocations(plan: RepairPlan, at: Locator) returns (result: PlanResult)
    ensures result == Resolve(plan, at)
  {
    var items := plan.items;
    for i := 0 to |items|
      invariant |items| == |plan.items|
      invariant forall k :: 0 <= k < i ==> Resolvable(plan.items[k], at) && items[k] == FixItem(at)(plan.items[k])
      invariant forall k :: i <= k < |items| ==> items[k] == plan.items[k]
    {
      var ok, fixed := ResolveItem(items[i], at);
      if !ok {
        return Refused;
      }
      items := items[i := fixed];
    }
    assert items == Map(FixItem(at), plan.items);
    var valid := ValidatePlanSourceLocations(plan.(items := items), at);
    result := if valid then Accepted(plan.(items := items)) else Refused;
  }

  /** The locations of an item are where they were found, one for one, and the rest of it is as it was. */
  predicate FoundFor(item: PlanItem, found: PlanItem, at: Locator) {
    && found == item.(sourceLocations := found.sourceLocations)
    && |found.sourceLocations| == |item.sourceLocations|
    && forall l :: 0 <= l < |item.sourceLocations| ==>
         at.resolve(item.sourceLocations[l]) == Found(found.sourceLocations[l])
  }

  /** Everything is found, and what is found is in order. */
  lemma LocationsAreFound(plan: RepairPlan, at: Locator)
    ensures var result := Resolve(plan, at);
      result.Accepted? ==>
        && result.plan == plan.(items := result.plan.items) && |result.plan.items| == |plan.items|
        && ValidPlanLocations(result.plan, at)
        && forall i :: 0 <= i < |plan.items| ==> FoundFor(plan.items[i], result.plan.items[i], at)
  {
    var result := Resolve(plan, at);
    if result.Accepted? {
      forall i | 0 <= i < |plan.items| ensures FoundFor(plan.items[i], result.plan.items[i], at) {
        assert Resolvable(plan.items[i], at) && result.plan.items[i] == FixItem(at)(plan.items[i]);
      }
    }
  }

  /** A plan is refused only if some location is not found, or what is found would not make a valid plan. */
  lemma RefusedForALocation(plan: RepairPlan, found: RepairPlan, at: Locator)
    requires found == plan.(items := found.items) && |found.items| == |plan.items| && ValidPlanLocations(found, at)
    requires forall i :: 0 <= i < |plan.items| ==> FoundFor(plan.items[i], found.items[i], at)
    ensures Resolve(plan, at) == Accepted(found)
  {
    forall i | 0 <= i < |plan.items| ensures FixItem(at)(plan.items[i]) == found.items[i] {
      assert FoundFor(plan.items[i], found.items[i], at);
      assert Map(Fix(at), plan.items[i].sourceLocations) == found.items[i].sourceLocations;
    }
    assert FixPlan(plan, at) == found;
  }

  /** One call of update_state: merge the batch, then resolve the locations of the result. */
  function Register(current: RepairPlan, update: PlanUpdate, catalog: seq<Rule>, readIds: set<string>,
      at: Locator): PlanResult {
    match Merge(current, update, catalog, readIds)
    case Refused => Refused
    case Accepted(plan) => Resolve(plan, at)
  }

  // ----- plans as they are stored -----

  predicate DecisionsTrimmed(plan: RepairPlan) {
    forall i :: 0 <= i < |plan.ruleDecisions| ==> TrimDecision(plan.ruleDecisions[i]) == plan.ruleDecisions[i]
  }

  predicate ItemsTrimmed(plan: RepairPlan) {
    forall i :: 0 <= i < |plan.items| ==> TrimItem(plan.items[i]) == plan.items[i]
  }

  predicate Stored(plan: RepairPlan, at: Locator) {
    Settled(plan) && 0 <= plan.revision && DecisionsTrimmed(plan) && ItemsTrimmed(plan) && ValidPlanLocations(plan, at)
  }

  lemma UpdatesAreTrimmed(current: RepairPlan, update: PlanUpdate)
    ensures DecisionsTrimmed(NextPlan(current, update)) && ItemsTrimmed(NextPlan(current, update))
  {
    var plan := NextPlan(current, update);
    forall i | 0 <= i < |plan.ruleDecisions| ensures TrimDecision(plan.ruleDecisions[i]) == plan.ruleDecisions[i] {
      TrimOnce(update.ruleDecisions[i].reason);
    }
    forall i | 0 <= i < |plan.items| ensures TrimItem(plan.items[i]) == plan.items[i] {
      TrimItemOnce(update.items[i]);
    }
  }

  lemma TrimItemOnce(item: PlanItem)
    ensures TrimItem(TrimItem(item)) == TrimItem(item)
  {
    TrimOnce(item.location);
    TrimOnce(item.risk);
    TrimOnce(item.change);
    TrimOnce(item.expected);
    TrimOnce(item.holdReason);
  }

  /** Resolving changes nothing that other checks look at. */
  lemma FixedItems(plan: RepairPlan, at: Locator, i: nat)
    requires i < |plan.items|
    ensures var item, fixed := plan.items[i], FixPlan(plan, at).items[i];
      && fixed.id == item.id && fixed.ruleId == item.ruleId && fixed.status == item.status
      && fixed.location == item.location && fixed.change == item.change
      && (ItemTest(plan.ruleDecisions)(fixed) <==> ItemTest(plan.ruleDecisions)(item))
      && (TrimItem(item) == item ==> TrimItem(fixed) == fixed)
  {
    AnchorsFixed(plan.ruleDecisions, plan.items[i], FixPlan(plan, at).items[i]);
  }

  lemma AnchorsFixed(decisions: seq<PlanDecision>, item: PlanItem, fixed: PlanItem)
    requires fixed.ruleId == item.ruleId && fixed.status == item.status
    ensures Anchors(decisions, fixed) <==> Anchors(decisions, item)
  {
    if Anchors(decisions, item) {
      var i :| 0 <= i < |decisions| && Belongs(item, decisions[i]);
      assert Belongs(fixed, decisions[i]);
    }
    if Anchors(decisions, fixed) {
      var i :| 0 <= i < |decisions| && Belongs(fixed, decisions[i]);
      assert Belongs(item, decisions[i]);
    }
  }

  lemma FixedKeys(plan: RepairPlan, at: Locator)
    ensures forall id :: Planned(FixPlan(plan, at).items, id) <==> Planned(plan.items, id)
    ensures forall rule :: HasItemOf(plan.items, rule) ==> HasItemOf(FixPlan(plan, at).items, rule)
  {
    var items, fixed := plan.items, FixPlan(plan, at).items;
    forall id | Planned(items, id) ensures Planned(fixed, id) {
      var i :| 0 <= i < |items| && ID_OF(items[i]) == id;
      assert ID_OF(fixed[i]) == id;
    }
    forall rule | HasItemOf(items, rule) ensures HasItemOf(fixed, rule) {
      var i :| 0 <= i < |items| && ITEM_RULE(items[i]) == rule;
      assert ITEM_RULE(fixed[i]) == rule;
    }
  }

  lemma FixedIsGood(plan: RepairPlan, at: Locator)
    requires GoodItems(plan.ruleDecisions, plan.items)
    ensures GoodItems(plan.ruleDecisions, FixPlan(plan, at).items)
  {
    var fixed := FixPlan(plan, at).items;
    forall i | 0 <= i < |fixed| ensures ItemTest(plan.ruleDecisions)(fixed[i]) {
      FixedItems(plan, at, i);
    }
    forall i, j | 0 <= i < j < |fixed| ensures ID_OF(fixed[i]) != ID_OF(fixed[j]) {
      assert ID_OF(plan.items[i]) != ID_OF(plan.items[j]);
    }
  }

  lemma FixedIsValid(plan: RepairPlan, at: Locator)
    requires ValidSnapshot(plan)
    ensures ValidSnapshot(FixPlan(plan, at))
  {
    FixedIsGood(plan, at);
    FixedKeys(plan, at);
  }

  lemma FixedIsTrimmed(plan: RepairPlan, at: Locator)
    requires ItemsTrimmed(plan)
    ensures ItemsTrimmed(FixPlan(plan, at))
  {
    forall i | 0 <= i < |plan.items| ensures TrimItem(FixPlan(plan, at).items[i]) == FixPlan(plan, at).items[i] {
      FixedItems(plan, at, i);
    }
  }

  lemma ValidIsFixed(item: PlanItem, at: Locator)
    requires Reliable(at) && ValidLocations(item, at)
    ensures FixItem(at)(item) == item
  {
    assert Map(Fix(at), item.sourceLocations) == item.sourceLocations;
  }

  // ----- what every accepted call of update_state keeps -----

  /** Decisions and items the batch does not mention stay exactly as they were. */
  predicate KeepsTheRest(current: RepairPlan, update: PlanUpdate, plan: RepairPlan) {
    && |current.ruleDecisions| <= |plan.ruleDecisions|
    && (forall i ::
          0 <= i < |current.ruleDecisions| && !Decided(update.ruleDecisions, RULE_OF(current.ruleDecisions[i])) ==>
            plan.ruleDecisions[i] == current.ruleDecisions[i])
    && (forall i :: 0 <= i < |current.items| && Omits(update, current.items[i]) ==> current.items[i] in plan.items)
  }

  predicate ItemsStay(current: RepairPlan, update: PlanUpdate, plan: RepairPlan) {
    forall i :: 0 <= i < |current.items| ==>
      StaysWithRule(plan, current.items[i]) && DroppedOnPurpose(current, update, plan, current.items[i])
  }

  lemma RestIsKept(current: RepairPlan, update: PlanUpdate, merged: RepairPlan, at: Locator)
    requires Reliable(at) && Stored(current, at) && KeepsOmittedDecisions(current, update, merged)
    requires KeepsOmittedItems(current, update, merged)
    ensures KeepsTheRest(current, update, FixPlan(merged, at))
  {
    var plan := FixPlan(merged, at);
    forall i | 0 <= i < |current.items| && Omits(update, current.items[i]) ensures current.items[i] in plan.items {
      assert TrimItem(current.items[i]) in merged.items;
      InMap(FixItem(at), merged.items, current.items[i]);
      ValidIsFixed(current.items[i], at);
    }
  }

  lemma FixedItemsStay(current: RepairPlan, update: PlanUpdate, merged: RepairPlan, at: Locator, previous: PlanItem)
    requires StaysWithRule(merged, previous) && DroppedOnPurpose(current, update, merged, previous)
    ensures StaysWithRule(FixPlan(merged, at), previous)
    ensures DroppedOnPurpose(current, update, FixPlan(merged, at), previous)
  {
    var fixed := FixPlan(merged, at);
    FixedKeys(merged, at);
    if k :| 0 <= k < |fixed.items| && SamePlace(fixed.items[k], previous) {
      assert SamePlace(merged.items[k], previous);
    }
  }

  /** What a registered plan is: the merged one with its locations resolved. */
  lemma RegisteredPlan(current: RepairPlan, update: PlanUpdate, catalog: seq<Rule>, readIds: set<string>, at: Locator)
    ensures var result := Register(current, update, catalog, readIds, at); result.Accepted? ==>
      var merged := NextPlan(current, Merged(current, update));
      && Merge(current, update, catalog, readIds) == Accepted(merged)
      && result.plan == FixPlan(merged, at) && ValidPlanLocations(result.plan, at)
  {
    hide ValidPlanLocations, ValidSnapshot, Continues, DecidesAll, DecidesReadRules, GoodCatalog, Mergeable,
        NextPlan, Merged;
  }

  lemma FixedIsStored(merged: RepairPlan, at: Locator)
    requires ValidSnapshot(merged) && 0 <= merged.revision && DecisionsTrimmed(merged) && ItemsTrimmed(merged)
    requires ValidPlanLocations(FixPlan(merged, at), at)
    ensures Stored(FixPlan(merged, at), at) && ValidSnapshot(FixPlan(merged, at))
  {
    hide ValidPlanLocations, ValidSnapshot;
    FixedIsValid(merged, at);
    FixedIsTrimmed(merged, at);
  }

  lemma FixedItemsAllStay(current: RepairPlan, update: PlanUpdate, merged: RepairPlan, at: Locator)
    requires ItemsStay(current, update, merged)
    ensures ItemsStay(current, update, FixPlan(merged, at))
  {
    forall i | 0 <= i < |current.items|
      ensures StaysWithRule(FixPlan(merged, at), current.items[i])
      ensures DroppedOnPurpose(current, update, FixPlan(merged, at), current.items[i])
    {
      FixedItemsStay(current, update, merged, at, current.items[i]);
    }
  }

  lemma RegisterConserves(current: RepairPlan, update: PlanUpdate, catalog: seq<Rule>, readIds: set<string>,
      at: Locator)
    requires Reliable(at) && Stored(current, at)
    ensures var result := Register(current, update, catalog, readIds, at); result.Accepted? ==>
      && Stored(result.plan, at) && ValidSnapshot(result.plan)
      && result.plan.revision == current.revision + 1
      && KeepsTheRest(current, update, result.plan)
      && OnlyGrows(current, result.plan)
      && ItemsStay(current, update, result.plan)
  {
    hide ValidPlanLocations, ValidSnapshot, KeepsTheRest, DecisionsTrimmed, ItemsTrimmed, Merge, Register, Merged,
        Settled;
    hide KeepsOmittedDecisions, KeepsOmittedItems, StaysWithRule, DroppedOnPurpose, Reliable;
    if Register(current, update, catalog, readIds, at).Accepted? {
      var merged := NextPlan(current, Merged(current, update));
      RegisteredPlan(current, update, catalog, readIds, at);
      MergeConserves(current, update, catalog, readIds);
      UpdatesAreTrimmed(current, Merged(current, update));
      FixedIsStored(merged, at);
      RestIsKept(current, update, merged, at);
      FixedItemsAllStay(current, update, merged, at);
    }
  }

  // ----- runs -----

  datatype Batch = Batch(update: PlanUpdate, readIds: set<string>)

  /** A refused batch leaves the plan as it was. */
  function AfterBatch(plan: RepairPlan, batch: Batch, catalog: seq<Rule>, at: Locator): RepairPlan {
    match Register(plan, batch.update, catalog, batch.readIds, at)
    case Refused => plan
    case Accepted(next) => next
  }

  function AfterBatches(plan: RepairPlan, batches: seq<Batch>, catalog: seq<Rule>, at: Locator): RepairPlan {
    if batches == [] then plan
    else AfterBatch(AfterBatches(plan, batches[..|batches| - 1], catalog, at), batches[|batches| - 1], catalog, at)
  }

  lemma BatchGrows(plan: RepairPlan, batch: Batch, catalog: seq<Rule>, at: Locator)
    requires Reliable(at) && Stored(plan, at)
    ensures var next := AfterBatch(plan, batch, catalog, at);
      Stored(next, at) && plan.revision <= next.revision <= plan.revision + 1 && OnlyGrows(plan, next)
  {
    RegisterConserves(plan, batch.update, catalog, batch.readIds, at);
  }

  lemma GrowthAddsUp(first: RepairPlan, second: RepairPlan, third: RepairPlan)
    requires OnlyGrows(first, second) && OnlyGrows(second, third)
    ensures OnlyGrows(first, third)
  {
    forall i | 0 <= i < |first.ruleDecisions|
      ensures RULE_OF(third.ruleDecisions[i]) == RULE_OF(first.ruleDecisions[i])
    {
      assert RULE_OF(second.ruleDecisions[i]) == RULE_OF(first.ruleDecisions[i]);
    }
  }

  /** Over any run the stored plan stays valid, its revision never falls, and no decided rule is ever forgotten. */
  lemma {:induction false} DecidedRulesOnlyGrow(plan: RepairPlan, batches: seq<Batch>, catalog: seq<Rule>,
      at: Locator, k: nat)
    requires Reliable(at) && Stored(plan, at) && k <= |batches|
    ensures var start, end := AfterBatches(plan, batches[..k], catalog, at), AfterBatches(plan, batches, catalog, at);
      Stored(end, at) && start.revision <= end.revision <= start.revision + |batches| - k && OnlyGrows(start, end)
    decreases |batches|
  {
    var start := AfterBatches(plan, batches[..k], catalog, at);
    if k == |batches| {
      assert batches[..k] == batches;
      StoredAfter(plan, batches, catalog, at);
    } else {
      var front, last := batches[..|batches| - 1], batches[|batches| - 1];
      var before := AfterBatches(plan, front, catalog, at);
      assert front[..k] == batches[..k];
      DecidedRulesOnlyGrow(plan, front, catalog, at, k);
      BatchGrows(before, last, catalog, at);
      GrowthAddsUp(start, before, AfterBatch(before, last, catalog, at));
    }
  }

  lemma {:induction false} StoredAfter(plan: RepairPlan, batches: seq<Batch>, catalog: seq<Rule>, at: Locator)
    requires Reliable(at) && Stored(plan, at)
    ensures Stored(AfterBatches(plan, batches, catalog, at), at)
  {
    if batches != [] {
      StoredAfter(plan, batches[..|batches| - 1], catalog, at);
      BatchGrows(AfterBatches(plan, batches[..|batches| - 1], catalog, at), batches[|batches| - 1], catalog, at);
    }
  }
}

/** How the plan may change: full snapshots, small batches merged into the last snapshot, and whole runs of them. */
module PlanUpdates {
  import opened Keyed
  import opened Lists
  import opened Spaces
  import opened Plans

  const CATALOG_ID: Rule -> string := (rule: Rule) => rule.id
  const CATALOG_TEST: Rule -> bool := (rule: Rule) => ValidRuleId(rule.id)

  function TrimDecision(d: PlanDecision): PlanDecision { d.(reason := Trim(d.reason)) }

  function TrimItem(item: PlanItem): PlanItem {
    item.(location := Trim(item.location), risk := Trim(item.risk), change := Trim(item.change),
      expected := Trim(item.expected), holdReason := Trim(item.holdReason))
  }

  const EMPTY_PLAN := RepairPlan(0, [], [])

  // ----- a complete snapshot -----

  function NextPlan(current: RepairPlan, update: PlanUpdate): RepairPlan {
    RepairPlan(current.revision + 1, Map(TrimDecision, update.ruleDecisions), Map(TrimItem, update.items))
  }

  /** A rule may be decided when the catalog has it and its text was read, or is always shown. */
  predicate MayDecide(catalog: seq<Rule>, readIds: set<string>, ruleId: string) {
    exists i :: 0 <= i < |catalog| && catalog[i].id == ruleId && (catalog[i].always || ruleId in readIds)
  }

  predicate DecidesReadRules(plan: RepairPlan, catalog: seq<Rule>, readIds: set<string>) {
    forall i :: 0 <= i < |plan.ruleDecisions| ==> MayDecide(catalog, readIds, plan.ruleDecisions[i].ruleId)
  }

  predicate DecidesAll(plan: RepairPlan, catalog: seq<Rule>, required: seq<string>) {
    && (forall i :: 0 <= i < |catalog| && catalog[i].always ==> Decided(plan.ruleDecisions, catalog[i].id))
    && (forall i :: 0 <= i < |required| ==> Decided(plan.ruleDecisions, required[i]))
  }

  /** The last reason recorded for a rule. */
  function ReasonOf(decisions: seq<PlanDecision>, ruleId: string): string {
    if decisions == [] then ""
    else if decisions[|decisions| - 1].ruleId == ruleId then decisions[|decisions| - 1].reason
    else ReasonOf(decisions[..|decisions| - 1], ruleId)
  }

  predicate SamePlace(item: PlanItem, previous: PlanItem) {
    item.ruleId == previous.ruleId && item.location == Trim(previous.location) && item.change == Trim(previous.change)
  }

  predicate Renamed(items: seq<PlanItem>, previous: PlanItem) {
    exists k :: 0 <= k < |items| && SamePlace(items[k], previous)
  }

  /** A recorded item stays with its rule, or goes for a reason that was revised and not under another name. */
  predicate ItemContinues(current: RepairPlan, plan: RepairPlan, previous: PlanItem) {
    var k := Find(plan.items, ID_OF, previous.id);
    if k < |plan.items| then plan.items[k].ruleId == previous.ruleId
    else
      && ReasonOf(plan.ruleDecisions, previous.ruleId) != Trim(ReasonOf(current.ruleDecisions, previous.ruleId))
      && !Renamed(plan.items, previous)
  }

  predicate Continues(current: RepairPlan, plan: RepairPlan) {
    && (forall i :: 0 <= i < |current.ruleDecisions| ==> Decided(plan.ruleDecisions, current.ruleDecisions[i].ruleId))
    && (forall i :: 0 <= i < |current.items| ==> ItemContinues(current, plan, current.items[i]))
  }

  predicate GoodCatalog(catalog: seq<Rule>, required: seq<string>) {
    && Good(catalog, CATALOG_TEST, CATALOG_ID)
    && forall i :: 0 <= i < |required| ==> HasKey(catalog, CATALOG_ID, required[i])
  }

  predicate Updatable(current: RepairPlan, update: PlanUpdate, catalog: seq<Rule>, required: seq<string>,
      readIds: set<string>) {
    && 0 <= current.revision && update.expectedRevision == current.revision && current.revision != MAX_REVISION
    && GoodCatalog(catalog, required)
    && ValidSnapshot(NextPlan(current, update))
    && DecidesReadRules(NextPlan(current, update), catalog, readIds)
    && DecidesAll(NextPlan(current, update), catalog, required)
    && Continues(current, NextPlan(current, update))
  }

  function Update(current: RepairPlan, update: PlanUpdate, catalog: seq<Rule>, required: seq<string>,
      readIds: set<string>): PlanResult {
    if Updatable(current, update, catalog, required, readIds) then Accepted(NextPlan(current, update)) else Refused
  }

  method ScanCatalog(catalog: seq<Rule>) returns (ok: bool)
    ensures ok <==> Good(catalog, CATALOG_TEST, CATALOG_ID)
  {
    var ids: set<string> := {};
    for i := 0 to |catalog|
      invariant Good(catalog[..i], CATALOG_TEST, CATALOG_ID)
      invariant forall id :: id in ids <==> HasKey(catalog[..i], CATALOG_ID, id)
    {
      GoodStep(catalog, CATALOG_TEST, CATALOG_ID, i);
      KeysStep(catalog, CATALOG_ID, i);
      if !ValidRuleId(catalog[i].id) || catalog[i].id in ids {
        return false;
      }
      ids := ids + {catalog[i].id};
    }
    assert catalog[..|catalog|] == catalog;
    return true;
  }

  method TrimPlan(update: PlanUpdate, revision: int) returns (plan: RepairPlan)
    ensures plan == RepairPlan(revision, Map(TrimDecision, update.ruleDecisions), Map(TrimItem, update.items))
  {
    var decisions, items := update.ruleDecisions, update.items;
    for i := 0 to |decisions|
      invariant |decisions| == |update.ruleDecisions|
      invariant forall k :: 0 <= k < i ==> decisions[k] == TrimDecision(update.ruleDecisions[k])
      invariant forall k :: i <= k < |decisions| ==> decisions[k] == update.ruleDecisions[k]
    {
      decisions := decisions[i := decisions[i].(reason := Trim(decisions[i].reason))];
    }
    for i := 0 to |items|
      invariant |items| == |update.items|
      invariant forall k :: 0 <= k < i ==> items[k] == TrimItem(update.items[k])
      invariant forall k :: i <= k < |items| ==> items[k] == update.items[k]
    {
      items := items[i := TrimItem(items[i])];
    }
    assert decisions == Map(TrimDecision, update.ruleDecisions) && items == Map(TrimItem, update.items);
    return RepairPlan(revision, decisions, items);
  }

  method CheckContinuation(current: RepairPlan, plan: RepairPlan) returns (ok: bool)
    ensures ok <==> Continues(current, plan)
  {
    for i := 0 to |current.ruleDecisions|
      invariant forall k :: 0 <= k < i ==> Decided(plan.ruleDecisions, current.ruleDecisions[k].ruleId)
    {
      if !Decided(plan.ruleDecisions, current.ruleDecisions[i].ruleId) {
        return false;
      }
    }
    for i := 0 to |current.items|
      invariant forall k :: 0 <= k < i ==> ItemContinues(current, plan, current.items[k])
    {
      if !ItemContinues(current, plan, current.items[i]) {
        return false;
      }
    }
    return true;
  }

  /** The checks of a new snapshot, once the catalog is known to be good. */
  method CheckPlan(current: RepairPlan, plan: RepairPlan, catalog: seq<Rule>, required: seq<string>,
      readIds: set<string>) returns (ok: bool)
    ensures ok <==>
      && ValidSnapshot(plan) && DecidesReadRules(plan, catalog, readIds)
      && DecidesAll(plan, catalog, required) && Continues(current, plan)
  {
    ok := ValidatePlanSnapshot(plan);
    if ok {
      ok := DecidesReadRules(plan, catalog, readIds) && DecidesAll(plan, catalog, required);
    }
    if ok {
      ok := CheckContinuation(current, plan);
    }
  }

  method UpdateRepairPlan(current: RepairPlan, update: PlanUpdate, catalog: seq<Rule>, required: seq<string>,
      readIds: set<string>)
    returns (result: PlanResult)
    ensures result == Update(current, update, catalog, required, readIds)
  {
    if current.revision < 0 || update.expectedRevision != current.revision || current.revision == MAX_REVISION {
      return Refused;
    }
    var scanned := ScanCatalog(catalog);
    if !scanned || exists i :: 0 <= i < |required| && !HasKey(catalog, CATALOG_ID, required[i]) {
      return Refused;
    }
    var plan := TrimPlan(update, current.revision + 1);
    assert plan == NextPlan(current, update);
    var passes := CheckPlan(current, plan, catalog, required, readIds);
    result := if passes then Accepted(plan) else Refused;
  }

  // ----- a batch merged into the last snapshot -----

  predicate Mergeable(current: RepairPlan, update: PlanUpdate) {
    && Distinct(update.ruleDecisions, RULE_OF) && Distinct(update.items, ID_OF)
    && Removable(UpsertAll(current.items, ID_OF, update.items), ID_OF, update.removeItemIds, Keys(update.items, ID_OF))
  }

  function Merged(current: RepairPlan, update: PlanUpdate): PlanUpdate {
    PlanUpdate(
      update.expectedRevision,
      UpsertAll(current.ruleDecisions, RULE_OF, update.ruleDecisions),
      RemoveEach(UpsertAll(current.items, ID_OF, update.items), ID_OF, update.removeItemIds),
      [])
  }

  /** Planning can span calls: no rule is mandatory while a batch is registered. */
  function Registration(catalog: seq<Rule>): seq<Rule> {
    Map((rule: Rule) => rule.(always := false), catalog)
  }

  function AllRead(catalog: seq<Rule>, readIds: set<string>): set<string> {
    readIds + set i | 0 <= i < |catalog| && catalog[i].always :: catalog[i].id
  }

  function Merge(current: RepairPlan, update: PlanUpdate, catalog: seq<Rule>, readIds: set<string>): PlanResult {
    if Mergeable(current, update)
    then Update(current, Merged(current, update), Registration(catalog), [], AllRead(catalog, readIds))
    else Refused
  }

  method MergeRepairPlan(current: RepairPlan, update: PlanUpdate, catalog: seq<Rule>, readIds: set<string>)
    returns (result: PlanResult)
    ensures result == Merge(current, update, catalog, readIds)
  {
    var decided, decisions, _ := UpsertInPlace(current.ruleDecisions, RULE_OF, update.ruleDecisions);
    if !decided {
      return Refused;
    }
    var itemised, items, seen := UpsertInPlace(current.items, ID_OF, update.items);
    if !itemised {
      return Refused;
    }
    var removed, rest, _ := RemoveInPlace(items, ID_OF, update.removeItemIds, seen);
    if !removed {
      return Refused;
    }
    var registration := catalog;
    var allRead := readIds;
    for i := 0 to |catalog|
      invariant |registration| == |catalog|
      invariant forall k :: 0 <= k < i ==> registration[k] == catalog[k].(always := false)
      invariant forall k :: i <= k < |catalog| ==> registration[k] == catalog[k]
      invariant allRead == readIds + set k | 0 <= k < i && catalog[k].always :: catalog[k].id
    {
      registration := registration[i := registration[i].(always := false)];
      if catalog[i].always {
        allRead := allRead + {catalog[i].id};
      }
    }
    assert registration == Registration(catalog);
    result := UpdateRepairPlan(current, PlanUpdate(update.expectedRevision, decisions, rest, []), registration, [],
      allRead);
  }

  // ----- what one accepted batch keeps and changes -----

  /** A plan as it is stored: nothing registered yet, or a valid snapshot. */
  predicate Settled(plan: RepairPlan) {
    (plan.ruleDecisions == [] && plan.items == []) || ValidSnapshot(plan)
  }

  predicate KeepsOmittedDecisions(current: RepairPlan, update: PlanUpdate, plan: RepairPlan) {
    && |current.ruleDecisions| <= |plan.ruleDecisions|
    && forall i ::
         0 <= i < |current.ruleDecisions| && !Decided(update.ruleDecisions, RULE_OF(current.ruleDecisions[i])) ==>
         plan.ruleDecisions[i] == TrimDecision(current.ruleDecisions[i])
  }

  predicate OnlyGrows(current: RepairPlan, plan: RepairPlan) {
    && |current.ruleDecisions| <= |plan.ruleDecisions|
    && forall i ::
         0 <= i < |current.ruleDecisions| ==> RULE_OF(plan.ruleDecisions[i]) == RULE_OF(current.ruleDecisions[i])
  }

  lemma DecisionsAreKept(current: RepairPlan, update: PlanUpdate, plan: RepairPlan)
    requires plan.ruleDecisions == Map(TrimDecision, UpsertAll(current.ruleDecisions, RULE_OF, update.ruleDecisions))
    ensures KeepsOmittedDecisions(current, update, plan) && OnlyGrows(current, plan)
  {
    UpsertAllKeeps(current.ruleDecisions, RULE_OF, update.ruleDecisions);
  }

  /** A batch neither registers nor removes the item. */
  predicate Omits(update: PlanUpdate, item: PlanItem) {
    !Planned(update.items, ID_OF(item)) && !HasKey(update.removeItemIds, SELF, ID_OF(item))
  }

  predicate KeepsOmittedItems(current: RepairPlan, update: PlanUpdate, plan: RepairPlan) {
    forall i :: 0 <= i < |current.items| && Omits(update, current.items[i]) ==> TrimItem(current.items[i]) in plan.items
  }

  lemma ItemsAreKept(current: RepairPlan, update: PlanUpdate, plan: RepairPlan)
    requires plan.items
        == Map(TrimItem, RemoveEach(UpsertAll(current.items, ID_OF, update.items), ID_OF, update.removeItemIds))
    ensures KeepsOmittedItems(current, update, plan)
  {
    UpsertAllKeeps(current.items, ID_OF, update.items);
    var upserted := UpsertAll(current.items, ID_OF, update.items);
    forall i | 0 <= i < |current.items| && Omits(update, current.items[i])
      ensures TrimItem(current.items[i]) in plan.items
    {
      RemovingKeeps(upserted, ID_OF, update.removeItemIds, i);
      InMap(TrimItem, RemoveEach(upserted, ID_OF, update.removeItemIds), current.items[i]);
    }
  }

  /** An item that is gone was named for removal, and the reason of its rule was revised. */
  predicate DroppedOnPurpose(current: RepairPlan, update: PlanUpdate, plan: RepairPlan, previous: PlanItem) {
    !Planned(plan.items, previous.id) ==>
      && HasKey(update.removeItemIds, SELF, previous.id)
      && ReasonOf(plan.ruleDecisions, previous.ruleId) != Trim(ReasonOf(current.ruleDecisions, previous.ruleId))
      && !Renamed(plan.items, previous)
  }

  predicate StaysWithRule(plan: RepairPlan, previous: PlanItem) {
    forall k :: 0 <= k < |plan.items| && plan.items[k].id == previous.id ==> plan.items[k].ruleId == previous.ruleId
  }

  lemma ItemsMoveNowhere(current: RepairPlan, plan: RepairPlan, previous: PlanItem)
    requires Distinct(plan.items, ID_OF) && ItemContinues(current, plan, previous)
    ensures StaysWithRule(plan, previous)
  {
    forall k | 0 <= k < |plan.items| && plan.items[k].id == previous.id
      ensures plan.items[k].ruleId == previous.ruleId
    {
      FindIsOnly(plan.items, ID_OF, k);
    }
  }

  lemma TrimKeepsIds(items: seq<PlanItem>, id: string)
    ensures Planned(Map(TrimItem, items), id) <==> Planned(items, id)
  {
    if i :| 0 <= i < |items| && ID_OF(items[i]) == id {
      assert ID_OF(Map(TrimItem, items)[i]) == id;
    }
    if i :| 0 <= i < |items| && ID_OF(Map(TrimItem, items)[i]) == id {
      assert ID_OF(items[i]) == id;
    }
  }

  lemma GoneIsNamed(current: RepairPlan, update: PlanUpdate, plan: RepairPlan, i: nat)
    requires plan.items
        == Map(TrimItem, RemoveEach(UpsertAll(current.items, ID_OF, update.items), ID_OF, update.removeItemIds))
    requires i < |current.items| && !Planned(plan.items, ID_OF(current.items[i]))
    ensures HasKey(update.removeItemIds, SELF, ID_OF(current.items[i]))
  {
    UpsertAllKeeps(current.items, ID_OF, update.items);
    var upserted, id := UpsertAll(current.items, ID_OF, update.items), ID_OF(current.items[i]);
    assert ID_OF(upserted[i]) == id;
    TrimKeepsIds(RemoveEach(upserted, ID_OF, update.removeItemIds), id);
    if !HasKey(update.removeItemIds, SELF, id) {
      RemovingOthers(upserted, ID_OF, update.removeItemIds, id);
      assert false;
    }
  }

  // ----- what the batch names is what changes -----

  predicate HasTrimmedDecisions(plan: RepairPlan, decisions: seq<PlanDecision>) {
    forall i :: 0 <= i < |decisions| ==> TrimDecision(decisions[i]) in plan.ruleDecisions
  }

  predicate HasTrimmedItems(plan: RepairPlan, items: seq<PlanItem>) {
    forall i :: 0 <= i < |items| ==> TrimItem(items[i]) in plan.items
  }

  predicate LacksItems(plan: RepairPlan, ids: seq<string>) {
    forall i :: 0 <= i < |ids| ==> !Planned(plan.items, ids[i])
  }

  predicate ComesFrom<T(==)>(f: T -> T, entries: seq<T>, before: seq<T>, named: seq<T>) {
    forall i :: 0 <= i < |entries| ==> entries[i] in Map(f, before) || entries[i] in Map(f, named)
  }

  /** Whatever the new plan holds was there before or is named by the batch. */
  predicate InventsNothing(current: RepairPlan, update: PlanUpdate, plan: RepairPlan) {
    && ComesFrom(TrimDecision, plan.ruleDecisions, current.ruleDecisions, update.ruleDecisions)
    && ComesFrom(TrimItem, plan.items, current.items, update.items)
  }

  lemma UpsertsAreApplied(current: RepairPlan, update: PlanUpdate, plan: RepairPlan)
    requires Mergeable(current, update) && plan == NextPlan(current, Merged(current, update))
    ensures HasTrimmedDecisions(plan, update.ruleDecisions) && HasTrimmedItems(plan, update.items)
  {
    var decisions := UpsertAll(current.ruleDecisions, RULE_OF, update.ruleDecisions);
    forall i | 0 <= i < |update.ruleDecisions| ensures TrimDecision(update.ruleDecisions[i]) in plan.ruleDecisions {
      UpsertAllApplies(current.ruleDecisions, RULE_OF, update.ruleDecisions, i);
      InMap(TrimDecision, decisions, update.ruleDecisions[i]);
    }
    forall i | 0 <= i < |update.items| ensures TrimItem(update.items[i]) in plan.items {
      UpsertIsApplied(current, update, plan, i);
    }
  }

  lemma UpsertIsApplied(current: RepairPlan, update: PlanUpdate, plan: RepairPlan, i: nat)
    requires Mergeable(current, update) && plan == NextPlan(current, Merged(current, update)) && i < |update.items|
    ensures TrimItem(update.items[i]) in plan.items
  {
    var items, ids := UpsertAll(current.items, ID_OF, update.items), update.removeItemIds;
    UpsertAllApplies(current.items, ID_OF, update.items, i);
    var k :| 0 <= k < |items| && items[k] == update.items[i];
    if j :| 0 <= j < |ids| && SELF(ids[j]) == ID_OF(items[k]) {
      RemovableKeys(items, ID_OF, ids, Keys(update.items, ID_OF), j);
      assert false;
    }
    RemovingKeeps(items, ID_OF, ids, k);
    InMap(TrimItem, RemoveEach(items, ID_OF, ids), update.items[i]);
  }

  lemma RemovalsAreApplied(current: RepairPlan, update: PlanUpdate, plan: RepairPlan)
    requires Distinct(current.items, ID_OF) && plan == NextPlan(current, Merged(current, update))
    ensures LacksItems(plan, update.removeItemIds)
  {
    UpsertAllDistinct(current.items, ID_OF, update.items);
    var items := UpsertAll(current.items, ID_OF, update.items);
    forall i | 0 <= i < |update.removeItemIds| ensures !Planned(plan.items, update.removeItemIds[i]) {
      RemovedAreGone(items, ID_OF, update.removeItemIds, i);
      TrimKeepsIds(RemoveEach(items, ID_OF, update.removeItemIds), update.removeItemIds[i]);
    }
  }

  lemma MappedUpsertsComeFrom<T>(f: T -> T, s: seq<T>, key: T -> string, xs: seq<T>, entries: seq<T>)
    requires forall i :: 0 <= i < |entries| ==> entries[i] in UpsertAll(s, key, xs)
    ensures ComesFrom(f, Map(f, entries), s, xs)
  {
    var upserted := UpsertAll(s, key, xs);
    forall i | 0 <= i < |entries| ensures Map(f, entries)[i] in Map(f, s) || Map(f, entries)[i] in Map(f, xs) {
      var k :| 0 <= k < |upserted| && upserted[k] == entries[i];
      UpsertAllInvents(s, key, xs, k);
      if entries[i] in s {
        InMap(f, s, entries[i]);
      } else {
        InMap(f, xs, entries[i]);
      }
    }
  }

  lemma NothingIsInvented(current: RepairPlan, update: PlanUpdate, plan: RepairPlan)
    requires plan == NextPlan(current, Merged(current, update))
    ensures InventsNothing(current, update, plan)
  {
    var decisions, items := UpsertAll(current.ruleDecisions, RULE_OF, update.ruleDecisions),
      UpsertAll(current.items, ID_OF, update.items);
    var rest := RemoveEach(items, ID_OF, update.removeItemIds);
    forall i | 0 <= i < |rest| ensures rest[i] in items {
      RemovingInvents(items, ID_OF, update.removeItemIds, i);
    }
    MappedUpsertsComeFrom(TrimDecision, current.ruleDecisions, RULE_OF, update.ruleDecisions, decisions);
    MappedUpsertsComeFrom(TrimItem, current.items, ID_OF, update.items, rest);
  }

  /** What an accepted batch keeps, whatever it contains. */
  ghost predicate Conserves(current: RepairPlan, update: PlanUpdate, plan: RepairPlan) {
    && plan.revision == current.revision + 1
    && ValidSnapshot(plan)
    && KeepsOmittedDecisions(current, update, plan)
    && KeepsOmittedItems(current, update, plan)
    && OnlyGrows(current, plan)
    && forall i ::
         0 <= i < |current.items| ==>
           StaysWithRule(plan, current.items[i]) && DroppedOnPurpose(current, update, plan, current.items[i])
  }

  lemma MergeConserves(current: RepairPlan, update: PlanUpdate, catalog: seq<Rule>, readIds: set<string>)
    ensures var result := Merge(current, update, catalog, readIds);
      result.Accepted? ==> Conserves(current, update, result.plan)
  {
    var result := Merge(current, update, catalog, readIds);
    if result.Accepted? {
      var plan := result.plan;
      DecisionsAreKept(current, update, plan);
      ItemsAreKept(current, update, plan);
      forall i | 0 <= i < |current.items|
        ensures StaysWithRule(plan, current.items[i]) && DroppedOnPurpose(current, update, plan, current.items[i])
      {
        assert ItemContinues(current, plan, current.items[i]);
        ItemsMoveNowhere(current, plan, current.items[i]);
        if !Planned(plan.items, current.items[i].id) {
          GoneIsNamed(current, update, plan, i);
        }
      }
    }
  }

  /** What the batch names is done, and nothing else appears. */
  lemma MergeApplies(current: RepairPlan, update: PlanUpdate, catalog: seq<Rule>, readIds: set<string>)
    requires Settled(current)
    ensures var result := Merge(current, update, catalog, readIds); result.Accepted? ==>
      && HasTrimmedDecisions(result.plan, update.ruleDecisions) && HasTrimmedItems(result.plan, update.items)
      && LacksItems(result.plan, update.removeItemIds)
      && InventsNothing(current, update, result.plan)
  {
    var result := Merge(current, update, catalog, readIds);
    if result.Accepted? {
      UpsertsAreApplied(current, update, result.plan);
      RemovalsAreApplied(current, update, result.plan);
      NothingIsInvented(current, update, result.plan);
    }
  }

  // ----- what trimming and merging mean, field by field -----

  /** The text without the spaces around it. */
  ghost predicate Trimmed(kept: string, s: string) { exists i, j :: SpacesAround(s, i, j) && kept == s[i..j] }

  predicate Tight(s: string) { s == "" || (s[0] !in SPACES && s[|s| - 1] !in SPACES) }

  /** Only the texts of an entry are trimmed, each by itself. */
  lemma TrimmingKeepsEntries(d: PlanDecision, item: PlanItem)
    ensures var t := TrimDecision(d);
      t.ruleId == d.ruleId && t.decision == d.decision && Trimmed(t.reason, d.reason) && Tight(t.reason)
    ensures var t := TrimItem(item);
      && t.id == item.id && t.ruleId == item.ruleId && t.status == item.status
      && t.sourceLocations == item.sourceLocations
      && Trimmed(t.location, item.location) && Trimmed(t.risk, item.risk) && Trimmed(t.change, item.change)
      && Trimmed(t.expected, item.expected) && Trimmed(t.holdReason, item.holdReason)
      && Tight(t.location) && Tight(t.risk) && Tight(t.change) && Tight(t.expected) && Tight(t.holdReason)
  {
    TrimIsTrimmed(d.reason);
    TrimIsTrimmed(item.location);
    TrimIsTrimmed(item.risk);
    TrimIsTrimmed(item.change);
    TrimIsTrimmed(item.expected);
    TrimIsTrimmed(item.holdReason);
  }

  lemma TrimIsTrimmed(s: string)
    ensures Trimmed(Trim(s), s) && Tight(Trim(s))
  {
    TrimDropsSpaces(s);
  }

  lemma {:induction false} ReasonIsOfRule(decisions: seq<PlanDecision>, i: nat)
    requires Distinct(decisions, RULE_OF) && i < |decisions|
    ensures ReasonOf(decisions, decisions[i].ruleId) == decisions[i].reason
  {
    var n := |decisions| - 1;
    if i < n {
      assert RULE_OF(decisions[i]) != RULE_OF(decisions[n]);
      ReasonIsOfRule(decisions[..n], i);
    }
  }

  lemma {:induction false} NoReasonUndecided(decisions: seq<PlanDecision>, ruleId: string)
    requires !Decided(decisions, ruleId)
    ensures ReasonOf(decisions, ruleId) == ""
  {
    if decisions != [] {
      var n := |decisions| - 1;
      KeysStep(decisions, RULE_OF, n);
      assert decisions[..n + 1] == decisions;
      assert RULE_OF(decisions[n]) == decisions[n].ruleId;
      NoReasonUndecided(decisions[..n], ruleId);
    }
  }

  /** A rule of the catalog whose text the editor has: it was read, or is always shown. */
  ghost predicate IsKnown(catalog: seq<Rule>, readIds: set<string>, ruleId: string) {
    exists i :: 0 <= i < |catalog| && catalog[i].id == ruleId && (ruleId in readIds || InForce(catalog, ruleId))
  }

  ghost predicate InForce(catalog: seq<Rule>, ruleId: string) {
    exists i :: 0 <= i < |catalog| && catalog[i].always && catalog[i].id == ruleId
  }

  /** A batch is held to the rules whose text the editor has, and no rule is forced on it. */
  lemma MergeIsAccepted(current: RepairPlan, update: PlanUpdate, catalog: seq<Rule>, readIds: set<string>)
    ensures var next := NextPlan(current, Merged(current, update));
      Merge(current, update, catalog, readIds).Accepted? <==>
        && Mergeable(current, update) && 0 <= current.revision && current.revision != 9_223_372_036_854_775_807
        && update.expectedRevision == current.revision && Good(catalog, CATALOG_TEST, CATALOG_ID)
        && ValidSnapshot(next) && Continues(current, next)
        && forall i :: 0 <= i < |next.ruleDecisions| ==> IsKnown(catalog, readIds, next.ruleDecisions[i].ruleId)
  {
    hide ValidSnapshot, Continues, NextPlan, Merged, Mergeable, Good, MayDecide, IsKnown, Registration, AllRead;
    RegistrationIsGood(catalog);
    var next, registration, read := NextPlan(current, Merged(current, update)), Registration(catalog),
      AllRead(catalog, readIds);
    forall i | 0 <= i < |next.ruleDecisions|
      ensures MayDecide(registration, read, next.ruleDecisions[i].ruleId)
        <==> IsKnown(catalog, readIds, next.ruleDecisions[i].ruleId)
    {
      KnownMayBeDecided(catalog, readIds, next.ruleDecisions[i].ruleId);
    }
    NothingIsForced(next, catalog);
    assert Merged(current, update).expectedRevision == update.expectedRevision by { MergedExpects(current, update); }
    assert GoodCatalog(registration, []) <==> Good(catalog, CATALOG_TEST, CATALOG_ID);
  }

  lemma MergedExpects(current: RepairPlan, update: PlanUpdate)
    ensures Merged(current, update).expectedRevision == update.expectedRevision
  {
  }

  lemma RegistrationIsGood(catalog: seq<Rule>)
    ensures Good(Registration(catalog), CATALOG_TEST, CATALOG_ID) <==> Good(catalog, CATALOG_TEST, CATALOG_ID)
  {
    var r := Registration(catalog);
    assert forall i :: 0 <= i < |catalog| ==> r[i].id == catalog[i].id && CATALOG_ID(r[i]) == CATALOG_ID(catalog[i]);
    assert forall i :: 0 <= i < |catalog| ==> CATALOG_TEST(r[i]) == CATALOG_TEST(catalog[i]);
  }

  lemma KnownMayBeDecided(catalog: seq<Rule>, readIds: set<string>, id: string)
    ensures MayDecide(Registration(catalog), AllRead(catalog, readIds), id) <==> IsKnown(catalog, readIds, id)
  {
    var r, read := Registration(catalog), AllRead(catalog, readIds);
    assert id in read <==> id in readIds || InForce(catalog, id);
    if i :| 0 <= i < |r| && r[i].id == id && (r[i].always || id in read) {
      assert catalog[i].id == id;
    }
    if i :| 0 <= i < |catalog| && catalog[i].id == id && (id in readIds || InForce(catalog, id)) {
      assert r[i].id == id;
    }
  }

  lemma NothingIsForced(plan: RepairPlan, catalog: seq<Rule>)
    ensures DecidesAll(plan, Registration(catalog), [])
  {
  }
}

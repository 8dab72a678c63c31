/** The editor's plan: rule decisions and planned items, as the model claims them, and how they may change. */
module Plans {
  import opened Bytes
  import opened Keyed
  import opened Lists
  import opened Spaces

  /** Inclusive, 1-based full lines of the immutable original. */
  datatype SourceLocation = SourceLocation(startLine: int, endLine: int, excerpt: Text)

  datatype PlanDecision = PlanDecision(ruleId: string, decision: string, reason: string)

  datatype PlanItem = PlanItem(
    id: string,
    ruleId: string,
    location: string,
    risk: string,
    change: string,
    expected: string,
    status: string,
    holdReason: string,
    sourceLocations: seq<SourceLocation>)

  datatype RepairPlan = RepairPlan(revision: int, ruleDecisions: seq<PlanDecision>, items: seq<PlanItem>)

  datatype PlanUpdate = PlanUpdate(
    expectedRevision: int,
    ruleDecisions: seq<PlanDecision>,
    items: seq<PlanItem>,
    removeItemIds: seq<string>)

  datatype Rule = Rule(id: string, always: bool)

  datatype PlanResult = Accepted(plan: RepairPlan) | Refused

  const BLOCKED := "blocked"
  const MODIFY := "modify"
  const NO_CHANGE := "no_change"
  const PENDING := "pending"
  const PROPOSED := "proposed"

  const MAX_REVISION: int := 0x7FFF_FFFF_FFFF_FFFF

  // ----- text fields -----

  predicate IdChar(c: char) {
    'a' <= c <= 'z' || 'A' <= c <= 'Z' || '0' <= c <= '9' || c == '_' || c == '-' || c == '.'
  }

  predicate ValidRuleId(s: string) {
    s != "" && |s| <= 80 && (forall i :: 0 <= i < |s| ==> IdChar(s[i])) && s != "." && s != ".."
  }

  predicate ValidPlanText(s: string) { !IsBlank(s) && '\0' !in s }

  predicate OptionalPlanText(s: string) { s == "" || ValidPlanText(s) }

  // ----- a valid snapshot -----

  predicate ValidDecision(d: PlanDecision) {
    && ValidRuleId(d.ruleId) && ValidPlanText(d.reason)
    && (d.decision == MODIFY || d.decision == NO_CHANGE || d.decision == BLOCKED)
  }

  predicate ValidItem(item: PlanItem) {
    && ValidRuleId(item.id) && |item.id| <= 64
    && ValidPlanText(item.location) && ValidPlanText(item.change) && ValidPlanText(item.expected)
    && OptionalPlanText(item.risk) && OptionalPlanText(item.holdReason)
    && (item.status == PENDING || item.status == PROPOSED || item.status == BLOCKED)
  }

  /** An item belongs to a rule to be modified, or is a blocked place of a blocked rule. */
  predicate Belongs(item: PlanItem, d: PlanDecision) {
    d.ruleId == item.ruleId && (d.decision == MODIFY || (d.decision == BLOCKED && item.status == BLOCKED))
  }

  const RULE_OF: PlanDecision -> string := (d: PlanDecision) => d.ruleId
  const ID_OF: PlanItem -> string := (item: PlanItem) => item.id
  const ITEM_RULE: PlanItem -> string := (item: PlanItem) => item.ruleId
  const DECISION_TEST: PlanDecision -> bool := (d: PlanDecision) => ValidDecision(d)

  predicate Anchors(decisions: seq<PlanDecision>, item: PlanItem) {
    exists i :: 0 <= i < |decisions| && Belongs(item, decisions[i])
  }

  function ItemTest(decisions: seq<PlanDecision>): PlanItem -> bool {
    (item: PlanItem) => ValidItem(item) && Anchors(decisions, item)
  }

  predicate Decided(decisions: seq<PlanDecision>, ruleId: string) { HasKey(decisions, RULE_OF, ruleId) }

  predicate Planned(items: seq<PlanItem>, id: string) { HasKey(items, ID_OF, id) }

  predicate HasItemOf(items: seq<PlanItem>, ruleId: string) { HasKey(items, ITEM_RULE, ruleId) }

  predicate GoodDecisions(decisions: seq<PlanDecision>) { Good(decisions, DECISION_TEST, RULE_OF) }

  predicate GoodItems(decisions: seq<PlanDecision>, items: seq<PlanItem>) { Good(items, ItemTest(decisions), ID_OF) }

  predicate ModifiedHaveItems(plan: RepairPlan) {
    forall i :: 0 <= i < |plan.ruleDecisions| && plan.ruleDecisions[i].decision == MODIFY ==>
      HasItemOf(plan.items, plan.ruleDecisions[i].ruleId)
  }

  predicate ValidSnapshot(plan: RepairPlan) {
    && plan.ruleDecisions != []
    && GoodDecisions(plan.ruleDecisions) && GoodItems(plan.ruleDecisions, plan.items)
    && ModifiedHaveItems(plan)
  }

  /** In a valid plan a rule that is left alone has no items, and a blocked one only blocked places. */
  lemma ItemsFitDecisions(plan: RepairPlan, i: nat, k: nat)
    requires ValidSnapshot(plan) && i < |plan.ruleDecisions| && k < |plan.items|
    requires plan.items[k].ruleId == plan.ruleDecisions[i].ruleId
    ensures plan.ruleDecisions[i].decision != "no_change"
    ensures plan.ruleDecisions[i].decision == "blocked" ==> plan.items[k].status == "blocked"
  {
    hide ValidItem, ValidDecision, ModifiedHaveItems, ValidRuleId;
    assert ItemTest(plan.ruleDecisions)(plan.items[k]);
    var j :| 0 <= j < |plan.ruleDecisions| && Belongs(plan.items[k], plan.ruleDecisions[j]);
    assert RULE_OF(plan.ruleDecisions[i]) == RULE_OF(plan.ruleDecisions[j]);
  }

  /** And every item is of a rule that is decided. */
  lemma ItemsAreOfDecidedRules(plan: RepairPlan, k: nat)
    requires ValidSnapshot(plan) && k < |plan.items|
    ensures exists i :: 0 <= i < |plan.ruleDecisions| && plan.ruleDecisions[i].ruleId == plan.items[k].ruleId
  {
    assert ItemTest(plan.ruleDecisions)(plan.items[k]);
  }

  // ----- the three passes -----

  ghost predicate Indexed(decisions: seq<PlanDecision>, byRule: map<string, PlanDecision>) {
    && (forall id :: id in byRule <==> Decided(decisions, id))
    && (forall i ::
          0 <= i < |decisions| ==> RULE_OF(decisions[i]) in byRule && byRule[RULE_OF(decisions[i])] == decisions[i])
  }

  method ScanDecisions(decisions: seq<PlanDecision>) returns (ok: bool, byRule: map<string, PlanDecision>)
    ensures ok <==> GoodDecisions(decisions)
    ensures ok ==> Indexed(decisions, byRule)
  {
    byRule := map[];
    for i := 0 to |decisions|
      invariant GoodDecisions(decisions[..i]) && Indexed(decisions[..i], byRule)
    {
      GoodStep(decisions, DECISION_TEST, RULE_OF, i);
      if !ValidDecision(decisions[i]) || decisions[i].ruleId in byRule {
        return false, map[];
      }
      IndexedStep(decisions, i, byRule);
      byRule := byRule[decisions[i].ruleId := decisions[i]];
    }
    assert decisions[..|decisions|] == decisions;
    ok := true;
  }

  lemma IndexedStep(decisions: seq<PlanDecision>, i: nat, byRule: map<string, PlanDecision>)
    requires i < |decisions| && Indexed(decisions[..i], byRule) && RULE_OF(decisions[i]) !in byRule
    ensures Indexed(decisions[..i + 1], byRule[RULE_OF(decisions[i]) := decisions[i]])
  {
    KeysStep(decisions, RULE_OF, i);
    var front, next := decisions[..i], decisions[..i + 1];
    assert forall k :: 0 <= k < i ==> next[k] == front[k];
  }

  predicate ItemFits(byRule: map<string, PlanDecision>, item: PlanItem) {
    ValidItem(item) && item.ruleId in byRule && Belongs(item, byRule[item.ruleId])
  }

  lemma FitsIffTested(decisions: seq<PlanDecision>, byRule: map<string, PlanDecision>, item: PlanItem)
    requires Indexed(decisions, byRule)
    ensures ItemFits(byRule, item) <==> ItemTest(decisions)(item)
  {
    if item.ruleId in byRule && Belongs(item, byRule[item.ruleId]) {
      var i :| 0 <= i < |decisions| && RULE_OF(decisions[i]) == item.ruleId;
      assert Belongs(item, decisions[i]);
    }
    if i :| 0 <= i < |decisions| && Belongs(item, decisions[i]) {
      assert byRule[RULE_OF(decisions[i])] == decisions[i];
    }
  }

  ghost predicate Counted(items: seq<PlanItem>, ruleItems: map<string, nat>) {
    forall rule :: rule in ruleItems <==> HasItemOf(items, rule)
  }

  ghost predicate Collected(items: seq<PlanItem>, ids: set<string>) {
    forall id :: id in ids <==> Planned(items, id)
  }

  function Count(ruleItems: map<string, nat>, rule: string): map<string, nat> {
    ruleItems[rule := (if rule in ruleItems then ruleItems[rule] else 0) + 1]
  }

  lemma ItemAdded(decisions: seq<PlanDecision>, byRule: map<string, PlanDecision>, items: seq<PlanItem>, i: nat,
      ids: set<string>)
    requires Indexed(decisions, byRule) && i < |items| && Collected(items[..i], ids)
    ensures GoodItems(decisions, items[..i + 1]) <==>
      GoodItems(decisions, items[..i]) && ItemFits(byRule, items[i]) && ID_OF(items[i]) !in ids
    ensures GoodItems(decisions, items) ==> GoodItems(decisions, items[..i + 1])
  {
    GoodStep(items, ItemTest(decisions), ID_OF, i);
    FitsIffTested(decisions, byRule, items[i]);
    assert ID_OF(items[i]) in ids <==> Planned(items[..i], ID_OF(items[i]));
  }

  lemma TalliesStep(items: seq<PlanItem>, i: nat, ids: set<string>, ruleItems: map<string, nat>)
    requires i < |items| && Collected(items[..i], ids) && Counted(items[..i], ruleItems)
    ensures Collected(items[..i + 1], ids + {ID_OF(items[i])})
    ensures Counted(items[..i + 1], Count(ruleItems, ITEM_RULE(items[i])))
  {
    KeysStep(items, ID_OF, i);
    KeysStep(items, ITEM_RULE, i);
  }

  method ScanItems(decisions: seq<PlanDecision>, byRule: map<string, PlanDecision>, items: seq<PlanItem>)
    returns (ok: bool, ruleItems: map<string, nat>)
    requires Indexed(decisions, byRule)
    ensures ok <==> GoodItems(decisions, items)
    ensures ok ==> Counted(items, ruleItems)
  {
    var ids: set<string> := {};
    ruleItems := map[];
    for i := 0 to |items|
      invariant GoodItems(decisions, items[..i]) && Counted(items[..i], ruleItems) && Collected(items[..i], ids)
    {
      ItemAdded(decisions, byRule, items, i, ids);
      TalliesStep(items, i, ids, ruleItems);
      var fits := ItemFits(byRule, items[i]);
      if !fits || ID_OF(items[i]) in ids {
        return false, map[];
      }
      ids, ruleItems := ids + {ID_OF(items[i])}, Count(ruleItems, ITEM_RULE(items[i]));
    }
    assert items[..|items|] == items;
    ok := true;
  }

  method CheckModified(plan: RepairPlan, ruleItems: map<string, nat>) returns (ok: bool)
    requires Counted(plan.items, ruleItems)
    ensures ok <==> ModifiedHaveItems(plan)
  {
    for i := 0 to |plan.ruleDecisions|
      invariant forall k ::
          0 <= k < i && plan.ruleDecisions[k].decision == MODIFY ==> HasItemOf(plan.items, plan.ruleDecisions[k].ruleId)
    {
      if plan.ruleDecisions[i].decision == MODIFY && plan.ruleDecisions[i].ruleId !in ruleItems {
        return false;
      }
    }
    return true;
  }

  method ValidatePlanSnapshot(plan: RepairPlan) returns (ok: bool)
    ensures ok <==> ValidSnapshot(plan)
  {
    if |plan.ruleDecisions| == 0 {
      return false;
    }
    var decided, decisions := ScanDecisions(plan.ruleDecisions);
    if !decided {
      return false;
    }
    var fit, ruleItems := ScanItems(plan.ruleDecisions, decisions, plan.items);
    if !fit {
      return false;
    }
    ok := CheckModified(plan, ruleItems);
  }
}

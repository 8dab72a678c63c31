/** Which rules an adopted modification names, and in what order. */
module AppliedRules {
  import opened Keyed
  import opened Plans
  import opened Candidates
  import opened RepairSteps

  ghost predicate IsAddressed(items: seq<PlanItem>, addressed: seq<string>, k: int) {
    0 <= k < |items| && HasKey(addressed, SELF, items[k].id)
  }

  /** The first addressed item of its rule. */
  ghost predicate LeadsRule(items: seq<PlanItem>, addressed: seq<string>, k: int, ruleId: string) {
    && IsAddressed(items, addressed, k) && items[k].ruleId == ruleId
    && forall j :: 0 <= j < k && IsAddressed(items, addressed, j) ==> items[j].ruleId != ruleId
  }

  ghost predicate Leads(items: seq<PlanItem>, addressed: seq<string>, rules: seq<string>, leaders: seq<int>) {
    && |leaders| == |rules| && (forall i, j :: 0 <= i < j < |leaders| ==> leaders[i] < leaders[j])
    && (forall i :: 0 <= i < |rules| ==> LeadsRule(items, addressed, leaders[i], rules[i]))
    && (forall k :: IsAddressed(items, addressed, k) ==> items[k].ruleId in rules)
  }

  lemma {:induction false} RulesHaveLeaders(items: seq<PlanItem>, addressed: seq<string>) returns (leaders: seq<int>)
    ensures Leads(items, addressed, RulesApplied(items, addressed), leaders)
  {
    hide Leads;
    if items == [] {
      NoLeaders(addressed);
      return [];
    }
    var n := |items| - 1;
    var earlier := RulesHaveLeaders(items[..n], addressed);
    var rest := RulesApplied(items[..n], addressed);
    NamedAmong(rest, items[n].ruleId);
    OneMoreItem(items, addressed, rest, earlier);
    leaders := if HasKey(addressed, SELF, items[n].id) && items[n].ruleId !in rest then earlier + [n] else earlier;
  }

  lemma NoLeaders(addressed: seq<string>)
    ensures Leads([], addressed, [], [])
  {
  }

  lemma AddressedBefore(items: seq<PlanItem>, addressed: seq<string>, n: nat, k: int)
    requires n <= |items| && k < n
    ensures IsAddressed(items, addressed, k) <==> IsAddressed(items[..n], addressed, k)
  {
  }

  lemma LeaderStays(items: seq<PlanItem>, addressed: seq<string>, n: nat, k: int, ruleId: string)
    requires n <= |items| && LeadsRule(items[..n], addressed, k, ruleId)
    ensures LeadsRule(items, addressed, k, ruleId) && k < n
  {
    forall j | 0 <= j <= k ensures IsAddressed(items, addressed, j) <==> IsAddressed(items[..n], addressed, j) {
      AddressedBefore(items, addressed, n, j);
    }
  }

  lemma OneMoreItem(items: seq<PlanItem>, addressed: seq<string>, rest: seq<string>, earlier: seq<int>)
    requires items != [] && Leads(items[..|items| - 1], addressed, rest, earlier)
    ensures var n, last := |items| - 1, items[|items| - 1];
      if HasKey(addressed, SELF, last.id) && last.ruleId !in rest
      then Leads(items, addressed, rest + [last.ruleId], earlier + [n])
      else Leads(items, addressed, rest, earlier)
  {
    hide HasKey, LeadsRule;
    var n, last := |items| - 1, items[|items| - 1];
    forall i | 0 <= i < |rest| ensures LeadsRule(items, addressed, earlier[i], rest[i]) && earlier[i] < n {
      LeaderStays(items, addressed, n, earlier[i], rest[i]);
    }
    forall k | IsAddressed(items, addressed, k) && k < n ensures items[k].ruleId in rest {
      AddressedBefore(items, addressed, n, k);
      assert items[..n][k] == items[k];
    }
    if HasKey(addressed, SELF, last.id) && last.ruleId !in rest {
      NewLeader(items, addressed, rest);
    }
  }

  lemma NewLeader(items: seq<PlanItem>, addressed: seq<string>, rest: seq<string>)
    requires items != [] && IsAddressed(items, addressed, |items| - 1) && items[|items| - 1].ruleId !in rest
    requires forall k :: IsAddressed(items, addressed, k) && k < |items| - 1 ==> items[k].ruleId in rest
    ensures LeadsRule(items, addressed, |items| - 1, items[|items| - 1].ruleId)
  {
    hide HasKey;
  }

  lemma NamedAmong(rules: seq<string>, ruleId: string)
    ensures HasKey(rules, SELF, ruleId) <==> ruleId in rules
  {
  }

  /** An item of the plan that is not held. */
  ghost predicate IsSafeItem(items: seq<PlanItem>, k: int) { 0 <= k < |items| && items[k].status != BLOCKED }

  ghost predicate FirstSafeOf(items: seq<PlanItem>, k: int, ruleId: string) {
    && IsSafeItem(items, k) && items[k].ruleId == ruleId
    && forall j :: 0 <= j < k && IsSafeItem(items, j) ==> items[j].ruleId != ruleId
  }

  ghost predicate HasSafeItem(items: seq<PlanItem>, ruleId: string) {
    exists k :: IsSafeItem(items, k) && items[k].ruleId == ruleId
  }

  /** Exactly the rules with an item that is not held, each once, in the order of their first such items. */
  ghost predicate NamesSafeRules(items: seq<PlanItem>, rules: seq<string>) {
    && (forall id :: id in rules <==> HasSafeItem(items, id))
    && (forall i, j :: 0 <= i < j < |rules| ==> rules[i] != rules[j])
    && (forall i, j, k, l ::
          0 <= i < j < |rules| && FirstSafeOf(items, k, rules[i]) && FirstSafeOf(items, l, rules[j]) ==> k < l)
  }

  lemma AddressedAreTheSafe(plan: RepairPlan, request: CandidateRequest, k: int)
    requires FitsPlan(plan, request)
    ensures IsAddressed(plan.items, request.addressedItemIds, k) <==> IsSafeItem(plan.items, k)
  {
    hide AddressesPlan, AllLinked, Covered, Linked, IsAddressable;
    if 0 <= k < |plan.items| {
      SafeItemsExactly(plan, request, plan.items[k].id);
      ItemIsFound(plan, k);
    }
  }

  lemma ItemIsFound(plan: RepairPlan, k: nat)
    requires ValidSnapshot(plan) && k < |plan.items|
    ensures IsAddressable(plan.items, plan.items[k].id) <==> plan.items[k].status != BLOCKED
  {
    hide ItemTest, GoodDecisions, ModifiedHaveItems;
    FindIsOnly(plan.items, ID_OF, k);
  }

  lemma SafeRulesAreApplied(plan: RepairPlan, request: CandidateRequest)
    requires FitsPlan(plan, request)
    ensures NamesSafeRules(plan.items, RulesApplied(plan.items, request.addressedItemIds))
  {
    hide FitsPlan, RulesApplied, IsAddressed;
    var items, rules := plan.items, RulesApplied(plan.items, request.addressedItemIds);
    var leaders := RulesHaveLeaders(items, request.addressedItemIds);
    forall k ensures IsAddressed(items, request.addressedItemIds, k) <==> IsSafeItem(items, k) {
      AddressedAreTheSafe(plan, request, k);
    }
    forall i | 0 <= i < |rules| ensures FirstSafeOf(items, leaders[i], rules[i]) {
      assert LeadsRule(items, request.addressedItemIds, leaders[i], rules[i]);
    }
  }
}

/** The two passes that relate rules to files, and why they agree. */
module RuleScopes {
  import opened Keyed
  import opened Lists
  import opened Options
  import opened RuleMatching

  /** The rules in use; a diagnostic pattern matches through its prepared matcher. */
  datatype Catalog = Catalog(
    rules: seq<SourceRule>,
    excluded: set<string>,
    diagnosticsOnly: bool,
    prepared: set<string>,
    matches: (string, Diagnostic) -> bool)

  type DiagnosticsByFile = map<string, seq<Diagnostic>>

  function DiagnosticsOf(diagnostics: DiagnosticsByFile, file: string): seq<Diagnostic> {
    if file in diagnostics then diagnostics[file] else []
  }

  predicate HasMatch(catalog: Catalog, diagnostics: DiagnosticsByFile, rule: SourceRule, file: string) {
    exists k ::
      0 <= k < |DiagnosticsOf(diagnostics, file)| && catalog.matches(rule.id, DiagnosticsOf(diagnostics, file)[k])
  }

  // ----- the conditions of a rule -----

  function AnyDiagnostic(diagnostics: DiagnosticsByFile): string -> bool { (f: string) => DiagnosticsOf(diagnostics,
      f) != [] }

  function OnPath(tree: Tree, rule: SourceRule): string -> bool {
    (f: string) => rule.pathPattern == "" || f in tree.atPath(rule.pathPattern)
  }

  function WithContent(tree: Tree, rule: SourceRule): string -> bool {
    (f: string) => rule.contentPattern == "" || Containing(tree, rule.contentPattern)(f)
  }

  function WithDiagnostic(catalog: Catalog, diagnostics: DiagnosticsByFile, rule: SourceRule): string -> bool {
    (f: string) =>
      rule.diagnosticPattern == "" || (rule.id in catalog.prepared && HasMatch(catalog, diagnostics, rule, f))
  }

  /** All conditions that a rule declares, together. */
  function Conditions(tree: Tree, catalog: Catalog, diagnostics: DiagnosticsByFile, rule: SourceRule): string -> bool {
    (f: string) => OnPath(tree, rule)(f) && WithContent(tree, rule)(f) && WithDiagnostic(catalog, diagnostics, rule)(f)
  }

  /** A rule's conditions, one by one: a condition that is left empty always holds. */
  predicate MeetsAll(tree: Tree, catalog: Catalog, diagnostics: DiagnosticsByFile, rule: SourceRule, file: string) {
    && (rule.pathPattern != "" ==> file in tree.atPath(rule.pathPattern))
    && (rule.contentPattern != "" ==> tree.contains(rule.contentPattern, tree.encodingOf(file), file))
    && (rule.diagnosticPattern != "" ==>
          rule.id in catalog.prepared && file in diagnostics && AnyMatches(catalog, rule, diagnostics[file]))
  }

  predicate AnyMatches(catalog: Catalog, rule: SourceRule, found: seq<Diagnostic>) {
    exists k :: 0 <= k < |found| && catalog.matches(rule.id, found[k])
  }

  lemma ConditionsAreAll(tree: Tree, catalog: Catalog, diagnostics: DiagnosticsByFile, rule: SourceRule, file: string)
    ensures
      Conditions(tree, catalog, diagnostics, rule)(file) <==> MeetsAll(tree, catalog, diagnostics, rule, file)
    ensures Used(catalog)(rule) <==> rule.id !in catalog.excluded
  {
    assert HasMatch(catalog, diagnostics, rule, file) <==> AnyMatches(catalog, rule, DiagnosticsOf(diagnostics, file));
    assert OnPath(tree, rule)(file) <==> rule.pathPattern == "" || file in tree.atPath(rule.pathPattern);
    assert Containing(tree, rule.contentPattern)(file) <==>
      tree.contains(rule.contentPattern, tree.encodingOf(file), file);
    assert WithContent(tree, rule)(file) <==>
      rule.contentPattern == "" || tree.contains(rule.contentPattern, tree.encodingOf(file), file);
    assert WithDiagnostic(catalog, diagnostics, rule)(file) <==>
      rule.diagnosticPattern == "" || (rule.id in catalog.prepared && HasMatch(catalog, diagnostics, rule, file));
    assert Conditions(tree, catalog, diagnostics, rule)(file) <==>
      OnPath(tree, rule)(file) && WithContent(tree, rule)(file) && WithDiagnostic(catalog, diagnostics, rule)(file);
  }

  /** What the scan asks of a file first, when it looks at diagnosed files only. */
  function Prefilter(catalog: Catalog, diagnostics: DiagnosticsByFile, rule: SourceRule): string -> bool {
    (f: string) => (catalog.diagnosticsOnly || rule.diagnosticPattern != "") ==> AnyDiagnostic(diagnostics)(f)
  }

  function Scanned(tree: Tree, catalog: Catalog, diagnostics: DiagnosticsByFile, rule: SourceRule): string -> bool {
    (f: string) => Prefilter(catalog, diagnostics, rule)(f) && Conditions(tree, catalog, diagnostics, rule)(f)
  }

  /**
   * A file that a diagnostic condition matches has diagnostics, so the first look leaves nothing out unless it is asked
   * to.
   */
  lemma PrefilterIsImplied(tree: Tree, catalog: Catalog, diagnostics: DiagnosticsByFile, rule: SourceRule, file: string)
    ensures Scanned(tree, catalog, diagnostics, rule)(file) <==>
      && Conditions(tree, catalog, diagnostics, rule)(file)
      && (catalog.diagnosticsOnly ==> DiagnosticsOf(diagnostics, file) != [])
  {
    assert AnyDiagnostic(diagnostics)(file) <==> DiagnosticsOf(diagnostics, file) != [];
    assert WithDiagnostic(catalog, diagnostics, rule)(file) ==>
        rule.diagnosticPattern == "" || HasMatch(catalog, diagnostics, rule, file);
    if HasMatch(catalog, diagnostics, rule, file) {
      var found := DiagnosticsOf(diagnostics, file);
      var k :| 0 <= k < |found| && catalog.matches(rule.id, found[k]);
    }
  }

  /** The rule's content pattern does not fit a command line. */
  predicate TooLong(tree: Tree, rule: SourceRule) {
    rule.contentPattern != "" && tree.size(rule.contentPattern) + 4 > 16_000
  }

  function Both<T>(p: T -> bool, q: T -> bool): T -> bool { (x: T) => p(x) && q(x) }

  /** The files left after a rule's content pattern; a pattern too long for a command line is an error. */
  method FilterByContent(tree: Tree, rule: SourceRule, candidates: seq<string>, cache: map<string, Encoding>)
    returns (filtered: Option<seq<string>>, known: map<string, Encoding>)
    requires CacheSound(tree, cache)
    ensures CacheSound(tree, known)
    ensures filtered.Some? ==> filtered.value == Filter(WithContent(tree, rule), candidates)
    ensures filtered.None? <==> TooLong(tree, rule) && candidates != []
  {
    known := cache;
    if rule.contentPattern == "" {
      FilterKeepsAll(WithContent(tree, rule), candidates);
      return Some(candidates), known;
    }
    var found;
    found, known := MatchFilesEncoded(tree, candidates, rule.contentPattern, tree.size(rule.contentPattern), cache);
    if found.None? {
      return None, known;
    }
    var left := FilterAll((f: string) => f in found.value, candidates);
    FilterSame((f: string) => f in found.value, WithContent(tree, rule), candidates);
    return Some(left), known;
  }

  lemma {:induction false} FilterKeepsAll<T(!new)>(p: T -> bool, s: seq<T>)
    requires forall x :: x in s ==> p(x)
    ensures Filter(p, s) == s
  {
    if s != [] {
      assert s == s[..|s| - 1] + [s[|s| - 1]];
      FilterKeepsAll(p, s[..|s| - 1]);
    }
  }

  lemma {:induction false} FilterSame<T(!new)>(p: T -> bool, q: T -> bool, s: seq<T>)
    requires forall x :: x in s ==> (p(x) <==> q(x))
    ensures Filter(p, s) == Filter(q, s)
  {
    if s != [] {
      assert s == s[..|s| - 1] + [s[|s| - 1]];
      FilterSame(p, q, s[..|s| - 1]);
    }
  }

  method FilterByPath(tree: Tree, rule: SourceRule, candidates: seq<string>) returns (filtered: seq<string>)
    ensures filtered == Filter(OnPath(tree, rule), candidates)
  {
    if rule.pathPattern == "" {
      FilterKeepsAll(OnPath(tree, rule), candidates);
      return candidates;
    }
    filtered := FilterAll(OnPath(tree, rule), candidates);
  }

  // ----- one rule, twice -----

  /** The scan: diagnosed files first, then path and content, then the diagnostics of each file. */
  method ScanRule(tree: Tree, catalog: Catalog, diagnostics: DiagnosticsByFile, rule: SourceRule, files: seq<string>,
      cache: map<string, Encoding>)
    returns (matched: Option<seq<string>>, known: map<string, Encoding>)
    requires CacheSound(tree, cache)
    ensures CacheSound(tree, known)
    ensures matched.Some? ==> matched.value == Filter(Scanned(tree, catalog, diagnostics, rule), files)
    ensures matched.None? ==> TooLong(tree, rule)
  {
    var candidates := files;
    if catalog.diagnosticsOnly || rule.diagnosticPattern != "" {
      candidates := FilterAll(AnyDiagnostic(diagnostics), files);
    }
    ScanStarts(catalog, diagnostics, rule, files);
    candidates := FilterByPath(tree, rule, candidates);
    var filtered;
    filtered, known := FilterByContent(tree, rule, candidates, cache);
    if filtered.None? {
      return None, known;
    }
    var left := FilterAll(WithDiagnostic(catalog, diagnostics, rule), filtered.value);
    ThreeFilters(tree, catalog, diagnostics, rule, Filter(Prefilter(catalog, diagnostics, rule), files));
    FilterTwice(Prefilter(catalog, diagnostics, rule), Conditions(tree, catalog, diagnostics, rule),
      Scanned(tree, catalog, diagnostics, rule), files);
    return Some(left), known;
  }

  lemma ScanStarts(catalog: Catalog, diagnostics: DiagnosticsByFile, rule: SourceRule, files: seq<string>)
    ensures Filter(Prefilter(catalog, diagnostics, rule), files) ==
      (if catalog.diagnosticsOnly || rule.diagnosticPattern != ""
       then Filter(AnyDiagnostic(diagnostics), files)
       else files)
  {
    if catalog.diagnosticsOnly || rule.diagnosticPattern != "" {
      FilterSame(Prefilter(catalog, diagnostics, rule), AnyDiagnostic(diagnostics), files);
    } else {
      FilterKeepsAll(Prefilter(catalog, diagnostics, rule), files);
    }
  }

  lemma ThreeFilters(tree: Tree, catalog: Catalog, diagnostics: DiagnosticsByFile, rule: SourceRule, files: seq<string>)
    ensures Filter(WithDiagnostic(catalog, diagnostics, rule),
        Filter(WithContent(tree, rule), Filter(OnPath(tree, rule), files)))
      == Filter(Conditions(tree, catalog, diagnostics, rule), files)
  {
    var located := Filter(OnPath(tree, rule), files);
    FilterTwice(WithContent(tree, rule), WithDiagnostic(catalog, diagnostics, rule),
      Both(WithContent(tree, rule), WithDiagnostic(catalog, diagnostics, rule)), located);
    FilterTwice(OnPath(tree, rule), Both(WithContent(tree, rule), WithDiagnostic(catalog, diagnostics, rule)),
      Conditions(tree, catalog, diagnostics, rule), files);
  }

  predicate Prepared(catalog: Catalog, rule: SourceRule) { rule.diagnosticPattern == "" || rule.id in catalog.prepared }

  predicate Unmatchable(tree: Tree, catalog: Catalog,
      rule: SourceRule) { TooLong(tree, rule) || !Prepared(catalog, rule) }

  /** The solution pass: path, content, diagnostics; a diagnostic pattern without a matcher is an error. */
  method SolutionRule(tree: Tree, catalog: Catalog, diagnostics: DiagnosticsByFile, rule: SourceRule,
      files: seq<string>, cache: map<string, Encoding>)
    returns (matched: Option<seq<string>>, known: map<string, Encoding>)
    requires CacheSound(tree, cache)
    ensures CacheSound(tree, known)
    ensures matched.Some? ==> matched.value == Filter(Conditions(tree, catalog, diagnostics, rule), files)
    ensures matched.Some? ==> Prepared(catalog, rule)
    ensures matched.None? ==> Unmatchable(tree, catalog, rule)
  {
    var candidates := FilterByPath(tree, rule, files);
    var filtered;
    filtered, known := FilterByContent(tree, rule, candidates, cache);
    if filtered.None? {
      return None, known;
    }
    ThreeFilters(tree, catalog, diagnostics, rule, files);
    if rule.diagnosticPattern == "" {
      FilterKeepsAll(WithDiagnostic(catalog, diagnostics, rule), filtered.value);
      return filtered, known;
    }
    if rule.id !in catalog.prepared {
      return None, known;
    }
    var left := FilterAll(WithDiagnostic(catalog, diagnostics, rule), filtered.value);
    return Some(left), known;
  }

  // ----- all rules -----

  function Used(catalog: Catalog): SourceRule -> bool { (rule: SourceRule) => rule.id !in catalog.excluded }

  /** The rules that concern a file, in catalog order. */
  function RulesFor(tree: Tree, catalog: Catalog, diagnostics: DiagnosticsByFile, file: string): SourceRule -> bool {
    (rule: SourceRule) => Used(catalog)(rule) && Scanned(tree, catalog, diagnostics, rule)(file)
  }

  function RulesOf(rulesByFile: map<string, seq<string>>, file: string): seq<string> {
    if file in rulesByFile then rulesByFile[file] else []
  }

  /** Exactly the scanned files are in the relation, each with the rules that concern it. */
  predicate ScanRelation(tree: Tree, catalog: Catalog, diagnostics: DiagnosticsByFile, files: seq<string>,
      rules: seq<SourceRule>, rulesByFile: map<string, seq<string>>) {
    && (forall i :: 0 <= i < |files| ==>
          RulesOf(rulesByFile, files[i])
          == Map(RULE_KEY, Filter(RulesFor(tree, catalog, diagnostics, files[i]), rules)))
    && (forall f :: f in rulesByFile ==> f in files && rulesByFile[f] != [])
  }

  function Append(rulesByFile: map<string, seq<string>>, file: string, id: string): map<string, seq<string>> {
    rulesByFile[file := RulesOf(rulesByFile, file) + [id]]
  }

  method AppendRule(rulesByFile: map<string, seq<string>>, matched: seq<string>,
      id: string) returns (next: map<string, seq<string>>)
    requires AllDistinct(matched)
    ensures
      forall f :: RulesOf(next, f) == (if f in matched then RulesOf(rulesByFile, f) + [id] else RulesOf(rulesByFile, f))
    ensures forall f :: f in next <==> f in rulesByFile || f in matched
  {
    next := rulesByFile;
    for i := 0 to |matched|
      invariant forall f ::
          RulesOf(next, f) == (if f in matched[..i] then RulesOf(rulesByFile, f) + [id] else RulesOf(rulesByFile, f))
      invariant forall f :: f in next <==> f in rulesByFile || f in matched[..i]
    {
      assert matched[..i + 1] == matched[..i] + [matched[i]];
      assert matched[i] !in matched[..i];
      next := Append(next, matched[i], id);
    }
    assert matched[..|matched|] == matched;
  }

  lemma {:induction false} FilterIsDistinct<T(!new)>(p: T -> bool, s: seq<T>)
    requires forall i, j :: 0 <= i < j < |s| ==> s[i] != s[j]
    ensures forall i, j :: 0 <= i < j < |Filter(p, s)| ==> Filter(p, s)[i] != Filter(p, s)[j]
  {
    if s != [] {
      FilterIsDistinct(p, s[..|s| - 1]);
    }
  }

  lemma RuleAdded(tree: Tree, catalog: Catalog, diagnostics: DiagnosticsByFile, rules: seq<SourceRule>, i: nat,
      file: string)
    requires i < |rules|
    ensures Map(RULE_KEY, Filter(RulesFor(tree, catalog, diagnostics, file), rules[..i + 1])) ==
      Map(RULE_KEY, Filter(RulesFor(tree, catalog, diagnostics, file), rules[..i]))
      + (if RulesFor(tree, catalog, diagnostics, file)(rules[i]) then [rules[i].id] else [])
  {
    assert rules[..i + 1][..i] == rules[..i];
  }

  lemma RelationGrows(tree: Tree, catalog: Catalog, diagnostics: DiagnosticsByFile, files: seq<string>,
      rules: seq<SourceRule>, i: nat,
                      before: map<string, seq<string>>, next: map<string, seq<string>>, matched: seq<string>)
    requires i < |rules| && ScanRelation(tree, catalog, diagnostics, files, rules[..i], before)
    requires
      matched == if Used(catalog)(rules[i]) then Filter(Scanned(tree, catalog, diagnostics, rules[i]), files) else []
    requires
      forall f :: RulesOf(next, f) == (if f in matched then RulesOf(before, f) + [rules[i].id] else RulesOf(before, f))
    requires forall f :: f in next <==> f in before || f in matched
    ensures ScanRelation(tree, catalog, diagnostics, files, rules[..i + 1], next)
  {
    forall k | 0 <= k < |files|
      ensures
        RulesOf(next, files[k]) == Map(RULE_KEY, Filter(RulesFor(tree, catalog, diagnostics, files[k]), rules[..i + 1]))
    {
      RuleAdded(tree, catalog, diagnostics, rules, i, files[k]);
    }
  }

  method Scan(tree: Tree, catalog: Catalog, diagnostics: DiagnosticsByFile,
      files: seq<string>) returns (rulesByFile: Option<map<string, seq<string>>>)
    requires AllDistinct(files)
    ensures rulesByFile.Some? ==> ScanRelation(tree, catalog, diagnostics, files, catalog.rules, rulesByFile.value)
    ensures rulesByFile.None? ==> exists i :: 0 <= i < |catalog.rules| && TooLong(tree, catalog.rules[i])
  {
    var relation: map<string, seq<string>>, known := map[], map[];
    for i := 0 to |catalog.rules|
      invariant ScanRelation(tree, catalog, diagnostics, files, catalog.rules[..i], relation) && CacheSound(tree, known)
    {
      var rule := catalog.rules[i];
      if rule.id in catalog.excluded {
        RelationGrows(tree, catalog, diagnostics, files, catalog.rules, i, relation, relation, []);
      } else {
        var matched;
        matched, known := ScanRule(tree, catalog, diagnostics, rule, files, known);
        if matched.None? {
          return None;
        }
        FilterIsDistinct(Scanned(tree, catalog, diagnostics, rule), files);
        var next := AppendRule(relation, matched.value, rule.id);
        RelationGrows(tree, catalog, diagnostics, files, catalog.rules, i, relation, next, matched.value);
        relation := next;
      }
    }
    assert catalog.rules[..|catalog.rules|] == catalog.rules;
    return Some(relation);
  }

  /** Exactly the rules that concern some file are selected, each with all its files. */
  predicate SolutionRelation(tree: Tree, catalog: Catalog, diagnostics: DiagnosticsByFile, files: seq<string>,
      rules: seq<SourceRule>, ruleFiles: map<string, seq<string>>) {
    && (forall id :: id in ruleFiles ==> HasKey(rules, RULE_KEY, id))
    && (forall i :: 0 <= i < |rules| ==>
          RulesOf(ruleFiles, RULE_KEY(rules[i])) ==
          (if Used(catalog)(rules[i])
           then Filter(Conditions(tree, catalog, diagnostics, rules[i]), files)
           else []))
  }

  lemma SolutionGrows(tree: Tree, catalog: Catalog, diagnostics: DiagnosticsByFile, files: seq<string>,
      rules: seq<SourceRule>, i: nat,
                      ruleFiles: map<string, seq<string>>, matched: seq<string>)
    requires Distinct(rules, RULE_KEY) && i < |rules|
    requires SolutionRelation(tree, catalog, diagnostics, files, rules[..i], ruleFiles)
    requires
      matched == if Used(catalog)(rules[i]) then Filter(Conditions(tree, catalog, diagnostics, rules[i]), files) else []
    ensures SolutionRelation(tree, catalog, diagnostics, files, rules[..i + 1],
        if matched == [] then ruleFiles else ruleFiles[rules[i].id := matched])
  {
    hide Conditions, Filter;
    var front, more := rules[..i], rules[..i + 1];
    var next := if matched == [] then ruleFiles else ruleFiles[rules[i].id := matched];
    KeysStep(rules, RULE_KEY, i);
    GoodStep(rules, _ => true, RULE_KEY, i);
    forall k | 0 <= k < |more|
      ensures RulesOf(next, RULE_KEY(more[k]))
          == (if Used(catalog)(more[k]) then Filter(Conditions(tree, catalog, diagnostics, more[k]), files) else [])
    {
      if k < i {
        assert more[k] == front[k] && RULE_KEY(rules[k]) != RULE_KEY(rules[i]);
      } else {
        assert rules[i].id !in ruleFiles;
      }
    }
  }

  method MatchSolutionRules(tree: Tree, catalog: Catalog, diagnostics: DiagnosticsByFile, files: seq<string>)
    returns (ruleFiles: Option<map<string, seq<string>>>)
    requires Distinct(catalog.rules, RULE_KEY)
    ensures ruleFiles.Some? ==>
        AllDistinct(files) && SolutionRelation(tree, catalog, diagnostics, files, catalog.rules, ruleFiles.value)
    ensures ruleFiles.None? ==>
      !AllDistinct(files) || exists i :: 0 <= i < |catalog.rules| && Unmatchable(tree, catalog, catalog.rules[i])
  {
    var authorized := ScanDistinct(files, _ => true);
    if !authorized {
      return None;
    }
    var relation: map<string, seq<string>>, known := map[], map[];
    for i := 0 to |catalog.rules|
      invariant SolutionRelation(tree, catalog, diagnostics, files, catalog.rules[..i], relation)
      invariant CacheSound(tree, known)
    {
      var next;
      next, known := AddSolutionRule(tree, catalog, diagnostics, files, i, relation, known);
      if next.None? {
        return None;
      }
      relation := next.value;
    }
    assert catalog.rules[..|catalog.rules|] == catalog.rules;
    return Some(relation);
  }

  method AddSolutionRule(tree: Tree, catalog: Catalog, diagnostics: DiagnosticsByFile, files: seq<string>, i: nat,
                         relation: map<string, seq<string>>, cache: map<string, Encoding>)
    returns (next: Option<map<string, seq<string>>>, known: map<string, Encoding>)
    requires Distinct(catalog.rules, RULE_KEY) && i < |catalog.rules| && CacheSound(tree, cache)
    requires SolutionRelation(tree, catalog, diagnostics, files, catalog.rules[..i], relation)
    ensures CacheSound(tree, known)
    ensures next.Some? ==> SolutionRelation(tree, catalog, diagnostics, files, catalog.rules[..i + 1], next.value)
    ensures next.None? ==> Unmatchable(tree, catalog, catalog.rules[i])
  {
    var rule := catalog.rules[i];
    if rule.id in catalog.excluded {
      SolutionGrows(tree, catalog, diagnostics, files, catalog.rules, i, relation, []);
      return Some(relation), cache;
    }
    var matched;
    matched, known := SolutionRule(tree, catalog, diagnostics, rule, files, cache);
    if matched.None? {
      return None, known;
    }
    SolutionGrows(tree, catalog, diagnostics, files, catalog.rules, i, relation, matched.value);
    next := Some(if |matched.value| == 0 then relation else relation[rule.id := matched.value]);
  }

  lemma {:induction false} IdsOf(p: SourceRule -> bool, rules: seq<SourceRule>, i: nat)
    requires Distinct(rules, RULE_KEY) && i < |rules|
    ensures RULE_KEY(rules[i]) in Map(RULE_KEY, Filter(p, rules)) <==> p(rules[i])
  {
    var left := Filter(p, rules);
    if p(rules[i]) {
      InMap(RULE_KEY, left, rules[i]);
    }
    if RULE_KEY(rules[i]) in Map(RULE_KEY, left) {
      var k :| 0 <= k < |left| && Map(RULE_KEY, left)[k] == RULE_KEY(rules[i]);
      assert left[k] in left;
      var j :| 0 <= j < |rules| && rules[j] == left[k];
      assert RULE_KEY(rules[j]) == RULE_KEY(rules[i]);
      assert j == i;
    }
  }

  lemma SolutionSays(tree: Tree, catalog: Catalog, diagnostics: DiagnosticsByFile, files: seq<string>,
      ruleFiles: map<string, seq<string>>, r: nat, f: nat)
    requires r < |catalog.rules| && f < |files|
    requires SolutionRelation(tree, catalog, diagnostics, files, catalog.rules, ruleFiles)
    ensures files[f] in RulesOf(ruleFiles, catalog.rules[r].id) <==>
      Used(catalog)(catalog.rules[r]) && Conditions(tree, catalog, diagnostics, catalog.rules[r])(files[f])
  {
    assert RULE_KEY(catalog.rules[r]) == catalog.rules[r].id;
  }

  lemma ScanSays(tree: Tree, catalog: Catalog, diagnostics: DiagnosticsByFile, files: seq<string>,
      rulesByFile: map<string, seq<string>>, r: nat, f: nat)
    requires Distinct(catalog.rules, RULE_KEY) && r < |catalog.rules| && f < |files|
    requires ScanRelation(tree, catalog, diagnostics, files, catalog.rules, rulesByFile)
    ensures catalog.rules[r].id in RulesOf(rulesByFile, files[f]) <==>
      Used(catalog)(catalog.rules[r]) && Scanned(tree, catalog, diagnostics, catalog.rules[r])(files[f])
  {
    IdsOf(RulesFor(tree, catalog, diagnostics, files[f]), catalog.rules, r);
  }

  /**
   * Over the same files and diagnostics both passes relate a rule and a file exactly when every condition of the rule
   * holds of the file, unless the scan is told to look at diagnosed files only.
   */
  lemma ScanAndSolutionAgree(tree: Tree, catalog: Catalog, diagnostics: DiagnosticsByFile, files: seq<string>,
                             rulesByFile: map<string, seq<string>>, ruleFiles: map<string, seq<string>>, r: nat, f: nat)
    requires Distinct(catalog.rules, RULE_KEY) && r < |catalog.rules| && f < |files|
    requires ScanRelation(tree, catalog, diagnostics, files, catalog.rules, rulesByFile)
    requires SolutionRelation(tree, catalog, diagnostics, files, catalog.rules, ruleFiles)
    ensures var rule, file := catalog.rules[r], files[f];
      && (file in RulesOf(ruleFiles, rule.id) <==>
            rule.id !in catalog.excluded && MeetsAll(tree, catalog, diagnostics, rule, file))
      && (rule.id in RulesOf(rulesByFile, file) <==>
            file in RulesOf(ruleFiles, rule.id) && (catalog.diagnosticsOnly ==> DiagnosticsOf(diagnostics, file) != []))
  {
    ConditionsAreAll(tree, catalog, diagnostics, catalog.rules[r], files[f]);
    SolutionSays(tree, catalog, diagnostics, files, ruleFiles, r, f);
    ScanSays(tree, catalog, diagnostics, files, rulesByFile, r, f);
    PrefilterIsImplied(tree, catalog, diagnostics, catalog.rules[r], files[f]);
  }
}

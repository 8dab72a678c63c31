/** Which rules concern which files: matching in bounded batches, and the two passes that use it. */
module RuleMatching {
  import opened Keyed
  import opened Lists
  import opened Options

  datatype Encoding = Utf8Text | ShiftJis | Unsupported

  datatype Diagnostic = Diagnostic(code: string, message: string)

  datatype SourceRule = SourceRule(id: string, pathPattern: string, contentPattern: string, diagnosticPattern: string)

  /** The tree that is searched: what the external matcher finds in one file, and how a file is encoded. */
  datatype Tree = Tree(
    size: string -> nat,
    encodingOf: string -> Encoding,
    contains: (string, Encoding, string) -> bool,
    atPath: string -> set<string>)

  const MAX_FILES := 128
  const MAX_COST := 24000
  const MAX_PATTERN_BYTES := 16000

  const RULE_KEY: SourceRule -> string := (rule: SourceRule) => rule.id

  function Filter<T(!new)>(p: T -> bool, s: seq<T>): (r: seq<T>)
    ensures forall x :: x in r <==> x in s && p(x)
  {
    if s == [] then []
    else
      assert s == s[..|s| - 1] + [s[|s| - 1]];
      if p(s[|s| - 1]) then Filter(p, s[..|s| - 1]) + [s[|s| - 1]] else Filter(p, s[..|s| - 1])
  }

  method FilterAll<T(!new)>(p: T -> bool, s: seq<T>) returns (r: seq<T>)
    ensures r == Filter(p, s)
  {
    r := [];
    for i := 0 to |s|
      invariant r == Filter(p, s[..i])
    {
      assert s[..i + 1][..i] == s[..i];
      if p(s[i]) {
        r := r + [s[i]];
      }
    }
    assert s[..|s|] == s;
  }

  lemma {:induction false} FilterTwice<T(!new)>(p: T -> bool, q: T -> bool, both: T -> bool, s: seq<T>)
    requires forall x :: x in s ==> (both(x) <==> p(x) && q(x))
    ensures Filter(q, Filter(p, s)) == Filter(both, s)
  {
    if s != [] {
      var front, last := s[..|s| - 1], s[|s| - 1];
      assert s == front + [last];
      FilterTwice(p, q, both, front);
      if p(last) {
        assert (Filter(p, front) + [last])[..|Filter(p, front)|] == Filter(p, front);
      }
    }
  }

  // ----- batches -----

  function Cost(tree: Tree, file: string): nat { tree.size(file) * 2 + 4 }

  function Costs(tree: Tree, files: seq<string>): nat {
    if files == [] then 0 else Costs(tree, files[..|files| - 1]) + Cost(tree, files[|files| - 1])
  }

  /** A file costs twice the bytes of its name, and four more. */
  lemma CostsAdd(tree: Tree, files: seq<string>, file: string)
    ensures Costs(tree, []) == 0 && Costs(tree, files + [file]) == Costs(tree, files) + 2 * tree.size(file) + 4
  {
    assert (files + [file])[..|files|] == files;
  }

  function Joined(batches: seq<seq<string>>): seq<string> {
    if batches == [] then [] else Joined(batches[..|batches| - 1]) + batches[|batches| - 1]
  }

  /** Not empty, and within both limits unless it is a single file. */
  predicate FitsCommand(tree: Tree, base: nat, batch: seq<string>) {
    0 < |batch| <= 128 && (|batch| == 1 || base + Costs(tree, batch) <= 24_000)
  }

  /** The batch could not have taken the next file. */
  predicate Full(tree: Tree, base: nat, batch: seq<string>, next: string) {
    |batch| == 128 || base + Costs(tree, batch) + Cost(tree, next) > 24_000
  }

  ghost predicate Batched(tree: Tree, base: nat, files: seq<string>, batches: seq<seq<string>>) {
    && Joined(batches) == files
    && (forall b :: 0 <= b < |batches| ==> FitsCommand(tree, base, batches[b]))
    && forall b, c ::
         0 <= b < c < |batches| && c == b + 1 ==> batches[c] != [] && Full(tree, base, batches[b], batches[c][0])
  }

  /** The end of the batch that starts at a file. */
  method NextBatch(tree: Tree, base: nat, files: seq<string>, start: nat) returns (end: nat)
    requires start < |files|
    ensures start < end <= |files| && FitsCommand(tree, base, files[start..end])
    ensures end < |files| ==> Full(tree, base, files[start..end], files[end])
  {
    end := start;
    var size := base;
    while end < |files| && end - start < MAX_FILES
      invariant start <= end <= |files| && end - start <= MAX_FILES
      invariant size == base + Costs(tree, files[start..end])
      invariant end - start > 1 ==> size <= MAX_COST
    {
      var cost := Cost(tree, files[end]);
      if end > start && size + cost > MAX_COST {
        return;
      }
      assert files[start..end + 1][..end - start] == files[start..end];
      size, end := size + cost, end + 1;
    }
  }

  function FoundIn(tree: Tree, pattern: string, encoding: Encoding, files: seq<string>): set<string> {
    set f | f in files && tree.contains(pattern, encoding, f)
  }

  lemma FoundTogether(tree: Tree, pattern: string, encoding: Encoding, a: seq<string>, b: seq<string>)
    ensures FoundIn(tree, pattern, encoding, a + b)
        == FoundIn(tree, pattern, encoding, a) + FoundIn(tree, pattern, encoding, b)
  {
  }

  lemma BatchedMore(tree: Tree, base: nat, files: seq<string>, batches: seq<seq<string>>, start: nat, end: nat)
    requires start < end <= |files| && Batched(tree, base, files[..start], batches)
    requires FitsCommand(tree, base, files[start..end])
    requires batches != [] ==> Full(tree, base, batches[|batches| - 1], files[start])
    ensures Batched(tree, base, files[..end], batches + [files[start..end]])
  {
    var more := batches + [files[start..end]];
    assert more[..|more| - 1] == batches;
    assert files[..start] + files[start..end] == files[..end];
  }

  /**
   * Every file is submitted exactly once, in order, in batches that fit a command line; the result is that of matching
   * file by file.
   */
  method MatchEncodedFiles(tree: Tree, files: seq<string>, pattern: string, patternBytes: nat, encoding: Encoding)
    returns (found: Option<set<string>>, batches: seq<seq<string>>)
    ensures found.None? <==> files != [] && patternBytes + 4 > 16_000
    ensures found.Some? ==>
        found.value == FoundIn(tree, pattern, encoding, files) && Batched(tree, patternBytes + 4, files, batches)
  {
    batches := [];
    if |files| == 0 {
      return Some({}), [];
    }
    var base := patternBytes + 4;
    if base > MAX_PATTERN_BYTES {
      return None, [];
    }
    var matches: set<string>, start := {}, 0;
    while start < |files|
      invariant start <= |files| && matches == FoundIn(tree, pattern, encoding, files[..start])
      invariant Batched(tree, base, files[..start], batches)
      invariant batches != [] && start < |files| ==> Full(tree, base, batches[|batches| - 1], files[start])
      decreases |files| - start
    {
      var end := NextBatch(tree, base, files, start);
      BatchedMore(tree, base, files, batches, start, end);
      FoundTogether(tree, pattern, encoding, files[..start], files[start..end]);
      assert files[..start] + files[start..end] == files[..end];
      matches := matches + FoundIn(tree, pattern, encoding, files[start..end]);
      batches := batches + [files[start..end]];
      start := end;
    }
    assert files[..|files|] == files;
    return Some(matches), batches;
  }

  // ----- files of mixed encodings -----

  function Encoded(tree: Tree, e: Encoding): string -> bool { (f: string) => tree.encodingOf(f) == e }

  predicate CacheSound(tree: Tree, cache: map<string, Encoding>) {
    forall f :: f in cache ==> cache[f] == tree.encodingOf(f)
  }

  function Containing(tree: Tree, pattern: string): string -> bool {
    (f: string) => tree.contains(pattern, tree.encodingOf(f), f)
  }

  function Found(tree: Tree, pattern: string, files: seq<string>): set<string> {
    set f | f in files && Containing(tree, pattern)(f)
  }

  method GroupByEncoding(tree: Tree, files: seq<string>, cache: map<string, Encoding>)
    returns (utf8: seq<string>, shiftJis: seq<string>, unsupported: seq<string>, known: map<string, Encoding>)
    requires CacheSound(tree, cache)
    ensures CacheSound(tree, known)
    ensures utf8 == Filter(Encoded(tree, Utf8Text), files) && shiftJis == Filter(Encoded(tree, ShiftJis), files)
    ensures unsupported == Filter(Encoded(tree, Unsupported), files)
  {
    utf8, shiftJis, unsupported, known := [], [], [], cache;
    for i := 0 to |files|
      invariant CacheSound(tree, known)
      invariant utf8 == Filter(Encoded(tree, Utf8Text), files[..i])
      invariant shiftJis == Filter(Encoded(tree, ShiftJis), files[..i])
      invariant unsupported == Filter(Encoded(tree, Unsupported), files[..i])
    {
      assert files[..i + 1][..i] == files[..i];
      if files[i] !in known {
        known := known[files[i] := tree.encodingOf(files[i])];
      }
      match known[files[i]]
      case Utf8Text => utf8 := utf8 + [files[i]];
      case ShiftJis => shiftJis := shiftJis + [files[i]];
      case Unsupported => unsupported := unsupported + [files[i]];
    }
    assert files[..|files|] == files;
  }

  lemma GroupsCover(tree: Tree, pattern: string, files: seq<string>)
    ensures Found(tree, pattern, files) ==
      FoundIn(tree, pattern, Utf8Text, Filter(Encoded(tree, Utf8Text), files))
      + FoundIn(tree, pattern, ShiftJis, Filter(Encoded(tree, ShiftJis), files))
      + FoundIn(tree, pattern, Unsupported, Filter(Encoded(tree, Unsupported), files))
  {
    forall f | f in Found(tree, pattern, files)
      ensures f in FoundIn(tree, pattern, tree.encodingOf(f), Filter(Encoded(tree, tree.encodingOf(f)), files))
    {
    }
  }

  /** Grouped and batched matching finds what matching each file in its own encoding finds. */
  method MatchFilesEncoded(tree: Tree, files: seq<string>, pattern: string, patternBytes: nat, cache: map<string,
      Encoding>)
    returns (found: Option<set<string>>, known: map<string, Encoding>)
    requires CacheSound(tree, cache)
    ensures CacheSound(tree, known)
    ensures found.None? <==> files != [] && patternBytes + 4 > 16_000
    ensures found.Some? ==> found.value == Found(tree, pattern, files)
  {
    var utf8, shiftJis, unsupported;
    utf8, shiftJis, unsupported, known := GroupByEncoding(tree, files, cache);
    SomeGroup(tree, files);
    GroupsCover(tree, pattern, files);
    var a, _ := MatchEncodedFiles(tree, utf8, pattern, patternBytes, Utf8Text);
    var b, _ := MatchEncodedFiles(tree, shiftJis, pattern, patternBytes, ShiftJis);
    var c, _ := MatchEncodedFiles(tree, unsupported, pattern, patternBytes, Unsupported);
    if a.None? || b.None? || c.None? {
      return None, known;
    }
    found := Some(a.value + b.value + c.value);
  }

  lemma SomeGroup(tree: Tree, files: seq<string>)
    ensures files == [] <==>
      && Filter(Encoded(tree, Utf8Text), files) == [] && Filter(Encoded(tree, ShiftJis), files) == []
      && Filter(Encoded(tree, Unsupported), files) == []
  {
    if files != [] {
      assert files[0] in Filter(Encoded(tree, tree.encodingOf(files[0])), files);
    }
  }
}

/**
 * The provenance map between two versions of a text: a line is mapped only when every longest
 * alignment of the two versions makes the same match, and is called removed (added) only when no
 * longest alignment keeps it.
 */
module LineMapping {
  import opened Bytes
  import opened Alignment
  import opened LcsTables

  /** Lines are numbered from 1. */
  datatype CumulativeLines = CumulativeLines(
    sourceLines: nat,
    forward: map<int, int>,
    reverse: map<int, int>,
    removed: map<int, bool>,
    added: map<int, bool>)

  const CUMULATIVE_LINE_CELL_LIMIT := 2_000_000

  predicate MapsTo(m: map<int, int>, x: int, y: int) { x in m && m[x] == y }

  predicate Flag(m: map<int, bool>, x: int) { x in m && m[x] }

  function WithFlag(m: map<int, bool>, x: int, value: bool): (r: map<int, bool>)
    ensures forall y {:trigger Flag(r, y)} :: Flag(r, y) <==> if y == x then value else Flag(m, y)
  {
    m[x := value]
  }

  function WithEntry(m: map<int, int>, x: int, y: int): (r: map<int, int>)
    ensures forall u, v {:trigger MapsTo(r, u, v)} :: MapsTo(r, u, v) <==> if u == x then v == y else MapsTo(m, u, v)
  {
    m[x := y]
  }

  // ----- what the entries mean -----

  ghost predicate LineForced(a: seq<Text>, b: seq<Text>, x: int, y: int) {
    1 <= x <= |a| && 1 <= y <= |b| && Forced(a, b, Pair(x - 1, y - 1))
  }

  /** No longest alignment keeps line x of the old version. */
  ghost predicate LineGone(a: seq<Text>, b: seq<Text>, x: int) {
    1 <= x <= |a| && forall p :: IsLongest(a, b, p) ==> !UsesLeft(p, x - 1)
  }

  /** No longest alignment keeps line y of the new version. */
  ghost predicate LineNew(a: seq<Text>, b: seq<Text>, y: int) {
    1 <= y <= |b| && forall p :: IsLongest(a, b, p) ==> !UsesRight(p, y - 1)
  }

  ghost predicate Exact(m: CumulativeLines, a: seq<Text>, b: seq<Text>) {
    && m.sourceLines == |a|
    && (forall x, y :: MapsTo(m.forward, x, y) <==> LineForced(a, b, x, y))
    && (forall x, y :: MapsTo(m.reverse, y, x) <==> LineForced(a, b, x, y))
    && (forall x :: Flag(m.removed, x) <==> LineGone(a, b, x))
    && (forall y :: Flag(m.added, y) <==> LineNew(a, b, y))
  }

  /** What holds even of the bounded fallback: nothing the map says is wrong. */
  ghost predicate Sound(m: CumulativeLines, a: seq<Text>, b: seq<Text>) {
    && m.sourceLines == |a|
    && (forall x, y :: MapsTo(m.forward, x, y) ==> LineForced(a, b, x, y))
    && (forall x, y :: MapsTo(m.reverse, y, x) <==> MapsTo(m.forward, x, y))
    && (forall x :: Flag(m.removed, x) ==> LineGone(a, b, x))
    && (forall y :: Flag(m.added, y) ==> LineNew(a, b, y))
  }

  /** The fallback for large inputs only says which lines do not occur on the other side. */
  ghost predicate AbsenceOnly(m: CumulativeLines, a: seq<Text>, b: seq<Text>) {
    && m.sourceLines == |a| && m.forward == map[] && m.reverse == map[]
    && (forall x :: Flag(m.removed, x) <==> 1 <= x <= |a| && a[x - 1] !in b)
    && (forall y :: Flag(m.added, y) <==> 1 <= y <= |b| && b[y - 1] !in a)
  }

  predicate Oversized(before: Text, after: Text) {
    var n, k := |LineTokens(before)|, |LineTokens(after)|;
    before != after && n != 0 && k != 0 && n > CUMULATIVE_LINE_CELL_LIMIT / k
  }

  // ----- the cell arithmetic decides the meaning -----

  ghost predicate RowForced(a: seq<Text>, b: seq<Text>, i: nat, j: nat)
    requires i < |a| && j < |b|
  {
    && CellPossible(a, b, i, j)
    && (forall j' :: 0 <= j' < |b| && CellPossible(a, b, i, j') ==> j' == j)
    && (forall c :: 0 <= c <= |b| ==> !CutAddsUp(a, b, i, c))
  }

  /** A row is forced to j exactly when every longest alignment matches i with j. */
  lemma RowForcedIff(a: seq<Text>, b: seq<Text>, i: nat, j: nat)
    requires i < |a| && j < |b|
    ensures RowForced(a, b, i, j) <==> Forced(a, b, Pair(i, j))
  {
    OmittedIff(a, b, i);
    PossibleIff(a, b, i, j);
    if RowForced(a, b, i, j) {
      forall p: seq<Pair> | IsLongest(a, b, p) ensures Pair(i, j) in p {
        assert !SomeLongestOmits(a, b, i);
        assert UsesLeft(p, i);
        var k :| 0 <= k < |p| && p[k].left == i;
        assert p[k] in p;
        PossibleIff(a, b, i, p[k].right);
        assert p[k] == Pair(i, j);
      }
    }
    if Forced(a, b, Pair(i, j)) {
      var best := SomeLongest(a, b);
      forall j' | 0 <= j' < |b| && CellPossible(a, b, i, j') ensures j' == j {
        PossibleIff(a, b, i, j');
        var p :| IsLongest(a, b, p) && Pair(i, j') in p;
        OnePartner(a, b, p, Pair(i, j), Pair(i, j'));
      }
      forall c | 0 <= c <= |b| ensures !CutAddsUp(a, b, i, c) {
        forall p: seq<Pair> | IsLongest(a, b, p) ensures UsesLeft(p, i) {
          var k :| 0 <= k < |p| && p[k] == Pair(i, j);
        }
      }
    }
  }

  lemma OnePartner(a: seq<Text>, b: seq<Text>, p: seq<Pair>, u: Pair, v: Pair)
    requires IsAlignment(a, b, p) && u in p && v in p
    ensures (u.left == v.left || u.right == v.right) ==> u == v
  {
    var k :| 0 <= k < |p| && p[k] == u;
    var l :| 0 <= l < |p| && p[l] == v;
  }

  /** Forced matches never share a line. */
  lemma ForcedIsInjective(a: seq<Text>, b: seq<Text>, u: Pair, v: Pair)
    requires Forced(a, b, u) && Forced(a, b, v)
    ensures (u.left == v.left || u.right == v.right) ==> u == v
    ensures u.left < |a| && u.right < |b| && a[u.left] == b[u.right]
  {
    var p := SomeLongest(a, b);
    OnePartner(a, b, p, u, v);
  }

  lemma RowLines(a: seq<Text>, b: seq<Text>, i: nat)
    requires i < |a|
    ensures forall j :: 0 <= j < |b| ==> (Forced(a, b, Pair(i, j)) <==> RowForced(a, b, i, j))
  {
    forall j | 0 <= j < |b| ensures Forced(a, b, Pair(i, j)) <==> RowForced(a, b, i, j) {
      RowForcedIff(a, b, i, j);
    }
  }

  lemma ColumnsAreShared(a: seq<Text>, b: seq<Text>)
    ensures forall x, x', y :: LineForced(a, b, x, y) && LineForced(a, b, x', y) ==> x == x'
  {
    forall x, x', y | LineForced(a, b, x, y) && LineForced(a, b, x', y) ensures x == x' {
      ForcedIsInjective(a, b, Pair(x - 1, y - 1), Pair(x' - 1, y - 1));
    }
  }

  lemma GoneIff(a: seq<Text>, b: seq<Text>, i: nat)
    requires i < |a|
    ensures LineGone(a, b, i + 1) <==> forall j :: 0 <= j < |b| ==> !CellPossible(a, b, i, j)
  {
    if LineGone(a, b, i + 1) {
      forall j | 0 <= j < |b| ensures !CellPossible(a, b, i, j) {
        PossibleIff(a, b, i, j);
      }
    } else {
      var p: seq<Pair> :| IsLongest(a, b, p) && UsesLeft(p, i);
      var k :| 0 <= k < |p| && p[k].left == i;
      assert p[k] in p;
      PossibleIff(a, b, i, p[k].right);
    }
  }

  lemma NewIff(a: seq<Text>, b: seq<Text>, j: nat)
    requires j < |b|
    ensures LineNew(a, b, j + 1) <==> forall i :: 0 <= i < |a| ==> !CellPossible(a, b, i, j)
  {
    if LineNew(a, b, j + 1) {
      forall i | 0 <= i < |a| ensures !CellPossible(a, b, i, j) {
        PossibleIff(a, b, i, j);
      }
    } else {
      var p: seq<Pair> :| IsLongest(a, b, p) && UsesRight(p, j);
      var k :| 0 <= k < |p| && p[k].right == j;
      assert p[k] in p;
      PossibleIff(a, b, p[k].left, j);
    }
  }

  // ----- the fast paths -----

  /** A longest alignment of a text with itself keeps every line in place. */
  lemma IdentityIsForced(a: seq<Text>, p: seq<Pair>)
    requires IsLongest(a, a, p)
    ensures |p| == |a| && forall k :: 0 <= k < |p| ==> p[k] == Pair(k, k)
  {
    var whole := seq(|a|, k requires 0 <= k < |a| => Pair(k, k));
    assert IsAlignment(a, a, whole);
    forall k | 0 <= k < |p| ensures p[k] == Pair(k, k) {
      Crowded(p, |a|, k);
    }
    Crowded(p, |a|, |p|);
  }

  lemma {:induction false} Crowded(p: seq<Pair>, n: nat, k: nat)
    requires Increasing(p) && Inside(p, Area(0, n, 0, n)) && n <= |p| && k <= |p|
    ensures |p| == n
    ensures k < |p| ==> p[k] == Pair(k, k)
  {
    AtLeast(p, |p|);
    if k < |p| { AtLeast(p, k); AtMost(p, n, k); }
  }

  lemma {:induction false} AtLeast(p: seq<Pair>, k: nat)
    requires Increasing(p) && k <= |p|
    ensures k < |p| ==> k <= p[k].left && k <= p[k].right
    ensures k > 0 ==> k <= p[k - 1].left + 1
  {
    if k > 0 { AtLeast(p, k - 1); }
  }

  lemma {:induction false} AtMost(p: seq<Pair>, n: nat, k: nat)
    requires Increasing(p) && Inside(p, Area(0, n, 0, n)) && |p| == n && k < n
    ensures p[k].left <= k && p[k].right <= k
    decreases n - k
  {
    if k + 1 < n { AtMost(p, n, k + 1); }
  }

  lemma IdenticalIsExact(a: seq<Text>, m: CumulativeLines)
    requires m.sourceLines == |a| && m.removed == map[] && m.added == map[]
    requires forall x, y :: MapsTo(m.forward, x, y) <==> 1 <= x <= |a| && x == y
    requires m.reverse == m.forward
    ensures Exact(m, a, a)
  {
    var best := SomeLongest(a, a);
    IdentityIsForced(a, best);
    forall x, y | LineForced(a, a, x, y) ensures x == y {
      assert Pair(x - 1, y - 1) in best;
    }
    forall x | 1 <= x <= |a|
      ensures LineForced(a, a, x, x) && !LineGone(a, a, x) && !LineNew(a, a, x)
    {
      forall p | IsLongest(a, a, p) ensures Pair(x - 1, x - 1) in p {
        IdentityIsForced(a, p);
        assert p[x - 1] == Pair(x - 1, x - 1);
      }
      assert best[x - 1] == Pair(x - 1, x - 1);
      assert UsesLeft(best, x - 1) && UsesRight(best, x - 1);
    }
  }

  lemma EmptySideIsExact(a: seq<Text>, b: seq<Text>, m: CumulativeLines)
    requires a == [] || b == []
    requires m.sourceLines == |a| && m.forward == map[] && m.reverse == map[]
    requires forall x :: Flag(m.removed, x) <==> 1 <= x <= |a|
    requires forall y :: Flag(m.added, y) <==> 1 <= y <= |b|
    ensures Exact(m, a, b)
  {
    forall p: seq<Pair> | IsAlignment(a, b, p) ensures p == [] {
      PrefixBounds(a, b, p, |a|, |b|);
    }
    var best := SomeLongest(a, b);
  }

  lemma AbsenceIsSound(a: seq<Text>, b: seq<Text>, m: CumulativeLines)
    requires AbsenceOnly(m, a, b)
    ensures Sound(m, a, b)
    ensures forall x, p :: Flag(m.removed, x) && IsAlignment(a, b, p) ==> !UsesLeft(p, x - 1)
    ensures forall y, p :: Flag(m.added, y) && IsAlignment(a, b, p) ==> !UsesRight(p, y - 1)
  {
    forall x, p: seq<Pair> | Flag(m.removed, x) && IsAlignment(a, b, p) ensures !UsesLeft(p, x - 1) {
      assert forall k :: 0 <= k < |p| ==> a[p[k].left] in b;
    }
    forall y, p: seq<Pair> | Flag(m.added, y) && IsAlignment(a, b, p) ensures !UsesRight(p, y - 1) {
      assert forall k :: 0 <= k < |p| ==> b[p[k].right] in a;
    }
  }

  lemma ExactIsSound(a: seq<Text>, b: seq<Text>, m: CumulativeLines)
    requires Exact(m, a, b)
    ensures Sound(m, a, b)
  {
  }

  /** A mapped line reads the same on both sides and is never also removed or added. */
  lemma MappedLinesAreEqual(a: seq<Text>, b: seq<Text>, m: CumulativeLines, x: int, y: int)
    requires Sound(m, a, b) && MapsTo(m.forward, x, y)
    ensures 1 <= x <= |a| && 1 <= y <= |b| && a[x - 1] == b[y - 1]
    ensures !Flag(m.removed, x) && !Flag(m.added, y)
  {
    var pair := Pair(x - 1, y - 1);
    ForcedIsInjective(a, b, pair, pair);
    var p := SomeLongest(a, b);
    var k :| 0 <= k < |p| && p[k] == pair;
    assert UsesLeft(p, x - 1) && UsesRight(p, y - 1);
  }

  // ----- the loops -----

  /** Scans one row for possible partners, marking each partner's column. */
  method ScanRow(a: seq<Text>, b: seq<Text>, prefix: array2<nat>, suffix: array2<nat>, i: nat, possibleNew: array<bool>)
    returns (match_: int, matches: nat)
    requires i < |a| && possibleNew.Length == |b|
    requires PrefixRows(prefix, a, b, |a| + 1) && SuffixRows(suffix, a, b, 0)
    modifies possibleNew
    ensures matches == 0 <==> forall j :: 0 <= j < |b| ==> !CellPossible(a, b, i, j)
    ensures matches >= 1 ==> 0 <= match_ < |b| && CellPossible(a, b, i, match_)
    ensures matches == 1 <==> 0 <= match_ < |b| && CellPossible(a, b, i, match_)
                              && forall j :: 0 <= j < |b| && CellPossible(a, b, i, j) ==> j == match_
    ensures forall j :: 0 <= j < |b| ==> (possibleNew[j] <==> old(possibleNew[j]) || CellPossible(a, b, i, j))
  {
    var longest := prefix[|a|, |b|];
    match_, matches := -1, 0;
    ghost var earlier := -1;
    for j := 0 to |b|
      invariant matches == 0 <==> forall y :: 0 <= y < j ==> !CellPossible(a, b, i, y)
      invariant matches >= 1 ==> 0 <= match_ < j && CellPossible(a, b, i, match_)
      invariant matches == 1 ==> forall y :: 0 <= y < j && CellPossible(a, b, i, y) ==> y == match_
      invariant matches >= 2 ==> 0 <= earlier < match_ && CellPossible(a, b, i, earlier)
      invariant forall y :: 0 <= y < j ==> (possibleNew[y] <==> old(possibleNew[y]) || CellPossible(a, b, i, y))
      invariant forall y :: j <= y < |b| ==> possibleNew[y] == old(possibleNew[y])
    {
      if a[i] == b[j] && prefix[i, j] + 1 + suffix[i + 1, j + 1] == longest {
        assert CellPossible(a, b, i, j);
        earlier := match_;
        match_, matches, possibleNew[j] := j, matches + 1, true;
      }
    }
  }

  /** No cut beside the row leaves the longest length intact. */
  method ScanCuts(a: seq<Text>, b: seq<Text>, prefix: array2<nat>, suffix: array2<nat>, i: nat) returns (forced: bool)
    requires i < |a|
    requires PrefixRows(prefix, a, b, |a| + 1) && SuffixRows(suffix, a, b, 0)
    ensures forced <==> forall c :: 0 <= c <= |b| ==> !CutAddsUp(a, b, i, c)
  {
    for j := 0 to |b| + 1
      invariant forall c :: 0 <= c < j ==> !CutAddsUp(a, b, i, c)
    {
      if prefix[i, j] + suffix[i + 1, j] == prefix[|a|, |b|] {
        assert CutAddsUp(a, b, i, j);
        return false;
      }
    }
    return true;
  }

  method MapByTables(a: seq<Text>, b: seq<Text>) returns (m: CumulativeLines)
    requires a != [] && b != []
    ensures Exact(m, a, b)
  {
    var prefix := FillPrefix(a, b);
    var suffix := FillSuffix(a, b);
    var possibleNew := new bool[|b|](_ => false);
    var forward: map<int, int>, reverse: map<int, int>, removed: map<int, bool> := map[], map[], map[];
    for i := 0 to |a|
      invariant PrefixRows(prefix, a, b, |a| + 1) && SuffixRows(suffix, a, b, 0)
      invariant forall x, y :: MapsTo(forward, x, y) <==> x <= i && LineForced(a, b, x, y)
      invariant forall x, y :: MapsTo(reverse, y, x) <==> x <= i && LineForced(a, b, x, y)
      invariant forall x :: Flag(removed, x) <==> x <= i && LineGone(a, b, x)
      invariant forall j :: 0 <= j < |b| ==>
        (possibleNew[j] <==> exists x :: 0 <= x < i && CellPossible(a, b, x, j))
    {
      RowLines(a, b, i);
      ColumnsAreShared(a, b);
      GoneIff(a, b, i);
      var match_, matches := ScanRow(a, b, prefix, suffix, i, possibleNew);
      if matches == 0 {
        removed := WithFlag(removed, i + 1, true);
        continue;
      }
      if matches != 1 {
        continue;
      }
      var forced := ScanCuts(a, b, prefix, suffix, i);
      if forced {
        assert LineForced(a, b, i + 1, match_ + 1);
        forward, reverse := WithEntry(forward, i + 1, match_ + 1), WithEntry(reverse, match_ + 1, i + 1);
      }
    }
    var added: map<int, bool> := map[];
    for j := 0 to |b|
      invariant forall y :: 0 <= y < |b| ==>
        (possibleNew[y] <==> exists x :: 0 <= x < |a| && CellPossible(a, b, x, y))
      invariant forall y :: Flag(added, y) <==> y <= j && LineNew(a, b, y)
    {
      NewIff(a, b, j);
      if !possibleNew[j] {
        added := WithFlag(added, j + 1, true);
      }
    }
    m := CumulativeLines(|a|, forward, reverse, removed, added);
  }

  /** Exact up to two million cells, and sound always. */
  method CumulativeLineMapping(before: Text, after: Text) returns (m: CumulativeLines)
    ensures IsMapping(m, before, after)
    ensures var a, b := LineTokens(before), LineTokens(after);
      if before == after || |a| * |b| <= 2_000_000 then Exact(m, a, b) else AbsenceOnly(m, a, b)
  {
    var a, b := LineTokens(before), LineTokens(after);
    var n, k := |a|, |b|;
    OversizedIsProduct(before, after);
    if before == after {
      m := MapIdentical(a);
    } else if n == 0 || k == 0 {
      m := MapEmptySide(a, b);
    } else if n > CUMULATIVE_LINE_CELL_LIMIT / k {
      m := MapAbsence(a, b);
    } else {
      CellsFit(n, k);
      m := MapByTables(a, b);
    }
  }

  ghost predicate IsMapping(m: CumulativeLines, before: Text, after: Text) {
    var a, b := LineTokens(before), LineTokens(after);
    if Oversized(before, after) then AbsenceOnly(m, a, b) else Exact(m, a, b)
  }

  lemma MappingIsSound(m: CumulativeLines, before: Text, after: Text)
    requires IsMapping(m, before, after)
    ensures Sound(m, LineTokens(before), LineTokens(after))
  {
    var a, b := LineTokens(before), LineTokens(after);
    if Oversized(before, after) {
      AbsenceIsSound(a, b, m);
    } else {
      ExactIsSound(a, b, m);
    }
  }

  method MapIdentical(a: seq<Text>) returns (m: CumulativeLines)
    ensures Exact(m, a, a)
  {
    var same: map<int, int> := map[];
    for i := 0 to |a|
      invariant forall x, y :: MapsTo(same, x, y) <==> 1 <= x <= i && x == y
    {
      same := WithEntry(same, i + 1, i + 1);
    }
    m := CumulativeLines(|a|, same, same, map[], map[]);
    IdenticalIsExact(a, m);
  }

  method MapEmptySide(a: seq<Text>, b: seq<Text>) returns (m: CumulativeLines)
    requires a == [] || b == []
    ensures Exact(m, a, b)
  {
    var removed := FlagLines(a, []);
    var added := FlagLines(b, []);
    m := CumulativeLines(|a|, map[], map[], removed, added);
    EmptySideIsExact(a, b, m);
  }

  method MapAbsence(a: seq<Text>, b: seq<Text>) returns (m: CumulativeLines)
    ensures AbsenceOnly(m, a, b)
  {
    var removed := FlagLines(a, b);
    var added := FlagLines(b, a);
    m := CumulativeLines(|a|, map[], map[], removed, added);
  }

  /** Flags every line of `lines` that does not occur in `others`. */
  method FlagLines(lines: seq<Text>, others: seq<Text>) returns (flags: map<int, bool>)
    ensures forall x :: Flag(flags, x) <==> 1 <= x <= |lines| && lines[x - 1] !in others
  {
    flags := map[];
    for i := 0 to |lines|
      invariant forall x :: Flag(flags, x) <==> 1 <= x <= i && lines[x - 1] !in others
    {
      flags := WithFlag(flags, i + 1, lines[i] !in others);
    }
  }

  /** Inside the limit the tables stay bounded and no cell overflows 32 bits. */
  lemma OversizedIsProduct(before: Text, after: Text)
    ensures Oversized(before, after) <==>
      before != after && |LineTokens(before)| * |LineTokens(after)| > 2_000_000
  {
    var n, k := |LineTokens(before)|, |LineTokens(after)|;
    if k > 0 { QuotientIsBudget(n, k, 2_000_000); }
  }

  lemma CellsFit(n: nat, k: nat)
    requires 0 < k && n <= CUMULATIVE_LINE_CELL_LIMIT / k
    ensures n * k <= CUMULATIVE_LINE_CELL_LIMIT
  {
  }
}

/** Longest common subsequences: the two dynamic-programming recurrences and what they measure. */
module Alignment {

  /** Element `left` of the first sequence is kept as element `right` of the second. */
  datatype Pair = Pair(left: nat, right: nat)

  /** The rectangle [top, bottom) x [start, end) of index pairs. */
  datatype Area = Area(top: nat, bottom: nat, start: nat, end: nat)

  ghost predicate Increasing(p: seq<Pair>) {
    forall k, l :: 0 <= k < l < |p| ==> p[k].left < p[l].left && p[k].right < p[l].right
  }

  ghost predicate Inside(p: seq<Pair>, area: Area) {
    forall k :: 0 <= k < |p| ==> area.top <= p[k].left < area.bottom && area.start <= p[k].right < area.end
  }

  ghost predicate Matches<T>(a: seq<T>, b: seq<T>, p: seq<Pair>) {
    forall k :: 0 <= k < |p| ==> p[k].left < |a| && p[k].right < |b| && a[p[k].left] == b[p[k].right]
  }

  /** A common subsequence, as the index pairs it keeps. */
  ghost predicate IsAlignment<T>(a: seq<T>, b: seq<T>, p: seq<Pair>) {
    Matches(a, b, p) && Increasing(p)
  }

  ghost predicate IsLongest<T(!new)>(a: seq<T>, b: seq<T>, p: seq<Pair>) {
    IsAlignment(a, b, p) && forall q :: IsAlignment(a, b, q) ==> |q| <= |p|
  }

  /** Some longest alignment keeps the pair. */
  ghost predicate Possible<T(!new)>(a: seq<T>, b: seq<T>, pair: Pair) {
    exists p :: IsLongest(a, b, p) && pair in p
  }

  /** Every longest alignment keeps the pair. */
  ghost predicate Forced<T(!new)>(a: seq<T>, b: seq<T>, pair: Pair) {
    forall p :: IsLongest(a, b, p) ==> pair in p
  }

  ghost predicate UsesLeft(p: seq<Pair>, i: nat) {
    exists k :: 0 <= k < |p| && p[k].left == i
  }

  ghost predicate UsesRight(p: seq<Pair>, j: nat) {
    exists k :: 0 <= k < |p| && p[k].right == j
  }

  function Max(x: nat, y: nat): nat { if x < y then y else x }

  /** The recurrence of the table filled from the top left. */
  function Prefix<T(==)>(a: seq<T>, b: seq<T>, i: nat, j: nat): nat
    requires i <= |a| && j <= |b|
  {
    if i == 0 || j == 0 then 0
    else if a[i - 1] == b[j - 1] then Prefix(a, b, i - 1, j - 1) + 1
    else Max(Prefix(a, b, i - 1, j), Prefix(a, b, i, j - 1))
  }

  /** The recurrence of the table filled from the bottom right. */
  function Suffix<T(==)>(a: seq<T>, b: seq<T>, i: nat, j: nat): nat
    requires i <= |a| && j <= |b|
    decreases |a| - i + |b| - j
  {
    if i == |a| || j == |b| then 0
    else if a[i] == b[j] then Suffix(a, b, i + 1, j + 1) + 1
    else Max(Suffix(a, b, i + 1, j), Suffix(a, b, i, j + 1))
  }

  // ----- both recurrences measure the longest alignment of their corner -----

  lemma {:induction false} PrefixBounds<T>(a: seq<T>, b: seq<T>, p: seq<Pair>, i: nat, j: nat)
    requires i <= |a| && j <= |b| && IsAlignment(a, b, p) && Inside(p, Area(0, i, 0, j))
    ensures |p| <= Prefix(a, b, i, j)
    decreases i + j
  {
    if p != [] {
      var last := p[|p| - 1];
      if a[i - 1] == b[j - 1] {
        PrefixBounds(a, b, p[..|p| - 1], i - 1, j - 1);
      } else if last.left < i - 1 {
        PrefixBounds(a, b, p, i - 1, j);
      } else {
        PrefixBounds(a, b, p, i, j - 1);
      }
    }
  }

  lemma {:induction false} PrefixAttained<T>(a: seq<T>, b: seq<T>, i: nat, j: nat) returns (p: seq<Pair>)
    requires i <= |a| && j <= |b|
    ensures IsAlignment(a, b, p) && Inside(p, Area(0, i, 0, j)) && |p| == Prefix(a, b, i, j)
    decreases i + j
  {
    if i == 0 || j == 0 {
      p := [];
    } else if a[i - 1] == b[j - 1] {
      p := PrefixAttained(a, b, i - 1, j - 1);
      p := p + [Pair(i - 1, j - 1)];
    } else if Prefix(a, b, i - 1, j) < Prefix(a, b, i, j - 1) {
      p := PrefixAttained(a, b, i, j - 1);
    } else {
      p := PrefixAttained(a, b, i - 1, j);
    }
  }

  lemma {:induction false} SuffixBounds<T>(a: seq<T>, b: seq<T>, p: seq<Pair>, i: nat, j: nat)
    requires i <= |a| && j <= |b| && IsAlignment(a, b, p) && Inside(p, Area(i, |a|, j, |b|))
    ensures |p| <= Suffix(a, b, i, j)
    decreases |a| - i + |b| - j
  {
    if p != [] {
      var first := p[0];
      assert i <= first.left < |a| && j <= first.right < |b|;
      if a[i] == b[j] {
        SuffixBounds(a, b, p[1..], i + 1, j + 1);
      } else if i < first.left {
        SuffixBounds(a, b, p, i + 1, j);
      } else {
        SuffixBounds(a, b, p, i, j + 1);
      }
    }
  }

  lemma {:induction false} SuffixAttained<T>(a: seq<T>, b: seq<T>, i: nat, j: nat) returns (p: seq<Pair>)
    requires i <= |a| && j <= |b|
    ensures IsAlignment(a, b, p) && Inside(p, Area(i, |a|, j, |b|)) && |p| == Suffix(a, b, i, j)
    decreases |a| - i + |b| - j
  {
    if i == |a| || j == |b| {
      p := [];
    } else if a[i] == b[j] {
      p := SuffixAttained(a, b, i + 1, j + 1);
      p := [Pair(i, j)] + p;
    } else if Suffix(a, b, i + 1, j) < Suffix(a, b, i, j + 1) {
      p := SuffixAttained(a, b, i, j + 1);
    } else {
      p := SuffixAttained(a, b, i + 1, j);
    }
  }

  function Length<T(==)>(a: seq<T>, b: seq<T>): nat { Prefix(a, b, |a|, |b|) }

  /** An alignment is longest exactly when it has the length in the last table cell. */
  lemma LongestLength<T(!new)>(a: seq<T>, b: seq<T>, p: seq<Pair>)
    requires IsAlignment(a, b, p)
    ensures IsLongest(a, b, p) <==> |p| == Length(a, b)
    ensures |p| <= Length(a, b)
  {
    var best := PrefixAttained(a, b, |a|, |b|);
    PrefixBounds(a, b, p, |a|, |b|);
    forall q | IsAlignment(a, b, q) ensures |q| <= Length(a, b) {
      PrefixBounds(a, b, q, |a|, |b|);
    }
  }

  lemma SomeLongest<T(!new)>(a: seq<T>, b: seq<T>) returns (p: seq<Pair>)
    ensures IsLongest(a, b, p)
  {
    p := PrefixAttained(a, b, |a|, |b|);
    LongestLength(a, b, p);
  }

  /** Both corners measure the same whole. */
  lemma SuffixLength<T(!new)>(a: seq<T>, b: seq<T>)
    ensures Suffix(a, b, 0, 0) == Length(a, b)
  {
    var p := PrefixAttained(a, b, |a|, |b|);
    var q := SuffixAttained(a, b, 0, 0);
    SuffixBounds(a, b, p, 0, 0);
    PrefixBounds(a, b, q, |a|, |b|);
  }

  predicate CellPossible<T(==)>(a: seq<T>, b: seq<T>, i: nat, j: nat)
    requires i < |a| && j < |b|
  {
    a[i] == b[j] && Prefix(a, b, i, j) + 1 + Suffix(a, b, i + 1, j + 1) == Length(a, b)
  }

  predicate CutAddsUp<T(==)>(a: seq<T>, b: seq<T>, i: nat, j: nat)
    requires i < |a| && j <= |b|
  {
    Prefix(a, b, i, j) + Suffix(a, b, i + 1, j) == Length(a, b)
  }

  ghost predicate SomeLongestOmits<T(!new)>(a: seq<T>, b: seq<T>, i: nat) {
    exists p :: IsLongest(a, b, p) && !UsesLeft(p, i)
  }

  // ----- a pair or an omission splits an alignment in two corners -----

  /** The pair can be kept by a longest alignment exactly when the two corners around it add up. */
  lemma PossibleIff<T(!new)>(a: seq<T>, b: seq<T>, i: nat, j: nat)
    requires i < |a| && j < |b|
    ensures Possible(a, b, Pair(i, j)) <==> CellPossible(a, b, i, j)
  {
    if a[i] == b[j] {
      var p := JoinCorners(a, b, i, j);
      LongestLength(a, b, p);
    }
    if p: seq<Pair> :| IsLongest(a, b, p) && Pair(i, j) in p {
      LongestLength(a, b, p);
      PairBound(a, b, p, i, j);
      var q := JoinCorners(a, b, i, j);
      LongestLength(a, b, q);
    }
  }

  lemma JoinCorners<T>(a: seq<T>, b: seq<T>, i: nat, j: nat) returns (p: seq<Pair>)
    requires i < |a| && j < |b| && a[i] == b[j]
    ensures IsAlignment(a, b, p) && Pair(i, j) in p
    ensures |p| == Prefix(a, b, i, j) + 1 + Suffix(a, b, i + 1, j + 1)
  {
    var before := PrefixAttained(a, b, i, j);
    var behind := SuffixAttained(a, b, i + 1, j + 1);
    p := before + [Pair(i, j)] + behind;
    assert p[|before|] == Pair(i, j);
  }

  lemma PairBound<T>(a: seq<T>, b: seq<T>, p: seq<Pair>, i: nat, j: nat)
    requires IsAlignment(a, b, p) && Pair(i, j) in p
    ensures i < |a| && j < |b| && a[i] == b[j]
    ensures |p| <= Prefix(a, b, i, j) + 1 + Suffix(a, b, i + 1, j + 1)
  {
    var k :| 0 <= k < |p| && p[k] == Pair(i, j);
    PrefixBounds(a, b, p[..k], i, j);
    SuffixBounds(a, b, p[k + 1..], i + 1, j + 1);
  }

  /** Some longest alignment leaves line i out exactly when some cut beside it adds up. */
  lemma OmittedIff<T(!new)>(a: seq<T>, b: seq<T>, i: nat)
    requires i < |a|
    ensures SomeLongestOmits(a, b, i) <==> exists j :: 0 <= j <= |b| && CutAddsUp(a, b, i, j)
  {
    if p: seq<Pair> :| IsLongest(a, b, p) && !UsesLeft(p, i) {
      var k := SplitAround(p, i);
      var j: nat := if k < |p| then p[k].right else |b|;
      PrefixBounds(a, b, p[..k], i, j);
      SuffixBounds(a, b, p[k..], i + 1, j);
      var _ := CutBound(a, b, i, j);
      LongestLength(a, b, p);
      assert CutAddsUp(a, b, i, j);
    }
    if j :| 0 <= j <= |b| && CutAddsUp(a, b, i, j) {
      var p := CutBound(a, b, i, j);
      LongestLength(a, b, p);
    }
  }

  /** Joining the best corners beside a cut is an alignment that leaves line i out. */
  lemma CutBound<T(!new)>(a: seq<T>, b: seq<T>, i: nat, j: nat) returns (p: seq<Pair>)
    requires i < |a| && j <= |b|
    ensures IsAlignment(a, b, p) && !UsesLeft(p, i)
    ensures |p| == Prefix(a, b, i, j) + Suffix(a, b, i + 1, j) <= Length(a, b)
  {
    var before := PrefixAttained(a, b, i, j);
    var behind := SuffixAttained(a, b, i + 1, j);
    p := before + behind;
    LongestLength(a, b, p);
  }

  lemma {:induction false} SplitAround(p: seq<Pair>, i: nat) returns (k: nat)
    requires Increasing(p) && !UsesLeft(p, i)
    ensures k <= |p|
    ensures forall l :: 0 <= l < k ==> p[l].left < i
    ensures forall l :: k <= l < |p| ==> i < p[l].left
  {
    k := 0;
    while k < |p| && p[k].left < i
      invariant k <= |p|
      invariant forall l :: 0 <= l < k ==> p[l].left < i
    {
      k := k + 1;
    }
  }
}

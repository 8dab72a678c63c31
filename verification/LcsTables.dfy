/** The two loops that fill the longest-common-subsequence tables. */
module LcsTables {
  import opened Bytes
  import opened Alignment

  /** The first `rows` rows hold the prefix recurrence, and the border is zero. */
  ghost predicate PrefixRows(table: array2<nat>, a: seq<Text>, b: seq<Text>, rows: nat)
    reads table
  {
    && table.Length0 == |a| + 1 && table.Length1 == |b| + 1 && rows <= |a| + 1
    && (forall x :: 0 <= x <= |a| ==> table[x, 0] == 0)
    && forall x, y {:trigger table[x, y]} :: 0 <= x < rows && 0 <= y <= |b| ==> table[x, y] == Prefix(a, b, x, y)
  }

  /** The rows from `top` on hold the suffix recurrence, and the border is zero. */
  ghost predicate SuffixRows(table: array2<nat>, a: seq<Text>, b: seq<Text>, top: nat)
    reads table
  {
    && table.Length0 == |a| + 1 && table.Length1 == |b| + 1
    && (forall x :: 0 <= x <= |a| ==> table[x, |b|] == 0)
    && forall x, y {:trigger table[x, y]} :: top <= x <= |a| && 0 <= y <= |b| ==> table[x, y] == Suffix(a, b, x, y)
  }

  method FillPrefixRow(a: seq<Text>, b: seq<Text>, table: array2<nat>, i: nat)
    requires i < |a| && PrefixRows(table, a, b, i + 1)
    modifies table
    ensures PrefixRows(table, a, b, i + 2)
  {
    for j := 0 to |b|
      invariant PrefixRows(table, a, b, i + 1)
      invariant forall y {:trigger table[i + 1, y]} :: 0 <= y <= j ==> table[i + 1, y] == Prefix(a, b, i + 1, y)
    {
      if a[i] == b[j] {
        table[i + 1, j + 1] := table[i, j] + 1;
      } else {
        table[i + 1, j + 1] := Max(table[i, j + 1], table[i + 1, j]);
      }
    }
  }

  method FillPrefix(a: seq<Text>, b: seq<Text>) returns (table: array2<nat>)
    ensures fresh(table) && PrefixRows(table, a, b, |a| + 1)
  {
    table := new nat[|a| + 1, |b| + 1]((_, _) => 0);
    for i := 0 to |a|
      invariant fresh(table) && PrefixRows(table, a, b, i + 1)
    {
      FillPrefixRow(a, b, table, i);
    }
  }

  method FillSuffixRow(a: seq<Text>, b: seq<Text>, table: array2<nat>, i: nat)
    requires i < |a| && SuffixRows(table, a, b, i + 1)
    modifies table
    ensures SuffixRows(table, a, b, i)
  {
    for j := |b| downto 0
      invariant SuffixRows(table, a, b, i + 1)
      invariant forall y {:trigger table[i, y]} :: j <= y <= |b| ==> table[i, y] == Suffix(a, b, i, y)
    {
      if a[i] == b[j] {
        table[i, j] := table[i + 1, j + 1] + 1;
      } else {
        table[i, j] := Max(table[i + 1, j], table[i, j + 1]);
      }
    }
  }

  method FillSuffix(a: seq<Text>, b: seq<Text>) returns (table: array2<nat>)
    ensures fresh(table) && SuffixRows(table, a, b, 0)
  {
    table := new nat[|a| + 1, |b| + 1]((_, _) => 0);
    for i := |a| downto 0
      invariant fresh(table) && SuffixRows(table, a, b, i)
    {
      FillSuffixRow(a, b, table, i);
    }
  }

  // ----- budgets -----

  lemma TimesMore(a: nat, b: nat, k: nat)
    requires a <= b
    ensures a * k <= b * k
  {
  }

  /** Dividing the budget by one side, as the source does, compares the number of cells with it. */
  lemma QuotientIsBudget(n: nat, k: nat, limit: nat)
    requires 0 < k
    ensures n > limit / k <==> n * k > limit
  {
    var q := limit / k;
    assert limit == q * k + limit % k;
    if n > q {
      TimesMore(q + 1, n, k);
      assert (q + 1) * k == q * k + k;
    } else {
      TimesMore(n, q, k);
    }
  }
}

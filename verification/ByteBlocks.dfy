/** The byte blocks in which two texts differ, separated by a longest common list of lines. */
module ByteBlocks {
  import opened Bytes
  import opened Alignment
  import opened LcsTables
  import opened Scripts

  const MAX_CELLS := 1_000_000

  datatype BlocksResult = Blocks(blocks: seq<Block>) | NoChanges | OverBudget

  /** The block holds a change, and trimming equal bytes at either edge would not shrink it. */
  ghost predicate Genuine(before: Text, after: Text, b: Block) {
    && b.oldStart <= b.oldEnd <= |before| && b.newStart <= b.newEnd <= |after|
    && (b.oldStart < b.oldEnd || b.newStart < b.newEnd)
    && (b.oldStart < b.oldEnd && b.newStart < b.newEnd ==>
          before[b.oldStart] != after[b.newStart] && before[b.oldEnd - 1] != after[b.newEnd - 1])
  }

  ghost predicate Edges(before: Text, after: Text, prefix: nat, suffix: nat) {
    && prefix + suffix <= |before| && prefix + suffix <= |after|
    && before[..prefix] == after[..prefix]
    && before[|before| - suffix..] == after[|after| - suffix..]
    && (prefix < |before| && prefix < |after| ==> before[prefix] != after[prefix])
    && (prefix + suffix < |before| && prefix + suffix < |after| ==>
          before[|before| - suffix - 1] != after[|after| - suffix - 1])
  }

  method CommonByteEdges(before: Text, after: Text) returns (prefix: nat, suffix: nat)
    ensures Edges(before, after, prefix, suffix)
  {
    prefix, suffix := 0, 0;
    while prefix < |before| && prefix < |after| && before[prefix] == after[prefix]
      invariant prefix <= |before| && prefix <= |after| && before[..prefix] == after[..prefix]
    {
      prefix := prefix + 1;
    }
    while suffix < |before| - prefix && suffix < |after| - prefix
      && before[|before| - suffix - 1] == after[|after| - suffix - 1]
      invariant prefix + suffix <= |before| && prefix + suffix <= |after|
      invariant before[|before| - suffix..] == after[|after| - suffix..]
    {
      suffix := suffix + 1;
    }
  }

  /** Different texts leave something between their common edges. */
  lemma EdgesOfDifferent(before: Text, after: Text, prefix: nat, suffix: nat)
    requires Edges(before, after, prefix, suffix)
    ensures prefix + suffix == |before| == |after| <==> before == after
  {
    if prefix + suffix == |before| == |after| {
      assert before == before[..prefix] + before[|before| - suffix..];
      assert after == after[..prefix] + after[|after| - suffix..];
    }
  }

  /** Where token i starts in the text of the tokens. */
  ghost function Offset(tokens: seq<Text>, i: nat): nat
    requires i <= |tokens|
  {
    |Concat(tokens[..i])|
  }

  lemma OffsetStep(tokens: seq<Text>, i: nat)
    requires i < |tokens|
    ensures Offset(tokens, i + 1) == Offset(tokens, i) + |tokens[i]|
  {
    assert tokens[..i + 1] == tokens[..i] + [tokens[i]];
    ConcatAppend(tokens[..i], [tokens[i]]);
    assert Concat([tokens[i]]) == tokens[i];
  }

  /** The bytes between two token starts are the text of the tokens between them. */
  lemma OffsetSlice(tokens: seq<Text>, i: nat, j: nat)
    requires i <= j <= |tokens|
    ensures Offset(tokens, i) <= Offset(tokens, j) <= |Concat(tokens)|
    ensures Concat(tokens)[Offset(tokens, i)..Offset(tokens, j)] == Concat(tokens[i..j])
    ensures Offset(tokens, |tokens|) == |Concat(tokens)|
  {
    hide Concat;
    ThreeLists(tokens, i, j);
    ConcatAppend(tokens[..i], tokens[i..j]);
    ConcatAppend(tokens[..j], tokens[j..]);
    MiddleOf(Concat(tokens[..i]), Concat(tokens[i..j]), Concat(tokens[j..]));
  }

  lemma ThreeLists(tokens: seq<Text>, i: nat, j: nat)
    requires i <= j <= |tokens|
    ensures tokens[..i] + tokens[i..j] == tokens[..j] && tokens[..j] + tokens[j..] == tokens
    ensures tokens[..|tokens|] == tokens
  {
  }

  lemma MiddleOf(a: Text, b: Text, c: Text)
    ensures (a + b + c)[|a|..|a| + |b|] == b
  {
  }

  lemma DropIsSlice(text: Text, at: nat)
    requires at <= |text|
    ensures text[at..] == text[at..|text|]
  {
  }

  lemma OffsetMonotone(tokens: seq<Text>, i: nat, j: nat)
    requires i <= j <= |tokens|
    ensures Offset(tokens, i) <= Offset(tokens, j)
  {
    OffsetSlice(tokens, i, j);
  }

  ghost predicate Between(before: Text, after: Text, prefix: nat, suffix: nat, b: Block) {
    && prefix <= b.oldStart <= b.oldEnd && b.oldEnd + suffix <= |before|
    && prefix <= b.newStart <= b.newEnd && b.newEnd + suffix <= |after|
  }

  /** The block lies between the common edges of the two texts. */
  ghost predicate InMiddle(before: Text, after: Text, b: Block) {
    exists prefix, suffix :: Edges(before, after, prefix, suffix) && Between(before, after, prefix, suffix, b)
  }

  /** The two texts, their common edges, and the lines of what lies between. */
  datatype Frame = Frame(before: Text, after: Text, prefix: nat, suffix: nat, oldLines: seq<Text>,
      newLines: seq<Text>) {
    ghost predicate Valid() {
      && Edges(before, after, prefix, suffix)
      && IsTokenList(oldLines) && Concat(oldLines) == before[prefix..|before| - suffix]
      && IsTokenList(newLines) && Concat(newLines) == after[prefix..|after| - suffix]
    }

    ghost function OldAt(i: nat): nat
      requires i <= |oldLines|
    {
      prefix + Offset(oldLines, i)
    }

    ghost function NewAt(j: nat): nat
      requires j <= |newLines|
    {
      prefix + Offset(newLines, j)
    }

    /** The positions stay inside the middle, and between two of them lie the lines between them. */
    lemma OldBetween(i: nat, j: nat)
      requires Valid() && i <= j <= |oldLines|
      ensures OldAt(i) <= OldAt(j) <= |before| - suffix && before[OldAt(i)..OldAt(j)] == Concat(oldLines[i..j])
      ensures OldAt(|oldLines|) == |before| - suffix
    {
      OffsetSlice(oldLines, i, j);
      SubSlice(before, prefix, Concat(oldLines), Offset(oldLines, i), Offset(oldLines, j));
    }

    lemma NewBetween(i: nat, j: nat)
      requires Valid() && i <= j <= |newLines|
      ensures NewAt(i) <= NewAt(j) <= |after| - suffix && after[NewAt(i)..NewAt(j)] == Concat(newLines[i..j])
      ensures NewAt(|newLines|) == |after| - suffix
    {
      OffsetSlice(newLines, i, j);
      SubSlice(after, prefix, Concat(newLines), Offset(newLines, i), Offset(newLines, j));
    }

    /** No block touches the bytes of a kept line, on either side. */
    ghost predicate Clear(b: Block, pair: Pair)
      requires pair.left < |oldLines| && pair.right < |newLines|
    {
      && (OldAt(pair.left + 1) <= b.oldStart || b.oldEnd <= OldAt(pair.left))
      && (NewAt(pair.right + 1) <= b.newStart || b.newEnd <= NewAt(pair.right))
    }

    ghost predicate KeepsClear(blocks: seq<Block>, kept: seq<Pair>) {
      && IsAlignment(oldLines, newLines, kept)
      && forall b, k :: b in blocks && 0 <= k < |kept| ==> Clear(b, kept[k])
    }

    ghost predicate AllGenuine(blocks: seq<Block>) {
      forall b :: b in blocks ==> Genuine(before, after, b)
    }

    /** No block reaches into the common prefix. */
    ghost predicate AllBehind(blocks: seq<Block>) {
      forall b :: b in blocks ==> prefix <= b.oldStart && prefix <= b.newStart
    }

    /** No block reaches into the common edges. */
    ghost predicate AllBetween(blocks: seq<Block>) {
      forall b :: b in blocks ==> Between(before, after, prefix, suffix, b)
    }
  }

  /**
   * How many blocks the walk from (i, j) ends, when `open` says that it stands inside one: as many as there are
   * stretches of lines that it skips.
   */
  ghost function Regions(a: seq<Text>, b: seq<Text>, i: nat, j: nat, open: bool): nat
    requires i <= |a| && j <= |b|
    decreases |a| - i + |b| - j
  {
    if i == |a| && j == |b| then (if open then 1 else 0)
    else if i < |a| && j < |b| && a[i] == b[j] then (if open then 1 else 0) + Regions(a, b, i + 1, j + 1, false)
    else if i < |a| && (j == |b| || Suffix(a, b, i + 1, j) >= Suffix(a, b, i, j + 1)) then Regions(a, b, i + 1, j, true)
    else Regions(a, b, i, j + 1, true)
  }

  /** The walk stands at (i, j), and its current block began at (bi, bj). */
  ghost predicate Walked(f: Frame, blocks: seq<Block>, kept: seq<Pair>, bi: nat, bj: nat, i: nat, j: nat) {
    && f.Valid() && bi <= i <= |f.oldLines| && bj <= j <= |f.newLines|
    && Ended(f, blocks, kept, bi, bj)
    && ((bi < i || bj < j) && bi < |f.oldLines| && bj < |f.newLines| ==> f.oldLines[bi] != f.newLines[bj])
    && |kept| + Suffix(f.oldLines, f.newLines, i, j) == Suffix(f.oldLines, f.newLines, 0, 0)
  }

  /** All blocks have ended at (i, j), and everything before it is accounted for. */
  ghost predicate Ended(f: Frame, blocks: seq<Block>, kept: seq<Pair>, i: nat, j: nat)
    requires i <= |f.oldLines| && j <= |f.newLines|
  {
    && Covers(f.before, f.after, blocks, f.OldAt(i), f.NewAt(j))
    && f.AllGenuine(blocks) && f.AllBehind(blocks)
    && (blocks == [] ==> i == 0 && j == 0)
    && f.KeepsClear(blocks, kept) && Inside(kept, Area(0, i, 0, j))
  }

  lemma {:induction false} TokensHaveBytes(tokens: seq<Text>, i: nat, j: nat)
    requires IsTokenList(tokens) && i <= j <= |tokens|
    ensures Offset(tokens, i) == Offset(tokens, j) <==> i == j
  {
    if i < j {
      OffsetStep(tokens, i);
      OffsetMonotone(tokens, i + 1, j);
      assert IsToken(tokens[i], i == |tokens| - 1);
    }
  }

  /** A region that starts with two different lines holds two different texts. */
  lemma RegionsDiffer(f: Frame, bi: nat, bj: nat, i: nat, j: nat)
    requires f.Valid() && bi <= i <= |f.oldLines| && bj <= j <= |f.newLines| && (bi < i || bj < j)
    requires bi < i && bj < j ==> f.oldLines[bi] != f.newLines[bj]
    ensures Concat(f.oldLines[bi..i]) != Concat(f.newLines[bj..j])
  {
    OffsetSlice(f.oldLines, bi, i);
    OffsetSlice(f.newLines, bj, j);
    TokensHaveBytes(f.oldLines, bi, i);
    TokensHaveBytes(f.newLines, bj, j);
    var olds, news := f.oldLines[bi..i], f.newLines[bj..j];
    if olds != [] && news != [] && Concat(olds) == Concat(news) {
      FirstTokenIsShared(olds, news);
    }
  }

  /** Trimming the common edges of two different regions leaves a genuine change. */
  lemma BlockIsGenuine(before: Text, after: Text, oldStart: nat, oldPos: nat, newStart: nat, newPos: nat, p: nat,
      s: nat)
    requires oldStart <= oldPos <= |before| && newStart <= newPos <= |after|
    requires Edges(before[oldStart..oldPos], after[newStart..newPos], p, s)
    requires before[oldStart..oldPos] != after[newStart..newPos]
    ensures Genuine(before, after, Block(oldStart + p, oldPos - s, newStart + p, newPos - s))
  {
    EdgesOfDifferent(before[oldStart..oldPos], after[newStart..newPos], p, s);
  }

  lemma PrefixCopied(before: Text, after: Text, oldStart: nat, oldPos: nat, newStart: nat, newPos: nat, p: nat, s: nat)
    requires oldStart <= oldPos <= |before| && newStart <= newPos <= |after|
    requires Edges(before[oldStart..oldPos], after[newStart..newPos], p, s)
    ensures oldStart + p + s <= oldPos && newStart + p + s <= newPos
    ensures before[oldStart..oldStart + p] == after[newStart..newStart + p]
  {
    SubSlice(before, oldStart, before[oldStart..oldPos], 0, p);
    SubSlice(after, newStart, after[newStart..newPos], 0, p);
  }

  lemma SuffixCopied(before: Text, after: Text, oldStart: nat, oldPos: nat, newStart: nat, newPos: nat, p: nat, s: nat)
    requires oldStart <= oldPos <= |before| && newStart <= newPos <= |after|
    requires Edges(before[oldStart..oldPos], after[newStart..newPos], p, s)
    ensures s <= oldPos && s <= newPos && before[oldPos - s..oldPos] == after[newPos - s..newPos]
  {
    SubSlice(before, oldStart, before[oldStart..oldPos], oldPos - oldStart - s, oldPos - oldStart);
    SubSlice(after, newStart, after[newStart..newPos], newPos - newStart - s, newPos - newStart);
  }

  /** A trimmed region continues the script up to the end of the region. */
  lemma BlockContinues(before: Text, after: Text, blocks: seq<Block>, oldStart: nat, oldPos: nat, newStart: nat,
      newPos: nat, p: nat, s: nat)
    requires oldStart <= oldPos <= |before| && newStart <= newPos <= |after|
    requires Edges(before[oldStart..oldPos], after[newStart..newPos], p, s)
    requires Covers(before, after, blocks, oldStart, newStart)
    ensures oldStart + p + s <= oldPos && newStart + p + s <= newPos
    ensures Covers(before, after, blocks + [Block(oldStart + p, oldPos - s, newStart + p, newPos - s)], oldPos, newPos)
  {
    hide Edges, Covers;
    PrefixCopied(before, after, oldStart, oldPos, newStart, newPos, p, s);
    SuffixCopied(before, after, oldStart, oldPos, newStart, newPos, p, s);
    CopyMore(before, after, blocks, oldStart, newStart, oldStart + p, newStart + p);
    AddBlock(before, after, blocks, Block(oldStart + p, oldPos - s, newStart + p, newPos - s), oldPos, newPos);
  }

  lemma BlockIsClear(f: Frame, b: Block, kept: seq<Pair>, bi: nat, bj: nat)
    requires bi <= |f.oldLines| && bj <= |f.newLines|
    requires IsAlignment(f.oldLines, f.newLines, kept) && Inside(kept, Area(0, bi, 0, bj))
    requires f.OldAt(bi) <= b.oldStart && f.NewAt(bj) <= b.newStart
    ensures forall k :: 0 <= k < |kept| ==> f.Clear(b, kept[k])
  {
    forall k | 0 <= k < |kept| ensures f.Clear(b, kept[k]) {
      OffsetMonotone(f.oldLines, kept[k].left + 1, bi);
      OffsetMonotone(f.newLines, kept[k].right + 1, bj);
    }
  }

  lemma KeepsClearMore(f: Frame, blocks: seq<Block>, b: Block, kept: seq<Pair>)
    requires f.KeepsClear(blocks, kept) && forall k :: 0 <= k < |kept| ==> f.Clear(b, kept[k])
    ensures f.KeepsClear(blocks + [b], kept)
  {
  }

  lemma OneMoreBlock(f: Frame, blocks: seq<Block>, b: Block)
    requires f.AllGenuine(blocks) && Genuine(f.before, f.after, b)
    requires f.AllBehind(blocks) && f.prefix <= b.oldStart && f.prefix <= b.newStart
    ensures f.AllGenuine(blocks + [b]) && f.AllBehind(blocks + [b])
  {
    hide Genuine;
  }

  lemma InsideLarger(kept: seq<Pair>, bi: nat, bj: nat, i: nat, j: nat)
    requires Inside(kept, Area(0, bi, 0, bj)) && bi <= i && bj <= j
    ensures Inside(kept, Area(0, i, 0, j))
  {
  }

  /** A trimmed region with different texts ends the block. */
  lemma BlockEnds(f: Frame, blocks: seq<Block>, kept: seq<Pair>, bi: nat, bj: nat, i: nat, j: nat, p: nat, s: nat)
    requires f.Valid() && bi <= i <= |f.oldLines| && bj <= j <= |f.newLines| && Ended(f, blocks, kept, bi, bj)
    requires f.OldAt(bi) <= f.OldAt(i) <= |f.before| && f.NewAt(bj) <= f.NewAt(j) <= |f.after|
    requires f.before[f.OldAt(bi)..f.OldAt(i)] != f.after[f.NewAt(bj)..f.NewAt(j)]
    requires Edges(f.before[f.OldAt(bi)..f.OldAt(i)], f.after[f.NewAt(bj)..f.NewAt(j)], p, s)
    ensures f.OldAt(bi) + p + s <= f.OldAt(i) && f.NewAt(bj) + p + s <= f.NewAt(j)
    ensures Ended(f, blocks + [Block(f.OldAt(bi) + p, f.OldAt(i) - s, f.NewAt(bj) + p, f.NewAt(j) - s)], kept, i, j)
  {
    hide Edges, Covers, Genuine, IsAlignment, Inside, Suffix, Offset, Frame.AllGenuine, Frame.AllBehind;
    BlockContinues(f.before, f.after, blocks, f.OldAt(bi), f.OldAt(i), f.NewAt(bj), f.NewAt(j), p, s);
    BlockIsGenuine(f.before, f.after, f.OldAt(bi), f.OldAt(i), f.NewAt(bj), f.NewAt(j), p, s);
    var b := Block(f.OldAt(bi) + p, f.OldAt(i) - s, f.NewAt(bj) + p, f.NewAt(j) - s);
    BlockIsClear(f, b, kept, bi, bj);
    KeepsClearMore(f, blocks, b, kept);
    OneMoreBlock(f, blocks, b);
    InsideLarger(kept, bi, bj, i, j);
  }

  /** The current block holds bytes exactly when it holds lines. */
  lemma NoLinesNoBytes(f: Frame, bi: nat, bj: nat, i: nat, j: nat)
    requires f.Valid() && bi <= i <= |f.oldLines| && bj <= j <= |f.newLines|
    ensures f.OldAt(bi) == f.OldAt(i) && f.NewAt(bj) == f.NewAt(j) <==> bi == i && bj == j
    ensures f.OldAt(bi) <= f.OldAt(i) <= |f.before| && f.NewAt(bj) <= f.NewAt(j) <= |f.after|
    ensures f.before[f.OldAt(bi)..f.OldAt(i)] == Concat(f.oldLines[bi..i])
    ensures f.after[f.NewAt(bj)..f.NewAt(j)] == Concat(f.newLines[bj..j])
  {
    f.OldBetween(bi, i);
    f.NewBetween(bj, j);
    TokensHaveBytes(f.oldLines, bi, i);
    TokensHaveBytes(f.newLines, bj, j);
  }

  /** Ends the current block at the walk's position, trimming its equal edges. */
  method Flush(f: Frame, blocks: seq<Block>, ghost bi: nat, ghost bj: nat, ghost i: nat, ghost j: nat,
               oldStart: nat, newStart: nat, oldPos: nat, newPos: nat, ghost kept: seq<Pair>)
    returns (extended: seq<Block>)
    requires Walked(f, blocks, kept, bi, bj, i, j) && (blocks == [] ==> bi < i || bj < j)
    requires oldStart == f.OldAt(bi) && oldPos == f.OldAt(i) && newStart == f.NewAt(bj) && newPos == f.NewAt(j)
    ensures Ended(f, extended, kept, i, j) && extended != []
    ensures |extended| == |blocks| + (if bi < i || bj < j then 1 else 0)
  {
    hide Edges, Covers, Genuine, IsAlignment, Inside, Suffix;
    NoLinesNoBytes(f, bi, bj, i, j);
    if oldStart == oldPos && newStart == newPos {
      return blocks;
    }
    var p, s := CommonByteEdges(f.before[oldStart..oldPos], f.after[newStart..newPos]);
    RegionsDiffer(f, bi, bj, i, j);
    BlockEnds(f, blocks, kept, bi, bj, i, j, p, s);
    extended := blocks + [Block(oldStart + p, oldPos - s, newStart + p, newPos - s)];
  }

  lemma MatchedLinesCopied(f: Frame, blocks: seq<Block>, i: nat, j: nat)
    requires f.Valid() && i < |f.oldLines| && j < |f.newLines| && f.oldLines[i] == f.newLines[j]
    requires Covers(f.before, f.after, blocks, f.OldAt(i), f.NewAt(j))
    ensures Covers(f.before, f.after, blocks, f.OldAt(i + 1), f.NewAt(j + 1))
  {
    hide Covers;
    f.OldBetween(i, i + 1);
    f.NewBetween(j, j + 1);
    assert f.oldLines[i..i + 1] == f.newLines[j..j + 1];
    CopyMore(f.before, f.after, blocks, f.OldAt(i), f.NewAt(j), f.OldAt(i + 1), f.NewAt(j + 1));
  }

  lemma MatchedLinesClear(f: Frame, blocks: seq<Block>, kept: seq<Pair>, i: nat, j: nat)
    requires i < |f.oldLines| && j < |f.newLines| && f.oldLines[i] == f.newLines[j]
    requires f.KeepsClear(blocks, kept) && Inside(kept, Area(0, i, 0, j))
    requires forall b :: b in blocks ==> b.oldEnd <= f.OldAt(i) && b.newEnd <= f.NewAt(j)
    ensures f.KeepsClear(blocks, kept + [Pair(i, j)]) && Inside(kept + [Pair(i, j)], Area(0, i + 1, 0, j + 1))
  {
    forall b, k | b in blocks && 0 <= k < |kept + [Pair(i, j)]| ensures f.Clear(b, (kept + [Pair(i, j)])[k]) {
    }
  }

  lemma BlocksEndBefore(f: Frame, blocks: seq<Block>, o: nat, n: nat)
    requires Covers(f.before, f.after, blocks, o, n)
    ensures forall b :: b in blocks ==> b.oldEnd <= o && b.newEnd <= n
  {
    BlocksAreOrdered(f.before, f.after, blocks, o, n);
  }

  /** Matching line i with line j starts the next block behind both. */
  lemma MatchLines(f: Frame, blocks: seq<Block>, kept: seq<Pair>, i: nat, j: nat)
    requires f.Valid() && i < |f.oldLines| && j < |f.newLines| && f.oldLines[i] == f.newLines[j]
    requires Ended(f, blocks, kept, i, j) && blocks != []
    requires |kept| + Suffix(f.oldLines, f.newLines, i, j) == Suffix(f.oldLines, f.newLines, 0, 0)
    ensures Walked(f, blocks, kept + [Pair(i, j)], i + 1, j + 1, i + 1, j + 1)
  {
    hide Covers, IsAlignment, Inside, Genuine, Edges;
    BlocksEndBefore(f, blocks, f.OldAt(i), f.NewAt(j));
    MatchedLinesCopied(f, blocks, i, j);
    MatchedLinesClear(f, blocks, kept, i, j);
  }

  /** Skipping the line the table prefers lengthens the current block on its side. */
  lemma SkipOld(f: Frame, blocks: seq<Block>, kept: seq<Pair>, bi: nat, bj: nat, i: nat, j: nat)
    requires Walked(f, blocks, kept, bi, bj, i, j) && i < |f.oldLines|
    requires j < |f.newLines| ==>
        && f.oldLines[i] != f.newLines[j]
        && Suffix(f.oldLines, f.newLines, i + 1, j) >= Suffix(f.oldLines, f.newLines, i, j + 1)
    ensures Walked(f, blocks, kept, bi, bj, i + 1, j) && f.OldAt(i + 1) == f.OldAt(i) + |f.oldLines[i]|
  {
    hide Ended, Edges;
    OffsetStep(f.oldLines, i);
  }

  lemma SkipNew(f: Frame, blocks: seq<Block>, kept: seq<Pair>, bi: nat, bj: nat, i: nat, j: nat)
    requires Walked(f, blocks, kept, bi, bj, i, j) && j < |f.newLines|
    requires i < |f.oldLines| ==>
        && f.oldLines[i] != f.newLines[j]
        && Suffix(f.oldLines, f.newLines, i + 1, j) < Suffix(f.oldLines, f.newLines, i, j + 1)
    ensures Walked(f, blocks, kept, bi, bj, i, j + 1) && f.NewAt(j + 1) == f.NewAt(j) + |f.newLines[j]|
  {
    hide Ended, Edges;
    OffsetStep(f.newLines, j);
  }

  lemma WalkStarts(f: Frame)
    requires f.Valid()
    ensures Walked(f, [], [], 0, 0, 0, 0)
  {
    assert f.before[..f.prefix] == f.after[..f.prefix];
  }

  /** Walks the table from the top left; matched lines end blocks, all others lengthen them. */
  method Walk(f: Frame, table: array2<nat>) returns (blocks: seq<Block>, ghost kept: seq<Pair>)
    requires f.Valid() && f.oldLines != [] && f.newLines != [] && f.oldLines[0] != f.newLines[0]
    requires SuffixRows(table, f.oldLines, f.newLines, 0)
    ensures Ended(f, blocks, kept, |f.oldLines|, |f.newLines|)
    ensures |kept| == Suffix(f.oldLines, f.newLines, 0, 0)
    ensures |blocks| == Regions(f.oldLines, f.newLines, 0, 0, false)
  {
    hide Covers, IsAlignment, Inside, Genuine, Edges;
    var n, m := |f.oldLines|, |f.newLines|;
    var oldPos, newPos, oldStart, newStart := f.prefix, f.prefix, f.prefix, f.prefix;
    var i, j := 0, 0;
    ghost var bi, bj := 0, 0;
    blocks, kept := [], [];
    WalkStarts(f);
    while i < n || j < m
      invariant Walked(f, blocks, kept, bi, bj, i, j)
      invariant |blocks| + Regions(f.oldLines, f.newLines, i, j, bi < i || bj < j)
          == Regions(f.oldLines, f.newLines, 0, 0, false)
      invariant oldStart == f.OldAt(bi) && oldPos == f.OldAt(i) && newStart == f.NewAt(bj) && newPos == f.NewAt(j)
      decreases n - i + m - j
    {
      if i < n && j < m && f.oldLines[i] == f.newLines[j] {
        blocks := Flush(f, blocks, bi, bj, i, j, oldStart, newStart, oldPos, newPos, kept);
        MatchLines(f, blocks, kept, i, j);
        OffsetStep(f.oldLines, i);
        OffsetStep(f.newLines, j);
        oldPos := oldPos + |f.oldLines[i]|;
        newPos := newPos + |f.newLines[j]|;
        kept := kept + [Pair(i, j)];
        i, j := i + 1, j + 1;
        oldStart, newStart, bi, bj := oldPos, newPos, i, j;
      } else if i < n && (j == m || table[i + 1, j] >= table[i, j + 1]) {
        SkipOld(f, blocks, kept, bi, bj, i, j);
        oldPos := oldPos + |f.oldLines[i]|;
        i := i + 1;
      } else {
        SkipNew(f, blocks, kept, bi, bj, i, j);
        newPos := newPos + |f.newLines[j]|;
        j := j + 1;
      }
    }
    blocks := Flush(f, blocks, bi, bj, i, j, oldStart, newStart, oldPos, newPos, kept);
  }

  lemma TailIsCopied(f: Frame, blocks: seq<Block>)
    requires Edges(f.before, f.after, f.prefix, f.suffix)
    requires Covers(f.before, f.after, blocks, |f.before| - f.suffix, |f.after| - f.suffix)
    ensures IsScript(f.before, f.after, blocks)
  {
    hide Covers;
    var o, n := |f.before| - f.suffix, |f.after| - f.suffix;
    DropIsSlice(f.before, o);
    DropIsSlice(f.after, n);
    CopyMore(f.before, f.after, blocks, o, n, |f.before|, |f.after|);
  }

  lemma KeptIsLongest(f: Frame, kept: seq<Pair>)
    requires IsAlignment(f.oldLines, f.newLines, kept) && |kept| == Suffix(f.oldLines, f.newLines, 0, 0)
    ensures IsLongest(f.oldLines, f.newLines, kept)
  {
    SuffixLength(f.oldLines, f.newLines);
    LongestLength(f.oldLines, f.newLines, kept);
  }

  /** The finished walk is a script of the two texts that keeps as many lines as possible. */
  lemma WalkedThrough(f: Frame, blocks: seq<Block>, kept: seq<Pair>)
    requires f.Valid() && Ended(f, blocks, kept, |f.oldLines|, |f.newLines|)
    requires |kept| == Suffix(f.oldLines, f.newLines, 0, 0)
    ensures IsScript(f.before, f.after, blocks) && IsLongest(f.oldLines, f.newLines, kept) && f.AllBetween(blocks)
  {
    BlocksEndBefore(f, blocks, f.OldAt(|f.oldLines|), f.NewAt(|f.newLines|));
    f.OldBetween(|f.oldLines|, |f.oldLines|);
    f.NewBetween(|f.newLines|, |f.newLines|);
    TailIsCopied(f, blocks);
    KeptIsLongest(f, kept);
  }

  /** What is left between the common edges of two texts. */
  function Middle(text: Text, prefix: nat, suffix: nat): Text
    requires prefix + suffix <= |text|
  {
    text[prefix..|text| - suffix]
  }

  function FrameOf(before: Text, after: Text, prefix: nat, suffix: nat): (f: Frame)
    requires Edges(before, after, prefix, suffix)
    ensures f.before == before && f.after == after && f.Valid()
    ensures f.oldLines == [] && f.newLines == [] <==> prefix + suffix == |before| == |after|
  {
    Frame(before, after, prefix, suffix, LineTokens(Middle(before, prefix, suffix)),
      LineTokens(Middle(after, prefix, suffix)))
  }

  predicate TooManyCells(n: nat, m: nat) {
    n + 1 > MAX_CELLS / (m + 1)
  }

  /** The blocks replay one text into the other, each is a genuine change between the common edges, and they leave
      alone a longest common list of the lines there. */
  ghost predicate IsBlockDiff(f: Frame, blocks: seq<Block>, kept: seq<Pair>) {
    && f.Valid() && IsScript(f.before, f.after, blocks) && blocks != []
    && f.AllGenuine(blocks) && f.AllBetween(blocks)
    && IsLongest(f.oldLines, f.newLines, kept) && f.KeepsClear(blocks, kept)
  }

  method ChangedByteBlocks(before: Text, after: Text) returns (r: BlocksResult, ghost f: Frame, ghost kept: seq<Pair>)
    ensures r.NoChanges? <==> before == after
    ensures f.before == before && f.after == after && f.Valid()
    ensures r.OverBudget? <==>
        f.oldLines != [] && f.newLines != [] && (|f.oldLines| + 1) * (|f.newLines| + 1) > 1_000_000
    ensures r.Blocks? ==> IsBlockDiff(f, r.blocks, kept) && |r.blocks| == Regions(f.oldLines, f.newLines, 0, 0, false)
  {
    var prefix, suffix := CommonByteEdges(before, after);
    EdgesOfDifferent(before, after, prefix, suffix);
    var frame := FrameOf(before, after, prefix, suffix);
    f, kept := frame, [];
    if frame.oldLines == [] && frame.newLines == [] {
      return NoChanges, f, kept;
    }
    BudgetIsProduct(|frame.oldLines|, |frame.newLines|);
    r, kept := DiffMiddle(frame);
  }

  method DiffMiddle(f: Frame) returns (r: BlocksResult, ghost kept: seq<Pair>)
    requires f.Valid() && !(f.oldLines == [] && f.newLines == [])
    ensures !r.NoChanges?
    ensures r.OverBudget? <==> f.oldLines != [] && f.newLines != [] && TooManyCells(|f.oldLines|, |f.newLines|)
    ensures r.Blocks? ==> IsBlockDiff(f, r.blocks, kept) && |r.blocks| == Regions(f.oldLines, f.newLines, 0, 0, false)
  {
    kept := [];
    if f.oldLines == [] || f.newLines == [] {
      WholeMiddle(f);
      OneRegion(f.oldLines, f.newLines, 0, 0, false);
      return Blocks([Block(f.prefix, |f.before| - f.suffix, f.prefix, |f.after| - f.suffix)]), kept;
    }
    var n, m := |f.oldLines|, |f.newLines|;
    if TooManyCells(n, m) {
      return OverBudget, kept;
    }
    CellBudget(n, m);
    FirstLinesDiffer(f);
    var table := FillSuffix(f.oldLines, f.newLines);
    var blocks;
    blocks, kept := Walk(f, table);
    WalkedThrough(f, blocks, kept);
    r := Blocks(blocks);
  }

  lemma MiddleScript(f: Frame)
    requires Edges(f.before, f.after, f.prefix, f.suffix)
    ensures IsScript(f.before, f.after, [Block(f.prefix, |f.before| - f.suffix, f.prefix, |f.after| - f.suffix)])
  {
    var o, n := |f.before| - f.suffix, |f.after| - f.suffix;
    assert Covers(f.before, f.after, [], f.prefix, f.prefix);
    DropIsSlice(f.before, o);
    DropIsSlice(f.after, n);
    AddBlock(f.before, f.after, [], Block(f.prefix, o, f.prefix, n), |f.before|, |f.after|);
    assert [] + [Block(f.prefix, o, f.prefix, n)] == [Block(f.prefix, o, f.prefix, n)];
  }

  /** When one side of the middle is empty the other is not, so the whole middle is a genuine change. */
  lemma MiddleIsGenuine(f: Frame)
    requires f.Valid() && (f.oldLines == [] || f.newLines == []) && !(f.oldLines == [] && f.newLines == [])
    ensures Genuine(f.before, f.after, Block(f.prefix, |f.before| - f.suffix, f.prefix, |f.after| - f.suffix))
  {
    TokensHaveBytes(f.oldLines, 0, |f.oldLines|);
    TokensHaveBytes(f.newLines, 0, |f.newLines|);
    OffsetSlice(f.oldLines, 0, |f.oldLines|);
    OffsetSlice(f.newLines, 0, |f.newLines|);
  }

  lemma NothingIsLongest(a: seq<Text>, b: seq<Text>)
    requires a == [] || b == []
    ensures IsLongest(a, b, [])
  {
    LongestLength(a, b, []);
  }

  lemma WholeMiddle(f: Frame)
    requires f.Valid() && (f.oldLines == [] || f.newLines == []) && !(f.oldLines == [] && f.newLines == [])
    ensures IsBlockDiff(f, [Block(f.prefix, |f.before| - f.suffix, f.prefix, |f.after| - f.suffix)], [])
  {
    MiddleScript(f);
    MiddleIsGenuine(f);
    NothingIsLongest(f.oldLines, f.newLines);
  }

  lemma CellBudget(n: nat, m: nat)
    requires !TooManyCells(n, m)
    ensures (n + 1) * (m + 1) <= 1_000_000
  {
  }

  lemma BudgetIsProduct(n: nat, m: nat)
    ensures TooManyCells(n, m) <==> (n + 1) * (m + 1) > 1_000_000
  {
    QuotientIsBudget(n + 1, m + 1, 1_000_000);
  }

  /** The middle starts with different bytes, hence with different lines. */
  lemma FirstLinesDiffer(f: Frame)
    requires f.Valid() && f.oldLines != [] && f.newLines != []
    ensures f.oldLines[0] != f.newLines[0]
  {
    assert IsToken(f.oldLines[0], |f.oldLines| == 1) && IsToken(f.newLines[0], |f.newLines| == 1);
    assert Concat(f.oldLines)[0] == f.oldLines[0][0] && Concat(f.newLines)[0] == f.newLines[0][0];
    assert f.before[f.prefix] == Concat(f.oldLines)[0] && f.after[f.prefix] == Concat(f.newLines)[0];
  }

  /** With an empty side everything is skipped at one stretch. */
  lemma {:induction false} OneRegion(a: seq<Text>, b: seq<Text>, i: nat, j: nat, open: bool)
    requires (a == [] || b == []) && i <= |a| && j <= |b| && (open || i < |a| || j < |b|)
    ensures Regions(a, b, i, j, open) == 1
    decreases |a| - i + |b| - j
  {
    if i < |a| {
      OneRegion(a, b, i + 1, j, true);
    } else if j < |b| {
      OneRegion(a, b, i, j + 1, true);
    }
  }

  // ----- what the texts alone decide -----

  lemma EdgesAreUnique(before: Text, after: Text, p: nat, s: nat, p': nat, s': nat)
    requires Edges(before, after, p, s) && Edges(before, after, p', s')
    ensures p == p' && s == s'
  {
    PrefixIsLongest(before, after, p, s, p', s');
    PrefixIsLongest(before, after, p', s', p, s);
    SuffixIsLongest(before, after, p, s, s');
    SuffixIsLongest(before, after, p, s', s);
  }

  lemma PrefixIsLongest(before: Text, after: Text, p: nat, s: nat, p': nat, s': nat)
    requires Edges(before, after, p, s) && Edges(before, after, p', s')
    ensures p' <= p
  {
    if p < p' {
      FirstBytesAgree(before, after, p', p);
    }
  }

  lemma SuffixIsLongest(before: Text, after: Text, p: nat, s: nat, s': nat)
    requires Edges(before, after, p, s) && Edges(before, after, p, s')
    ensures s' <= s
  {
    if s < s' {
      LastBytesAgree(before, after, s', s);
    }
  }

  lemma FirstBytesAgree(before: Text, after: Text, p: nat, k: nat)
    requires k < p <= |before| && p <= |after| && before[..p] == after[..p]
    ensures before[k] == after[k]
  {
    assert before[..p][k] == after[..p][k];
  }

  lemma LastBytesAgree(before: Text, after: Text, s: nat, k: nat)
    requires k < s <= |before| && s <= |after| && before[|before| - s..] == after[|after| - s..]
    ensures before[|before| - k - 1] == after[|after| - k - 1]
  {
    assert before[|before| - s..][s - k - 1] == after[|after| - s..][s - k - 1];
  }

  /** Two texts have one frame. */
  lemma FramesAgree(f: Frame, g: Frame)
    requires f.Valid() && g.Valid() && f.before == g.before && f.after == g.after
    ensures f == g
  {
    hide Edges;
    EdgesAreUnique(f.before, f.after, f.prefix, f.suffix, g.prefix, g.suffix);
    TokensAreUnique(f.oldLines, g.oldLines);
    TokensAreUnique(f.newLines, g.newLines);
  }

  ghost predicate IsFrameOf(f: Frame, before: Text, after: Text) { f.before == before && f.after == after && f.Valid() }

  /** The lines between the common edges of the two texts are too many to compare. */
  ghost predicate TooLarge(before: Text, after: Text) {
    exists f: Frame :: IsFrameOf(f, before, after) && f.oldLines != [] && f.newLines != []
      && (|f.oldLines| + 1) * (|f.newLines| + 1) > 1_000_000
  }

  /** The texts differ in several stretches of lines. */
  ghost predicate Scattered(before: Text, after: Text) {
    exists f: Frame :: IsFrameOf(f, before, after) && Regions(f.oldLines, f.newLines, 0, 0, false) > 1
  }

  lemma DecidedByFrame(f: Frame)
    requires f.Valid()
    ensures
      TooLarge(f.before, f.after) <==>
        f.oldLines != [] && f.newLines != [] && (|f.oldLines| + 1) * (|f.newLines| + 1) > 1_000_000
    ensures Scattered(f.before, f.after) <==> Regions(f.oldLines, f.newLines, 0, 0, false) > 1
  {
    assert IsFrameOf(f, f.before, f.after);
    forall g: Frame | IsFrameOf(g, f.before, f.after) ensures g == f {
      FramesAgree(f, g);
    }
  }

  // ----- stretches, as the alignments have them -----

  /** The stretches of skipped lines around and between the pairs of an alignment, from (i, j) to (m, n). */
  ghost function Gaps(pairs: seq<Pair>, i: nat, j: nat, m: nat, n: nat): nat {
    if pairs == [] then (if i < m || j < n then 1 else 0)
    else
      (if i < pairs[0].left || j < pairs[0].right then 1 else 0)
      + Gaps(pairs[1..], pairs[0].left + 1, pairs[0].right + 1, m, n)
  }

  /** The pairs that the walk from (i, j) keeps. */
  ghost function KeptFrom(a: seq<Text>, b: seq<Text>, i: nat, j: nat): seq<Pair>
    requires i <= |a| && j <= |b|
    decreases |a| - i + |b| - j
  {
    if i == |a| && j == |b| then []
    else if i < |a| && j < |b| && a[i] == b[j] then [Pair(i, j)] + KeptFrom(a, b, i + 1, j + 1)
    else if i < |a| && (j == |b| || Suffix(a, b, i + 1, j) >= Suffix(a, b, i, j + 1)) then KeptFrom(a, b, i + 1, j)
    else KeptFrom(a, b, i, j + 1)
  }

  /** The table prefers to skip the old line. */
  ghost predicate PrefersOld(a: seq<Text>, b: seq<Text>, i: nat, j: nat)
    requires i <= |a| && j <= |b|
  {
    i < |a| && (j == |b| || Suffix(a, b, i + 1, j) >= Suffix(a, b, i, j + 1))
  }

  ghost predicate Match(a: seq<Text>, b: seq<Text>, i: nat, j: nat) { i < |a| && j < |b| && a[i] == b[j] }

  lemma WalkMatches(a: seq<Text>, b: seq<Text>, i: nat, j: nat, open: bool)
    requires i <= |a| && j <= |b| && Match(a, b, i, j)
    ensures Regions(a, b, i, j, open) == (if open then 1 else 0) + Regions(a, b, i + 1, j + 1, false)
    ensures KeptFrom(a, b, i, j) == [Pair(i, j)] + KeptFrom(a, b, i + 1, j + 1)
    ensures Suffix(a, b, i, j) == Suffix(a, b, i + 1, j + 1) + 1
  {
  }

  lemma WalkSkipsOld(a: seq<Text>, b: seq<Text>, i: nat, j: nat, open: bool)
    requires i <= |a| && j <= |b| && !Match(a, b, i, j) && PrefersOld(a, b, i, j)
    ensures i < |a| && Regions(a, b, i, j, open) == Regions(a, b, i + 1, j, true)
    ensures KeptFrom(a, b, i, j) == KeptFrom(a, b, i + 1, j) && Suffix(a, b, i, j) == Suffix(a, b, i + 1, j)
  {
  }

  lemma WalkSkipsNew(a: seq<Text>, b: seq<Text>, i: nat, j: nat, open: bool)
    requires i <= |a| && j <= |b| && !Match(a, b, i, j) && !PrefersOld(a, b, i, j) && !(i == |a| && j == |b|)
    ensures j < |b| && Regions(a, b, i, j, open) == Regions(a, b, i, j + 1, true)
    ensures KeptFrom(a, b, i, j) == KeptFrom(a, b, i, j + 1) && Suffix(a, b, i, j) == Suffix(a, b, i, j + 1)
  {
  }

  lemma WalkEnds(a: seq<Text>, b: seq<Text>, open: bool)
    ensures Regions(a, b, |a|, |b|, open) == (if open then 1 else 0)
    ensures KeptFrom(a, b, |a|, |b|) == [] && Suffix(a, b, |a|, |b|) == 0
  {
  }

  lemma {:induction false} WalkKeepsLongest(a: seq<Text>, b: seq<Text>, i: nat, j: nat)
    requires i <= |a| && j <= |b|
    ensures var pairs := KeptFrom(a, b, i, j);
      IsAlignment(a, b, pairs) && Inside(pairs, Area(i, |a|, j, |b|)) && |pairs| == Suffix(a, b, i, j)
    decreases |a| - i + |b| - j
  {
    hide Suffix, KeptFrom, Regions, PrefersOld;
    if i == |a| && j == |b| {
      WalkEnds(a, b, false);
    } else if Match(a, b, i, j) {
      WalkMatches(a, b, i, j, false);
      WalkKeepsLongest(a, b, i + 1, j + 1);
    } else if PrefersOld(a, b, i, j) {
      WalkSkipsOld(a, b, i, j, false);
      WalkKeepsLongest(a, b, i + 1, j);
    } else {
      WalkSkipsNew(a, b, i, j, false);
      WalkKeepsLongest(a, b, i, j + 1);
    }
  }

  lemma {:induction false} RegionsAreGaps(a: seq<Text>, b: seq<Text>, top: nat, start: nat, i: nat, j: nat)
    requires top <= i <= |a| && start <= j <= |b|
    ensures Regions(a, b, i, j, top < i || start < j) == Gaps(KeptFrom(a, b, i, j), top, start, |a|, |b|)
    decreases |a| - i + |b| - j
  {
    hide Suffix, KeptFrom, Regions, PrefersOld, Gaps;
    var open := top < i || start < j;
    if i == |a| && j == |b| {
      WalkEnds(a, b, open);
      NoPairs(top, start, |a|, |b|);
    } else if Match(a, b, i, j) {
      WalkMatches(a, b, i, j, open);
      RegionsAreGaps(a, b, i + 1, j + 1, i + 1, j + 1);
      FirstPair(i, j, KeptFrom(a, b, i + 1, j + 1), top, start, |a|, |b|);
    } else if PrefersOld(a, b, i, j) {
      WalkSkipsOld(a, b, i, j, open);
      RegionsAreGaps(a, b, top, start, i + 1, j);
    } else {
      WalkSkipsNew(a, b, i, j, open);
      RegionsAreGaps(a, b, top, start, i, j + 1);
    }
  }

  lemma NoPairs(i: nat, j: nat, m: nat, n: nat)
    ensures Gaps([], i, j, m, n) == if i < m || j < n then 1 else 0
  {
  }

  lemma FirstPair(left: nat, right: nat, rest: seq<Pair>, i: nat, j: nat, m: nat, n: nat)
    ensures Gaps([Pair(left, right)] + rest, i, j, m, n)
      == (if i < left || j < right then 1 else 0) + Gaps(rest, left + 1, right + 1, m, n)
  {
    assert ([Pair(left, right)] + rest)[1..] == rest;
  }

  ghost predicate LeavesStretches(f: Frame, pairs: seq<Pair>, many: bool) {
    Gaps(pairs, 0, 0, |f.oldLines|, |f.newLines|) > 1 <==> many
  }

  /** Some longest alignment of the lines leaves several stretches, or only one, as `many` says. */
  ghost predicate SomeLongestLeaves(f: Frame, many: bool) {
    exists pairs :: IsLongest(f.oldLines, f.newLines, pairs) && LeavesStretches(f, pairs, many)
  }

  /**
   * Texts are only called scattered when some longest alignment leaves several stretches, and always when all do; in
   * between, the order in which the walk breaks ties decides.
   */
  lemma ScatteredAsAligned(f: Frame)
    requires f.Valid()
    ensures Scattered(f.before, f.after) ==> SomeLongestLeaves(f, true)
    ensures !Scattered(f.before, f.after) ==> SomeLongestLeaves(f, false)
  {
    hide Regions, Gaps, IsAlignment, IsLongest, Edges, Scattered, KeptFrom, Suffix, Inside;
    var pairs := KeptFrom(f.oldLines, f.newLines, 0, 0);
    DecidedByFrame(f);
    WalkKeepsLongest(f.oldLines, f.newLines, 0, 0);
    KeptIsLongest(f, pairs);
    RegionsAreGaps(f.oldLines, f.newLines, 0, 0, 0, 0);
    if Scattered(f.before, f.after) {
      assert LeavesStretches(f, pairs, true);
    } else {
      assert LeavesStretches(f, pairs, false);
    }
  }
}

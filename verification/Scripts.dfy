/** Ordered byte replacements: building left to right, splicing right to left, and block scripts. */
module Scripts {
  import opened Bytes

  /** Bytes [start, end) give way to `text`. */
  datatype Replacement = Replacement(start: nat, end: nat, text: Text)

  function WithoutLast<T>(s: seq<T>): seq<T>
    requires s != []
  {
    s[..|s| - 1]
  }

  function Last<T>(s: seq<T>): T
    requires s != []
  {
    s[|s| - 1]
  }

  function End(reps: seq<Replacement>): nat {
    if reps == [] then 0 else Last(reps).end
  }

  /** In range, in order and without overlap. */
  ghost predicate Ordered(size: nat, reps: seq<Replacement>) {
    reps == [] ||
    (Ordered(size, WithoutLast(reps)) && End(WithoutLast(reps)) <= Last(reps).start <= Last(reps).end <= size)
  }

  /** What a left-to-right builder has written after the last replacement. */
  ghost function Built(original: Text, reps: seq<Replacement>): Text
    requires Ordered(|original|, reps)
  {
    if reps == [] then []
    else Built(original, WithoutLast(reps)) + original[End(WithoutLast(reps))..Last(reps).start] + Last(reps).text
  }

  lemma {:induction false} EndFits(size: nat, reps: seq<Replacement>)
    requires Ordered(size, reps)
    ensures End(reps) <= size
  {
  }

  /** The original with every replacement made. */
  ghost function ReplaceAll(original: Text, reps: seq<Replacement>): Text
    requires Ordered(|original|, reps)
  {
    Built(original, reps) + original[End(reps)..]
  }

  function Splice(text: Text, rep: Replacement): Text
    requires rep.start <= rep.end <= |text|
  {
    text[..rep.start] + rep.text + text[rep.end..]
  }

  /** Only the bytes before the last replacement's end are read. */
  lemma {:induction false} BuiltReadsPrefix(original: Text, other: Text, reps: seq<Replacement>)
    requires Ordered(|original|, reps) && End(reps) <= |other| && original[..End(reps)] == other[..End(reps)]
    ensures Ordered(|other|, reps) && Built(other, reps) == Built(original, reps)
  {
    if reps != [] {
      var front, rep := WithoutLast(reps), Last(reps);
      EndFits(|original|, front);
      assert original[..End(front)] == original[..rep.end][..End(front)];
      assert other[..End(front)] == other[..rep.end][..End(front)];
      BuiltReadsPrefix(original, other, front);
      assert original[End(front)..rep.start] == original[..rep.end][End(front)..rep.start];
      assert other[End(front)..rep.start] == other[..rep.end][End(front)..rep.start];
    }
  }

  /** Making the last replacement first does not disturb the others. */
  lemma SpliceLastFirst(original: Text, reps: seq<Replacement>)
    requires reps != [] && Ordered(|original|, reps)
    ensures Ordered(|Splice(original, Last(reps))|, WithoutLast(reps))
    ensures ReplaceAll(Splice(original, Last(reps)), WithoutLast(reps)) == ReplaceAll(original, reps)
  {
    var front, rep := WithoutLast(reps), Last(reps);
    var spliced := Splice(original, rep);
    EndFits(|original|, front);
    assert original[..End(front)] == spliced[..End(front)];
    BuiltReadsPrefix(original, spliced, front);
    assert spliced[End(front)..] == original[End(front)..rep.start] + rep.text + original[rep.end..];
  }

  // ----- block scripts -----

  /** Bytes [oldStart, oldEnd) of the old text correspond to bytes [newStart, newEnd) of the new one. */
  datatype Block = Block(oldStart: nat, oldEnd: nat, newStart: nat, newEnd: nat)

  /** The blocks account for old[..o] and new[..n]: everything between them is copied. */
  ghost predicate Covers(before: Text, after: Text, blocks: seq<Block>, o: nat, n: nat) {
    && o <= |before| && n <= |after|
    && if blocks == [] then before[..o] == after[..n]
       else var b := Last(blocks);
         && b.oldStart <= b.oldEnd <= o && b.newStart <= b.newEnd <= n
         && before[b.oldEnd..o] == after[b.newEnd..n]
         && Covers(before, after, WithoutLast(blocks), b.oldStart, b.newStart)
  }

  /** The whole of both texts is accounted for. */
  ghost predicate IsScript(before: Text, after: Text, blocks: seq<Block>) {
    Covers(before, after, blocks, |before|, |after|)
  }

  ghost function AsReplacements(after: Text, blocks: seq<Block>): (reps: seq<Replacement>)
    requires forall k :: 0 <= k < |blocks| ==> blocks[k].newStart <= blocks[k].newEnd <= |after|
    ensures |reps| == |blocks|
  {
    seq(|blocks|, k requires 0 <= k < |blocks| =>
      Replacement(blocks[k].oldStart, blocks[k].oldEnd, after[blocks[k].newStart..blocks[k].newEnd]))
  }

  ghost predicate InRange(after: Text, blocks: seq<Block>) {
    forall k :: 0 <= k < |blocks| ==> blocks[k].newStart <= blocks[k].newEnd <= |after|
  }

  lemma InRangeOf(before: Text, after: Text, blocks: seq<Block>, o: nat, n: nat)
    requires Covers(before, after, blocks, o, n)
    ensures InRange(after, blocks)
  {
    BlocksAreOrdered(before, after, blocks, o, n);
  }

  lemma LastReplaced(after: Text, blocks: seq<Block>)
    requires blocks != [] && InRange(after, blocks)
    ensures InRange(after, WithoutLast(blocks))
    ensures WithoutLast(AsReplacements(after, blocks)) == AsReplacements(after, WithoutLast(blocks))
    ensures Last(AsReplacements(after, blocks)) ==
      Replacement(Last(blocks).oldStart, Last(blocks).oldEnd, after[Last(blocks).newStart..Last(blocks).newEnd])
  {
  }

  lemma ReplayMore(before: Text, after: Text, reps: seq<Replacement>, b: Block, o: nat, n: nat)
    requires reps != [] && Ordered(|before|, WithoutLast(reps))
    requires End(WithoutLast(reps)) <= b.oldStart <= b.oldEnd <= o <= |before|
    requires b.newStart <= b.newEnd <= n <= |after| && before[b.oldEnd..o] == after[b.newEnd..n]
    requires Last(reps) == Replacement(b.oldStart, b.oldEnd, after[b.newStart..b.newEnd])
    requires Built(before, WithoutLast(reps)) + before[End(WithoutLast(reps))..b.oldStart] == after[..b.newStart]
    ensures Ordered(|before|, reps) && End(reps) <= o && Built(before, reps) + before[End(reps)..o] == after[..n]
  {
    var text := after[b.newStart..b.newEnd];
    assert Built(before, reps) == after[..b.newStart] + text;
    ThreeSlices(after, b.newStart, b.newEnd, n);
  }

  lemma ThreeSlices(text: Text, i: nat, j: nat, n: nat)
    requires i <= j <= n <= |text|
    ensures text[..i] + text[i..j] + text[j..n] == text[..n]
  {
  }

  /** Replaying a covering list of blocks gives exactly the covered part of the new text. */
  lemma {:induction false} CoveredReplays(before: Text, after: Text, blocks: seq<Block>, o: nat, n: nat)
    requires Covers(before, after, blocks, o, n)
    ensures InRange(after, blocks)
    ensures var reps := AsReplacements(after, blocks);
      Ordered(|before|, reps) && End(reps) <= o && Built(before, reps) + before[End(reps)..o] == after[..n]
  {
    if blocks != [] {
      var front, b := WithoutLast(blocks), Last(blocks);
      CoveredReplays(before, after, front, b.oldStart, b.newStart);
      InRangeOf(before, after, blocks, o, n);
      LastReplaced(after, blocks);
      ReplayMore(before, after, AsReplacements(after, blocks), b, o, n);
    }
  }

  /** A script replays the old text into exactly the new text. */
  lemma ScriptReplays(before: Text, after: Text, blocks: seq<Block>)
    requires IsScript(before, after, blocks)
    ensures InRange(after, blocks)
    ensures var reps := AsReplacements(after, blocks);
      Ordered(|before|, reps) && ReplaceAll(before, reps) == after
  {
    CoveredReplays(before, after, blocks, |before|, |after|);
    var reps := AsReplacements(after, blocks);
    assert before[End(reps)..] == before[End(reps)..|before|];
    assert after[..|after|] == after;
  }

  /** Blocks stand in order, each inside the covered part. */
  lemma {:induction false} BlocksAreOrdered(before: Text, after: Text, blocks: seq<Block>, o: nat, n: nat)
    requires Covers(before, after, blocks, o, n)
    ensures forall k :: 0 <= k < |blocks| ==>
      blocks[k].oldStart <= blocks[k].oldEnd <= o && blocks[k].newStart <= blocks[k].newEnd <= n
    ensures forall k, l :: 0 <= k < l < |blocks| ==>
      blocks[k].oldEnd <= blocks[l].oldStart && blocks[k].newEnd <= blocks[l].newStart
  {
    if blocks != [] {
      BlocksAreOrdered(before, after, WithoutLast(blocks), Last(blocks).oldStart, Last(blocks).newStart);
    }
  }

  /** A copied stretch extends the covered part. */
  lemma CopyMore(before: Text, after: Text, blocks: seq<Block>, o: nat, n: nat, o': nat, n': nat)
    requires Covers(before, after, blocks, o, n)
    requires o <= o' <= |before| && n <= n' <= |after| && before[o..o'] == after[n..n']
    ensures Covers(before, after, blocks, o', n')
  {
    if blocks == [] {
      assert before[..o'] == before[..o] + before[o..o'];
      assert after[..n'] == after[..n] + after[n..n'];
    } else {
      var b := Last(blocks);
      assert before[b.oldEnd..o'] == before[b.oldEnd..o] + before[o..o'];
      assert after[b.newEnd..n'] == after[b.newEnd..n] + after[n..n'];
    }
  }

  /** A block may follow at the edge of the covered part. */
  lemma AddBlock(before: Text, after: Text, blocks: seq<Block>, b: Block, o: nat, n: nat)
    requires Covers(before, after, blocks, b.oldStart, b.newStart)
    requires b.oldStart <= b.oldEnd <= o <= |before| && b.newStart <= b.newEnd <= n <= |after|
    requires before[b.oldEnd..o] == after[b.newEnd..n]
    ensures Covers(before, after, blocks + [b], o, n)
  {
    assert WithoutLast(blocks + [b]) == blocks;
  }

  function Shift(b: Block, o: nat, n: nat): Block {
    Block(o + b.oldStart, o + b.oldEnd, n + b.newStart, n + b.newEnd)
  }

  function ShiftAll(blocks: seq<Block>, o: nat, n: nat): seq<Block> {
    seq(|blocks|, k requires 0 <= k < |blocks| => Shift(blocks[k], o, n))
  }

  lemma SubSlice(text: Text, at: nat, part: Text, x: nat, y: nat)
    requires at + |part| <= |text| && text[at..at + |part|] == part && x <= y <= |part|
    ensures text[at + x..at + y] == part[x..y]
  {
    forall k | 0 <= k < y - x ensures text[at + x..at + y][k] == part[x..y][k] {
      assert text[at..at + |part|][x + k] == text[at + (x + k)];
    }
  }

  lemma ShiftLast(blocks: seq<Block>, inner: seq<Block>, o: nat, n: nat)
    requires inner != []
    ensures blocks + ShiftAll(inner, o, n) == blocks + ShiftAll(WithoutLast(inner), o, n) + [Shift(Last(inner), o, n)]
  {
    assert ShiftAll(inner, o, n) == ShiftAll(WithoutLast(inner), o, n) + [Shift(Last(inner), o, n)];
  }

  /** Both parts stand where they are said to. */
  predicate PartsAt(before: Text, after: Text, part: Text, newPart: Text, o: nat, n: nat) {
    && o + |part| <= |before| && before[o..o + |part|] == part
    && n + |newPart| <= |after| && after[n..n + |newPart|] == newPart
  }

  lemma PartSlices(before: Text, after: Text, part: Text, newPart: Text, o: nat, n: nat, i: nat, i': nat, j: nat,
      j': nat)
    requires PartsAt(before, after, part, newPart, o, n) && i <= i' <= |part| && j <= j' <= |newPart|
    requires part[i..i'] == newPart[j..j']
    ensures before[o + i..o + i'] == after[n + j..n + j']
  {
    SubSlice(before, o, part, i, i');
    SubSlice(after, n, newPart, j, j');
  }

  lemma EmbedCopied(before: Text, after: Text, blocks: seq<Block>, o: nat, n: nat, part: Text, newPart: Text, i: nat,
      j: nat)
    requires Covers(before, after, blocks, o, n) && PartsAt(before, after, part, newPart, o, n)
    requires Covers(part, newPart, [], i, j)
    ensures Covers(before, after, blocks, o + i, n + j)
  {
    PartSlices(before, after, part, newPart, o, n, 0, i, 0, j);
    CopyMore(before, after, blocks, o, n, o + i, n + j);
  }

  lemma EmbedBlock(before: Text, after: Text, blocks: seq<Block>, o: nat, n: nat, part: Text, newPart: Text,
      b: Block, i: nat, j: nat)
    requires PartsAt(before, after, part, newPart, o, n)
    requires Covers(before, after, blocks, o + b.oldStart, n + b.newStart)
    requires b.oldStart <= b.oldEnd <= i <= |part| && b.newStart <= b.newEnd <= j <= |newPart|
    requires part[b.oldEnd..i] == newPart[b.newEnd..j]
    ensures Covers(before, after, blocks + [Shift(b, o, n)], o + i, n + j)
  {
    PartSlices(before, after, part, newPart, o, n, b.oldEnd, i, b.newEnd, j);
    AddBlock(before, after, blocks, Shift(b, o, n), o + i, n + j);
  }

  /** A script of a part, moved to where the part stands, extends the script of what came before. */
  lemma {:induction false} Embed(before: Text, after: Text, blocks: seq<Block>, o: nat, n: nat,
                                 part: Text, newPart: Text, inner: seq<Block>, i: nat, j: nat)
    requires Covers(before, after, blocks, o, n) && PartsAt(before, after, part, newPart, o, n)
    requires Covers(part, newPart, inner, i, j)
    ensures Covers(before, after, blocks + ShiftAll(inner, o, n), o + i, n + j)
  {
    if inner == [] {
      EmbedCopied(before, after, blocks, o, n, part, newPart, i, j);
      assert blocks + ShiftAll(inner, o, n) == blocks;
    } else {
      var b := Last(inner);
      Embed(before, after, blocks, o, n, part, newPart, WithoutLast(inner), b.oldStart, b.newStart);
      EmbedBlock(before, after, blocks + ShiftAll(WithoutLast(inner), o, n), o, n, part, newPart, b, i, j);
      ShiftLast(blocks, inner, o, n);
    }
  }

  // ----- scripts of replaced texts -----

  /** What the builder has written so far is a front of the final text. */
  lemma {:induction false} BuiltIsFront(original: Text, reps: seq<Replacement>, k: nat)
    requires Ordered(|original|, reps) && k <= |reps|
    ensures Ordered(|original|, reps[..k])
    ensures Built(original, reps[..k]) <= Built(original, reps)
    ensures End(reps[..k]) <= End(reps)
    decreases |reps| - k
  {
    if k == |reps| {
      assert reps[..k] == reps;
    } else {
      var front := WithoutLast(reps);
      assert reps[..k] == front[..k];
      BuiltIsFront(original, front, k);
    }
  }

  /** How far the new text runs ahead of the old one before replacement k. */
  function Lead(reps: seq<Replacement>, k: nat): int
    requires k <= |reps|
  {
    if k == 0 then 0 else Lead(reps, k - 1) + |reps[k - 1].text| - (reps[k - 1].end - reps[k - 1].start)
  }

  lemma {:induction false} LeadIsLength(original: Text, reps: seq<Replacement>, k: nat)
    requires Ordered(|original|, reps) && k <= |reps|
    ensures Ordered(|original|, reps[..k]) && |Built(original, reps[..k])| == End(reps[..k]) + Lead(reps, k)
  {
    BuiltIsFront(original, reps, k);
    if k > 0 {
      LeadIsLength(original, reps, k - 1);
      assert WithoutLast(reps[..k]) == reps[..k - 1];
    }
  }

  /** The replacements before k are accounted for, up to the end of the last of them. */
  ghost predicate CoversFirst(original: Text, final: Text, reps: seq<Replacement>, blocks: seq<Block>, k: nat)
    requires k <= |reps|
  {
    var o := End(reps[..k]);
    0 <= o + Lead(reps, k) && Covers(original, final, blocks, o, o + Lead(reps, k))
  }

  /** Where replacement k, and the stretch before it, stand in both texts. */
  ghost predicate Placed(original: Text, final: Text, reps: seq<Replacement>, k: nat)
    requires k < |reps|
  {
    var r, o, lead := reps[k], End(reps[..k]), Lead(reps, k);
    && o <= r.start <= r.end <= |original| && 0 <= o + lead && r.start + lead + |r.text| <= |final|
    && original[o..r.start] == final[o + lead..r.start + lead]
    && final[r.start + lead..r.start + lead + |r.text|] == r.text
  }

  lemma FrontAddsOne(original: Text, reps: seq<Replacement>, k: nat)
    requires Ordered(|original|, reps) && k < |reps|
    ensures Ordered(|original|, reps[..k]) && End(reps[..k]) <= reps[k].start <= reps[k].end <= |original|
    ensures
      Built(original, reps[..k]) + original[End(reps[..k])..reps[k].start] + reps[k].text <= ReplaceAll(original, reps)
  {
    BuiltIsFront(original, reps, k + 1);
    assert WithoutLast(reps[..k + 1]) == reps[..k] && Last(reps[..k + 1]) == reps[k];
  }

  lemma ReplacementsArePlaced(original: Text, reps: seq<Replacement>, k: nat)
    requires Ordered(|original|, reps) && k < |reps|
    ensures Placed(original, ReplaceAll(original, reps), reps, k)
  {
    LeadIsLength(original, reps, k);
    FrontAddsOne(original, reps, k);
    ThreeParts(ReplaceAll(original, reps), Built(original, reps[..k]), original[End(reps[..k])..reps[k].start],
      reps[k].text);
  }

  lemma ThreeParts(final: Text, a: Text, b: Text, c: Text)
    requires a + b + c <= final
    ensures |a| + |b| + |c| <= |final|
    ensures final[|a|..|a| + |b|] == b && final[|a| + |b|..|a| + |b| + |c|] == c
  {
    var whole := a + b + c;
    assert final[..|whole|] == whole;
    assert whole[|a|..|a| + |b|] == b && whole[|a| + |b|..] == c;
  }

  /** A copied stretch and then a script of what replaces the next part. */
  lemma Continue(before: Text, after: Text, blocks: seq<Block>, o: nat, n: nat,
                 start: nat, end: nat, at: nat, text: Text, inner: seq<Block>)
    requires Covers(before, after, blocks, o, n)
    requires o <= start <= end <= |before| && n <= at && at + |text| <= |after|
    requires before[o..start] == after[n..at] && after[at..at + |text|] == text
    requires IsScript(before[start..end], text, inner)
    ensures Covers(before, after, blocks + ShiftAll(inner, start, at), end, at + |text|)
  {
    CopyMore(before, after, blocks, o, n, start, at);
    Embed(before, after, blocks, start, at, before[start..end], text, inner, end - start, |text|);
  }

  /** A script of replacement k, moved by the running lead, continues the script of the whole. */
  lemma NextReplacement(original: Text, final: Text, reps: seq<Replacement>, blocks: seq<Block>, k: nat,
      inner: seq<Block>)
    requires k < |reps| && Placed(original, final, reps, k) && CoversFirst(original, final, reps, blocks, k)
    requires IsScript(original[reps[k].start..reps[k].end], reps[k].text, inner)
    ensures 0 <= reps[k].start + Lead(reps, k)
    ensures CoversFirst(original, final, reps, blocks + ShiftAll(inner, reps[k].start,
        reps[k].start + Lead(reps, k)), k + 1)
  {
    var r, o, lead := reps[k], End(reps[..k]), Lead(reps, k);
    assert Last(reps[..k + 1]) == r && End(reps[..k + 1]) == r.end;
    assert Lead(reps, k + 1) == lead + |r.text| - (r.end - r.start);
    Continue(original, final, blocks, o, o + lead, r.start, r.end, r.start + lead, r.text, inner);
  }

  /** What follows the last replacement is copied. */
  lemma LastReplacement(original: Text, reps: seq<Replacement>, blocks: seq<Block>)
    requires Ordered(|original|, reps) && CoversFirst(original, ReplaceAll(original, reps), reps, blocks, |reps|)
    ensures IsScript(original, ReplaceAll(original, reps), blocks)
  {
    assert reps[..|reps|] == reps;
    LeadIsLength(original, reps, |reps|);
    var final, o := ReplaceAll(original, reps), End(reps);
    var n := |Built(original, reps)|;
    EndFits(|original|, reps);
    assert original[o..] == original[o..|original|];
    assert final[n..|final|] == original[o..];
    CopyMore(original, final, blocks, o, n, |original|, |final|);
  }
}

/** Edits that each keep their own share of the held lines in place keep the lines, however many they are. */
module HoldShares {
  import opened Bytes
  import opened Scripts
  import opened LineRanges
  import opened Substitution
  import opened HoldChecks

  function Later(x: int, y: int): int { if x < y then y else x }

  function Earlier(x: int, y: int): int { if x < y then x else y }

  /**
   * The new text has the bytes of the lines that the replacement takes away: at its front unless the lines begin
   * there, at its back unless they end there. A last line without a newline gains nothing.
   */
  ghost predicate HasShareAt(original: Text, rep: Replacement, start: nat, stop: nat, c: nat)
    requires start < stop <= |original| && rep.start <= rep.end <= |original|
  {
    var low, high := Later(rep.start, start), Earlier(rep.end, stop);
    low < high ==>
      && OccursAt(rep.text, original[low..high], c)
      && (start < rep.start ==> c == 0)
      && (rep.end < stop ==> c + (high - low) == |rep.text|)
      && (stop <= rep.end ==> LinesAt(rep.text, original[low..high], c))
  }

  ghost predicate HasShare(original: Text, rep: Replacement, start: nat, stop: nat) {
    && start < stop <= |original| && rep.start <= rep.end <= |original|
    && exists c: nat :: HasShareAt(original, rep, start, stop, c)
  }

  /** Up to byte x the lines are written: their front at the end of the text so far, or all of them somewhere. */
  ghost predicate WrittenTo(text: Text, original: Text, start: nat, stop: nat, x: nat)
    requires start < stop <= |original|
  {
    if x < start then true
    else if x < stop then x - start <= |text| && text[|text| - (x - start)..] == original[start..x]
    else HasLines(text, original[start..stop])
  }

  lemma {:induction false} SharesAreWritten(original: Text, reps: seq<Replacement>, start: nat, stop: nat, x: nat)
    requires Ordered(|original|, reps) && End(reps) <= x <= |original| && WholeLines(original, start, stop)
    requires forall i :: 0 <= i < |reps| ==> reps[i].start < reps[i].end && HasShare(original, reps[i], start, stop)
    ensures WrittenTo(Written(original, reps, x), original, start, stop, x)
  {
    if reps == [] {
      NothingYet(original, start, stop, x);
    } else {
      var front, r := WithoutLast(reps), Last(reps);
      SharesAreWritten(original, front, start, stop, r.start);
      WrittenStep(original, reps, x);
      assert HasShare(original, r, start, stop);
      var c: nat :| HasShareAt(original, r, start, stop, c);
      ShareIsWritten(original, Written(original, front, r.start), r, start, stop, c, x);
    }
  }

  lemma NothingYet(original: Text, start: nat, stop: nat, x: nat)
    requires x <= |original| && WholeLines(original, start, stop)
    ensures WrittenTo(Written(original, [], x), original, start, stop, x)
  {
    var text := Written(original, [], x);
    assert text == original[..x];
    if start <= x < stop {
      assert text[start..] == original[start..x];
    } else if stop <= x {
      assert text[start..stop] == original[start..stop];
      assert LinesAt(text, original[start..stop], start);
    }
  }

  /** One more replacement, and what stays as it was behind it. */
  lemma ShareIsWritten(original: Text, text: Text, r: Replacement, start: nat, stop: nat, c: nat, x: nat)
    requires WholeLines(original, start, stop) && r.start < r.end <= x <= |original|
    requires WrittenTo(text, original, start, stop, r.start) && HasShareAt(original, r, start, stop, c)
    ensures WrittenTo(text + (r.text + original[r.end..x]), original, start, stop, x)
  {
    var more := text + (r.text + original[r.end..x]);
    if r.end <= start {
      BehindReplacement(original, text + r.text, r.end, start, stop, x);
      assert more == text + r.text + original[r.end..x];
    } else if stop <= r.start {
      LinesStayBefore(text, r.text + original[r.end..x], original[start..stop]);
    } else {
      ShareFollows(original, text, r, start, stop, c);
      Associates(text, r.text, original[r.end..x]);
      if r.end < stop {
        WrittenFurther(original, text + r.text, r.end, start, stop, x);
      } else {
        ShareEndsLines(original, text, r, start, stop, c);
        if EndsLine(original[start..stop]) {
          LinesStayBefore(text + r.text, original[r.end..x], original[start..stop]);
        } else {
          assert text + r.text + original[r.end..x] == text + r.text;
        }
      }
    }
  }

  function PlaceOfLines(text: Text, r: Replacement, start: nat, c: nat): int {
    if start < r.start then |text| - (r.start - start) else |text| + c
  }

  lemma SlicesJoin(text: Text, i: nat, j: nat, k: nat)
    requires i <= j <= k <= |text|
    ensures text[i..k] == text[i..j] + text[j..k]
  {
  }

  lemma OccursBetween(text: Text, a: Text, b: Text, c: Text)
    requires text == a + b + c
    ensures OccursAt(text, b, |a|) && (c == [] ==> text[|text| - |b|..] == b)
  {
    assert text[|a|..|a| + |b|] == b;
  }

  lemma AroundOccurrence(text: Text, pattern: Text, at: nat)
    requires OccursAt(text, pattern, at)
    ensures at + |pattern| <= |text| && text == text[..at] + pattern + text[at + |pattern|..]
  {
  }

  /** The share continues what of the lines was written before it. */
  lemma ShareFollows(original: Text, text: Text, r: Replacement, start: nat, stop: nat, c: nat)
    requires start < stop <= |original| && r.start < stop && start < r.end && r.start < r.end <= |original|
    requires WrittenTo(text, original, start, stop, r.start) && HasShareAt(original, r, start, stop, c)
    ensures OccursAt(text + r.text, original[start..Earlier(r.end, stop)], PlaceOfLines(text, r, start, c))
    ensures r.end < stop ==> WrittenTo(text + r.text, original, start, stop, r.end)
  {
    hide OccursAt, LinesAt;
    var low, high := Later(r.start, start), Earlier(r.end, stop);
    var share := original[low..high];
    AroundOccurrence(r.text, share, c);
    var rest := r.text[c + |share|..];
    if start < r.start {
      var front := original[start..low];
      var before := text[..|text| - |front|];
      SlicesJoin(original, start, low, high);
      assert text == before + front && r.text == share + rest;
      FourParts(before, front, share, rest);
      OccursBetween(text + r.text, before, front + share, rest);
    } else {
      FourParts(text, r.text[..c], share, rest);
      Associates(text, r.text[..c], share);
      OccursBetween(text + r.text, text + r.text[..c], share, rest);
    }
  }

  lemma FourParts(a: Text, b: Text, c: Text, d: Text)
    ensures (a + b) + (c + d) == a + (b + c) + d == a + (b + c + d)
  {
  }

  lemma WrittenFurther(original: Text, text: Text, from: nat, start: nat, stop: nat, x: nat)
    requires start <= from < stop && from <= x <= |original| && WholeLines(original, start, stop)
    requires WrittenTo(text, original, start, stop, from)
    ensures WrittenTo(text + original[from..x], original, start, stop, x)
  {
    hide OccursAt;
    var more, at, to := text + original[from..x], |text| - (from - start), Earlier(x, stop);
    var front, lines, rest := original[start..from], original[from..to], original[to..x];
    SlicesJoin(original, start, from, to);
    SlicesJoin(original, from, to, x);
    assert text == text[..at] + front;
    FourParts(text[..at], front, lines, rest);
    OccursBetween(more, text[..at], front + lines, rest);
    if stop <= x {
      LinesEnd(original, more, start, stop, x, at);
    }
  }

  /** Where the lines occur and the text ends as the original does, they are lines of it. */
  lemma LinesEnd(original: Text, text: Text, start: nat, stop: nat, x: nat, at: nat)
    requires WholeLines(original, start, stop) && stop <= x <= |original|
    requires OccursAt(text, original[start..stop], at) && at + (stop - start) + (x - stop) == |text|
    ensures HasLines(text, original[start..stop])
  {
    hide OccursAt;
    assert LinesAt(text, original[start..stop], at);
  }

  lemma ShareEndsLines(original: Text, text: Text, r: Replacement, start: nat, stop: nat, c: nat)
    requires WholeLines(original, start, stop) && r.start < stop <= r.end && start < r.end <= |original|
    requires OccursAt(text + r.text, original[start..stop], PlaceOfLines(text, r, start, c))
    requires HasShareAt(original, r, start, stop, c)
    requires start < r.start ==> r.start - start <= |text|
    ensures HasLines(text + r.text, original[start..stop])
  {
    hide OccursAt;
    var low, at := Later(r.start, start), PlaceOfLines(text, r, start, c);
    assert at + (stop - start) == |text| + c + (stop - low);
    assert LinesAt(r.text, original[low..stop], c);
    assert EndsLine(original[low..stop]) <==> EndsLine(original[start..stop]);
    assert LinesAt(text + r.text, original[start..stop], at);
  }

  lemma BehindReplacement(original: Text, text: Text, from: nat, start: nat, stop: nat, x: nat)
    requires WholeLines(original, start, stop) && from <= start && from <= x <= |original|
    ensures WrittenTo(text + original[from..x], original, start, stop, x)
  {
    hide OccursAt;
    if start <= x {
      var to := Earlier(x, stop);
      var before, lines, rest := text + original[from..start], original[start..to], original[to..x];
      SlicesJoin(original, from, start, x);
      SlicesJoin(original, start, to, x);
      FourParts(text, original[from..start], lines, rest);
      Associates(text, original[from..start], lines);
      OccursBetween(text + original[from..x], before, lines, rest);
      if stop <= x {
        LinesEnd(original, text + original[from..x], start, stop, x, |before|);
      }
    }
  }

  lemma LinesStayBefore(text: Text, rest: Text, block: Text)
    requires HasLines(text, block) && EndsLine(block)
    ensures HasLines(text + rest, block)
  {
    var at: nat :| LinesAt(text, block, at);
    AroundOccurrence(text, block, at);
    Associates(text[..at] + block, text[at + |block|..], rest);
    OccursBetween(text + rest, text[..at], block, text[at + |block|..] + rest);
    assert LinesAt(text + rest, block, at);
  }

  // ----- the edits -----

  /** What a caller can check of each edit by itself. */
  ghost predicate KeepsShare(original: Text, edit: Edit, start: nat, stop: nat)
    requires Anchored(original, edit)
  {
    HasShare(original, AsReplacement(Spot(original, edit)), start, stop)
  }

  /**
   * If every edit keeps its own share of the held lines in place, the candidate has the lines, however many edits
   * overlap or adjoin them.
   */
  lemma SharesKeepLines(original: Text, edits: seq<Edit>, start: nat, stop: nat)
    requires Replaceable(original, edits) && WholeLines(original, start, stop)
    requires forall e :: 0 <= e < |edits| ==>
        Anchored(original, edits[e]) && KeepsShare(original, edits[e], start, stop)
    ensures HasLines(Candidate(original, edits), original[start..stop])
  {
    hide Replaceable, Candidate, Made, Ordered, Anchored, HasShare, Spot, Written, WrittenTo, HasLines, WholeLines;
    var reps := Made(original, edits);
    MadeInOrder(original, edits);
    MadeOfAnchors(original, edits);
    forall i | 0 <= i < |reps| ensures HasShare(original, reps[i], start, stop) {
      AnyPlace(original, edits, i);
      var e :| 0 <= e < |edits| && reps[i] == AsReplacement(Spot(original, edits[e]));
      assert KeepsShare(original, edits[e], start, stop);
    }
    WholeIsWritten(original, reps);
    SharesAreWritten(original, reps, start, stop, |original|);
    AllWritten(original, Candidate(original, edits), start, stop);
  }

  lemma AllWritten(original: Text, text: Text, start: nat, stop: nat)
    requires WholeLines(original, start, stop) && WrittenTo(text, original, start, stop, |original|)
    ensures HasLines(text, original[start..stop])
  {
  }
}

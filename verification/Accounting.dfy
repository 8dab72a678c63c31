/** Requests to the provider: how attempts are counted, and how the journal accounts for them before they are sent. */
module Accounting {
  import opened Options

  // ----- one logical request -----

  /** What can come of trying to post once. */
  datatype Post =
    | NoCredential
    | Lost
    | Interrupted
    | Throttled
    | TimedOut
    | ServerError
    | TooLong
    | CeilingLearned
    | Declined
    | BadJson
    | Answered(usage: Option<ResponseUsage>)

  datatype ResponseUsage = ResponseUsage(
    uncertain: bool,
    requests: nat,
    input: Option<int>,
    output: Option<int>,
    cached: int,
    write5m: int,
    write1h: int)

  datatype RequestResult =
    | Response(attempts: nat, usage: ResponseUsage)
    | Failure(attempts: nat, unknown: bool, contextLimit: bool)

  /** Nothing was sent. */
  predicate Unsent(p: Post) { p.NoCredential? }

  /** The provider may have billed work whose usage nobody saw. */
  predicate Ambiguous(p: Post) { p.Lost? || p.Interrupted? || p.TimedOut? || p.ServerError? || p.BadJson? }

  predicate Retried(p: Post) { Ambiguous(p) || p.Throttled? || p.CeilingLearned? }

  /** An answer, a refusal and a missing credential end the request; being throttled costs nothing. */
  lemma OnlyTheseEnd(p: Post)
    ensures !Retried(p) <==> p.Answered? || p.TooLong? || p.Declined? || p.NoCredential?
    ensures !Ambiguous(p) <==> !Retried(p) || p.Throttled? || p.CeilingLearned?
  {
  }

  /** The posts that are made: everything up to the first that is not retried. */
  function Made(script: seq<Post>): (made: seq<Post>)
    ensures made <= script
  {
    if script == [] then []
    else if Retried(script[0]) then [script[0]] + Made(script[1..])
    else [script[0]]
  }

  function Sent(posts: seq<Post>): nat {
    if posts == [] then 0 else Sent(posts[..|posts| - 1]) + (if Unsent(posts[|posts| - 1]) then 0 else 1)
  }

  predicate AnyAmbiguous(posts: seq<Post>) {
    exists i :: 0 <= i < |posts| && Ambiguous(posts[i])
  }

  const NO_USAGE := ResponseUsage(true, 0, None, None, 0, 0, 0)

  function LastOf(posts: seq<Post>): Option<Post> { if posts == [] then None else Some(posts[|posts| - 1]) }

  /** The outcome says exactly what happened: every post is counted, and ambiguity is never forgotten. */
  predicate Reports(script: seq<Post>, result: RequestResult) {
    var made := Made(script);
    && result.attempts == Sent(made)
    && (result.Response? <==> LastOf(made).Some? && LastOf(made).value.Answered?)
    && (result.Response? ==>
          result.usage.requests == result.attempts
          && (result.usage.uncertain <==>
                AnyAmbiguous(made) || LastOf(made).value.usage.None? || LastOf(made).value.usage.value.uncertain)
          && match LastOf(made).value.usage
             case None => result.usage.input.None? && result.usage.output.None?
             case Some(seen) => result.usage == seen.(requests := result.attempts, uncertain := result.usage.uncertain))
    && (result.Failure? ==>
          (result.unknown <==> AnyAmbiguous(made)) && (result.contextLimit <==> LastOf(made) == Some(TooLong)))
  }

  lemma {:induction false} MadeUntil(script: seq<Post>)
    ensures var made := Made(script);
      && made <= script && (forall k :: 0 <= k < |made| - 1 ==> Retried(script[k]))
      && (made == script || (made != [] && !Retried(made[|made| - 1])))
  {
    if script != [] && Retried(script[0]) {
      MadeUntil(script[1..]);
      assert forall k :: 0 < k < |Made(script)| - 1 ==> script[k] == script[1..][k - 1];
    }
  }

  lemma {:induction false} AllSent(posts: seq<Post>)
    requires forall k :: 0 <= k < |posts| ==> !posts[k].NoCredential?
    ensures Sent(posts) == |posts|
  {
    if posts != [] { AllSent(posts[..|posts| - 1]); }
  }

  /** Posts are made until one that is not retried, and each counts but the last one for want of a credential. */
  lemma AttemptsAreCounted(script: seq<Post>)
    ensures var made := Made(script);
      && made <= script && (forall k :: 0 <= k < |made| - 1 ==> Retried(script[k]))
      && (made == script || (made != [] && !Retried(made[|made| - 1])))
      && Sent(made) == |made| - (if made != [] && made[|made| - 1].NoCredential? then 1 else 0)
  {
    hide Made;
    MadeUntil(script);
    var made := Made(script);
    if made != [] { AllSent(made[..|made| - 1]); }
  }

  lemma {:induction false} MadeSoFar(script: seq<Post>, i: nat)
    requires i <= |script| && forall k :: 0 <= k < i ==> Retried(script[k])
    ensures Made(script[..i]) == script[..i]
    ensures i < |script| && !Retried(script[i]) ==> Made(script) == script[..i + 1]
  {
    if i > 0 {
      assert script[..i][1..] == script[1..][..i - 1];
      MadeSoFar(script[1..], i - 1);
      assert i < |script| ==> script[..i + 1] == [script[0]] + script[1..][..i];
    }
  }

  lemma AmbiguousSoFar(posts: seq<Post>, i: nat)
    requires i < |posts|
    ensures AnyAmbiguous(posts[..i + 1]) <==> AnyAmbiguous(posts[..i]) || Ambiguous(posts[i])
  {
    var front, next := posts[..i], posts[..i + 1];
    assert next[i] == posts[i];
    if k :| 0 <= k < |front| && Ambiguous(front[k]) {
      assert Ambiguous(next[k]);
    }
    if k :| 0 <= k < |next| && Ambiguous(next[k]) {
      assert k < i ==> Ambiguous(front[k]);
    }
  }

  /** Posts until an answer, a refusal or cancellation, which is where the script ends. */
  method Request(script: seq<Post>) returns (result: RequestResult)
    ensures Reports(script, result)
  {
    var uncertain, requests := false, 0;
    for i := 0 to |script|
      invariant forall k :: 0 <= k < i ==> Retried(script[k])
      invariant requests == Sent(script[..i]) && (uncertain <==> AnyAmbiguous(script[..i]))
    {
      MadeSoFar(script, i);
      AmbiguousSoFar(script, i);
      assert script[..i + 1][..i] == script[..i];
      if Unsent(script[i]) {
        return Failure(requests, uncertain, false);
      }
      requests := requests + 1;
      match script[i]
      case Answered(None) => return Response(requests, NO_USAGE.(requests := requests));
      case Answered(Some(usage)) => return Response(requests,
        usage.(uncertain := usage.uncertain || uncertain, requests := requests));
      case TooLong => return Failure(requests, uncertain, true);
      case Declined => return Failure(requests, uncertain, false);
      case Throttled =>
      case CeilingLearned =>
      case _ => uncertain := true;
    }
    assert script[..|script|] == script;
    MadeSoFar(script, |script|);
    return Failure(requests, uncertain, false);
  }

  // ----- usage -----

  datatype Usage = Usage(turns: nat, input: int, cached: int, output: int, cost: real, uncertain: bool)

  datatype Prices = Prices(input: real, cached: real, output: real)

  /** The counts are present and add up. */
  predicate Plausible(u: ResponseUsage) {
    && u.input.Some? && u.output.Some?
    && 0 <= u.output.value && 0 <= u.cached <= u.input.value
    && 0 <= u.write5m && 0 <= u.write1h && u.write5m + u.write1h <= u.input.value - u.cached
  }

  function CostOf(u: ResponseUsage, prices: Prices): real
    requires Plausible(u)
  {
    ((u.input.value - u.cached) as real * prices.input + u.cached as real * prices.cached
      + u.output.value as real * prices.output) / 1000000.0
    + (u.write5m as real * 0.25 + u.write1h as real) * prices.input / 1000000.0
  }

  function Charge(attempts: nat): nat { if attempts == 0 then 1 else attempts }

  function AddUsage(usage: Usage, u: Option<ResponseUsage>, prices: Prices): Usage {
    if u.None? then usage.(turns := usage.turns + 1, uncertain := true)
    else
      var counted := usage.(turns := usage.turns + Charge(u.value.requests),
        uncertain := usage.uncertain || u.value.uncertain || !Plausible(u.value));
      if !Plausible(u.value) then counted
      else counted.(
        input := usage.input + u.value.input.value, cached := usage.cached + u.value.cached,
        output := usage.output + u.value.output.value, cost := usage.cost + CostOf(u.value, prices))
  }

  /** The parts of a response's tokens, each at its own price in millionths, add up to what it costs. */
  predicate Priced(u: ResponseUsage, prices: Prices, cost: real)
    requires u.input.Some? && u.output.Some?
  {
    var plain := (u.input.value - u.cached) as real * prices.input;
    var cached := u.cached as real * prices.cached;
    var written := (u.write5m as real / 4.0 + u.write1h as real) * prices.input;
    1000000.0 * cost == plain + cached + written + u.output.value as real * prices.output
  }

  /** Turns grow by the attempts, and by one at least; counts that do not add up change nothing else. */
  lemma UsageGrows(usage: Usage, u: ResponseUsage, prices: Prices)
    ensures var total := AddUsage(usage, Some(u), prices);
      && total.turns == usage.turns + (if u.requests > 1 then u.requests else 1)
      && (u.input.None? || u.output.None? ==>
            total == usage.(turns := total.turns, uncertain := true))
      && (u.input.Some? && u.output.Some? ==>
            var input, output := u.input.value, u.output.value;
            if 0 <= output && 0 <= u.cached && 0 <= u.write5m && 0 <= u.write1h
               && u.cached + u.write5m + u.write1h <= input
            then
              && total.input == usage.input + input && total.cached == usage.cached + u.cached
              && total.output == usage.output + output && Priced(u, prices, total.cost - usage.cost)
              && (total.uncertain <==> usage.uncertain || u.uncertain)
            else total == usage.(turns := total.turns, uncertain := true))
    ensures AddUsage(usage, None, prices) == usage.(turns := usage.turns + 1, uncertain := true)
  {
  }

  method AddUsageInPlace(usage: Usage, u: Option<ResponseUsage>, prices: Prices) returns (total: Usage)
    ensures total == AddUsage(usage, u, prices)
    ensures total.turns == usage.turns + (if u.Some? && u.value.requests > 1 then u.value.requests else 1)
  {
    total := usage.(turns := usage.turns + 1);
    if u.None? {
      return total.(uncertain := true);
    }
    var r := u.value;
    if r.requests > 1 {
      total := total.(turns := total.turns + (r.requests - 1));
    }
    total := total.(uncertain := total.uncertain || r.uncertain);
    if r.input.None? || r.output.None? {
      return total.(uncertain := true);
    }
    var input, output, cached := r.input.value, r.output.value, r.cached;
    if input < 0 || output < 0 || cached < 0 || cached > input
      || r.write5m < 0 || r.write1h < 0 || r.write5m > input - cached || r.write1h > input - cached - r.write5m {
      return total.(uncertain := true);
    }
    total := total.(input := total.input + input, cached := total.cached + cached, output := total.output + output,
      cost := total.cost + CostOf(r, prices));
  }

  /** The counters of a journal that may be resumed. */
  predicate ValidCounters(u: Usage) { 0 <= u.input && 0 <= u.output && 0 <= u.cached <= u.input && 0.0 <= u.cost }

  predicate FairPrices(prices: Prices) { 0.0 <= prices.input && 0.0 <= prices.cached && 0.0 <= prices.output }

  lemma NotNegative(a: real, b: real)
    requires 0.0 <= a && 0.0 <= b
    ensures 0.0 <= a * b
  {
  }

  lemma CostIsNotNegative(u: ResponseUsage, prices: Prices)
    requires Plausible(u) && FairPrices(prices)
    ensures 0.0 <= CostOf(u, prices)
  {
    NotNegative((u.input.value - u.cached) as real, prices.input);
    NotNegative(u.cached as real, prices.cached);
    NotNegative(u.output.value as real, prices.output);
    NotNegative(u.write5m as real * 0.25 + u.write1h as real, prices.input);
  }

  /** Whatever a provider reports, the counters stay ones a journal may be resumed with. */
  lemma UsageStaysValid(usage: Usage, u: Option<ResponseUsage>, prices: Prices)
    requires ValidCounters(usage) && FairPrices(prices)
    ensures ValidCounters(AddUsage(usage, u, prices)) && usage.turns < AddUsage(usage, u, prices).turns
  {
    if u.Some? && Plausible(u.value) {
      CostIsNotNegative(u.value, prices);
    }
  }

  // ----- the write-ahead journal -----

  /** What one request is charged: once when it is reserved, by its attempts once it is settled. */
  datatype Entry = Reserved | Settled(attempts: nat)

  function EntryCharge(e: Entry): nat { if e.Reserved? then 1 else Charge(e.attempts) }

  function Total(log: seq<Entry>): nat {
    if log == [] then 0 else Total(log[..|log| - 1]) + EntryCharge(log[|log| - 1])
  }

  /** One for each reserved request, and for a settled one its attempts, or one. */
  lemma TotalIsSum(log: seq<Entry>, n: nat)
    ensures Total([]) == 0 && Total(log + [Reserved]) == Total(log) + 1
    ensures Total(log + [Settled(n)]) == Total(log) + (if n > 1 then n else 1)
  {
    assert (log + [Reserved])[..|log|] == log && (log + [Settled(n)])[..|log|] == log;
  }

  lemma {:induction false} EveryEntryCounts(log: seq<Entry>)
    ensures |log| <= Total(log)
  {
    if log != [] {
      EveryEntryCounts(log[..|log| - 1]);
    }
  }

  lemma {:induction false} TotalIsMonotone(log: seq<Entry>, k: nat)
    requires k <= |log|
    ensures Total(log[..k]) <= Total(log)
    decreases |log|
  {
    if k == |log| {
      assert log[..k] == log;
    } else {
      assert log[..|log| - 1][..k] == log[..k];
      TotalIsMonotone(log[..|log| - 1], k);
    }
  }

  datatype Counters = Counters(turns: nat, pending: bool, uncertain: bool, reviewCount: nat)

  class Ledger {
    var live: Counters
    var saved: Counters
    /** Every charge made in memory, and every charge the journal knows of. */
    ghost var log: seq<Entry>
    ghost var savedLog: seq<Entry>
    /** Requests that were actually sent. */
    ghost var started: nat
    ghost var inFlight: bool

    ghost predicate Valid()
      reads this
    {
      && live.turns == Total(log) && saved.turns == Total(savedLog)
      && started <= |savedLog| <= |log|
      && (inFlight ==> live.pending && saved.pending && savedLog == log && log != [] && log[|log| - 1] == Reserved)
    }

    constructor ()
      ensures Valid() && started == 0 && log == [] && !inFlight && !live.pending
    {
      live, saved := Counters(0, false, false, 0), Counters(0, false, false, 0);
      log, savedLog, started, inFlight := [], [], 0, false;
    }

    method Save(saves: bool)
      requires Valid()
      modifies `saved, `savedLog
      ensures Valid()
      ensures if saves then saved == live && savedLog == log else saved == old(saved) && savedLog == old(savedLog)
    {
      if saves {
        saved, savedLog := live, log;
      }
    }

    /** A request is counted and marked pending on disk before it is sent; when that fails it is not sent. */
    method Begin(review: bool, saves: bool) returns (sent: bool)
      requires Valid() && !inFlight
      modifies this
      ensures Valid() && sent == saves == inFlight
      ensures log == old(log) + [Reserved] && started == old(started) + (if sent then 1 else 0)
      ensures live
          == Counters(old(live).turns + 1, true, old(live).uncertain, old(live).reviewCount + (if review then 1 else 0))
      ensures if sent then saved == live else saved == old(saved)
    {
      live := Counters(live.turns + 1, true, live.uncertain, if review then live.reviewCount + 1 else live.reviewCount);
      ghost var before := log;
      log := log + [Reserved];
      assert log[..|before|] == before;
      Save(saves);
      sent := saves;
      inFlight := saves;
      if saves {
        started := started + 1;
      }
    }

    /**
     * The outcome replaces the reservation by what the attempts cost; only the editor treats a context limit as settled
     * usage.
     */
    method Settle(review: bool, result: RequestResult, saves: bool)
      requires Valid() && inFlight
      modifies this
      ensures Valid() && !inFlight && started == old(started)
      ensures log == old(log)[..|old(log)| - 1] + [Settled(result.attempts)]
      ensures live.turns == old(live).turns - 1 + (if result.attempts > 1 then result.attempts else 1)
      ensures live.pending <==> result.Failure? && result.unknown && (review || !result.contextLimit)
      ensures live.uncertain <==>
          || old(live).uncertain
          || (if result.Response? then result.usage.uncertain || !Plausible(result.usage) else result.unknown)
      ensures live.reviewCount == old(live).reviewCount
    {
      var extra := if result.attempts > 1 then result.attempts - 1 else 0;
      var unknown := if result.Response? then result.usage.uncertain || !Plausible(result.usage) else result.unknown;
      live := Counters(live.turns + extra, result.Failure? && result.unknown && (review || !result.contextLimit),
        live.uncertain || unknown, live.reviewCount);
      ghost var front := log[..|log| - 1];
      log := front + [Settled(result.attempts)];
      assert log[..|front|] == front;
      inFlight := false;
      Save(saves);
    }

    /**
     * The process ended; the next run starts from the journal, and only if a pending request is accepted as uncertain.
     */
    method Resume(allowUncertain: bool) returns (resumed: bool)
      requires Valid()
      modifies this
      ensures Valid() && !inFlight && started == old(started)
      ensures resumed <==> allowUncertain || !(old(saved).pending || old(saved).uncertain)
      ensures live.turns == old(saved).turns && log == old(savedLog) && started <= live.turns
      ensures saved == old(saved) && savedLog == old(savedLog)
      ensures resumed && old(saved).pending ==> live.uncertain && !live.pending
    {
      EveryEntryCounts(savedLog);
      live, log, inFlight := saved, savedLog, false;
      if (saved.pending || saved.uncertain) && !allowUncertain {
        return false;
      }
      if saved.pending || saved.uncertain {
        live := live.(pending := false, uncertain := true);
      }
      return true;
    }

    /** Wherever the process ends, the journal counts every request that was sent, and shows the unsettled one. */
    lemma JournalCountsEveryRequest()
      requires Valid()
      ensures started <= saved.turns && (inFlight ==> saved.pending && saved.turns == live.turns)
    {
      EveryEntryCounts(savedLog);
    }
  }
}

/** What every `Collect` does, whatever the backend answers: conserved counters, a shared budget,
    termination under cycling tokens, all-or-nothing answers, bounded sleep. */
module CollectFacts {
  import opened Retry
  import opened Telemetry
  import opened LogsCollector

  /** The records of the fetched pages, in fetch order. */
  function Fetched(fetches: seq<Fetch>): seq<LogRecord> {
    if fetches == [] then []
    else (if fetches[0].run.result.Success? then fetches[0].run.result.value.records else []) + Fetched(fetches[1..])
  }

  predicate Succeeded(f: Fetch) {
    f.run.result.Success?
  }

  /** How the counters add up against the answer. */
  ghost predicate Accounted(t: Trace, budget: int) {
    var s := Sum(t.fetches);
    && s.throttled == s.retried + s.drops
    && 0 <= s.retried <= budget
    && s.drops == (if t.answer == Error(ThrottledOut) || t.answer == Error(BudgetExhausted) then 1 else 0)
    && s.exceeded == (if t.answer == Error(BudgetExhausted) then 1 else 0)
    && s.calls == s.retried + |t.fetches| - (if t.answer == Error(Cancelled) then 1 else 0)
  }

  ghost predicate RunAccounted(r: Run<Page>, budget: int) {
    && r.throttled == r.retried + r.drops && 0 <= r.retried <= budget
    && r.drops == (if r.result == Failed(ThrottledOut) || r.result == Failed(BudgetExhausted) then 1 else 0)
    && r.exceeded == (if r.result == Failed(BudgetExhausted) then 1 else 0)
    && r.calls == r.retried + (if r.result == Failed(Cancelled) then 0 else 1)
  }

  /** The loop stops after this page. */
  ghost predicate Stops(f: Fetch, whole: Trace) {
    && whole.fetches == [f]
    && whole.answer == if f.run.result.Failed? then Error(f.run.result.reason) else Records(f.run.result.value.records)
  }

  /** The loop goes on after this page. */
  ghost predicate GoesOn(f: Fetch, whole: Trace, left: Trace) {
    && Succeeded(f) && whole.fetches == [f] + left.fetches
    && whole.answer == Prefixed(f.run.result.value.records, left.answer)
  }

  lemma AccountedStop(f: Fetch, whole: Trace, budget: int)
    requires RunAccounted(f.run, budget) && Stops(f, whole)
    ensures Accounted(whole, budget)
  {
    SumFirst(f, []);
    PlusNothing(Of(f.run));
    assert [f] + [] == [f];
  }

  lemma AccountedStep(f: Fetch, whole: Trace, left: Trace, budget: int)
    requires RunAccounted(f.run, budget) && GoesOn(f, whole, left) && Accounted(left, budget - f.run.retried)
    ensures Accounted(whole, budget)
  {
    SumFirst(f, left.fetches);
    hide Sum;
  }

  /** One turn of the page loop, by cases. */
  lemma Turn(c: Settings, b: FiniteBackend, n: nat, budget: int, seen: set<string>, token: string) returns (f: Fetch, left: Trace, next: string)
    ensures f == Fetch(token, Call(c, b.world, n, budget))
    ensures if Succeeded(f) && !Ends(f.run.result.value, seen)
      then
        && next == f.run.result.value.nextToken && next in b.universe && next !in seen && next != ""
        && left == Pages(c, b, n + f.run.calls, budget - f.run.retried, seen + {next}, next)
        && GoesOn(f, Pages(c, b, n, budget, seen, token), left)
      else Stops(f, Pages(c, b, n, budget, seen, token))
  {
    f := Fetch(token, Call(c, b.world, n, budget));
    left := Left(c, b, n, budget, seen);
    next := if Succeeded(f) then f.run.result.value.nextToken else "";
    PageAnswer(c, b, n, budget, seen, token);
    PageFetches(c, b, n, budget, seen, token);
    NewTokenShrinks(c, b, n, budget, seen);
    assert left.fetches == [] ==> [f] + left.fetches == [f];
    hide Call, Pages, Left, Prefixed;
  }

  /** Over a whole `Collect`: throttled responses are retries plus drops, also when a wait is
      cancelled; all pages together retry at most the budget; at most one drop, and an exceeded
      budget is one; the client is called once per page and once per retry. */
  lemma {:induction false} CollectAccounting(c: Settings, b: FiniteBackend, n: nat, budget: int, seen: set<string>, token: string)
    requires 0 <= budget
    ensures Accounted(Pages(c, b, n, budget, seen, token), budget)
    decreases b.universe - seen
  {
    CallAccounting(c, b.world, n, 1, c.initialBackoff, budget);
    var f, left, next := Turn(c, b, n, budget, seen, token);
    assert RunAccounted(f.run, budget);
    hide Call, Pages, Attempts, RunAccounted, Accounted, GoesOn, Stops;
    if Succeeded(f) && !Ends(f.run.result.value, seen) {
      Shrinks(b.universe, seen, next);
      assert 0 <= f.run.retried <= budget by { RetriedWithin(f.run, budget); }
      CollectAccounting(c, b, n + f.run.calls, budget - f.run.retried, seen + {next}, next);
      AccountedStep(f, Pages(c, b, n, budget, seen, token), left, budget);
    } else {
      AccountedStop(f, Pages(c, b, n, budget, seen, token), budget);
    }
  }

  lemma RetriedWithin(r: Run<Page>, budget: int)
    requires RunAccounted(r, budget)
    ensures 0 <= r.retried <= budget
  {
  }

  lemma Shrinks(universe: set<string>, seen: set<string>, next: string)
    requires next in universe && next !in seen
    ensures universe - (seen + {next}) < universe - seen
    ensures |universe - (seen + {next})| == |universe - seen| - 1
  {
    assert next in universe - seen;
    assert universe - (seen + {next}) == (universe - seen) - {next};
  }

  lemma PageFetches(c: Settings, b: FiniteBackend, n: nat, budget: int, seen: set<string>, token: string)
    ensures Pages(c, b, n, budget, seen, token).fetches
      == [Fetch(token, Call(c, b.world, n, budget))] + Left(c, b, n, budget, seen).fetches
  {
    hide Call;
  }

  /** Client calls are bounded by the fetched pages plus the retry budget plus one. */
  lemma CallsBounded(c: Settings, b: FiniteBackend, n: nat)
    ensures var t := Pages(c, b, n, c.maxRetryBudget, {}, "");
      Sum(t.fetches).calls <= |Succeeding(t.fetches)| + c.maxRetryBudget + 1
  {
    CollectAccounting(c, b, n, c.maxRetryBudget, {}, "");
    AllOrNothing(c, b, n, c.maxRetryBudget, {}, "");
    hide Pages, Sum, Fetched;
    var t := Pages(c, b, n, c.maxRetryBudget, {}, "");
    SuccessesFirst(t.fetches);
  }

  /** The successful page fetches. */
  function Succeeding(fetches: seq<Fetch>): seq<Fetch> {
    if fetches == [] then [] else (if Succeeded(fetches[0]) then [fetches[0]] else []) + Succeeding(fetches[1..])
  }

  lemma {:induction false} SuccessesFirst(fetches: seq<Fetch>)
    requires forall i :: 0 <= i < |fetches| - 1 ==> Succeeded(fetches[i])
    ensures |fetches| - 1 <= |Succeeding(fetches)| <= |fetches|
    decreases |fetches|
  {
    if fetches != [] {
      assert forall i :: 0 <= i < |fetches| - 2 ==> fetches[1..][i] == fetches[i + 1];
      SuccessesFirst(fetches[1..]);
    }
  }

  // ---------- termination and token discipline ----------

  ghost predicate TokensFresh(fetches: seq<Fetch>, universe: set<string>, seen: set<string>) {
    && (forall i :: 1 <= i < |fetches| ==> fetches[i].token != "" && fetches[i].token in universe && fetches[i].token !in seen)
    && (forall i, j :: 1 <= i < j < |fetches| ==> fetches[i].token != fetches[j].token)
  }

  lemma TokensFreshStep(f: Fetch, rest: seq<Fetch>, universe: set<string>, seen: set<string>, next: string)
    requires rest != [] && rest[0].token == next && next != "" && next in universe && next !in seen
    requires TokensFresh(rest, universe, seen + {next})
    ensures TokensFresh([f] + rest, universe, seen)
  {
    var all := [f] + rest;
    assert forall i :: 1 <= i < |all| ==> all[i] == rest[i - 1];
  }

  /** Only a backend with ever new tokens could keep the loop going: there is at most one page
      per token, plus the first, and no token is requested for two pages, even when tokens cycle. */
  lemma {:induction false} PaginationTerminates(c: Settings, b: FiniteBackend, n: nat, budget: int, seen: set<string>, token: string)
    ensures var fs := Pages(c, b, n, budget, seen, token).fetches;
      && 1 <= |fs| <= |b.universe - seen| + 1
      && fs[0].token == token && TokensFresh(fs, b.universe, seen)
    decreases b.universe - seen
  {
    var f, left, next := Turn(c, b, n, budget, seen, token);
    hide Call, Pages;
    if Succeeded(f) && !Ends(f.run.result.value, seen) {
      Shrinks(b.universe, seen, next);
      PaginationTerminates(c, b, n + f.run.calls, budget - f.run.retried, seen + {next}, next);
      TokensFreshStep(f, left.fetches, b.universe, seen, next);
    }
  }

  // ---------- all or nothing ----------

  ghost predicate Complete(t: Trace) {
    && t.fetches != [] && t.answer != Invalid
    && (forall i :: 0 <= i < |t.fetches| - 1 ==> Succeeded(t.fetches[i]))
    && (t.answer.Records? <==> Succeeded(t.fetches[|t.fetches| - 1]))
    && (t.answer.Records? ==> t.answer.records == Fetched(t.fetches))
    && (t.answer.Error? ==> t.fetches[|t.fetches| - 1].run.result == Failed(t.answer.reason))
  }

  lemma CompleteStop(f: Fetch, whole: Trace)
    requires Stops(f, whole)
    ensures Complete(whole)
  {
    assert whole.fetches[1..] == [];
  }

  lemma CompleteStep(f: Fetch, whole: Trace, left: Trace)
    requires Complete(left) && GoesOn(f, whole, left)
    ensures Complete(whole)
  {
    assert forall i :: 1 <= i < |whole.fetches| ==> whole.fetches[i] == left.fetches[i - 1];
    assert whole.fetches[1..] == left.fetches;
  }

  /** `Collect` returns the in-order concatenation of every fetched page, or an error and no
      records: the failure of its last request. */
  lemma {:induction false} AllOrNothing(c: Settings, b: FiniteBackend, n: nat, budget: int, seen: set<string>, token: string)
    ensures Complete(Pages(c, b, n, budget, seen, token))
    decreases b.universe - seen
  {
    var f, left, next := Turn(c, b, n, budget, seen, token);
    hide Call, Pages, Complete, Stops, GoesOn;
    if Succeeded(f) && !Ends(f.run.result.value, seen) {
      Shrinks(b.universe, seen, next);
      AllOrNothing(c, b, n + f.run.calls, budget - f.run.retried, seen + {next}, next);
      CompleteStep(f, Pages(c, b, n, budget, seen, token), left);
    } else {
      CompleteStop(f, Pages(c, b, n, budget, seen, token));
    }
  }

  // ---------- sleeping ----------

  lemma {:induction false} TotalConcat(a: seq<int>, b: seq<int>)
    ensures Total(a + b) == Total(a) + Total(b)
    decreases |a|
  {
    if a == [] {
      assert a + b == b;
    } else {
      assert (a + b)[1..] == a[1..] + b;
      TotalConcat(a[1..], b);
    }
  }

  /** The sleeps of these requests are at most (1 + jitter) * maxBackoff per retry. */
  ghost predicate SleepsWithin(c: Settings, fetches: seq<Fetch>) {
    Within(Total(Sum(fetches).sleeps), Sum(fetches).retried * c.maxBackoff, c.jitterFraction)
  }

  ghost predicate RunSleepsWithin(c: Settings, r: Run<Page>) {
    Within(Total(r.sleeps), r.retried * c.maxBackoff, c.jitterFraction)
  }

  lemma SleepsStep(c: Settings, f: Fetch, rest: seq<Fetch>)
    requires SleepsWithin(c, rest) && RunSleepsWithin(c, f.run)
    ensures SleepsWithin(c, [f] + rest)
  {
    hide Within, Total, Sum;
    var s := Sum(rest);
    SumFirst(f, rest);
    TotalConcat(f.run.sleeps, s.sleeps);
    WithinSum(Total(f.run.sleeps), f.run.retried * c.maxBackoff, Total(s.sleeps), s.retried * c.maxBackoff, c.jitterFraction);
    SumOfProducts(f.run.retried, s.retried, c.maxBackoff);
  }

  lemma CallSleeps(c: Settings, b: FiniteBackend, n: nat, budget: int)
    requires 0 <= budget && Draws(b.world)
    ensures var r := Call(c, b.world, n, budget); RunSleepsWithin(c, r) && 0 <= r.retried <= budget
  {
    hide Within, Total, Draws;
    CallAccounting(c, b.world, n, 1, c.initialBackoff, budget);
    CallSleepWithinMaxima(c, b.world, n, budget);
  }

  lemma {:induction false} CollectSleeps(c: Settings, b: FiniteBackend, n: nat, budget: int, seen: set<string>, token: string)
    requires 0 <= budget && Draws(b.world)
    ensures SleepsWithin(c, Pages(c, b, n, budget, seen, token).fetches)
    decreases b.universe - seen
  {
    hide Call, Pages, Draws, SleepsWithin, RunSleepsWithin;
    CallSleeps(c, b, n, budget);
    var f, left, next := Turn(c, b, n, budget, seen, token);
    if Succeeded(f) && !Ends(f.run.result.value, seen) {
      Shrinks(b.universe, seen, next);
      CollectSleeps(c, b, n + f.run.calls, budget - f.run.retried, seen + {next}, next);
      SleepsStep(c, f, left.fetches);
    } else {
      NoSleep(c);
      SleepsStep(c, f, []);
      assert [f] + [] == [f];
    }
  }

  lemma SumOfProducts(x: int, y: int, z: int)
    ensures x * z + y * z == (x + y) * z
  {
  }

  lemma NoSleep(c: Settings)
    ensures SleepsWithin(c, [])
  {
  }

  /** A whole `Collect` sleeps at most (1 + jitter) * maxRetryBudget * maxBackoff. */
  lemma CollectSleepBound(c: Settings, b: FiniteBackend, n: nat)
    requires Draws(b.world)
    ensures var s := Sum(Pages(c, b, n, c.maxRetryBudget, {}, "").fetches);
      Within(Total(s.sleeps), c.maxRetryBudget * c.maxBackoff, c.jitterFraction)
  {
    CollectAccounting(c, b, n, c.maxRetryBudget, {}, "");
    CollectSleeps(c, b, n, c.maxRetryBudget, {}, "");
    hide Pages, Within, Total, Draws, Sum;
    var s := Sum(Pages(c, b, n, c.maxRetryBudget, {}, "").fetches);
    ScaledIntMonotone(c.maxBackoff, s.retried, c.maxRetryBudget);
    WithinMonotone(Total(s.sleeps), s.retried * c.maxBackoff, c.maxRetryBudget * c.maxBackoff, c.jitterFraction);
  }
}

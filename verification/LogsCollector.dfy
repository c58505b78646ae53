/** The paginated log collector: nested loops over pages and attempts, with one retry budget
    shared by all pages and a guard against repeated page tokens. */
module LogsCollector {
  import opened GoTime
  import opened Retry
  import opened Telemetry

  datatype CollectRequest = CollectRequest(logGroupName: string, filterPattern: string, startTime: Time, endTime: Time, limit: int)

  /** One page of the backend; an absent or empty token ends the listing. */
  datatype Page = Page(records: seq<LogRecord>, nextToken: string)

  /** What a client call sends. */
  datatype Input = Input(logGroupName: string, filterPattern: string, startMilli: int, endMilli: int, limit: int, token: string)

  datatype Answer = Records(records: seq<LogRecord>) | Error(reason: Failure) | Invalid

  /** A backend that draws its page tokens from a finite set. */
  datatype Backend = Backend(world: World<Page>, universe: set<string>)

  ghost predicate TokensFrom(b: Backend) {
    forall n: nat :: b.world.script(n).Ok? ==>
      b.world.script(n).value.nextToken == "" || b.world.script(n).value.nextToken in b.universe
  }

  function Silent(): Backend {
    Backend(World((n: nat) => Ok(Page([], "")), (n: nat) => false, (n: nat) => false, (n: nat) => 0.5), {})
  }

  type FiniteBackend = b: Backend | TokensFrom(b) witness Silent()

  // ---------- the specification ----------

  /** One requested page: its token and the retried call for it. */
  datatype Fetch = Fetch(token: string, run: Run<Page>)

  /** What the page loop returned and did. */
  datatype Trace = Trace(answer: Answer, fetches: seq<Fetch>)

  predicate Ends(page: Page, seen: set<string>) {
    page.nextToken == "" || page.nextToken in seen
  }

  function Prefixed(records: seq<LogRecord>, rest: Answer): Answer {
    match rest case Records(rs) => Records(records + rs) case other => other
  }

  lemma {:induction false} CallReturnsScripted(c: Config, w: World<Page>, n: nat, attempt: int, backoff: int, budget: int)
    requires attempt <= c.maxAttempts
    ensures var r := Attempts(c, w, n, attempt, backoff, budget);
      r.result.Success? ==> exists k: nat :: w.script(k) == Ok(r.result.value)
    decreases c.maxAttempts - attempt
  {
    if w.script(n).Throttled? && attempt < c.maxAttempts {
      CallReturnsScripted(c, w, n + 1, attempt + 1, NextBackoff(backoff, c.maxBackoff), budget - 1);
    }
  }

  lemma NewTokenShrinks(c: Settings, b: FiniteBackend, n: nat, budget: int, seen: set<string>)
    ensures var r := Call(c, b.world, n, budget).result;
      r.Success? && !Ends(r.value, seen) ==>
        r.value.nextToken in b.universe && b.universe - (seen + {r.value.nextToken}) < b.universe - seen
  {
    CallReturnsScripted(c, b.world, n, 1, c.initialBackoff, budget);
    hide Call;
    var r := Call(c, b.world, n, budget).result;
    if r.Success? && !Ends(r.value, seen) {
      var t := r.value.nextToken;
      assert t in b.universe - seen && t !in b.universe - (seen + {t});
    }
  }

  /** The page loop from the request for `token` on. The measure is the tokens not yet seen:
      without a finite token universe the loop need not end. */
  ghost function Pages(c: Settings, b: FiniteBackend, n: nat, budget: int, seen: set<string>, token: string): Trace
    decreases b.universe - seen, 1
  {
    var run := Call(c, b.world, n, budget);
    var left := Left(c, b, n, budget, seen);
    var answer :=
      if run.result.Failed? then Error(run.result.reason)
      else if Ends(run.result.value, seen) then Records(run.result.value.records)
      else Prefixed(run.result.value.records, left.answer);
    Trace(answer, [Fetch(token, run)] + left.fetches)
  }

  /** What the loop still has to do after one page: nothing when it stops. */
  ghost function Left(c: Settings, b: FiniteBackend, n: nat, budget: int, seen: set<string>): Trace
    decreases b.universe - seen, 0
  {
    var run := Call(c, b.world, n, budget);
    if run.result.Failed? || Ends(run.result.value, seen) then Trace(Invalid, [])
    else
      var next := run.result.value.nextToken;
      NewTokenShrinks(c, b, n, budget, seen);
      Pages(c, b, n + run.calls, budget - run.retried, seen + {next}, next)
  }

  /** `rest` is what the loop does from here on. */
  ghost predicate IsRest(rest: Trace, c: Settings, b: FiniteBackend, n: nat, budget: int, seen: set<string>, token: string) {
    rest == Pages(c, b, n, budget, seen, token)
  }

  // ---------- totals ----------

  function Sum(fetches: seq<Fetch>): Tally {
    if fetches == [] then Tally(0, 0, 0, 0, 0, []) else Plus(Of(fetches[0].run), Sum(fetches[1..]))
  }

  lemma SumFirst(f: Fetch, rest: seq<Fetch>)
    ensures Sum([f] + rest) == Plus(Of(f.run), Sum(rest))
  {
    assert ([f] + rest)[1..] == rest;
  }

  lemma PlusNothing(a: Tally)
    ensures Plus(a, Sum([])) == a
  {
  }

  // ---------- requests ----------

  function Chain(a: seq<Input>, b: seq<Input>): seq<Input> {
    a + b
  }

  /** The requests of each retried call, in order: the same input, with the page's token. */
  function Sent(input: Input, fetches: seq<Fetch>): seq<Input> {
    if fetches == [] then []
    else Chain(Repeat(input.(token := fetches[0].token), fetches[0].run.calls), Sent(input, fetches[1..]))
  }

  lemma SentFirst(input: Input, f: Fetch, rest: seq<Fetch>)
    ensures Sent(input, [f] + rest) == Chain(Repeat(input.(token := f.token), f.run.calls), Sent(input, rest))
  {
    assert ([f] + rest)[1..] == rest;
  }

  /** Request `k` carries the token of the page just answered, or repeats a request that was not. */
  predicate Continues(sent: seq<Input>, w: World<Page>, n: nat, k: int)
    requires 0 < k < |sent|
  {
    sent[k].token == if w.script(n + k - 1).Ok? then w.script(n + k - 1).value.nextToken else sent[k - 1].token
  }

  /** The first request carries `token` and each later one continues; all else is as in `input`. */
  ghost predicate Asks(sent: seq<Input>, input: Input, w: World<Page>, n: nat, token: string) {
    && |sent| > 0 && sent[0].token == token
    && (forall k :: 0 <= k < |sent| ==> sent[k] == input.(token := sent[k].token))
    && (forall k :: 0 < k < |sent| ==> Continues(sent, w, n, k))
  }

  lemma AsksChain(first: seq<Input>, rest: seq<Input>, input: Input, w: World<Page>, n: nat, token: string, next: string)
    requires Asks(first, input, w, n, token) && Asks(rest, input, w, n + |first|, next)
    requires w.script(n + |first| - 1).Ok? && w.script(n + |first| - 1).value.nextToken == next
    ensures Asks(Chain(first, rest), input, w, n, token)
  {
    var sent, m := Chain(first, rest), |first|;
    assert forall k :: 0 <= k < m ==> sent[k] == first[k];
    assert forall k :: m <= k < |sent| ==> sent[k] == rest[k - m];
    forall k | 0 < k < |sent| ensures Continues(sent, w, n, k) {
      if k < m {
        assert Continues(first, w, n, k);
      } else if k > m {
        assert Continues(rest, w, n + m, k - m) && n + m + (k - m) - 1 == n + k - 1;
      }
    }
  }

  lemma CallAsks(c: Settings, w: World<Page>, n: nat, budget: int, input: Input, token: string)
    ensures var run := Call(c, w, n, budget);
      && Asks(Repeat(input.(token := token), run.calls), input, w, n, token)
      && (run.result.Success? ==> w.script(n + run.calls - 1) == Ok(run.result.value))
  {
    CallsOfRun(c, w, n, 1, c.initialBackoff, budget);
    hide Attempts;
  }

  /** The requests of the page loop. */
  lemma {:induction false} PagesAsk(c: Settings, b: FiniteBackend, n: nat, budget: int, seen: set<string>, token: string, input: Input)
    ensures Asks(Sent(input, Pages(c, b, n, budget, seen, token).fetches), input, b.world, n, token)
    ensures !Pages(c, b, n, budget, seen, token).answer.Invalid?
    decreases b.universe - seen
  {
    CallAsks(c, b.world, n, budget, input, token);
    PageTotals(c, b, n, budget, seen, token, input);
    PageAnswer(c, b, n, budget, seen, token);
    NewTokenShrinks(c, b, n, budget, seen);
    hide Call, Pages, Left, Sum, Asks, Repeat, Ends;
    var run, left := Call(c, b.world, n, budget), Left(c, b, n, budget, seen);
    var first := Repeat(input.(token := token), run.calls);
    if run.result.Failed? || Ends(run.result.value, seen) {
      SentNothing(input, first);
    } else {
      var next := run.result.value.nextToken;
      PagesAsk(c, b, n + run.calls, budget - run.retried, seen + {next}, next, input);
      AsksChain(first, Sent(input, left.fetches), input, b.world, n, token, next);
    }
  }

  lemma ChainAssociates(a: seq<Input>, b: seq<Input>, c: seq<Input>)
    ensures Chain(Chain(a, b), c) == Chain(a, Chain(b, c))
  {
  }

  lemma ChainLength(sent: seq<Input>, input: Input, n: nat)
    ensures |Chain(sent, Repeat(input, n))| == |sent| + n
  {
  }

  lemma SentNothing(input: Input, sent: seq<Input>)
    ensures Chain(sent, Sent(input, [])) == sent
  {
  }

  // ---------- the collector ----------

  class Client {
    const backend: FiniteBackend
    var requests: seq<Input>

    constructor (backend: FiniteBackend)
      ensures this.backend == backend && requests == []
    {
      this.backend := backend;
      requests := [];
    }

    method FilterLogEvents(input: Input) returns (r: Response<Page>)
      modifies this
      ensures requests == old(requests) + [input] && r == backend.world.script(|old(requests)|)
    {
      r := backend.world.script(|requests|);
      requests := requests + [input];
    }
  }

  class RetryState {
    var remainingBudget: int

    constructor (budget: int)
      ensures remainingBudget == budget
    {
      remainingBudget := budget;
    }
  }

  class Collector {
    const client: Client
    const cfg: Settings
    var throttledResponses: nat
    var retryAttempts: nat
    var retryBudgetExceeded: nat
    var throttleDrops: nat
    ghost var slept: seq<int>

    constructor (client: Client, cfg: Config)
      requires InInt64(cfg.initialBackoff) && InInt64(cfg.maxBackoff)
      ensures this.client == client && this.cfg == Clamp(cfg)
      ensures throttledResponses == retryAttempts == retryBudgetExceeded == throttleDrops == 0 && slept == []
    {
      this.client := client;
      this.cfg := Clamp(cfg);
      throttledResponses, retryAttempts, retryBudgetExceeded, throttleDrops, slept := 0, 0, 0, 0, [];
    }

    /** Everything counted so far. */
    ghost function Account(): Tally
      reads this, client
    {
      Tally(|client.requests|, throttledResponses, retryAttempts, retryBudgetExceeded, throttleDrops, slept)
    }

    /** One turn of the retry loop: a final result, or a consumed retry and a finished wait. */
    method Attempt(input: Input, state: RetryState, attempt: int, backoff: int)
        returns (finished: bool, result: Retry.Result<Page>)
      requires 1 <= attempt <= cfg.maxAttempts
      modifies this, client, state
      ensures client.requests == old(client.requests) + [input]
      ensures var run := Attempts(cfg, client.backend.world, |old(client.requests)|, attempt, backoff, old(state.remainingBudget));
        if finished then
          && result == run.result && run.calls == 1 && Account() == Plus(old(Account()), Of(run))
          && state.remainingBudget == old(state.remainingBudget) - run.retried
        else
          var delay := Delay(cfg, client.backend.world, |old(client.requests)|, backoff);
          && attempt < cfg.maxAttempts
          && run == AfterRetry(delay, Attempts(cfg, client.backend.world, |client.requests|, attempt + 1,
                                               NextBackoff(backoff, cfg.maxBackoff), state.remainingBudget))
          && Account() == Plus(old(Account()), Tally(1, 1, 1, 0, 0, [delay]))
          && state.remainingBudget == old(state.remainingBudget) - 1
    {
      hide Jittered, NextBackoff, AfterRetry, Attempts;
      ghost var n := |client.requests|;
      AttemptsOnce(cfg, client.backend.world, n, attempt, backoff, state.remainingBudget);
      result := Failed(ClientError);
      var response := client.FilterLogEvents(input);
      assert |client.requests| - 1 == n;
      if response.Ok? {
        return true, Success(response.value);
      }
      if !response.Throttled? {
        return true, Failed(ClientError);
      }
      throttledResponses := throttledResponses + 1;
      if attempt == cfg.maxAttempts {
        throttleDrops := throttleDrops + 1;
        return true, Failed(ThrottledOut);
      }
      if state.remainingBudget <= 0 {
        retryBudgetExceeded := retryBudgetExceeded + 1;
        throttleDrops := throttleDrops + 1;
        return true, Failed(BudgetExhausted);
      }
      state.remainingBudget := state.remainingBudget - 1;
      retryAttempts := retryAttempts + 1;
      var delay := Jittered(backoff, cfg.jitterFraction, client.backend.world.rand(|client.requests| - 1));
      if client.backend.world.doneBefore(|client.requests| - 1) {
        return true, Failed(Cancelled);
      }
      slept := slept + [delay];
      if client.backend.world.doneAfter(|client.requests| - 1) {
        return true, Failed(Cancelled);
      }
      finished := false;
    }

    /** What a retried call did is exactly what the counters, the budget, the client and the
        clock saw. */
    method FilterWithRetry(input: Input, state: RetryState) returns (result: Retry.Result<Page>, ghost run: Run<Page>)
      modifies this, client, state
      ensures run == Call(cfg, client.backend.world, |old(client.requests)|, old(state.remainingBudget)) && result == run.result
      ensures client.requests == Chain(old(client.requests), Repeat(input, run.calls))
      ensures state.remainingBudget == old(state.remainingBudget) - run.retried
      ensures Account() == Plus(old(Account()), Of(run))
    {
      run := Call(cfg, client.backend.world, |client.requests|, state.remainingBudget);
      var backoff := cfg.initialBackoff;
      var attempt := 1;
      result := Failed(ClientError);
      ghost var rest := run;
      hide Attempts, NextBackoff, Jittered, Delay;
      while attempt <= cfg.maxAttempts
        invariant 1 <= attempt <= cfg.maxAttempts
        invariant rest == Attempts(cfg, client.backend.world, |client.requests|, attempt, backoff, state.remainingBudget)
        invariant run.result == rest.result && run.calls == attempt - 1 + rest.calls
        invariant client.requests == old(client.requests) + Repeat(input, attempt - 1)
        invariant state.remainingBudget - rest.retried == old(state.remainingBudget) - run.retried
        invariant Plus(Account(), Of(rest)) == Plus(old(Account()), Of(run))
        decreases cfg.maxAttempts - attempt
      {
        ghost var before := Account();
        var finished, r := Attempt(input, state, attempt, backoff);
        if finished {
          return r, run;
        }
        backoff := NextBackoff(backoff, cfg.maxBackoff);
        attempt := attempt + 1;
        rest := Attempts(cfg, client.backend.world, |client.requests|, attempt, backoff, state.remainingBudget);
        RetryAssociates(before, Account(), rest);
      }
      assert false;  // the "unreachable retry state" return
    }

    /** The window, with the defaults for unset ends. */
    static function Window(req: CollectRequest, now: Time): (Time, Time) {
      var end := if req.endTime == ZERO_TIME then now else req.endTime;
      (if req.startTime == ZERO_TIME then end - 5 * MINUTE else req.startTime, end)
    }

    static function FirstInput(req: CollectRequest, now: Time): Input {
      var (start, end) := Window(req, now);
      Input(req.logGroupName, req.filterPattern, UnixMilli(start), UnixMilli(end), req.limit, "")
    }

    static predicate Malformed(req: CollectRequest, now: Time) {
      req.logGroupName == "" || Window(req, now).0 > Window(req, now).1
    }

    /** One page of the loop that has `whole` to do; `left` is what it has to do afterwards. */
    method FetchPage(input: Input, state: RetryState, token: string, seen: set<string>, ghost whole: Trace)
        returns (result: Retry.Result<Page>, ghost left: Trace)
      requires IsRest(whole, cfg, client.backend, |client.requests|, state.remainingBudget, seen, token)
      modifies this, client, state
      ensures if result.Failed? then left.fetches == [] && whole.answer == Error(result.reason)
        else if Ends(result.value, seen) then left.fetches == [] && whole.answer == Records(result.value.records)
        else
          && IsRest(left, cfg, client.backend, |client.requests|, state.remainingBudget, seen + {result.value.nextToken}, result.value.nextToken)
          && whole.answer == Prefixed(result.value.records, left.answer)
          && client.backend.universe - (seen + {result.value.nextToken}) < client.backend.universe - seen
      ensures Plus(Account(), Sum(left.fetches)) == Plus(old(Account()), Sum(whole.fetches))
      ensures Chain(client.requests, Sent(input, left.fetches)) == Chain(old(client.requests), Sent(input, whole.fetches))
    {
      ghost var n, budget, sent, account := |client.requests|, state.remainingBudget, client.requests, Account();
      assert whole == Pages(cfg, client.backend, n, budget, seen, token);
      left := Left(cfg, client.backend, n, budget, seen);
      PageTotals(cfg, client.backend, n, budget, seen, token, input);
      PageAnswer(cfg, client.backend, n, budget, seen, token);
      NewTokenShrinks(cfg, client.backend, n, budget, seen);
      hide Call, Pages, Left, Sum, Sent, Repeat, Chain, Plus, IsRest, Prefixed, Account, Of, Ends, AfterRetry;
      ghost var run;
      result, run := FilterWithRetry(input.(token := token), state);
      ChainLength(sent, input.(token := token), run.calls);
      PlusAssociates(account, Of(run), Sum(left.fetches));
      ChainAssociates(sent, Repeat(input.(token := token), run.calls), Sent(input, left.fetches));
    }

    /** The loop over pages. */
    method CollectPages(input: Input) returns (answer: Answer, ghost trace: Trace)
      requires input.token == ""
      modifies this, client
      ensures trace == Pages(cfg, client.backend, |old(client.requests)|, cfg.maxRetryBudget, {}, "") && answer == trace.answer
      ensures client.requests == Chain(old(client.requests), Sent(input, trace.fetches))
      ensures Account() == Plus(old(Account()), Sum(trace.fetches))
    {
      var records: seq<LogRecord> := [];
      var nextToken := "";
      var seenToken: set<string> := {};
      var state := new RetryState(cfg.maxRetryBudget);
      trace := Pages(cfg, client.backend, |client.requests|, cfg.maxRetryBudget, {}, "");
      ghost var rest := trace;
      EmptyPrefix(trace.answer);
      assert IsRest(rest, cfg, client.backend, |client.requests|, state.remainingBudget, seenToken, nextToken);
      hide Pages, Sum, Plus, Sent, Chain, Prefixed, Account, IsRest;
      while true
        invariant IsRest(rest, cfg, client.backend, |client.requests|, state.remainingBudget, seenToken, nextToken)
        invariant trace.answer == Prefixed(records, rest.answer)
        invariant Chain(client.requests, Sent(input, rest.fetches)) == Chain(old(client.requests), Sent(input, trace.fetches))
        invariant Plus(Account(), Sum(rest.fetches)) == Plus(old(Account()), Sum(trace.fetches))
        decreases client.backend.universe - seenToken
      {
        var result;
        result, rest := FetchPage(input, state, nextToken, seenToken, rest);
        PlusNothing(Account());
        SentNothing(input, client.requests);
        if result.Failed? {
          PrefixError(records, result.reason);
          return Error(result.reason), trace;
        }
        PrefixTwice(records, result.value.records, rest.answer);
        records := records + result.value.records;
        if Ends(result.value, seenToken) {
          return Records(records), trace;
        }
        nextToken := result.value.nextToken;
        seenToken := seenToken + {nextToken};
      }
    }

    /** `Collect`: malformed requests send nothing; every other call is the specified page loop. */
    method Collect(req: CollectRequest, now: Time) returns (answer: Answer, ghost trace: Trace)
      modifies this, client
      ensures Malformed(req, now) ==> answer == Invalid && trace == Trace(Invalid, [])
      ensures !Malformed(req, now) ==>
        trace == Pages(cfg, client.backend, |old(client.requests)|, cfg.maxRetryBudget, {}, "") && answer == trace.answer
      ensures client.requests == Chain(old(client.requests), Sent(FirstInput(req, now), trace.fetches))
      ensures Account() == Plus(old(Account()), Sum(trace.fetches))
      ensures var end := if req.endTime == ZERO_TIME then now else req.endTime;
        var start := if req.startTime == ZERO_TIME then end - 5 * MINUTE else req.startTime;
        if req.logGroupName == "" || start > end then answer == Invalid && client.requests == old(client.requests)
        else
          && !answer.Invalid? && old(client.requests) <= client.requests
          && Asks(client.requests[|old(client.requests)|..],
                  Input(req.logGroupName, req.filterPattern, UnixMilli(start), UnixMilli(end), req.limit, ""),
                  client.backend.world, |old(client.requests)|, "")
    {
      hide Pages, Asks;
      PagesAsk(cfg, client.backend, |client.requests|, cfg.maxRetryBudget, {}, "", FirstInput(req, now));
      trace := Trace(Invalid, []);
      answer := Invalid;
      SentNothing(FirstInput(req, now), client.requests);
      PlusNothing(Account());
      if req.logGroupName == "" {
        return;
      }
      var endTime := req.endTime;
      if endTime == ZERO_TIME {
        endTime := now;
      }
      var startTime := req.startTime;
      if startTime == ZERO_TIME {
        startTime := endTime - 5 * MINUTE;
      }
      if startTime > endTime {
        return;
      }
      answer, trace := CollectPages(Input(req.logGroupName, req.filterPattern, UnixMilli(startTime), UnixMilli(endTime), req.limit, ""));
    }
  }

  lemma EmptyPrefix(a: Answer)
    ensures Prefixed([], a) == a
  {
  }

  lemma PrefixTwice(x: seq<LogRecord>, y: seq<LogRecord>, a: Answer)
    ensures Prefixed(x, Prefixed(y, a)) == Prefixed(x + y, a)
    ensures Prefixed(x, Records(y)) == Records(x + y)
  {
  }

  lemma PrefixError(x: seq<LogRecord>, reason: Failure)
    ensures Prefixed(x, Error(reason)) == Error(reason)
  {
  }

  /** One turn of the page loop: what it adds to the totals and the requests. */
  lemma PageTotals(c: Settings, b: FiniteBackend, n: nat, budget: int, seen: set<string>, token: string, input: Input)
    ensures var run, whole, left := Call(c, b.world, n, budget), Pages(c, b, n, budget, seen, token), Left(c, b, n, budget, seen);
      && Sum(whole.fetches) == Plus(Of(run), Sum(left.fetches))
      && Sent(input, whole.fetches) == Chain(Repeat(input.(token := token), run.calls), Sent(input, left.fetches))
  {
    hide Call, Left, Sum, Sent, Repeat, Chain, Plus;
    SumFirst(Fetch(token, Call(c, b.world, n, budget)), Left(c, b, n, budget, seen).fetches);
    SentFirst(input, Fetch(token, Call(c, b.world, n, budget)), Left(c, b, n, budget, seen).fetches);
  }

  /** One turn of the page loop: what it adds to the answer, and what is left. */
  lemma PageAnswer(c: Settings, b: FiniteBackend, n: nat, budget: int, seen: set<string>, token: string)
    ensures var run, whole, left := Call(c, b.world, n, budget), Pages(c, b, n, budget, seen, token), Left(c, b, n, budget, seen);
      if run.result.Failed? then left == Trace(Invalid, []) && whole.answer == Error(run.result.reason)
      else if Ends(run.result.value, seen) then left == Trace(Invalid, []) && whole.answer == Records(run.result.value.records)
      else
        && IsRest(left, c, b, n + run.calls, budget - run.retried, seen + {run.result.value.nextToken}, run.result.value.nextToken)
        && whole.answer == Prefixed(run.result.value.records, left.answer)
  {
    hide Call, Prefixed;
  }
}

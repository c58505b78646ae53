/** The throttling retry loop both collectors share: attempts, budget, backoff, counters. */
module Retry {
  import opened GoTime

  // ---------- configuration ----------

  datatype Config = Config(maxAttempts: int, initialBackoff: int, maxBackoff: int, maxRetryBudget: int, jitterFraction: real)

  const DEFAULT_MAX_ATTEMPTS: int := 3
  const DEFAULT_INITIAL_BACKOFF: int := 250 * MILLISECOND
  const DEFAULT_MAX_BACKOFF: int := 5 * SECOND
  const DEFAULT_JITTER: real := 0.2

  /** What a clamped configuration guarantees to the retry loop. */
  predicate Usable(c: Config) {
    && 1 <= c.maxAttempts
    && 0 < c.initialBackoff <= c.maxBackoff <= MAX_INT64
    && 0 <= c.maxRetryBudget
    && 0.0 < c.jitterFraction <= 1.0
  }

  type Settings = c: Config | Usable(c) witness Config(1, 1, 1, 0, 1.0)

  /** `NewCollector`: replace or clamp every out-of-range setting. */
  function Clamp(c: Config): (r: Settings)
    requires InInt64(c.initialBackoff) && InInt64(c.maxBackoff)
    ensures Usable(c) && c.maxRetryBudget > 0 ==> r == c
    ensures r.maxRetryBudget == if c.maxRetryBudget > 0 then c.maxRetryBudget else r.maxAttempts - 1
    ensures c.maxAttempts <= 0 ==> r.maxAttempts == 3
    ensures c.maxAttempts > 0 ==> r.maxAttempts == c.maxAttempts
    ensures c.initialBackoff <= 0 ==> r.initialBackoff == 250 * MILLISECOND
    ensures c.initialBackoff > 0 ==> r.initialBackoff == c.initialBackoff
    ensures r.maxBackoff == Max(if c.maxBackoff > 0 then c.maxBackoff else 5 * SECOND, r.initialBackoff)
    ensures c.jitterFraction <= 0.0 ==> r.jitterFraction == 0.2
    ensures c.jitterFraction > 0.0 ==> r.jitterFraction == if c.jitterFraction > 1.0 then 1.0 else c.jitterFraction
  {
    var maxAttempts := if c.maxAttempts <= 0 then DEFAULT_MAX_ATTEMPTS else c.maxAttempts;
    var initialBackoff := if c.initialBackoff <= 0 then DEFAULT_INITIAL_BACKOFF else c.initialBackoff;
    var maxBackoff := Max(if c.maxBackoff <= 0 then DEFAULT_MAX_BACKOFF else c.maxBackoff, initialBackoff);
    var maxRetryBudget := Max(if c.maxRetryBudget <= 0 then maxAttempts - 1 else c.maxRetryBudget, 0);
    var jitter := if c.jitterFraction <= 0.0 then DEFAULT_JITTER else c.jitterFraction;
    Config(maxAttempts, initialBackoff, maxBackoff, maxRetryBudget, if jitter > 1.0 then 1.0 else jitter)
  }

  // ---------- the outside world ----------

  datatype Response<+T> = Ok(value: T) | Throttled | Broken

  /** Everything the environment decides, indexed by the number of the client call: the response,
      whether the context is done before and after the sleep that follows it, and the random draw. */
  datatype World<!T> = World(script: nat -> Response<T>, doneBefore: nat -> bool, doneAfter: nat -> bool, rand: nat -> real)

  ghost predicate Draws<T>(w: World<T>) {
    forall n: nat :: 0.0 <= w.rand(n) < 1.0
  }

  // ---------- backoff ----------

  /** `nextBackoff`: the doubling is an int64 product. */
  function NextBackoff(current: int, maxBackoff: int): int {
    var next := Wrap64(current * 2);
    if next <= 0 then maxBackoff else if next > maxBackoff then maxBackoff else next
  }

  /** The base delay before retry `k`, counted from 1. */
  function BaseDelay(c: Config, k: nat): int
    requires k >= 1
  {
    if k == 1 then c.initialBackoff else NextBackoff(BaseDelay(c, k - 1), c.maxBackoff)
  }

  function Pow2(k: nat): (p: nat)
    ensures p >= 1
  {
    if k == 0 then 1 else 2 * Pow2(k - 1)
  }

  /** The sign test of `nextBackoff` catches exactly the overflowing doublings. */
  lemma SignTestCatchesOverflow(current: int)
    requires 0 < current <= MAX_INT64
    ensures Wrap64(current * 2) <= 0 <==> current * 2 > MAX_INT64
    ensures current * 2 <= MAX_INT64 ==> Wrap64(current * 2) == current * 2
  {
    assert current * 2 > MAX_INT64 ==> Wrap64(current * 2) == current * 2 - TWO_64;
  }

  lemma NextBackoffExact(current: int, maxBackoff: int)
    requires 0 < current <= maxBackoff <= MAX_INT64
    ensures NextBackoff(current, maxBackoff) == Min(2 * current, maxBackoff)
  {
    SignTestCatchesOverflow(current);
    hide Wrap64;
  }

  lemma Doubling(a: int, p: int)
    ensures a * (2 * p) == 2 * (a * p)
  {
  }

  /** The delay before retry `k` is exactly min(initial * 2^(k-1), maxBackoff). */
  lemma {:induction false} BackoffClosedForm(c: Config, k: nat)
    requires Usable(c) && k >= 1
    ensures BaseDelay(c, k) == Min(c.initialBackoff * Pow2(k - 1), c.maxBackoff)
    ensures 0 < BaseDelay(c, k) <= c.maxBackoff
  {
    if k > 1 {
      BackoffClosedForm(c, k - 1);
      NextBackoffExact(BaseDelay(c, k - 1), c.maxBackoff);
      hide NextBackoff;
      Doubling(c.initialBackoff, Pow2(k - 2));
    }
  }

  /** Conversion of a float to a duration; out of range it yields the minimum, as on amd64. */
  function ToDuration(x: real): int {
    if x >= 9223372036854775808.0 then MIN_INT64 else x.Floor
  }

  /** `jitteredBackoff`. */
  function Jittered(base: int, jitter: real, rand: real): int {
    if base <= 0 then 0
    else if jitter <= 0.0 then base
    else
      var scale := (rand * 2.0 - 1.0) * jitter;
      var delay := ToDuration(base as real * (1.0 + scale));
      if delay < 0 then 0 else delay
  }

  lemma ScaleBounds(jitter: real, rand: real)
    requires 0.0 < jitter <= 1.0 && 0.0 <= rand < 1.0
    ensures -1.0 <= (rand * 2.0 - 1.0) * jitter <= jitter
  {
    var s := rand * 2.0 - 1.0;
    assert s * jitter <= 1.0 * jitter;
    assert (s + 1.0) * jitter >= 0.0;
  }

  /** A delay of at most (1 + jitter) times `base`. */
  predicate Within(delay: int, base: int, jitter: real) {
    0 <= delay && delay as real <= base as real * (1.0 + jitter)
  }

  lemma ScaledMonotone(a: real, x: real, y: real)
    requires a >= 0.0 && x <= y
    ensures a * x <= a * y
  {
  }

  lemma WithinSum(d: int, b: int, e: int, c: int, jitter: real)
    requires Within(d, b, jitter) && Within(e, c, jitter)
    ensures Within(d + e, b + c, jitter)
  {
    assert (b + c) as real * (1.0 + jitter) == b as real * (1.0 + jitter) + c as real * (1.0 + jitter);
  }

  lemma WithinMonotone(d: int, b: int, c: int, jitter: real)
    requires Within(d, b, jitter) && b <= c && jitter > 0.0
    ensures Within(d, c, jitter)
  {
    ScaledMonotone(1.0 + jitter, b as real, c as real);
  }

  /** One sleep is between nothing and (1 + jitter) times its base. */
  lemma JitterBound(base: int, jitter: real, rand: real)
    requires 0 < base && 0.0 < jitter <= 1.0 && 0.0 <= rand < 1.0
    ensures Within(Jittered(base, jitter, rand), base, jitter)
  {
    ScaleBounds(jitter, rand);
    var scale := (rand * 2.0 - 1.0) * jitter;
    ScaledMonotone(base as real, 1.0 + scale, 1.0 + jitter);
    ScaledMonotone(base as real, 0.0, 1.0 + scale);
    assert (base as real * (1.0 + scale)).Floor as real <= base as real * (1.0 + scale);
  }

  /** `delay` is `base` times 1 + (2r - 1) * jitter, rounded down. */
  predicate RoundedProduct(delay: int, base: int, jitter: real, rand: real) {
    var product := base as real * (1.0 + (rand * 2.0 - 1.0) * jitter);
    product - 1.0 < delay as real <= product
  }

  /** A sleep is the jittered product rounded down exactly when the product fits a duration; beyond
      that the conversion goes wrong and nothing is slept. */
  lemma JitterExactIff(base: int, jitter: real, rand: real)
    requires 0 < base && 0.0 < jitter <= 1.0 && 0.0 <= rand < 1.0
    ensures RoundedProduct(Jittered(base, jitter, rand), base, jitter, rand)
      <==> base as real * (1.0 + (rand * 2.0 - 1.0) * jitter) < 9223372036854775808.0
  {
    ScaleBounds(jitter, rand);
    var scale := (rand * 2.0 - 1.0) * jitter;
    ScaledMonotone(base as real, 0.0, 1.0 + scale);
    var product := base as real * (1.0 + scale);
    assert product - 1.0 < product.Floor as real <= product;
  }

  // ---------- one call with retries ----------

  datatype Failure = ThrottledOut | BudgetExhausted | Cancelled | ClientError

  datatype Result<+T> = Success(value: T) | Failed(reason: Failure)

  /** What one retried call returned and did: client calls, counter increments, sleeps. */
  datatype Run<+T> = Run(result: Result<T>, calls: nat, throttled: nat, retried: nat, exceeded: nat, drops: nat, sleeps: seq<int>)

  function Delay<T>(c: Config, w: World<T>, n: nat, backoff: int): int {
    Jittered(backoff, c.jitterFraction, w.rand(n))
  }

  /** The run as seen from one throttled attempt earlier. */
  function AfterRetry<T>(delay: int, rest: Run<T>): Run<T> {
    rest.(calls := rest.calls + 1, throttled := rest.throttled + 1, retried := rest.retried + 1, sleeps := [delay] + rest.sleeps)
  }

  /** The retry loop from attempt `attempt` on, `n` being the number of the next client call. */
  function Attempts<T>(c: Config, w: World<T>, n: nat, attempt: int, backoff: int, budget: int): Run<T>
    requires attempt <= c.maxAttempts
    decreases c.maxAttempts - attempt
  {
    match w.script(n)
    case Ok(v) => Run(Success(v), 1, 0, 0, 0, 0, [])
    case Broken => Run(Failed(ClientError), 1, 0, 0, 0, 0, [])
    case Throttled =>
      if attempt == c.maxAttempts then Run(Failed(ThrottledOut), 1, 1, 0, 0, 1, [])
      else if budget <= 0 then Run(Failed(BudgetExhausted), 1, 1, 0, 1, 1, [])
      else if w.doneBefore(n) then Run(Failed(Cancelled), 1, 1, 1, 0, 0, [])
      else if w.doneAfter(n) then Run(Failed(Cancelled), 1, 1, 1, 0, 0, [Delay(c, w, n, backoff)])
      else AfterRetry(Delay(c, w, n, backoff), Attempts(c, w, n + 1, attempt + 1, NextBackoff(backoff, c.maxBackoff), budget - 1))
  }

  /** What one turn of the retry loop decides. */
  lemma AttemptsOnce<T>(c: Config, w: World<T>, n: nat, attempt: int, backoff: int, budget: int)
    requires attempt <= c.maxAttempts
    ensures var run := Attempts(c, w, n, attempt, backoff, budget);
      match w.script(n)
      case Ok(v) => run == Run(Success(v), 1, 0, 0, 0, 0, [])
      case Broken => run == Run(Failed(ClientError), 1, 0, 0, 0, 0, [])
      case Throttled =>
        && (attempt == c.maxAttempts ==> run == Run(Failed(ThrottledOut), 1, 1, 0, 0, 1, []))
        && (attempt < c.maxAttempts && budget <= 0 ==> run == Run(Failed(BudgetExhausted), 1, 1, 0, 1, 1, []))
        && (attempt < c.maxAttempts && budget > 0 ==>
              && (w.doneBefore(n) ==> run == Run(Failed(Cancelled), 1, 1, 1, 0, 0, []))
              && (!w.doneBefore(n) && w.doneAfter(n) ==> run == Run(Failed(Cancelled), 1, 1, 1, 0, 0, [Delay(c, w, n, backoff)]))
              && (!w.doneBefore(n) && !w.doneAfter(n) ==>
                    run == AfterRetry(Delay(c, w, n, backoff), Attempts(c, w, n + 1, attempt + 1, NextBackoff(backoff, c.maxBackoff), budget - 1))))
  {
  }

  /** A whole retried call. */
  function Call<T>(c: Settings, w: World<T>, n: nat, budget: int): Run<T>
  {
    Attempts(c, w, n, 1, c.initialBackoff, budget)
  }

  /** Every client call of a run but the last was throttled; a success is the answer to the last. */
  lemma {:induction false} CallsOfRun<T>(c: Config, w: World<T>, n: nat, attempt: int, backoff: int, budget: int)
    requires attempt <= c.maxAttempts
    ensures var r := Attempts(c, w, n, attempt, backoff, budget);
      && r.calls >= 1 && (forall k :: n <= k < n + r.calls - 1 ==> w.script(k).Throttled?)
      && (r.result.Success? ==> w.script(n + r.calls - 1) == Ok(r.result.value))
      && (r.result.Failed? ==> !w.script(n + r.calls - 1).Ok?)
    decreases c.maxAttempts - attempt
  {
    hide NextBackoff, Delay;
    if w.script(n).Throttled? && attempt < c.maxAttempts {
      CallsOfRun(c, w, n + 1, attempt + 1, NextBackoff(backoff, c.maxBackoff), budget - 1);
    }
  }

  // ---------- totals ----------

  /** What retried calls did together: client calls, counters, sleeps. */
  datatype Tally = Tally(calls: int, throttled: int, retried: int, exceeded: int, drops: int, sleeps: seq<int>)

  function Plus(a: Tally, b: Tally): Tally {
    Tally(a.calls + b.calls, a.throttled + b.throttled, a.retried + b.retried, a.exceeded + b.exceeded,
          a.drops + b.drops, a.sleeps + b.sleeps)
  }

  function Of<T>(r: Run<T>): Tally {
    Tally(r.calls, r.throttled, r.retried, r.exceeded, r.drops, r.sleeps)
  }

  lemma PlusAssociates(a: Tally, b: Tally, c: Tally)
    ensures Plus(Plus(a, b), c) == Plus(a, Plus(b, c))
  {
  }

  lemma RetryAssociates<T>(before: Tally, after: Tally, rest: Run<T>)
    ensures forall delay: int :: after == Plus(before, Tally(1, 1, 1, 0, 0, [delay])) ==>
      Plus(after, Of(rest)) == Plus(before, Of(AfterRetry(delay, rest)))
  {
  }

  /** The requests of one call: the same one every time. */
  function Repeat<I>(input: I, n: nat): (r: seq<I>)
    ensures |r| == n && forall i :: 0 <= i < n ==> r[i] == input
  {
    seq(n, (i: nat) => input)
  }

  // ---------- accounting ----------

  /** Conservation of one retried call: every throttled response is either retried or dropped,
      also when the wait is cancelled; the retries come out of the budget. */
  lemma {:induction false} CallAccounting<T>(c: Config, w: World<T>, n: nat, attempt: int, backoff: int, budget: int)
    requires attempt <= c.maxAttempts && 0 <= budget
    ensures var r := Attempts(c, w, n, attempt, backoff, budget);
      && r.throttled == r.retried + r.drops
      && r.retried <= budget && r.retried <= c.maxAttempts - attempt
      && r.drops == (if r.result == Failed(ThrottledOut) || r.result == Failed(BudgetExhausted) then 1 else 0)
      && r.exceeded == (if r.result == Failed(BudgetExhausted) then 1 else 0)
      && r.calls == r.retried + (if r.result == Failed(Cancelled) then 0 else 1)
      && |r.sleeps| <= r.retried
      && (r.result == Failed(BudgetExhausted) ==> r.retried == budget && budget < c.maxAttempts - attempt)
    decreases c.maxAttempts - attempt
  {
    if w.script(n).Throttled? && attempt < c.maxAttempts && budget > 0 {
      CallAccounting(c, w, n + 1, attempt + 1, NextBackoff(backoff, c.maxBackoff), budget - 1);
    }
  }

  /** The backend that throttles every call, with nobody cancelling. */
  function AlwaysThrottled<T>(): World<T> {
    World((n: nat) => Throttled, (n: nat) => false, (n: nat) => false, (n: nat) => 0.5)
  }

  lemma {:induction false} ThrottlingExhausts<T>(c: Config, n: nat, attempt: int, backoff: int, budget: int)
    requires 0 <= budget < c.maxAttempts - attempt
    ensures Attempts<T>(c, AlwaysThrottled(), n, attempt, backoff, budget).result == Failed(BudgetExhausted)
    decreases c.maxAttempts - attempt
  {
    if budget > 0 {
      ThrottlingExhausts<T>(c, n + 1, attempt + 1, NextBackoff(backoff, c.maxBackoff), budget - 1);
    }
  }

  /** A single call can report an exhausted budget exactly when the budget is smaller than the
      number of retries the attempt limit allows. */
  lemma BudgetMattersIff<T>(c: Settings, n: nat, budget: int)
    requires 0 <= budget
    ensures (exists w: World<T> :: Call(c, w, n, budget).result == Failed(BudgetExhausted)) <==> budget < c.maxAttempts - 1
  {
    if budget < c.maxAttempts - 1 {
      ThrottlingExhausts<T>(c, n, 1, c.initialBackoff, budget);
      assert Call<T>(c, AlwaysThrottled(), n, budget).result == Failed(BudgetExhausted);
    }
    forall w: World<T> | Call(c, w, n, budget).result == Failed(BudgetExhausted) ensures budget < c.maxAttempts - 1 {
      CallAccounting(c, w, n, 1, c.initialBackoff, budget);
    }
  }

  /** Nobody cancels around the sleep after client call `n`, which was throttled. */
  predicate Retries<T>(w: World<T>, n: nat) {
    w.script(n).Throttled? && !w.doneBefore(n) && !w.doneAfter(n)
  }

  /** Client call `m` is answered, and every call from `n` up to it was throttled and retried. */
  ghost predicate AnswersAt<T>(w: World<T>, n: nat, m: nat, v: T) {
    n <= m && w.script(m) == Ok(v) && forall i :: n <= i < m ==> Retries(w, i)
  }

  lemma {:induction false} AttemptsSucceedIff<T>(c: Config, w: World<T>, n: nat, attempt: int, backoff: int, budget: int, v: T)
    requires attempt <= c.maxAttempts && 0 <= budget
    ensures Attempts(c, w, n, attempt, backoff, budget).result == Success(v)
      <==> exists m: nat :: m - n <= c.maxAttempts - attempt && m - n <= budget && AnswersAt(w, n, m, v)
    decreases c.maxAttempts - attempt
  {
    hide NextBackoff, Delay;
    if Retries(w, n) && attempt < c.maxAttempts && budget > 0 {
      var next := n + 1;
      AttemptsSucceedIff(c, w, next, attempt + 1, NextBackoff(backoff, c.maxBackoff), budget - 1, v);
      forall m: nat | AnswersAt(w, next, m, v) ensures AnswersAt(w, n, m, v) {
      }
      forall m: nat | AnswersAt(w, n, m, v) ensures AnswersAt(w, next, m, v) {
      }
      hide AnswersAt, Retries;
    } else {
      forall m: nat | AnswersAt(w, n, m, v) && m > n ensures Retries(w, n) {
      }
      assert w.script(n) == Ok(v) ==> AnswersAt(w, n, n, v);
    }
  }

  /** A call succeeds exactly when the client answers after throttling fewer times than there are
      attempts, no more often than the budget allows, and with nobody cancelling in between. */
  lemma CallSucceedsIff<T>(c: Settings, w: World<T>, n: nat, budget: int, v: T)
    requires 0 <= budget
    ensures Call(c, w, n, budget).result == Success(v)
      <==> exists m: nat :: m - n < c.maxAttempts && m - n <= budget && AnswersAt(w, n, m, v)
  {
    AttemptsSucceedIff(c, w, n, 1, c.initialBackoff, budget, v);
    hide Attempts, AnswersAt;
  }

  // ---------- sleeping ----------

  function Total(sleeps: seq<int>): int {
    if sleeps == [] then 0 else sleeps[0] + Total(sleeps[1..])
  }

  /** The sum of the base delays of `m` retries from retry `k` on. */
  function BaseSum(c: Config, k: nat, m: nat): int
    requires k >= 1
    decreases m
  {
    if m == 0 then 0 else BaseDelay(c, k) + BaseSum(c, k + 1, m - 1)
  }

  /** The geometric sum that bounds the base delays of `m` retries from retry `k` on. */
  function SumCap(c: Config, k: nat, m: nat): int
    requires k >= 1
  {
    c.initialBackoff * (Pow2(k - 1 + m) - Pow2(k - 1))
  }

  lemma Distribute(a: int, q: int, p: int)
    ensures a * (q - p) == a * (q - 2 * p) + a * p
  {
  }

  lemma SumCapFirst(c: Config, k: nat, m: nat)
    requires k >= 1
    ensures SumCap(c, k, 0) == 0
    ensures m >= 1 ==> SumCap(c, k, m) == c.initialBackoff * Pow2(k - 1) + SumCap(c, k + 1, m - 1)
  {
    assert Pow2(k) == 2 * Pow2(k - 1);
    hide Pow2;
    Distribute(c.initialBackoff, Pow2(k - 1 + m), Pow2(k - 1));
  }

  lemma {:induction false} BaseSumBound(c: Config, k: nat, m: nat)
    requires Usable(c) && k >= 1
    ensures 0 <= BaseSum(c, k, m) <= SumCap(c, k, m)
    decreases m
  {
    hide SumCap, BaseDelay, Pow2;
    SumCapFirst(c, k, m);
    if m > 0 {
      BackoffClosedForm(c, k);
      BaseSumBound(c, k + 1, m - 1);
    }
  }

  /** The sleeps jitter the base delays of retries `k`, `k + 1`, ... */
  ghost predicate JitteredFrom(c: Config, sleeps: seq<int>, k: nat)
    requires k >= 1
  {
    sleeps != [] ==> Within(sleeps[0], BaseDelay(c, k), c.jitterFraction) && JitteredFrom(c, sleeps[1..], k + 1)
  }

  lemma {:induction false} TotalWithinBaseSum(c: Config, sleeps: seq<int>, k: nat)
    requires k >= 1 && JitteredFrom(c, sleeps, k)
    ensures Within(Total(sleeps), BaseSum(c, k, |sleeps|), c.jitterFraction)
    decreases |sleeps|
  {
    if sleeps != [] {
      hide BaseDelay, Within;
      TotalWithinBaseSum(c, sleeps[1..], k + 1);
      WithinSum(sleeps[0], BaseDelay(c, k), Total(sleeps[1..]), BaseSum(c, k + 1, |sleeps| - 1), c.jitterFraction);
    }
  }

  lemma FirstSleepFollowsBackoff<T>(c: Config, w: World<T>, n: nat, k: nat)
    requires Usable(c) && Draws(w) && 1 <= k <= c.maxAttempts
    ensures Within(Delay(c, w, n, BaseDelay(c, k)), BaseDelay(c, k), c.jitterFraction)
    ensures BaseDelay(c, k + 1) == NextBackoff(BaseDelay(c, k), c.maxBackoff)
  {
    BackoffClosedForm(c, k);
    JitterBound(BaseDelay(c, k), c.jitterFraction, w.rand(n));
  }

  lemma JitteredCons(c: Config, sleep: int, rest: seq<int>, k: nat)
    requires k >= 1 && Within(sleep, BaseDelay(c, k), c.jitterFraction) && JitteredFrom(c, rest, k + 1)
    ensures JitteredFrom(c, [sleep] + rest, k)
  {
    hide Within, BaseDelay;
    assert ([sleep] + rest)[1..] == rest;
  }

  /** Every sleep of a call jitters the base delay of its own retry. */
  lemma {:induction false} SleepsFollowBackoff<T>(c: Config, w: World<T>, n: nat, k: nat, budget: int)
    requires Usable(c) && Draws(w) && 1 <= k <= c.maxAttempts
    ensures JitteredFrom(c, Attempts(c, w, n, k, BaseDelay(c, k), budget).sleeps, k)
    decreases c.maxAttempts - k
  {
    hide Usable, Draws, BaseDelay, NextBackoff, Within, Delay;
    if w.script(n).Throttled? && k < c.maxAttempts && budget > 0 && !w.doneBefore(n) {
      FirstSleepFollowsBackoff(c, w, n, k);
      var delay := Delay(c, w, n, BaseDelay(c, k));
      JitteredCons(c, delay, [], k);
      if !w.doneAfter(n) {
        SleepsFollowBackoff(c, w, n + 1, k + 1, budget - 1);
        JitteredCons(c, delay, Attempts(c, w, n + 1, k + 1, BaseDelay(c, k + 1), budget - 1).sleeps, k);
      }
    }
  }

  /** The sleeps of a run: none unless it retries, else that before the retry and those after it. */
  lemma SleepsStep<T>(c: Config, w: World<T>, n: nat, k: nat, budget: int)
    requires 1 <= k <= c.maxAttempts
    ensures var sleeps := Attempts(c, w, n, k, BaseDelay(c, k), budget).sleeps;
      var first := Jittered(BaseDelay(c, k), c.jitterFraction, w.rand(n));
      || sleeps == [] || sleeps == [first]
      || (k < c.maxAttempts && sleeps == [first] + Attempts(c, w, n + 1, k + 1, BaseDelay(c, k + 1), budget - 1).sleeps)
  {
    assert BaseDelay(c, k + 1) == NextBackoff(BaseDelay(c, k), c.maxBackoff);
    hide BaseDelay, NextBackoff, Jittered;
  }

  lemma {:induction false} SleepAt<T>(c: Config, w: World<T>, n: nat, k: nat, budget: int, i: nat)
    requires 1 <= k <= c.maxAttempts && i < |Attempts(c, w, n, k, BaseDelay(c, k), budget).sleeps|
    ensures Attempts(c, w, n, k, BaseDelay(c, k), budget).sleeps[i] == Jittered(BaseDelay(c, k + i), c.jitterFraction, w.rand(n + i))
    decreases i
  {
    hide Attempts, BaseDelay, Jittered;
    SleepsStep(c, w, n, k, budget);
    if i > 0 {
      var rest := Attempts(c, w, n + 1, k + 1, BaseDelay(c, k + 1), budget - 1).sleeps;
      SleepAt(c, w, n + 1, k + 1, budget - 1, i - 1);
      assert k + 1 + (i - 1) == k + i;
      assert rest[i - 1] == Jittered(BaseDelay(c, k + i), c.jitterFraction, w.rand(n + i));
    }
  }

  /** The longest jittered delay fits an int64 of nanoseconds. */
  predicate FitsDuration(most: int, jitter: real) {
    most as real * (1.0 + jitter) < 9223372036854775808.0
  }

  lemma ProductFits(base: int, most: int, jitter: real, scale: real, limit: real)
    requires 0 < base <= most && 0.0 < jitter && scale <= jitter && most as real * (1.0 + jitter) < limit
    ensures base as real * (1.0 + scale) < limit
  {
    ScaledMonotone(base as real, 1.0 + scale, 1.0 + jitter);
    ScaledMonotone(1.0 + jitter, base as real, most as real);
  }

  lemma JitteredIs(base: int, most: int, jitter: real, rand: real)
    requires 0 < base <= most && 0.0 < jitter <= 1.0 && 0.0 <= rand < 1.0 && FitsDuration(most, jitter)
    ensures RoundedProduct(Jittered(base, jitter, rand), base, jitter, rand)
  {
    ScaleBounds(jitter, rand);
    ProductFits(base, most, jitter, (rand * 2.0 - 1.0) * jitter, 9223372036854775808.0);
    JitterExactIff(base, jitter, rand);
  }

  /** Sleep `i` of a call is min(initial * 2^i, maximum) times 1 + (2r - 1) * jitter, rounded down,
      where `r` is the draw after client call `i`. */
  lemma CallSleepsAre<T>(c: Settings, w: World<T>, n: nat, budget: int, i: nat)
    requires Draws(w) && i < |Call(c, w, n, budget).sleeps| && FitsDuration(c.maxBackoff, c.jitterFraction)
    ensures RoundedProduct(Call(c, w, n, budget).sleeps[i], Min(c.initialBackoff * Pow2(i), c.maxBackoff), c.jitterFraction, w.rand(n + i))
  {
    assert BaseDelay(c, 1) == c.initialBackoff;
    hide BaseDelay, Jittered, Pow2, Attempts, RoundedProduct, FitsDuration;
    SleepAt(c, w, n, 1, budget, i);
    BackoffClosedForm(c, i + 1);
    JitteredIs(BaseDelay(c, i + 1), c.maxBackoff, c.jitterFraction, w.rand(n + i));
  }

  lemma ScaledIntMonotone(a: int, x: int, y: int)
    requires a >= 0 && x <= y
    ensures a * x <= a * y
  {
  }

  lemma {:induction false} Pow2Monotone(i: nat, j: nat)
    requires i <= j
    ensures Pow2(i) <= Pow2(j)
    decreases j
  {
    if i < j {
      Pow2Monotone(i, j - 1);
    }
  }

  /** The total sleep of one call with `n` retries is at most (1 + jitter) * initial * (2^n - 1). */
  lemma CallSleepBound<T>(c: Settings, w: World<T>, n: nat, budget: int)
    requires Draws(w) && 0 <= budget
    ensures var r := Call(c, w, n, budget);
      Within(Total(r.sleeps), c.initialBackoff * (Pow2(r.retried) - 1), c.jitterFraction)
  {
    var r := Call(c, w, n, budget);
    CallAccounting(c, w, n, 1, c.initialBackoff, budget);
    SleepsFollowBackoff(c, w, n, 1, budget);
    hide Attempts, BaseSum, Total, JitteredFrom, Within;
    TotalWithinBaseSum(c, r.sleeps, 1);
    BaseSumBound(c, 1, |r.sleeps|);
    Pow2Monotone(|r.sleeps|, r.retried);
    ScaledIntMonotone(c.initialBackoff, Pow2(|r.sleeps|) - 1, Pow2(r.retried) - 1);
    WithinMonotone(Total(r.sleeps), BaseSum(c, 1, |r.sleeps|), c.initialBackoff * (Pow2(r.retried) - 1), c.jitterFraction);
  }

  lemma {:induction false} BaseSumWithinMaxima(c: Config, k: nat, m: nat)
    requires Usable(c) && k >= 1
    ensures BaseSum(c, k, m) <= m * c.maxBackoff
    decreases m
  {
    if m > 0 {
      BackoffClosedForm(c, k);
      BaseSumWithinMaxima(c, k + 1, m - 1);
      hide BaseDelay;
      assert m * c.maxBackoff == (m - 1) * c.maxBackoff + c.maxBackoff;
    }
  }

  /** The total sleep of one call is also at most (1 + jitter) * maxBackoff per retry. */
  lemma CallSleepWithinMaxima<T>(c: Settings, w: World<T>, n: nat, budget: int)
    requires Draws(w) && 0 <= budget
    ensures var r := Call(c, w, n, budget); Within(Total(r.sleeps), r.retried * c.maxBackoff, c.jitterFraction)
  {
    var r := Call(c, w, n, budget);
    CallAccounting(c, w, n, 1, c.initialBackoff, budget);
    SleepsFollowBackoff(c, w, n, 1, budget);
    hide Attempts, BaseSum, Total, JitteredFrom, Within;
    TotalWithinBaseSum(c, r.sleeps, 1);
    BaseSumWithinMaxima(c, 1, |r.sleeps|);
    ScaledIntMonotone(c.maxBackoff, |r.sleeps|, r.retried);
    WithinMonotone(Total(r.sleeps), BaseSum(c, 1, |r.sleeps|), r.retried * c.maxBackoff, c.jitterFraction);
  }
}

/** From the pages of a throttling back end to the delivery theorem: when a collection returns its
    whole window, and what the ingestor then delivers. */
module PagedDelivery {
  import opened GoTime
  import opened Text
  import opened Telemetry
  import opened SeenTable
  import opened Retry
  import opened LogsCollector
  import opened CollectFacts
  import opened ExactlyOnce
  import L = LogsIngestion

  // ---------- a listing and what the page loop reads of it ----------

  /** The pages a back end has for one request: only the last one ends the listing. */
  predicate IsListing(pages: seq<Page>) {
    && pages != [] && pages[|pages| - 1].nextToken == ""
    && forall i :: 0 <= i < |pages| - 1 ==> pages[i].nextToken != ""
  }

  function Contents(pages: seq<Page>): seq<LogRecord> {
    if pages == [] then [] else pages[0].records + Contents(pages[1..])
  }

  /** The successful requests of the loop got the pages in order. */
  ghost predicate Serves(fetches: seq<Fetch>, pages: seq<Page>) {
    forall i :: 0 <= i < |fetches| && Succeeded(fetches[i]) ==> i < |pages| && fetches[i].run.result.value == pages[i]
  }

  /** No token appears twice. */
  ghost predicate DistinctTokens(pages: seq<Page>) {
    forall i, j :: 0 <= i < j < |pages| - 1 ==> pages[i].nextToken != pages[j].nextToken
  }

  /** No token of the listing appears twice or was seen before. */
  ghost predicate NoRepeat(pages: seq<Page>, seen: set<string>) {
    DistinctTokens(pages) && forall i :: 0 <= i < |pages| - 1 ==> pages[i].nextToken !in seen
  }

  lemma NoRepeatStep(pages: seq<Page>, seen: set<string>)
    requires |pages| > 1
    ensures NoRepeat(pages, seen) <==> pages[0].nextToken !in seen && NoRepeat(pages[1..], seen + {pages[0].nextToken})
  {
    var rest, next := pages[1..], pages[0].nextToken;
    if NoRepeat(pages, seen) {
      assert forall i :: 0 <= i < |rest| ==> rest[i] == pages[i + 1];
    }
    if next !in seen && NoRepeat(rest, seen + {next}) {
      forall j | 0 < j < |pages| - 1 ensures pages[j].nextToken != next && pages[j].nextToken !in seen {
        assert pages[j] == rest[j - 1];
      }
      forall i, j | 0 < i < j < |pages| - 1 ensures pages[i].nextToken != pages[j].nextToken {
        assert pages[i] == rest[i - 1] && pages[j] == rest[j - 1];
      }
    }
  }

  lemma ServesRest(f: Fetch, rest: seq<Fetch>, pages: seq<Page>)
    requires Serves([f] + rest, pages) && Succeeded(f)
    ensures pages != [] && f.run.result.value == pages[0] && Serves(rest, pages[1..])
  {
    var all := [f] + rest;
    assert all[0] == f;
    forall i | 0 <= i < |rest| && Succeeded(rest[i]) ensures i < |pages| - 1 && rest[i].run.result.value == pages[1..][i] {
      assert all[i + 1] == rest[i];
    }
  }

  lemma ContentsFirst(pages: seq<Page>, k: nat)
    requires 1 <= k <= |pages|
    ensures Contents(pages[..k]) == pages[0].records + Contents(pages[1..][..k - 1])
  {
    assert pages[..k][1..] == pages[1..][..k - 1];
  }

  /** A successful collection answers with the pages up to the first repeated token: with all of the
      listing if and only if no token repeats. */
  lemma {:induction false} ServedPages(c: Settings, b: FiniteBackend, n: nat, budget: int, seen: set<string>, token: string, pages: seq<Page>)
    requires Pages(c, b, n, budget, seen, token).answer.Records?
    requires IsListing(pages) && Serves(Pages(c, b, n, budget, seen, token).fetches, pages)
    ensures var t := Pages(c, b, n, budget, seen, token);
      && 1 <= |t.fetches| <= |pages| && t.answer.records == Contents(pages[..|t.fetches|])
      && (|t.fetches| == |pages| <==> NoRepeat(pages, seen))
    decreases b.universe - seen
  {
    var t := Pages(c, b, n, budget, seen, token);
    var f, left, next := Turn(c, b, n, budget, seen, token);
    hide Call, Pages, NoRepeat, IsListing, Contents;
    if Succeeded(f) && !Ends(f.run.result.value, seen) {
      Shrinks(b.universe, seen, next);
      ListingGoesOn(pages, f, left.fetches);
      ServedPages(c, b, n + f.run.calls, budget - f.run.retried, seen + {next}, next, pages[1..]);
      ContentsFirst(pages, |t.fetches|);
      NoRepeatStep(pages, seen);
    } else {
      StopReads(pages, f, t, seen);
    }
  }

  lemma ListingGoesOn(pages: seq<Page>, f: Fetch, rest: seq<Fetch>)
    requires IsListing(pages) && Serves([f] + rest, pages) && Succeeded(f) && f.run.result.value.nextToken != ""
    ensures |pages| > 1 && IsListing(pages[1..]) && f.run.result.value == pages[0] && Serves(rest, pages[1..])
  {
    ServesRest(f, rest, pages);
    assert forall i :: 0 <= i < |pages| - 1 ==> pages[1..][i] == pages[i + 1];
  }

  lemma StopReads(pages: seq<Page>, f: Fetch, t: Trace, seen: set<string>)
    requires IsListing(pages) && Serves(t.fetches, pages) && t.answer.Records? && Stops(f, t)
    requires Succeeded(f) ==> Ends(f.run.result.value, seen)
    ensures |pages| >= 1 && |t.fetches| == 1 && t.answer.records == Contents(pages[..1]) && (|pages| == 1 <==> NoRepeat(pages, seen))
  {
    assert t.fetches == [f] + [];
    ServesRest(f, [], pages);
    ContentsFirst(pages, 1);
    assert pages[1..][..0] == [] && Contents([]) == [];
    hide Contents;
    assert pages[0].records + [] == pages[0].records;
    assert |pages| > 1 ==> pages[0].nextToken != "";
  }

  // ---------- one poll through the collector ----------

  /** How one poll was answered: the collector, its back end, the calls made before, and the pages
      the back end has for the request. */
  datatype Collection = Collection(settings: Settings, backend: FiniteBackend, calls: nat, pages: seq<Page>)

  ghost function TraceOf(e: Collection): Trace {
    Pages(e.settings, e.backend, e.calls, e.settings.maxRetryBudget, {}, "")
  }

  ghost function ResponseOf(a: Answer): Option<seq<LogRecord>> {
    if a.Records? then Some(a.records) else None
  }

  /** The pages hold exactly the back end's records in the window that the request asks for. */
  ghost predicate HoldsWindow(records: set<LogRecord>, input: LogsCollector.Input, pages: seq<Page>) {
    forall r :: r in Contents(pages) <==> r in records && input.startMilli <= UnixMilli(r.timestamp) <= input.endMilli
  }

  /** The query for the poll's window went through the collector, and its answer is the response. */
  ghost predicate CollectedPoll(cfg: L.Config, query: CollectRequest, records: set<LogRecord>, lastEnd: Time, p: L.Poll, e: Collection) {
    var start := L.WindowStart(cfg, lastEnd, p.clock);
    && query.logGroupName != "" && start != ZERO_TIME && p.clock != ZERO_TIME && p.response == ResponseOf(TraceOf(e).answer)
    && IsListing(e.pages) && Serves(TraceOf(e).fetches, e.pages)
    && HoldsWindow(records, Collector.FirstInput(query.(startTime := start, endTime := p.clock), p.clock), e.pages)
  }

  lemma WholePages(e: Collection)
    requires TraceOf(e).answer.Records? && IsListing(e.pages) && Serves(TraceOf(e).fetches, e.pages)
    ensures DistinctTokens(e.pages) ==> TraceOf(e).answer.records == Contents(e.pages)
    ensures !DistinctTokens(e.pages) ==> exists k :: 1 <= k < |e.pages| && TraceOf(e).answer.records == Contents(e.pages[..k])
  {
    ServedPages(e.settings, e.backend, e.calls, e.settings.maxRetryBudget, {}, "", e.pages);
    hide Pages, IsListing, Serves, Contents, DistinctTokens;
    assert NoRepeat(e.pages, {}) <==> DistinctTokens(e.pages);
    assert e.pages[..|e.pages|] == e.pages;
  }

  /** The answer to a poll is exactly its window when no page token repeats. */
  lemma WholeWindow(cfg: L.Config, query: CollectRequest, records: set<LogRecord>, lastEnd: Time, p: L.Poll, e: Collection)
    requires CollectedPoll(cfg, query, records, lastEnd, p, e) && DistinctTokens(e.pages) && p.response.Some?
    ensures forall r :: r in p.response.value <==> r in records && InWindow(r, L.WindowStart(cfg, lastEnd, p.clock), p.clock)
  {
    WholePages(e);
    hide TraceOf, IsListing, Serves, Contents, DistinctTokens, Milli, L.WindowStart;
  }

  // ---------- whole runs ----------

  ghost predicate CollectedRun(cfg: L.Config, query: CollectRequest, records: set<LogRecord>, polls: seq<L.Poll>, es: seq<Collection>) {
    && |es| == |polls|
    && (polls != [] ==>
          var k := |polls| - 1;
          && CollectedRun(cfg, query, records, polls[..k], es[..k])
          && CollectedPoll(cfg, query, records, L.After(cfg, polls[..k]).lastEnd, polls[k], es[k]))
  }

  lemma {:induction false} CollectedRunIsFaithful(cfg: L.Config, query: CollectRequest, records: set<LogRecord>, polls: seq<L.Poll>, es: seq<Collection>)
    requires CollectedRun(cfg, query, records, polls, es)
    requires forall k :: 0 <= k < |es| ==> DistinctTokens(es[k].pages)
    ensures Faithful(cfg, records, polls)
    decreases |polls|
  {
    hide CollectedPoll, DistinctTokens, L.After, L.WindowStart, InWindow;
    if polls != [] {
      var k := |polls| - 1;
      CollectedRunIsFaithful(cfg, query, records, polls[..k], es[..k]);
      if polls[k].response.Some? {
        WholeWindow(cfg, query, records, L.After(cfg, polls[..k]).lastEnd, polls[k], es[k]);
      }
    }
  }

  /** End to end: polls answered by the paginating, retrying collector from a back end that throttles
      and fails at will but repeats no page token deliver every covered record exactly once. */
  lemma CollectedExactlyOnce(cfg: L.Config, query: CollectRequest, records: set<LogRecord>, polls: seq<L.Poll>, es: seq<Collection>)
    requires L.ClockRuns(polls) && CollectedRun(cfg, query, records, polls, es)
    requires forall k :: 0 <= k < |es| ==> DistinctTokens(es[k].pages)
    requires DistinctIDs(cfg, records) && NoStalePoll(cfg, Successes(polls))
    ensures forall r :: r in records ==> Deliveries(cfg, polls, r) == if Covered(cfg, Successes(polls), r) then 1 else 0
  {
    hide *;
    CollectedRunIsFaithful(cfg, query, records, polls, es);
    ExactlyOnceDelivery(cfg, records, polls);
  }

  // ---------- what a repeated token loses for good ----------

  /** The clock moves on from each poll to the next. */
  ghost predicate ClockAdvances(polls: seq<L.Poll>) {
    forall i, j :: 0 <= i < j < |polls| ==> polls[i].clock < polls[j].clock
  }

  predicate Returned(p: L.Poll, r: LogRecord) {
    p.response.Some? && r in p.response.value
  }

  /** After a success at `clock` the window end is there or later, and before the next poll. */
  lemma {:induction false} WindowHasMoved(cfg: L.Config, polls: seq<L.Poll>, k: nat)
    requires ClockAdvances(polls) && k < |polls| && polls[k].response.Some?
    requires forall i :: 0 <= i < |polls| ==> polls[i].clock != ZERO_TIME
    ensures polls[k].clock <= L.After(cfg, polls).lastEnd <= polls[|polls| - 1].clock && L.After(cfg, polls).lastEnd != ZERO_TIME
    decreases |polls|
  {
    hide L.Emitted, Stamp, Prune;
    if k < |polls| - 1 {
      WindowHasMoved(cfg, polls[..|polls| - 1], k);
    }
  }

  lemma ContentsPrefix(pages: seq<Page>, k: nat, r: LogRecord)
    requires k <= |pages| && r in Contents(pages[..k])
    ensures r in Contents(pages)
    decreases |pages|
  {
    if k > 0 {
      ContentsFirst(pages, k);
      ContentsFirst(pages, |pages|);
      assert pages[..|pages|] == pages && pages[1..][..|pages| - 1] == pages[1..];
      if r !in pages[0].records { ContentsPrefix(pages[1..], k - 1, r); }
    }
  }

  /** No answer holds a record from before its window. */
  lemma ReturnedIsInWindow(cfg: L.Config, query: CollectRequest, records: set<LogRecord>, lastEnd: Time, p: L.Poll, e: Collection, r: LogRecord)
    requires CollectedPoll(cfg, query, records, lastEnd, p, e) && Returned(p, r)
    ensures r in records && Milli(L.WindowStart(cfg, lastEnd, p.clock)) <= Milli(r.timestamp)
  {
    hide Pages, IsListing, Serves, Contents, DistinctTokens, Milli, L.WindowStart;
    WholePages(e);
    if r !in Contents(e.pages) {
      var k :| 1 <= k < |e.pages| && TraceOf(e).answer.records == Contents(e.pages[..k]);
      ContentsPrefix(e.pages, k, r);
    }
  }

  lemma {:induction false} CollectedPrefix(cfg: L.Config, query: CollectRequest, records: set<LogRecord>, polls: seq<L.Poll>, es: seq<Collection>, i: nat)
    requires CollectedRun(cfg, query, records, polls, es) && i < |polls|
    ensures |es| == |polls| && polls[i].clock != ZERO_TIME
    ensures CollectedPoll(cfg, query, records, L.After(cfg, polls[..i]).lastEnd, polls[i], es[i])
    decreases |polls|
  {
    hide L.After, TraceOf, IsListing, Serves, HoldsWindow, L.WindowStart;
    var k := |polls| - 1;
    if i < k {
      CollectedPrefix(cfg, query, records, polls[..k], es[..k], i);
      assert polls[..k][..i] == polls[..i];
    }
  }

  /** What no poll returned is in nobody's history. */
  lemma {:induction false} NeverReturned(cfg: L.Config, records: set<LogRecord>, polls: seq<L.Poll>, r: LogRecord)
    requires DistinctIDs(cfg, records) && r in records
    requires forall i, q :: 0 <= i < |polls| && Returned(polls[i], q) ==> q in records && q != r
    ensures !HasID(L.After(cfg, polls).history, L.EventID(cfg, r))
    decreases |polls|
  {
    hide L.EventID, L.Emitted, Stamp, Prune;
    if polls != [] {
      var before, p := polls[..|polls| - 1], polls[|polls| - 1];
      NeverReturned(cfg, records, before, r);
      if p.response.Some? {
        var s := L.After(cfg, before);
        var batch := L.Emitted(cfg, s, p.clock, p.response.value);
        BatchComesFromRecords(cfg, s, p.clock, p.response.value);
        HasIDConcat(s.history, batch, p.clock, L.EventID(cfg, r));
        forall t | t in batch ensures t.id != L.EventID(cfg, r) { assert Returned(p, t.item); }
      }
    }
  }

  /** A record that was not returned up to some successful poll, and lies before that poll's
      millisecond, is never delivered: every later window starts after it. */
  lemma LostForGood(cfg: L.Config, query: CollectRequest, records: set<LogRecord>, polls: seq<L.Poll>, es: seq<Collection>, k: nat, r: LogRecord)
    requires CollectedRun(cfg, query, records, polls, es) && DistinctIDs(cfg, records) && ClockAdvances(polls)
    requires k < |polls| && polls[k].response.Some? && r in records && Milli(r.timestamp) < Milli(polls[k].clock)
    requires forall i :: 0 <= i <= k ==> !Returned(polls[i], r)
    ensures Deliveries(cfg, polls, r) == 0
  {
    hide CollectedPoll, CollectedRun, L.After, L.EventID, L.WindowStart, Milli, DistinctIDs, Returned;
    forall i | 0 <= i < |polls| ensures |es| == |polls| && polls[i].clock != ZERO_TIME {
      CollectedPrefix(cfg, query, records, polls, es, i);
    }
    forall i, q | 0 <= i < |polls| && Returned(polls[i], q) ensures q in records && q != r {
      CollectedPrefix(cfg, query, records, polls, es, i);
      ReturnedIsInWindow(cfg, query, records, L.After(cfg, polls[..i]).lastEnd, polls[i], es[i], q);
      if i > k {
        WindowHasMoved(cfg, polls[..i], k);
        LaterWindow(cfg, polls[k].clock, L.After(cfg, polls[..i]).lastEnd, polls[i]);
      }
    }
    NeverReturned(cfg, records, polls, r);
    NoIDNoCount(L.After(cfg, polls).history, L.EventID(cfg, r));
  }

  lemma {:induction false} ContentsSuffix(pages: seq<Page>, k: nat, r: LogRecord)
    requires k <= |pages| && r in Contents(pages[k..])
    ensures r in Contents(pages)
  {
    if k > 0 {
      assert pages[1..][k - 1..] == pages[k..];
      ContentsSuffix(pages[1..], k - 1, r);
    }
  }

  /** A repeated token cuts the answer short, and yet the poll succeeds and moves the window on: of
      the unread pages, what no poll has returned by then and lies before the poll's millisecond is
      never delivered, however the run goes on. */
  lemma RepeatedTokenLosesPages(cfg: L.Config, query: CollectRequest, records: set<LogRecord>, polls: seq<L.Poll>, es: seq<Collection>, k: nat)
    requires CollectedRun(cfg, query, records, polls, es) && |es| == |polls| && DistinctIDs(cfg, records) && ClockAdvances(polls)
    requires k < |polls| && polls[k].response.Some? && !DistinctTokens(es[k].pages)
    ensures exists n :: 1 <= n < |es[k].pages| && polls[k].response == Some(Contents(es[k].pages[..n]))
              && forall r :: r in Contents(es[k].pages[n..]) && Milli(r.timestamp) < Milli(polls[k].clock) && (forall i :: 0 <= i <= k ==> !Returned(polls[i], r))
                   ==> Deliveries(cfg, polls, r) == 0
  {
    CollectedPrefix(cfg, query, records, polls, es, k);
    var e := es[k];
    hide CollectedRun, L.After, L.EventID, L.WindowStart, Milli, DistinctIDs, Returned, TraceOf, IsListing, Serves, Contents, DistinctTokens;
    WholePages(e);
    var n :| 1 <= n < |e.pages| && TraceOf(e).answer.records == Contents(e.pages[..n]);
    forall r | r in Contents(e.pages[n..]) && Milli(r.timestamp) < Milli(polls[k].clock) && (forall i :: 0 <= i <= k ==> !Returned(polls[i], r))
      ensures Deliveries(cfg, polls, r) == 0
    {
      ContentsSuffix(e.pages, n, r);
      LostForGood(cfg, query, records, polls, es, k, r);
    }
  }

  lemma LaterWindow(cfg: L.Config, clock: Time, lastEnd: Time, p: L.Poll)
    requires clock <= lastEnd < p.clock && lastEnd != ZERO_TIME
    ensures Milli(clock) <= Milli(L.WindowStart(cfg, lastEnd, p.clock))
  {
  }

  lemma {:induction false} NoIDNoCount<R>(h: seq<Emission<R>>, id: string)
    requires !HasID(h, id)
    ensures Count(h, id) == 0
    decreases |h|
  {
    if h != [] { NoIDNoCount(h[..|h| - 1], id); }
  }

  // ---------- a back end that repeats a token ----------

  /** Three pages under two requests: the second page carries the first one's token again. */
  function RepeatingPages(r1: LogRecord, r2: LogRecord): seq<Page> {
    [Page([r1], "a"), Page([], "a"), Page([r2], "")]
  }

  /** The page that the `n`-th request gets. */
  function RepeatingPage(r1: LogRecord, r2: LogRecord, n: nat): (page: Page)
    ensures page.nextToken == "" || page.nextToken == "a"
  {
    if n == 0 then Page([r1], "a") else if n == 1 then Page([], "a") else Page([r2], "")
  }

  function Repeating(r1: LogRecord, r2: LogRecord): FiniteBackend {
    Backend(World((n: nat) => Ok(RepeatingPage(r1, r2, n)), (n: nat) => false, (n: nat) => false, (n: nat) => 0.5), {"a"})
  }

  lemma AnsweredCall(c: Settings, r1: LogRecord, r2: LogRecord, n: nat, budget: int)
    ensures Call(c, Repeating(r1, r2).world, n, budget) == Run(Success(RepeatingPage(r1, r2, n)), 1, 0, 0, 0, 0, [])
  {
    assert Repeating(r1, r2).world.script(n) == Ok(RepeatingPage(r1, r2, n));
  }

  lemma RepeatingTrace(c: Settings, r1: LogRecord, r2: LogRecord)
    ensures var t := Pages(c, Repeating(r1, r2), 0, c.maxRetryBudget, {}, "");
      t.answer == Records([r1]) && Serves(t.fetches, RepeatingPages(r1, r2))
  {
    hide Pages, Call, Repeating;
    var b, budget := Repeating(r1, r2), c.maxRetryBudget;
    AnsweredCall(c, r1, r2, 0, budget);
    AnsweredCall(c, r1, r2, 1, budget);
    var first, left, next := Turn(c, b, 0, budget, {}, "");
    assert {} + {"a"} == {"a"};
    var second, rest, after := Turn(c, b, 1, budget, {"a"}, "a");
    assert left.answer == Records([]) && left.fetches == [second];
    assert [r1] + [] == [r1] && [first] + [second] == [first, second];
  }

  lemma RepeatingContents(r1: LogRecord, r2: LogRecord)
    ensures forall r :: r in Contents(RepeatingPages(r1, r2)) <==> r in {r1, r2}
    ensures IsListing(RepeatingPages(r1, r2))
  {
    var pages := RepeatingPages(r1, r2);
    assert pages[1..] == [Page([], "a"), Page([r2], "")] && pages[1..][1..] == [Page([r2], "")] && pages[1..][1..][1..] == [];
    assert Contents([Page([r2], "")]) == [r2] + Contents([]) && Contents([]) == [];
    assert Contents(pages[1..]) == [] + [r2];
    assert Contents(pages) == [r1] + ([] + [r2]);
  }

  /** A first poll answered from such a back end returns the first record only, and the second,
      which the window holds too, is never delivered however the run goes on. */
  lemma RepeatedTokenExample(cfg: L.Config, query: CollectRequest, c: Settings, r1: LogRecord, r2: LogRecord, clock: Time)
      returns (p: L.Poll, e: Collection)
    requires query.logGroupName != "" && clock != ZERO_TIME && clock - L.Window(cfg) != ZERO_TIME && L.EventID(cfg, r1) != L.EventID(cfg, r2)
    requires InWindow(r1, clock - L.Window(cfg), clock) && InWindow(r2, clock - L.Window(cfg), clock) && Milli(r2.timestamp) < Milli(clock)
    ensures p == L.Poll(clock, Some([r1])) && CollectedRun(cfg, query, {r1, r2}, [p], [e]) && Covered(cfg, Successes([p]), r2)
    ensures forall polls, es :: CollectedRun(cfg, query, {r1, r2}, [p] + polls, es) && ClockAdvances([p] + polls)
              ==> Deliveries(cfg, [p] + polls, r2) == 0
  {
    hide CollectedRun, L.EventID, Milli, L.After, L.Window, Repeating, RepeatingPages, IsListing, Serves, Contents, Covered;
    p, e := L.Poll(clock, Some([r1])), Collection(c, Repeating(r1, r2), 0, RepeatingPages(r1, r2));
    RepeatingTrace(c, r1, r2);
    RepeatingContents(r1, r2);
    FirstPoll(cfg, query, r1, r2, p, e);
    forall polls, es | CollectedRun(cfg, query, {r1, r2}, [p] + polls, es) && ClockAdvances([p] + polls)
      ensures Deliveries(cfg, [p] + polls, r2) == 0
    {
      LostForGood(cfg, query, {r1, r2}, [p] + polls, es, 0, r2);
    }
  }

  lemma FirstPoll(cfg: L.Config, query: CollectRequest, r1: LogRecord, r2: LogRecord, p: L.Poll, e: Collection)
    requires query.logGroupName != "" && p.clock != ZERO_TIME && p.clock - L.Window(cfg) != ZERO_TIME
    requires InWindow(r1, p.clock - L.Window(cfg), p.clock) && InWindow(r2, p.clock - L.Window(cfg), p.clock)
    requires p.response == Some([r1]) && TraceOf(e).answer == Records([r1]) && Serves(TraceOf(e).fetches, e.pages)
    requires IsListing(e.pages) && forall r :: r in Contents(e.pages) <==> r in {r1, r2}
    ensures CollectedRun(cfg, query, {r1, r2}, [p], [e]) && Covered(cfg, Successes([p]), r2)
  {
    assert [p][..0] == [] && [e][..0] == [];
    hide TraceOf, IsListing, Serves, Contents, Milli, L.Window;
    assert CollectedRun(cfg, query, {r1, r2}, [], []);
    assert L.After(cfg, []) == L.INITIAL;
    assert Successes([p]) == [p.clock];
  }
}

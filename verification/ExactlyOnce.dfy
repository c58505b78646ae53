/** Exactly-once delivery over whole runs of the log ingestor, and exactly when it holds. */
module ExactlyOnce {
  import opened GoTime
  import opened Text
  import opened Telemetry
  import opened SeenTable
  import opened LogsIngestion

  // ---------- runs against a backend ----------

  /** The clock readings of the successful polls of a run. */
  ghost function Successes(polls: seq<Poll>): seq<Time> {
    if polls == [] then []
    else
      var p := polls[|polls| - 1];
      var before := Successes(polls[..|polls| - 1]);
      if p.response.Some? then before + [p.clock] else before
  }

  /** The backend filters on whole milliseconds, both ends included. */
  predicate InWindow(r: LogRecord, start: Time, end: Time) {
    Milli(start) <= Milli(r.timestamp) <= Milli(end)
  }

  /** Every successful poll returned exactly the records of its window, in any order and
      with any repetitions; nothing arrives late. */
  ghost predicate Faithful(cfg: Config, backend: set<LogRecord>, polls: seq<Poll>) {
    polls != [] ==>
      var before, p := polls[..|polls| - 1], polls[|polls| - 1];
      && Faithful(cfg, backend, before)
      && (p.response.Some? ==>
            var start := WindowStart(cfg, After(cfg, before).lastEnd, p.clock);
            forall r :: r in p.response.value <==> r in backend && InWindow(r, start, p.clock))
  }

  ghost predicate DistinctIDs(cfg: Config, backend: set<LogRecord>) {
    forall r, q :: r in backend && q in backend && EventID(cfg, r) == EventID(cfg, q) ==> r == q
  }

  /** How often the record's event is in the timeline. */
  ghost function Deliveries(cfg: Config, polls: seq<Poll>, r: LogRecord): nat {
    Count(After(cfg, polls).history, EventID(cfg, r))
  }

  /** From one window before the first successful poll to the last one. */
  ghost predicate Covered(cfg: Config, ends: seq<Time>, r: LogRecord) {
    ends != [] && InWindow(r, ends[0] - Window(cfg), ends[|ends| - 1])
  }

  ghost function Start(cfg: Config, ends: seq<Time>, k: int): Time
    requires 0 <= k < |ends|
  {
    WindowStart(cfg, if k == 0 then ZERO_TIME else ends[k - 1], ends[k])
  }

  /** No poll reaches back to the millisecond of an earlier poll whose ids are already pruned. */
  ghost predicate NoStalePoll(cfg: Config, ends: seq<Time>) {
    forall j, k :: 0 <= j < k < |ends| && Milli(Start(cfg, ends, k)) <= Milli(ends[j])
      ==> Cutoff(cfg, ends[k]) <= ends[j]
  }

  // ---------- the delivery invariant ----------

  /** Emission `e` is a backend record, emitted by a successful poll, no later than the first
      one whose window ends in or after the record's millisecond. */
  ghost predicate Prompt(cfg: Config, backend: set<LogRecord>, ends: seq<Time>, e: Emission<LogRecord>) {
    && e.item in backend && e.id == EventID(cfg, e.item)
    && e.at in ends && Milli(e.item.timestamp) <= Milli(e.at)
    && forall k :: 0 <= k < |ends| && Milli(e.item.timestamp) <= Milli(ends[k]) ==> e.at <= ends[k]
  }

  ghost predicate Delivering(cfg: Config, backend: set<LogRecord>, ends: seq<Time>, h: seq<Emission<LogRecord>>) {
    && UniqueIDs(h)
    && (forall i :: 0 <= i < |h| ==> Prompt(cfg, backend, ends, h[i]))
    && (forall r :: r in backend ==> (HasID(h, EventID(cfg, r)) <==> Covered(cfg, ends, r)))
  }

  ghost predicate Ascending(ends: seq<Time>) {
    && (forall i :: 0 <= i < |ends| ==> ends[i] != ZERO_TIME)
    && (forall i, j :: 0 <= i < j < |ends| ==> ends[i] <= ends[j])
  }

  lemma {:induction false} SuccessesOfRun(cfg: Config, polls: seq<Poll>)
    requires ClockRuns(polls)
    ensures Ascending(Successes(polls))
    ensures forall i :: 0 <= i < |Successes(polls)| ==> polls != [] && Successes(polls)[i] <= polls[|polls| - 1].clock
    ensures After(cfg, polls).lastEnd
      == if Successes(polls) == [] then ZERO_TIME else Successes(polls)[|Successes(polls)| - 1]
    decreases |polls|
  {
    if polls != [] {
      SuccessesOfRun(cfg, polls[..|polls| - 1]);
    }
  }

  /** A record fetched at `end` is emitted unless it was delivered before. */
  lemma FetchedRecordDecision(cfg: Config, backend: set<LogRecord>, ends: seq<Time>, s: State, end: Time, r: LogRecord)
    requires NoStalePoll(cfg, ends + [end]) && Ascending(ends + [end])
    requires Delivering(cfg, backend, ends, s.history) && TableExact(cfg, s)
    requires r in backend && DistinctIDs(cfg, backend)
    requires InWindow(r, Start(cfg, ends + [end], |ends|), end)
    ensures EmittedSince(s.history, EventID(cfg, r), Cutoff(cfg, end)) <==> HasID(s.history, EventID(cfg, r))
  {
    var h, id := s.history, EventID(cfg, r);
    if HasID(h, id) {
      var i :| 0 <= i < |h| && h[i].id == id;
      assert Prompt(cfg, backend, ends, h[i]);
      var j :| 0 <= j < |ends| && ends[j] == h[i].at;
      assert (ends + [end])[j] == h[i].at;
      assert Cutoff(cfg, (ends + [end])[|ends|]) <= (ends + [end])[j];
    }
  }

  lemma CoverageGrows(cfg: Config, ends: seq<Time>, end: Time, r: LogRecord)
    requires Ascending(ends + [end])
    ensures Covered(cfg, ends + [end], r)
      <==> Covered(cfg, ends, r) || InWindow(r, Start(cfg, ends + [end], |ends|), end)
  {
    var all := ends + [end];
    if ends != [] {
      assert all[0] == ends[0] && all[|ends| - 1] == ends[|ends| - 1];
      assert all[|ends| - 1] <= all[|ends|] && all[0] <= all[|ends|];
    }
  }

  lemma PromptnessKept(cfg: Config, backend: set<LogRecord>, ends: seq<Time>, end: Time, e: Emission<LogRecord>)
    requires Prompt(cfg, backend, ends, e) && Ascending(ends + [end])
    ensures Prompt(cfg, backend, ends + [end], e)
  {
    var all := ends + [end];
    var j :| 0 <= j < |ends| && ends[j] == e.at;
    assert all[j] == e.at && all[j] <= all[|ends|];
  }

  /** The batch holds, each id once, the fetched records that were never emitted. */
  ghost predicate IsNewBatch(cfg: Config, backend: set<LogRecord>, ends: seq<Time>, h: seq<Emission<LogRecord>>,
                             batch: seq<Tagged<LogRecord>>, records: seq<LogRecord>, end: Time) {
    && (forall i, j :: 0 <= i < j < |batch| ==> batch[i].id != batch[j].id)
    && (forall t :: t in batch ==> t.item in records && t.item in backend && t.id == EventID(cfg, t.item))
    && (forall r :: r in backend ==>
          ((exists t :: t in batch && t.id == EventID(cfg, r)) <==> r in records && !HasID(h, EventID(cfg, r))))
    && (forall r :: r in backend ==> (r in records <==> InWindow(r, Start(cfg, ends + [end], |ends|), end)))
  }

  /** One successful poll keeps the delivery invariant. */
  lemma PollDelivers(cfg: Config, backend: set<LogRecord>, ends: seq<Time>, s: State, p: Poll)
    requires Delivering(cfg, backend, ends, s.history) && TableExact(cfg, s)
    requires s.lastEnd == if ends == [] then ZERO_TIME else ends[|ends| - 1]
    requires p.response.Some? && Ascending(ends + [p.clock]) && NoStalePoll(cfg, ends + [p.clock])
    requires forall r :: r in p.response.value <==> r in backend && InWindow(r, WindowStart(cfg, s.lastEnd, p.clock), p.clock)
    requires DistinctIDs(cfg, backend)
    ensures Delivering(cfg, backend, ends + [p.clock], Tick(cfg, s, p).history)
  {
    BatchIsNew(cfg, backend, ends, s, p);
    hide Emitted, Delivering, IsNewBatch, Ascending, NoStalePoll, DistinctIDs, TableExact, InWindow;
    AppendDelivers(cfg, backend, ends, s.history, Emitted(cfg, s, p.clock, p.response.value), p.response.value, p.clock);
  }

  lemma BatchIsNew(cfg: Config, backend: set<LogRecord>, ends: seq<Time>, s: State, p: Poll)
    requires Delivering(cfg, backend, ends, s.history) && TableExact(cfg, s)
    requires s.lastEnd == if ends == [] then ZERO_TIME else ends[|ends| - 1]
    requires p.response.Some? && Ascending(ends + [p.clock]) && NoStalePoll(cfg, ends + [p.clock])
    requires forall r :: r in p.response.value <==> r in backend && InWindow(r, WindowStart(cfg, s.lastEnd, p.clock), p.clock)
    requires DistinctIDs(cfg, backend)
    ensures IsNewBatch(cfg, backend, ends, s.history, Emitted(cfg, s, p.clock, p.response.value), p.response.value, p.clock)
  {
    hide Milli, EventID, Recent, Prune, Cutoff, Delivering, InWindow, Emitted, NoStalePoll, DistinctIDs, TableExact, Ascending, Start;
    var records := p.response.value;
    var batch := Emitted(cfg, s, p.clock, records);
    ClockAfterHistory(cfg, backend, ends, s, p.clock);
    TickKeepsTableExact(cfg, s, p);
    forall r | r in backend
      ensures (exists t :: t in batch && t.id == EventID(cfg, r)) <==> r in records && !HasID(s.history, EventID(cfg, r))
    {
      BatchHolds(cfg, backend, ends, s, p, r);
    }
    BatchComesFromRecords(cfg, s, p.clock, records);
  }

  lemma ClockAfterHistory(cfg: Config, backend: set<LogRecord>, ends: seq<Time>, s: State, end: Time)
    requires Delivering(cfg, backend, ends, s.history) && Ascending(ends + [end])
    requires s.lastEnd == if ends == [] then ZERO_TIME else ends[|ends| - 1]
    ensures s.history == [] || s.lastEnd <= end
    ensures WindowStart(cfg, s.lastEnd, end) == Start(cfg, ends + [end], |ends|)
  {
    var all := ends + [end];
    if ends != [] { assert all[|ends| - 1] <= all[|ends|]; }
    if s.history != [] { assert Prompt(cfg, backend, ends, s.history[0]); }
  }

  lemma BatchComesFromRecords(cfg: Config, s: State, clock: Time, records: seq<LogRecord>)
    ensures var batch := Emitted(cfg, s, clock, records);
      && (forall i, j :: 0 <= i < j < |batch| ==> batch[i].id != batch[j].id)
      && (forall t :: t in batch ==> t.item in records && t.id == EventID(cfg, t.item))
  {
    hide EventID, Prune, Fresh;
    var items, batch := Tag(cfg, records), Emitted(cfg, s, clock, records);
    FreshDistinct(items, Prune(s.seen, Cutoff(cfg, clock)));
    forall t | t in batch ensures t.item in records && t.id == EventID(cfg, t.item) {
      FreshIds(items, Prune(s.seen, Cutoff(cfg, clock)), t.id);
      var i :| 0 <= i < |items| && items[i] == t;
      assert records[i] in records;
    }
  }

  lemma BatchHolds(cfg: Config, backend: set<LogRecord>, ends: seq<Time>, s: State, p: Poll, r: LogRecord)
    requires Delivering(cfg, backend, ends, s.history) && TableExact(cfg, s)
    requires p.response.Some? && Ascending(ends + [p.clock]) && NoStalePoll(cfg, ends + [p.clock])
    requires Prune(s.seen, Cutoff(cfg, p.clock)) == Recent(s.history, Cutoff(cfg, p.clock))
    requires forall r :: r in p.response.value <==> r in backend && InWindow(r, Start(cfg, ends + [p.clock], |ends|), p.clock)
    requires DistinctIDs(cfg, backend) && r in backend
    ensures (exists t :: t in Emitted(cfg, s, p.clock, p.response.value) && t.id == EventID(cfg, r))
      <==> r in p.response.value && !HasID(s.history, EventID(cfg, r))
  {
    hide Milli, EventID, Recent, Cutoff;
    var records, id := p.response.value, EventID(cfg, r);
    var items := Tag(cfg, records);
    FreshIds(items, Prune(s.seen, Cutoff(cfg, p.clock)), id);
    RecentDecides(s.history, id, Cutoff(cfg, p.clock));
    if r in records {
      FetchedRecordDecision(cfg, backend, ends, s, p.clock, r);
      var i :| 0 <= i < |records| && records[i] == r;
      assert items[i] in items;
    } else if t :| t in items && t.id == id {
      var i :| 0 <= i < |items| && items[i] == t;
      assert records[i] in records && records[i] in backend;
    }
  }

  lemma AppendDelivers(cfg: Config, backend: set<LogRecord>, ends: seq<Time>, h: seq<Emission<LogRecord>>,
                       batch: seq<Tagged<LogRecord>>, records: seq<LogRecord>, end: Time)
    requires Delivering(cfg, backend, ends, h) && Ascending(ends + [end])
    requires IsNewBatch(cfg, backend, ends, h, batch, records, end)
    ensures Delivering(cfg, backend, ends + [end], h + Emit(batch, end))
  {
    hide Milli, EventID, Start;
    var all, g := ends + [end], h + Emit(batch, end);
    forall i | 0 <= i < |g| ensures Prompt(cfg, backend, all, g[i]) {
      if i < |h| {
        PromptnessKept(cfg, backend, ends, end, h[i]);
      } else {
        NewEmissionPrompt(cfg, backend, ends, h, batch, records, end, i - |h|);
      }
    }
    forall i, j | 0 <= i < |h| && 0 <= j < |batch| ensures h[i].id != batch[j].id {
      assert batch[j] in batch;
    }
    forall r | r in backend ensures HasID(g, EventID(cfg, r)) <==> Covered(cfg, all, r) {
      CoverageGrows(cfg, ends, end, r);
      HasIDConcat(h, batch, end, EventID(cfg, r));
    }
  }

  lemma EarlierEnds(ends: seq<Time>, end: Time)
    requires Ascending(ends + [end])
    ensures forall k :: 0 <= k < |ends| ==> (ends + [end])[k] == ends[k] <= ends[|ends| - 1] <= end
  {
    var all := ends + [end];
    assert all[|ends|] == end;
    forall k | 0 <= k < |ends| ensures ends[k] <= ends[|ends| - 1] <= end {
      assert all[k] == ends[k] && all[|ends| - 1] == ends[|ends| - 1];
    }
  }

  /** A record emitted now was in no earlier millisecond already covered: it is prompt. */
  lemma NewEmissionPrompt(cfg: Config, backend: set<LogRecord>, ends: seq<Time>, h: seq<Emission<LogRecord>>,
                          batch: seq<Tagged<LogRecord>>, records: seq<LogRecord>, end: Time, i: int)
    requires Delivering(cfg, backend, ends, h) && Ascending(ends + [end]) && 0 <= i < |batch|
    requires IsNewBatch(cfg, backend, ends, h, batch, records, end)
    ensures Prompt(cfg, backend, ends + [end], Emission(end, batch[i].id, batch[i].item))
  {
    hide EventID, Cutoff;
    var all, t := ends + [end], batch[i];
    assert t in batch && t.item in backend;
    assert !HasID(h, EventID(cfg, t.item));
    assert !Covered(cfg, ends, t.item);
    assert all[|ends|] == end;
    assert ends != [] ==> ends[0] == all[0] <= end && Start(cfg, all, |ends|) == WindowStart(cfg, ends[|ends| - 1], end);
    EarlierEnds(ends, end);
    forall k | 0 <= k < |all| && Milli(t.item.timestamp) <= Milli(all[k]) ensures end <= all[k] {
    }
  }

  lemma {:induction false} RunDelivers(cfg: Config, backend: set<LogRecord>, polls: seq<Poll>)
    requires ClockRuns(polls) && Faithful(cfg, backend, polls)
    requires DistinctIDs(cfg, backend) && NoStalePoll(cfg, Successes(polls))
    ensures Delivering(cfg, backend, Successes(polls), After(cfg, polls).history)
    decreases |polls|
  {
    if polls != [] {
      hide Milli, EventID, Delivering, Recent;
      var before, p := polls[..|polls| - 1], polls[|polls| - 1];
      var ends := Successes(before);
      if p.response.Some? {
        NoStalePrefix(cfg, ends, p.clock);
      }
      RunDelivers(cfg, backend, before);
      if p.response.Some? {
        SuccessesOfRun(cfg, polls);
        SuccessesOfRun(cfg, before);
        RunKeepsTableExact(cfg, before);
        PollDelivers(cfg, backend, ends, After(cfg, before), p);
      }
    }
  }

  lemma NoStalePrefix(cfg: Config, ends: seq<Time>, end: Time)
    requires NoStalePoll(cfg, ends + [end])
    ensures NoStalePoll(cfg, ends)
  {
    var all := ends + [end];
    forall j, k | 0 <= j < k < |ends| && Milli(Start(cfg, ends, k)) <= Milli(ends[j])
      ensures Cutoff(cfg, ends[k]) <= ends[j]
    {
      assert all[j] == ends[j] && all[k] == ends[k] && all[k - 1] == ends[k - 1];
      assert Start(cfg, all, k) == Start(cfg, ends, k);
    }
  }

  /** Exactly-once delivery: with failed polls anywhere in the run, every backend record of the
      covered range is in the timeline once, every other record never, and nothing else is. */
  lemma ExactlyOnceDelivery(cfg: Config, backend: set<LogRecord>, polls: seq<Poll>)
    requires ClockRuns(polls) && Faithful(cfg, backend, polls)
    requires DistinctIDs(cfg, backend) && NoStalePoll(cfg, Successes(polls))
    ensures forall r :: r in backend ==>
      Deliveries(cfg, polls, r) == if Covered(cfg, Successes(polls), r) then 1 else 0
    ensures forall i :: 0 <= i < |After(cfg, polls).history| ==>
      Prompt(cfg, backend, Successes(polls), After(cfg, polls).history[i])
  {
    RunDelivers(cfg, backend, polls);
    forall r | r in backend
      ensures Deliveries(cfg, polls, r) == if Covered(cfg, Successes(polls), r) then 1 else 0
    {
      CountOfUnique(After(cfg, polls).history, EventID(cfg, r));
    }
  }

  // ---------- a condition an operator can check ----------

  /** Successful polls at most six windows, or half an hour, apart, counted from the start of the
      earlier one's millisecond, leave no stale poll when six windows fit an int64. */
  lemma RegularPollingIsSafe(cfg: Config, ends: seq<Time>)
    requires Ascending(ends) && 6 * Window(cfg) <= MAX_INT64
    requires forall k :: 0 < k < |ends| ==>
      ends[k] - Milli(ends[k - 1]) * MILLISECOND <= Max(6 * Window(cfg), 30 * MINUTE)
    ensures NoStalePoll(cfg, ends)
  {
    forall j, k | 0 <= j < k < |ends| && Milli(Start(cfg, ends, k)) <= Milli(ends[j])
      ensures Cutoff(cfg, ends[k]) <= ends[j]
    {
      assert ends[k - 1] <= ends[k] && ends[k - 1] != ZERO_TIME;
      assert Cutoff(cfg, ends[k]) <= Milli(ends[k - 1]) * MILLISECOND;
    }
  }

  // ---------- the condition is necessary ----------

  /** The run in which a backend holding the one record `r` answers polls ending at `ends`. */
  ghost function Replay(cfg: Config, r: LogRecord, ends: seq<Time>): seq<Poll> {
    if ends == [] then []
    else
      var before, end := Replay(cfg, r, ends[..|ends| - 1]), ends[|ends| - 1];
      var start := WindowStart(cfg, After(cfg, before).lastEnd, end);
      before + [Poll(end, Some(if InWindow(r, start, end) then [r] else []))]
  }

  lemma {:induction false} ReplayClocks(cfg: Config, r: LogRecord, ends: seq<Time>)
    ensures var polls := Replay(cfg, r, ends);
      && |polls| == |ends| && (forall i :: 0 <= i < |ends| ==> polls[i].clock == ends[i])
      && Successes(polls) == ends
    decreases |ends|
  {
    hide InWindow, WindowStart, After;
    if ends != [] {
      var k := |ends| - 1;
      ReplayClocks(cfg, r, ends[..k]);
      assert Replay(cfg, r, ends)[..k] == Replay(cfg, r, ends[..k]);
      assert ends == ends[..k] + [ends[k]];
    }
  }

  lemma SingleRecordAnswer(r: LogRecord, start: Time, end: Time)
    ensures forall q :: q in (if InWindow(r, start, end) then [r] else []) <==> q in {r} && InWindow(q, start, end)
  {
  }

  lemma {:induction false} ReplayAnswers(cfg: Config, r: LogRecord, ends: seq<Time>)
    ensures Faithful(cfg, {r}, Replay(cfg, r, ends))
    decreases |ends|
  {
    hide InWindow, WindowStart, After;
    if ends != [] {
      var k := |ends| - 1;
      var before := Replay(cfg, r, ends[..k]);
      ReplayAnswers(cfg, r, ends[..k]);
      SingleRecordAnswer(r, WindowStart(cfg, After(cfg, before).lastEnd, ends[k]), ends[k]);
      assert Replay(cfg, r, ends)[..|Replay(cfg, r, ends)| - 1] == before;
    }
  }

  lemma ReplayIsFaithful(cfg: Config, r: LogRecord, ends: seq<Time>)
    requires Ascending(ends)
    ensures ClockRuns(Replay(cfg, r, ends)) && Successes(Replay(cfg, r, ends)) == ends
    ensures Faithful(cfg, {r}, Replay(cfg, r, ends))
  {
    hide Replay, Successes, Faithful;
    ReplayClocks(cfg, r, ends);
    ReplayAnswers(cfg, r, ends);
  }

  /** A stale poll has a backend record that is delivered twice. */
  lemma {:induction false} StalePollDuplicates(cfg: Config, ends: seq<Time>) returns (r: LogRecord)
    requires Ascending(ends) && !NoStalePoll(cfg, ends)
    ensures Deliveries(cfg, Replay(cfg, r, ends), r) >= 2
    decreases |ends|
  {
    hide Milli, EventID, Cutoff, Start, Deliveries, Replay;
    var n := |ends| - 1;
    var before, end := ends[..n], ends[n];
    assert ends == before + [end];
    if !NoStalePoll(cfg, before) {
      r := StalePollDuplicates(cfg, before);
      DeliveriesGrow(cfg, r, ends);
    } else {
      var j := FirstStale(cfg, before, end);
      r := LogRecord("", "", "x", Milli(ends[j]) * MILLISECOND, ZERO_TIME, "", "", "", map[]);
      PlainEventID(cfg, r);
      assert Milli(r.timestamp) == Milli(ends[j]) by { MilliOfWhole(Milli(ends[j])); }
      SecondDelivery(cfg, r, ends, j);
    }
  }

  lemma PlainEventID(cfg: Config, r: LogRecord)
    requires r.eventID == "x"
    ensures EventID(cfg, r) == "x"
  {
    TrimTrimmed("x");
  }

  lemma StartOfPrefix(cfg: Config, before: seq<Time>, end: Time, k: int)
    requires 0 <= k < |before|
    ensures Start(cfg, before + [end], k) == Start(cfg, before, k)
  {
  }

  lemma FirstStale(cfg: Config, before: seq<Time>, end: Time) returns (j: int)
    requires NoStalePoll(cfg, before) && !NoStalePoll(cfg, before + [end])
    ensures 0 <= j < |before|
    ensures Milli(Start(cfg, before + [end], |before|)) <= Milli(before[j]) && before[j] < Cutoff(cfg, end)
  {
    hide Milli, Cutoff, Start;
    var all := before + [end];
    forall k | 0 <= k < |before| ensures Start(cfg, all, k) == Start(cfg, before, k) {
      StartOfPrefix(cfg, before, end, k);
    }
    var i, k :| 0 <= i < k < |all| && Milli(Start(cfg, all, k)) <= Milli(all[i]) && !(Cutoff(cfg, all[k]) <= all[i]);
    j := i;
  }

  lemma {:induction false} CountConcat(h: seq<Emission<LogRecord>>, g: seq<Emission<LogRecord>>, id: string)
    ensures Count(h + g, id) == Count(h, id) + Count(g, id)
    decreases |g|
  {
    if g == [] {
      assert h + g == h;
    } else {
      var k := |g| - 1;
      assert (h + g)[..|h + g| - 1] == h + g[..k];
      CountConcat(h, g[..k], id);
    }
  }

  lemma DeliveriesGrow(cfg: Config, r: LogRecord, ends: seq<Time>)
    requires ends != []
    ensures Deliveries(cfg, Replay(cfg, r, ends), r) >= Deliveries(cfg, Replay(cfg, r, ends[..|ends| - 1]), r)
  {
    var before, polls := Replay(cfg, r, ends[..|ends| - 1]), Replay(cfg, r, ends);
    assert polls[..|polls| - 1] == before;
    var p := polls[|polls| - 1];
    var batch := Emitted(cfg, After(cfg, before), p.clock, p.response.value);
    CountConcat(After(cfg, before).history, Emit(batch, p.clock), EventID(cfg, r));
  }

  lemma MilliOfWhole(m: int)
    ensures Milli(m * MILLISECOND) == m
  {
  }

  lemma MilliMonotone(t: Time, u: Time)
    requires t <= u
    ensures Milli(t) <= Milli(u)
  {
  }

  lemma SoleEarlyEmission(cfg: Config, r: LogRecord, ends: seq<Time>, h: seq<Emission<LogRecord>>, j: int, cutoff: Time)
    requires Ascending(ends) && 0 <= j < |ends| && Delivering(cfg, {r}, ends, h)
    requires Milli(r.timestamp) == Milli(ends[j]) && ends[j] < cutoff
    ensures Count(h, EventID(cfg, r)) == 1 && !EmittedSince(h, EventID(cfg, r), cutoff)
  {
    hide Milli, EventID;
    MilliMonotone(ends[0] - Window(cfg), ends[j]);
    MilliMonotone(ends[j], ends[|ends| - 1]);
    assert r in {r} && Covered(cfg, ends, r);
    CountOfUnique(h, EventID(cfg, r));
    forall i | 0 <= i < |h| ensures h[i].at < cutoff {
      assert Prompt(cfg, {r}, ends, h[i]);
    }
  }

  lemma TableIsChronological(cfg: Config, s: State)
    requires TableExact(cfg, s)
    ensures Chronological(s.history)
  {
  }

  lemma ForgottenRecordReEmitted(cfg: Config, s: State, r: LogRecord, end: Time)
    requires TableExact(cfg, s) && (s.history == [] || s.lastEnd <= end)
    requires !EmittedSince(s.history, EventID(cfg, r), Cutoff(cfg, end))
    ensures Count(Tick(cfg, s, Poll(end, Some([r]))).history, EventID(cfg, r)) == Count(s.history, EventID(cfg, r)) + 1
  {
    hide EventID, Recent, Prune, Stamp, TableExact, Cutoff, LastEmission;
    assert Chronological(s.history) by { TableIsChronological(cfg, s); }
    var id, seen, items := EventID(cfg, r), Prune(s.seen, Cutoff(cfg, end)), Tag(cfg, [r]);
    TickKeepsTableExact(cfg, s, Poll(end, Some([r])));
    RecentDecides(s.history, id, Cutoff(cfg, end));
    assert items == [Tagged(id, r)] && items[..0] == [] && Novel(items, 0, seen);
    assert Fresh(items, seen) == [Tagged(id, r)];
    var last := Emit([Tagged(id, r)], end);
    CountConcat(s.history, last, id);
    assert last[..0] == [] && Count(last, id) == 1;
  }

  lemma SecondDelivery(cfg: Config, r: LogRecord, ends: seq<Time>, j: int)
    requires Ascending(ends) && 0 <= j < |ends| - 1 && DistinctIDs(cfg, {r})
    requires NoStalePoll(cfg, ends[..|ends| - 1])
    requires Milli(r.timestamp) == Milli(ends[j])
    requires Milli(Start(cfg, ends, |ends| - 1)) <= Milli(ends[j]) && ends[j] < Cutoff(cfg, ends[|ends| - 1])
    ensures Deliveries(cfg, Replay(cfg, r, ends), r) >= 2
  {
    hide Milli, EventID, Cutoff, NoStalePoll, TableExact, Delivering, Recent, Fresh, WindowStart, Faithful, ClockRuns, Tick;
    var n := |ends| - 1;
    var end, early, before := ends[n], ends[..n], Replay(cfg, r, ends[..n]);
    var s := After(cfg, before);
    assert Ascending(early);
    ReplayIsFaithful(cfg, r, early);
    RunDelivers(cfg, {r}, before);
    RunKeepsTableExact(cfg, before);
    SuccessesOfRun(cfg, before);
    SoleEarlyEmission(cfg, r, early, s.history, j, Cutoff(cfg, end));
    MilliMonotone(ends[j], end);
    assert s.lastEnd == ends[n - 1];
    var polls := Replay(cfg, r, ends);
    assert polls[..|polls| - 1] == before && polls[|polls| - 1] == Poll(end, Some([r]));
    ForgottenRecordReEmitted(cfg, s, r, end);
  }

  /** Every run with these successful polls delivers every covered record exactly once. */
  ghost predicate AlwaysExactlyOnce(cfg: Config, ends: seq<Time>) {
    forall backend, polls |
      ClockRuns(polls) && Successes(polls) == ends && Faithful(cfg, backend, polls) && DistinctIDs(cfg, backend)
      :: forall r :: r in backend ==> Deliveries(cfg, polls, r) == if Covered(cfg, ends, r) then 1 else 0
  }

  /** Exactly-once delivery holds for every backend if and only if no poll is stale. */
  lemma ExactlyOnceIffNoStalePoll(cfg: Config, ends: seq<Time>)
    requires Ascending(ends)
    ensures AlwaysExactlyOnce(cfg, ends) <==> NoStalePoll(cfg, ends)
  {
    hide NoStalePoll, Faithful, ClockRuns, Successes, Covered, Deliveries, Ascending;
    if NoStalePoll(cfg, ends) {
      forall backend, polls | ClockRuns(polls) && Successes(polls) == ends
          && Faithful(cfg, backend, polls) && DistinctIDs(cfg, backend)
        ensures forall r :: r in backend ==> Deliveries(cfg, polls, r) == if Covered(cfg, ends, r) then 1 else 0
      {
        ExactlyOnceDelivery(cfg, backend, polls);
      }
    } else {
      var r := StalePollDuplicates(cfg, ends);
      ReplayIsFaithful(cfg, r, ends);
      assert r in {r} && DistinctIDs(cfg, {r});
    }
  }

  /** One outage longer than six windows and half an hour is enough: the second poll reaches back to
      the end of the first, whose ids are pruned by then, and some record is delivered twice. */
  lemma LongOutageDuplicates(cfg: Config, t: Time)
    requires t > ZERO_TIME && 6 * Window(cfg) <= MAX_INT64
    ensures var ends := [t, t + Max(6 * Window(cfg), 30 * MINUTE) + 1];
      Ascending(ends) && !NoStalePoll(cfg, ends) && !AlwaysExactlyOnce(cfg, ends)
  {
    OutageDuplicates(cfg, t);
    hide AlwaysExactlyOnce, Retention, Milli;
  }

  /** Without the bound on the window the retention is what the wrapped product makes it. */
  lemma OutageDuplicates(cfg: Config, t: Time)
    requires t > ZERO_TIME
    ensures var ends := [t, t + Retention(Window(cfg)) + 1];
      Ascending(ends) && !NoStalePoll(cfg, ends) && !AlwaysExactlyOnce(cfg, ends)
  {
    hide AlwaysExactlyOnce, Retention, Milli;
    var ends := [t, t + Retention(Window(cfg)) + 1];
    assert Start(cfg, ends, 1) == ends[0] && Milli(Start(cfg, ends, 1)) <= Milli(ends[0]);
    assert Cutoff(cfg, ends[1]) > ends[0];
    ExactlyOnceIffNoStalePoll(cfg, ends);
  }
}

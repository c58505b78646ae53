/** Delivery over whole runs of the metric ingestor: every alerting point it fetches is emitted once. */
module MetricsDelivery {
  import opened GoTime
  import opened Text
  import opened Telemetry
  import opened SeenTable
  import opened MetricsIngestion

  /** Point `p` came back from some successful poll. */
  ghost predicate Fetched(polls: seq<Poll>, p: MetricPoint) {
    exists k :: 0 <= k < |polls| && InResponse(polls[k], p)
  }

  predicate InResponse(poll: Poll, p: MetricPoint) {
    poll.response.Some? && p in poll.response.value
  }

  /** The collection of poll `k`, begun at `begun[k]`, returns points of the window before that. */
  ghost predicate InWindows(cfg: Config, polls: seq<Poll>, begun: seq<Time>) {
    && |begun| == |polls|
    && forall k, p :: 0 <= k < |polls| && InResponse(polls[k], p) ==> begun[k] - Window(cfg) <= p.timestamp <= begun[k]
  }

  /** The windows of collections begun at the two instants have an instant in common. */
  predicate Meet(cfg: Config, begun: Time, begun': Time) {
    begun - Window(cfg) <= begun' && begun' - Window(cfg) <= begun
  }

  /** No successful poll's window meets that of an earlier success whose ids are already pruned. */
  ghost predicate NoLatePoll(cfg: Config, polls: seq<Poll>, begun: seq<Time>) {
    && |begun| == |polls|
    && forall j, k :: 0 <= j < k < |polls| && polls[j].response.Some? && polls[k].response.Some? && Meet(cfg, begun[j], begun[k])
         ==> Cutoff(cfg, polls[k].clock) <= polls[j].clock
  }

  /** The identifying digest of a point covers its instant. */
  ghost predicate IDsKeepTime(cfg: Config, polls: seq<Poll>) {
    forall p, p' :: Fetched(polls, p) && Fetched(polls, p') && cfg.eventID(p) == cfg.eventID(p') ==> p.timestamp == p'.timestamp
  }

  ghost predicate SoundEmission(cfg: Config, polls: seq<Poll>, e: Emission<MetricPoint>) {
    && e.id == cfg.eventID(e.item) && Alerts(e.item, cfg)
    && exists k :: 0 <= k < |polls| && InResponse(polls[k], e.item) && e.at == polls[k].clock
  }

  /** What delivery needs of a run: answers from the windows, a schedule without late polls, and
      digests that cover the instant. */
  ghost predicate Safe(cfg: Config, polls: seq<Poll>, begun: seq<Time>) {
    InWindows(cfg, polls, begun) && NoLatePoll(cfg, polls, begun) && IDsKeepTime(cfg, polls)
  }

  ghost predicate Delivered(cfg: Config, polls: seq<Poll>, h: seq<Emission<MetricPoint>>) {
    && UniqueIDs(h)
    && (forall i :: 0 <= i < |h| ==> SoundEmission(cfg, polls, h[i]))
    && (forall p :: Fetched(polls, p) && Alerts(p, cfg) ==> HasID(h, cfg.eventID(p)))
  }

  lemma FetchedGrows(polls: seq<Poll>, poll: Poll)
    ensures forall p :: Fetched(polls + [poll], p) <==> Fetched(polls, p) || InResponse(poll, p)
  {
    hide InResponse;
    var all := polls + [poll];
    forall p ensures Fetched(all, p) <==> Fetched(polls, p) || InResponse(poll, p) {
      if Fetched(polls, p) {
        var k :| 0 <= k < |polls| && InResponse(polls[k], p);
        assert InResponse(all[k], p);
      }
      if InResponse(poll, p) {
        assert InResponse(all[|polls|], p);
      }
    }
  }

  lemma {:induction false} AlertingHolds(cfg: Config, points: seq<MetricPoint>, p: MetricPoint)
    requires p in points && Alerts(p, cfg)
    ensures Tagged(cfg.eventID(p), p) in Alerting(cfg, points)
    decreases |points|
  {
    hide Alerts;
    var k := |points| - 1;
    if points[k] != p {
      assert points == points[..k] + [points[k]];
      AlertingHolds(cfg, points[..k], p);
    }
  }

  /** An id that a new item shares with an earlier emission is still in the table. */
  lemma EarlierEmissionIsRecent(cfg: Config, polls: seq<Poll>, poll: Poll, begun: seq<Time>, e: Emission<MetricPoint>, p: MetricPoint)
    requires SoundEmission(cfg, polls, e) && Safe(cfg, polls + [poll], begun) && InResponse(poll, p) && e.id == cfg.eventID(p)
    ensures e.at >= Cutoff(cfg, poll.clock)
  {
    hide Alerts, Window, Cutoff;
    var all, n := polls + [poll], |polls|;
    var k :| 0 <= k < |polls| && InResponse(polls[k], e.item) && e.at == polls[k].clock;
    assert InResponse(all[k], e.item) && InResponse(all[n], p);
    assert Fetched(all, e.item) && Fetched(all, p);
    assert Meet(cfg, begun[k], begun[n]);
  }

  lemma NewIDsAreNew(cfg: Config, polls: seq<Poll>, poll: Poll, begun: seq<Time>, s: State)
    requires Delivered(cfg, polls, s.history) && TableExact(cfg, s) && (s.history == [] || s.pruned <= poll.clock)
    requires poll.response.Some? && Safe(cfg, polls + [poll], begun)
    ensures forall t :: t in Emitted(cfg, s, poll.clock, poll.response.value) ==> !HasID(s.history, t.id)
  {
    TickKeepsTableExact(cfg, s, poll);
    var points, cutoff := poll.response.value, Cutoff(cfg, poll.clock);
    AlertingAlerts(cfg, points);
    hide Tick, Safe, Recent, Prune, Cutoff, Alerts, Alerting;
    forall t | t in Emitted(cfg, s, poll.clock, points) ensures !HasID(s.history, t.id) {
      FreshIds(Alerting(cfg, points), Prune(s.seen, cutoff), t.id);
      RecentDecides(s.history, t.id, cutoff);
      if HasID(s.history, t.id) {
        var i :| 0 <= i < |s.history| && s.history[i].id == t.id;
        EarlierEmissionIsRecent(cfg, polls, poll, begun, s.history[i], t.item);
        assert false;
      }
    }
  }

  /** Every alerting point of the batch has its id in the history afterwards. */
  lemma BatchIsCovered(cfg: Config, poll: Poll, s: State, p: MetricPoint)
    requires TableExact(cfg, s) && (s.history == [] || s.pruned <= poll.clock)
    requires InResponse(poll, p) && Alerts(p, cfg)
    ensures HasID(s.history + Emit(Emitted(cfg, s, poll.clock, poll.response.value), poll.clock), cfg.eventID(p))
  {
    TickKeepsTableExact(cfg, s, poll);
    var points, cutoff, id := poll.response.value, Cutoff(cfg, poll.clock), cfg.eventID(p);
    var batch := Emitted(cfg, s, poll.clock, points);
    hide Tick, Recent, Prune, Cutoff, Alerts, Alerting;
    AlertingHolds(cfg, points, p);
    FreshIds(Alerting(cfg, points), Prune(s.seen, cutoff), id);
    RecentDecides(s.history, id, cutoff);
    HasIDConcat(s.history, batch, poll.clock, id);
    if EmittedSince(s.history, id, cutoff) {
      var i :| 0 <= i < |s.history| && s.history[i].id == id && s.history[i].at >= cutoff;
      assert HasID(s.history, id);
    } else {
      assert Tagged(id, p) in Alerting(cfg, points) && Tagged(id, p).id == id;
    }
  }

  lemma BatchIsSound(cfg: Config, polls: seq<Poll>, poll: Poll, s: State)
    requires poll.response.Some?
    ensures var batch := Emitted(cfg, s, poll.clock, poll.response.value);
      && (forall i, j :: 0 <= i < j < |batch| ==> batch[i].id != batch[j].id)
      && (forall i :: 0 <= i < |batch| ==> SoundEmission(cfg, polls + [poll], Emission(poll.clock, batch[i].id, batch[i].item)))
  {
    var points := poll.response.value;
    var items, kept := Alerting(cfg, points), Prune(s.seen, Cutoff(cfg, poll.clock));
    var batch := Emitted(cfg, s, poll.clock, points);
    FreshDistinct(items, kept);
    AlertingAlerts(cfg, points);
    var all := polls + [poll];
    assert all[|polls|] == poll;
    hide Prune, Cutoff, Alerts, Alerting, Retention, Window;
    forall i | 0 <= i < |batch| ensures SoundEmission(cfg, polls + [poll], Emission(poll.clock, batch[i].id, batch[i].item)) {
      FreshIds(items, kept, batch[i].id);
      assert batch[i] in batch;
      assert InResponse(poll, batch[i].item);
    }
  }

  lemma SoundGrows(cfg: Config, polls: seq<Poll>, poll: Poll, e: Emission<MetricPoint>)
    requires SoundEmission(cfg, polls, e)
    ensures SoundEmission(cfg, polls + [poll], e)
  {
    hide InResponse, Alerts;
    var k :| 0 <= k < |polls| && InResponse(polls[k], e.item) && e.at == polls[k].clock;
    assert (polls + [poll])[k] == polls[k];
  }

  lemma SoundIsFetched(cfg: Config, polls: seq<Poll>, e: Emission<MetricPoint>)
    requires SoundEmission(cfg, polls, e)
    ensures Fetched(polls, e.item) && Alerts(e.item, cfg)
  {
    hide InResponse, Alerts;
  }

  lemma UniqueConcat(h: seq<Emission<MetricPoint>>, batch: seq<Tagged<MetricPoint>>, at: Time)
    requires UniqueIDs(h) && (forall i, j :: 0 <= i < j < |batch| ==> batch[i].id != batch[j].id)
    requires forall t :: t in batch ==> !HasID(h, t.id)
    ensures UniqueIDs(h + Emit(batch, at))
  {
    forall i, j | 0 <= i < |h| && 0 <= j < |batch| ensures h[i].id != batch[j].id {
      assert batch[j] in batch;
    }
  }

  lemma PollDelivers(cfg: Config, polls: seq<Poll>, poll: Poll, begun: seq<Time>, s: State)
    requires Delivered(cfg, polls, s.history) && TableExact(cfg, s) && (s.history == [] || s.pruned <= poll.clock)
    requires poll.response.Some? && Safe(cfg, polls + [poll], begun)
    ensures Delivered(cfg, polls + [poll], s.history + Emit(Emitted(cfg, s, poll.clock, poll.response.value), poll.clock))
  {
    var batch := Emitted(cfg, s, poll.clock, poll.response.value);
    var h := s.history + Emit(batch, poll.clock);
    hide Emitted, TableExact, Safe, SoundEmission, Alerts, InResponse, Fetched;
    NewIDsAreNew(cfg, polls, poll, begun, s);
    BatchIsSound(cfg, polls, poll, s);
    UniqueConcat(s.history, batch, poll.clock);
    forall i | 0 <= i < |h| ensures SoundEmission(cfg, polls + [poll], h[i]) {
      if i < |s.history| { SoundGrows(cfg, polls, poll, s.history[i]); }
    }
    FetchedGrows(polls, poll);
    forall p | Fetched(polls + [poll], p) && Alerts(p, cfg) ensures HasID(h, cfg.eventID(p)) {
      if InResponse(poll, p) {
        BatchIsCovered(cfg, poll, s, p);
      } else {
        HasIDConcat(s.history, batch, poll.clock, cfg.eventID(p));
      }
    }
  }

  lemma FailedPollFetchesNothing(cfg: Config, polls: seq<Poll>, poll: Poll, h: seq<Emission<MetricPoint>>)
    requires Delivered(cfg, polls, h) && poll.response.None?
    ensures Delivered(cfg, polls + [poll], h)
  {
    FetchedGrows(polls, poll);
    hide Fetched, Alerts, HasID, UniqueIDs;
    forall i | 0 <= i < |h| ensures SoundEmission(cfg, polls + [poll], h[i]) {
      SoundGrows(cfg, polls, poll, h[i]);
    }
  }

  lemma SafePrefix(cfg: Config, polls: seq<Poll>, poll: Poll, begun: seq<Time>)
    requires Safe(cfg, polls + [poll], begun)
    ensures Safe(cfg, polls, begun[..|polls|])
  {
    FetchedGrows(polls, poll);
    hide Fetched, InResponse, Window, Cutoff, Meet;
    var all := polls + [poll];
    assert forall k :: 0 <= k < |polls| ==> all[k] == polls[k] && begun[..|polls|][k] == begun[k];
  }

  lemma {:induction false} RunDelivers(cfg: Config, polls: seq<Poll>, begun: seq<Time>)
    requires ClockRuns(polls) && Safe(cfg, polls, begun)
    ensures Delivered(cfg, polls, After(cfg, polls).history)
    decreases |polls|
  {
    assert |begun| == |polls|;
    hide Delivered, TableExact, Tick, Safe, Emitted;
    if polls == [] {
      NothingDelivered(cfg);
    } else {
      var k := |polls| - 1;
      var before, poll := polls[..k], polls[k];
      assert polls == before + [poll];
      SafePrefix(cfg, before, poll, begun);
      RunDelivers(cfg, before, begun[..k]);
      RunKeepsTableExact(cfg, before);
      HistoryAfterTick(cfg, After(cfg, before), poll);
      if poll.response.None? {
        FailedPollFetchesNothing(cfg, before, poll, After(cfg, before).history);
      } else {
        assert k > 0 ==> polls[k - 1].clock <= polls[k].clock && before[|before| - 1] == polls[k - 1];
        assert k == 0 ==> before == [] && After(cfg, before).history == [];
        PollDelivers(cfg, before, poll, begun, After(cfg, before));
      }
    }
  }

  lemma NothingDelivered(cfg: Config)
    ensures Delivered(cfg, [], [])
  {
  }

  lemma HistoryAfterTick(cfg: Config, s: State, poll: Poll)
    ensures Tick(cfg, s, poll).history
      == if poll.response.None? then s.history else s.history + Emit(Emitted(cfg, s, poll.clock, poll.response.value), poll.clock)
  {
  }

  /** Each alerting point that was ever fetched is in the timeline exactly once, however many
      windows returned it, and nothing else is. */
  ghost predicate OnceEach(cfg: Config, polls: seq<Poll>) {
    && (forall p :: Fetched(polls, p) && Alerts(p, cfg) ==> Count(After(cfg, polls).history, cfg.eventID(p)) == 1)
    && (forall e :: e in After(cfg, polls).history ==> Fetched(polls, e.item) && Alerts(e.item, cfg))
  }

  /** So it is in every run with a clock that never steps back, digests that cover the instant and
      no late poll. */
  lemma AlertingPointsOnce(cfg: Config, polls: seq<Poll>, begun: seq<Time>)
    requires ClockRuns(polls) && Safe(cfg, polls, begun)
    ensures OnceEach(cfg, polls)
  {
    RunDelivers(cfg, polls, begun);
    hide After, Fetched, Alerts, Safe, SoundEmission;
    var h := After(cfg, polls).history;
    forall p | Fetched(polls, p) && Alerts(p, cfg) ensures Count(h, cfg.eventID(p)) == 1 {
      CountOfUnique(h, cfg.eventID(p));
    }
    forall e | e in h ensures Fetched(polls, e.item) && Alerts(e.item, cfg) {
      SoundIsFetched(cfg, polls, e);
    }
  }

  /** No poll is late when every window together with its collection fits six windows or half an hour. */
  lemma TimelyIsSafe(cfg: Config, polls: seq<Poll>, begun: seq<Time>)
    requires |begun| == |polls| && 6 * Window(cfg) <= MAX_INT64
    requires forall k :: 0 <= k < |polls| && polls[k].response.Some? ==>
      begun[k] <= polls[k].clock && polls[k].clock - begun[k] + Window(cfg) <= Max(6 * Window(cfg), 30 * MINUTE)
    ensures NoLatePoll(cfg, polls, begun)
  {
    CoveredIsSafe(cfg, polls, begun);
  }

  lemma CoveredIsSafe(cfg: Config, polls: seq<Poll>, begun: seq<Time>)
    requires |begun| == |polls|
    requires forall k :: 0 <= k < |polls| && polls[k].response.Some? ==>
      begun[k] <= polls[k].clock && polls[k].clock - begun[k] + Window(cfg) <= Retention(Window(cfg))
    ensures NoLatePoll(cfg, polls, begun)
  {
    hide Window, Retention;
  }

  // ---------- the condition is necessary ----------

  ghost predicate SameSchedule(a: seq<Poll>, b: seq<Poll>) {
    |a| == |b| && forall k :: 0 <= k < |a| ==> a[k].clock == b[k].clock && (a[k].response.Some? <==> b[k].response.Some?)
  }

  /** The run on a schedule whose polls `j` and `k` return the one point `p` and no other returns any. */
  function Twice(polls: seq<Poll>, j: int, k: int, p: MetricPoint): (run: seq<Poll>)
    ensures |run| == |polls|
    ensures forall i :: 0 <= i < |run| ==>
      run[i] == Poll(polls[i].clock, if polls[i].response.None? then None else Some(if i == j || i == k then [p] else []))
  {
    seq(|polls|, i requires 0 <= i < |polls| =>
      Poll(polls[i].clock, if polls[i].response.None? then None else Some(if i == j || i == k then [p] else [])))
  }

  lemma EmptyTick(cfg: Config, s: State, clock: Time)
    ensures Tick(cfg, s, Poll(clock, None)).history == s.history && Tick(cfg, s, Poll(clock, Some([]))).history == s.history
  {
    hide Prune, Stamp, Cutoff;
  }

  lemma OneFresh(t: Tagged<MetricPoint>, seen: Seen, at: Time)
    requires t.id !in seen
    ensures Fresh([t], seen) == [t] && Emit([t], at) == [Emission(at, t.id, t.item)]
  {
    assert [t][..0] == [] && Fresh([t][..0], seen) == [];
  }

  lemma NotRecentlyEmitted(cfg: Config, s: State, poll: Poll, id: string)
    requires TableExact(cfg, s) && (s.history == [] || s.pruned <= poll.clock) && poll.response.Some?
    requires !EmittedSince(s.history, id, Cutoff(cfg, poll.clock))
    ensures id !in Prune(s.seen, Cutoff(cfg, poll.clock))
  {
    hide Tick, Prune, Recent, Cutoff, Alerts, EmittedSince;
    TickKeepsTableExact(cfg, s, poll);
    RecentDecides(s.history, id, Cutoff(cfg, poll.clock));
  }

  /** A poll that returns one alerting point emits it when its id was not emitted recently. */
  lemma OnePointTick(cfg: Config, s: State, clock: Time, p: MetricPoint)
    requires TableExact(cfg, s) && (s.history == [] || s.pruned <= clock) && Alerts(p, cfg)
    requires !EmittedSince(s.history, cfg.eventID(p), Cutoff(cfg, clock))
    ensures Tick(cfg, s, Poll(clock, Some([p]))).history == s.history + [Emission(clock, cfg.eventID(p), p)]
  {
    hide TableExact, Prune, Stamp, Cutoff, Alerts, Alerting, EmittedSince, Fresh, Tick;
    NotRecentlyEmitted(cfg, s, Poll(clock, Some([p])), cfg.eventID(p));
    OneAlerting(cfg, p);
    OneFresh(Tagged(cfg.eventID(p), p), Prune(s.seen, Cutoff(cfg, clock)), clock);
    HistoryAfterTick(cfg, s, Poll(clock, Some([p])));
  }

  lemma OneAlerting(cfg: Config, p: MetricPoint)
    requires Alerts(p, cfg)
    ensures Alerting(cfg, [p]) == [Tagged(cfg.eventID(p), p)]
  {
    hide Alerts;
    assert [p][..0] == [] && Alerting(cfg, [p][..0]) == [];
  }

  /** The history of that run poll by poll: the point is emitted by both polls. */
  lemma {:induction false} TwiceHistory(cfg: Config, polls: seq<Poll>, j: int, k: int, p: MetricPoint, n: nat)
    requires 0 <= j < k < |polls| && n <= |polls| && polls[j].response.Some? && polls[k].response.Some?
    requires ClockRuns(Twice(polls, j, k, p)) && Alerts(p, cfg) && polls[j].clock < Cutoff(cfg, polls[k].clock)
    ensures var first, second := Emission(polls[j].clock, cfg.eventID(p), p), Emission(polls[k].clock, cfg.eventID(p), p);
      After(cfg, Twice(polls, j, k, p)[..n]).history == if n <= j then [] else if n <= k then [first] else [first, second]
    decreases n
  {
    hide Tick, TableExact, Cutoff, Alerts, Twice;
    var run := Twice(polls, j, k, p);
    if n > 0 {
      TwiceHistory(cfg, polls, j, k, p, n - 1);
      assert run[..n][..n - 1] == run[..n - 1] && run[..n][n - 1] == run[n - 1];
      var s, poll := After(cfg, run[..n - 1]), run[n - 1];
      EmptyTick(cfg, s, poll.clock);
      if n - 1 == j || n - 1 == k {
        ReadyForPoll(cfg, run, n - 1);
        OnePointTick(cfg, s, poll.clock, p);
      }
    }
  }

  lemma ReadyForPoll(cfg: Config, run: seq<Poll>, n: nat)
    requires ClockRuns(run) && n < |run|
    ensures var s := After(cfg, run[..n]); TableExact(cfg, s) && (s.history == [] || s.pruned <= run[n].clock)
  {
    hide TableExact, Tick;
    RunKeepsTableExact(cfg, run[..n]);
    assert n > 0 ==> run[..n][n - 1].clock <= run[n].clock;
  }

  lemma TwiceIsInWindows(cfg: Config, polls: seq<Poll>, begun: seq<Time>, j: int, k: int, p: MetricPoint)
    requires |begun| == |polls| && 0 <= j < k < |polls| && Meet(cfg, begun[j], begun[k])
    requires p.timestamp == Max(begun[j], begun[k]) - Window(cfg)
    ensures InWindows(cfg, Twice(polls, j, k, p), begun) && IDsKeepTime(cfg, Twice(polls, j, k, p))
  {
    assert Window(cfg) > 0;
    hide Window, Twice;
    var run := Twice(polls, j, k, p);
    assert forall i, q :: 0 <= i < |run| && InResponse(run[i], q) ==> q == p && (i == j || i == k);
  }

  /** Such a point: one at the given instant that reaches the warning threshold. */
  function AlertingAt(cfg: Config, t: Time): MetricPoint {
    MetricPoint("r", "n", "cpuutilization", t, WarnThreshold(cfg))
  }

  lemma AlertingAtAlerts(cfg: Config, t: Time)
    ensures Alerts(AlertingAt(cfg, t), cfg)
  {
    TrimTrimmed("cpuutilization");
    hide TrimSpace, WarnThreshold, ErrorThreshold;
    assert ToLower("cpuutilization") == "cpuutilization";
  }

  lemma RepeatsAt(cfg: Config, polls: seq<Poll>, j: int, k: int, p: MetricPoint)
    requires ClockRuns(polls) && 0 <= j < k < |polls| && polls[j].response.Some? && polls[k].response.Some?
    requires Alerts(p, cfg) && polls[j].clock < Cutoff(cfg, polls[k].clock)
    ensures var run := Twice(polls, j, k, p); Fetched(run, p) && Count(After(cfg, run).history, cfg.eventID(p)) == 2
  {
    hide Cutoff, After, Alerts, Twice, Count;
    var run := Twice(polls, j, k, p);
    assert InResponse(run[j], p);
    TwiceHistory(cfg, polls, j, k, p, |polls|);
    assert run[..|polls|] == run;
    CountOfTwo(Emission(polls[j].clock, cfg.eventID(p), p), Emission(polls[k].clock, cfg.eventID(p), p));
  }

  lemma SomeLatePoll(cfg: Config, polls: seq<Poll>, begun: seq<Time>) returns (j: int, k: int)
    requires |begun| == |polls| && !NoLatePoll(cfg, polls, begun)
    ensures 0 <= j < k < |polls| && polls[j].response.Some? && polls[k].response.Some?
    ensures Meet(cfg, begun[j], begun[k]) && polls[j].clock < Cutoff(cfg, polls[k].clock)
  {
    hide Cutoff, Meet;
    j, k :| 0 <= j < k < |polls| && polls[j].response.Some? && polls[k].response.Some? && Meet(cfg, begun[j], begun[k])
      && !(Cutoff(cfg, polls[k].clock) <= polls[j].clock);
  }

  /** On a schedule with a late poll some run emits an alerting point twice. */
  lemma LatePollRepeats(cfg: Config, polls: seq<Poll>, begun: seq<Time>) returns (run: seq<Poll>, p: MetricPoint)
    requires ClockRuns(polls) && |begun| == |polls| && !NoLatePoll(cfg, polls, begun)
    ensures SameSchedule(run, polls) && InWindows(cfg, run, begun) && IDsKeepTime(cfg, run)
    ensures Fetched(run, p) && Alerts(p, cfg) && Count(After(cfg, run).history, cfg.eventID(p)) == 2
  {
    hide Cutoff, After, Alerts, Window, IDsKeepTime, InWindows, Fetched, Count, Meet, Twice, ClockRuns, NoLatePoll;
    var j, k := SomeLatePoll(cfg, polls, begun);
    p := AlertingAt(cfg, Max(begun[j], begun[k]) - Window(cfg));
    AlertingAtAlerts(cfg, p.timestamp);
    run := Twice(polls, j, k, p);
    TwiceIsInWindows(cfg, polls, begun, j, k, p);
    RepeatsAt(cfg, polls, j, k, p);
  }

  lemma CountOfTwo(a: Emission<MetricPoint>, b: Emission<MetricPoint>)
    requires a.id == b.id
    ensures Count([a, b], a.id) == 2
  {
    assert [a, b][..1] == [a] && [a][..0] == [];
    assert Count([a][..0], a.id) == 0 && Count([a], a.id) == 1;
  }

  /** The condition is exact: on a schedule every run emits each alerting point once if and only if
      no poll of it is late. */
  lemma OnceIffNoLatePoll(cfg: Config, polls: seq<Poll>, begun: seq<Time>)
    requires ClockRuns(polls) && |begun| == |polls|
    ensures (forall run :: SameSchedule(run, polls) && InWindows(cfg, run, begun) && IDsKeepTime(cfg, run) ==> OnceEach(cfg, run))
      <==> NoLatePoll(cfg, polls, begun)
  {
    if NoLatePoll(cfg, polls, begun) {
      forall run | SameSchedule(run, polls) && InWindows(cfg, run, begun) && IDsKeepTime(cfg, run) ensures OnceEach(cfg, run) {
        hide InWindows, IDsKeepTime, OnceEach, Meet, Cutoff;
        AlertingPointsOnce(cfg, run, begun);
      }
    } else {
      var run, p := LatePollRepeats(cfg, polls, begun);
      hide InWindows, IDsKeepTime, After, Fetched, Alerts;
      assert !OnceEach(cfg, run);
    }
  }

  /** A collection that begins with a success and takes longer than six windows and half an hour is late. */
  lemma SlowCollectionIsLate(cfg: Config, clock: Time)
    requires 6 * Window(cfg) <= MAX_INT64
    ensures var polls := [Poll(clock, Some([])), Poll(clock + Max(6 * Window(cfg), 30 * MINUTE) + 1, Some([]))];
      ClockRuns(polls) && !NoLatePoll(cfg, polls, [clock, clock])
  {
    OutlastedIsLate(cfg, clock);
  }

  lemma OutlastedIsLate(cfg: Config, clock: Time)
    ensures var polls := [Poll(clock, Some([])), Poll(clock + Retention(Window(cfg)) + 1, Some([]))];
      ClockRuns(polls) && !NoLatePoll(cfg, polls, [clock, clock])
  {
    assert Window(cfg) > 0;
    hide Window, Retention;
    var polls := [Poll(clock, Some([])), Poll(clock + Retention(Window(cfg)) + 1, Some([]))];
    assert Meet(cfg, [clock, clock][0], [clock, clock][1]) && polls[0].response.Some? && polls[1].response.Some?;
    assert Cutoff(cfg, polls[1].clock) == clock + 1;
  }
}

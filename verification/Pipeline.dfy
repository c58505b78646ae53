/** Both ingestors at once over one timeline and one signal sink, as interleaved atomic steps.

    Each ingestor goroutine polls, then appends to the timeline, then hands the same batch to the
    sinks in fanout order: first the signal store, then the archive. A lock guards each single
    step, so any interleaving of these steps can happen, with queries in between. */
module Pipeline {
  import opened Telemetry
  import opened SeenTable
  import opened ExactlyOnce
  import L = LogsIngestion
  import M = MetricsIngestion
  import Signals = SignalStore

  // ---------- one ingestor ----------

  datatype Stage = Idle | ToTimeline | ToStore | ToArchive

  /** Where an ingestor's emissions have got to: in the timeline, handed to the store, kept by the
      bounded store, handed to the archive. `batch` is the one in flight. */
  datatype Lane<R> = Lane(stage: Stage, batch: seq<Emission<R>>, shown: seq<Emission<R>>,
                          stored: seq<Emission<R>>, kept: seq<Emission<R>>, archived: seq<Emission<R>>)

  /** The archive sink is optional; the store keeps at most `capacity` signals. */
  datatype Sinks = Sinks(archiving: bool, capacity: nat)

  function IdleLane<R>(): Lane<R> {
    Lane(Idle, [], [], [], [], [])
  }

  /** A finished poll; an empty batch ends it at once. */
  function Begin<R>(lane: Lane<R>, batch: seq<Emission<R>>): Lane<R> {
    if batch == [] then lane else lane.(stage := ToTimeline, batch := batch)
  }

  /** The next delivery step of the batch in flight. */
  function Forward<R>(lane: Lane<R>, sinks: Sinks): Lane<R> {
    match lane.stage
    case Idle => lane
    case ToTimeline => lane.(stage := ToStore, shown := lane.shown + lane.batch)
    case ToStore =>
      var delivered := lane.(stored := lane.stored + lane.batch, kept := Signals.Last(sinks.capacity, lane.kept + lane.batch));
      if sinks.archiving then delivered.(stage := ToArchive) else delivered.(stage := Idle, batch := [])
    case ToArchive => lane.(stage := Idle, batch := [], archived := lane.archived + lane.batch)
  }

  function InFlight<R>(lane: Lane<R>, stage: Stage): seq<Emission<R>> {
    if lane.stage == stage then lane.batch else []
  }

  /** Timeline, store and archive are in lockstep: each lacks at most the batch in flight. */
  ghost predicate Lockstep<R>(lane: Lane<R>, history: seq<Emission<R>>, sinks: Sinks) {
    && history == lane.shown + InFlight(lane, ToTimeline)
    && lane.shown == lane.stored + InFlight(lane, ToStore)
    && lane.kept == Signals.Last(sinks.capacity, lane.stored)
    && (sinks.archiving ==> lane.stored == lane.archived + InFlight(lane, ToArchive))
    && (!sinks.archiving ==> lane.archived == [] && lane.stage != ToArchive)
    && (lane.stage == Idle ==> lane.batch == [])
  }

  /** As many as fit, and the newest. */
  ghost predicate NewestKept<T(!new)>(kept: seq<T>, capacity: nat, all: seq<T>) {
    |kept| <= capacity && (|kept| == capacity || kept == all) && exists dropped :: all == dropped + kept
  }

  lemma LastIsKept<T(!new)>(capacity: nat, all: seq<T>)
    ensures NewestKept(Signals.Last(capacity, all), capacity, all)
  {
    Signals.LastIsNewest(capacity, all, []);
    var kept := Signals.Last(capacity, all);
    assert all == all[..|all| - |kept|] + kept;
  }

  lemma BeginKeepsLockstep<R>(lane: Lane<R>, history: seq<Emission<R>>, batch: seq<Emission<R>>, sinks: Sinks)
    requires Lockstep(lane, history, sinks) && lane.stage == Idle
    ensures Lockstep(Begin(lane, batch), history + batch, sinks)
  {
  }

  lemma ForwardKeepsLockstep<R>(lane: Lane<R>, history: seq<Emission<R>>, sinks: Sinks)
    requires Lockstep(lane, history, sinks)
    ensures Lockstep(Forward(lane, sinks), history, sinks)
  {
    Signals.LastConcat(sinks.capacity, lane.stored, lane.batch);
  }

  // ---------- the whole system ----------

  datatype Config = Config(logs: L.Config, metrics: M.Config, logSinks: Sinks, metricSinks: Sinks)

  /** A timeline entry with the ingestor that made it. */
  datatype Entry = FromLogs(log: Emission<LogRecord>) | FromMetrics(metric: Emission<MetricPoint>)

  datatype System = System(
    logs: L.State, logLane: Lane<LogRecord>, logPolls: seq<L.Poll>,
    metrics: M.State, metricLane: Lane<MetricPoint>,
    timeline: seq<Entry>)

  datatype Action = LogPoll(logPoll: L.Poll) | LogForward | MetricPoll(metricPoll: M.Poll) | MetricForward | Query

  function Start(): System {
    System(L.INITIAL, IdleLane(), [], M.INITIAL, IdleLane(), [])
  }

  ghost function LogBatch(cfg: L.Config, s: L.State, p: L.Poll): seq<Emission<LogRecord>> {
    match p.response case None => [] case Some(rs) => Emit(L.Emitted(cfg, s, p.clock, rs), p.clock)
  }

  ghost function MetricBatch(cfg: M.Config, s: M.State, p: M.Poll): seq<Emission<MetricPoint>> {
    match p.response case None => [] case Some(ps) => Emit(M.Emitted(cfg, s, p.clock, ps), p.clock)
  }

  function LogEntries(batch: seq<Emission<LogRecord>>): (es: seq<Entry>)
    ensures |es| == |batch| && forall i :: 0 <= i < |es| ==> es[i] == FromLogs(batch[i])
  {
    seq(|batch|, i requires 0 <= i < |batch| => FromLogs(batch[i]))
  }

  function MetricEntries(batch: seq<Emission<MetricPoint>>): (es: seq<Entry>)
    ensures |es| == |batch| && forall i :: 0 <= i < |es| ==> es[i] == FromMetrics(batch[i])
  {
    seq(|batch|, i requires 0 <= i < |batch| => FromMetrics(batch[i]))
  }

  /** One step. A poll is possible only between deliveries of the same ingestor; an action that
      is not possible does nothing. */
  ghost function Step(cfg: Config, s: System, a: Action): System {
    match a
    case LogPoll(p) =>
      if s.logLane.stage != Idle then s
      else s.(logs := L.Tick(cfg.logs, s.logs, p), logPolls := s.logPolls + [p],
              logLane := Begin(s.logLane, LogBatch(cfg.logs, s.logs, p)))
    case LogForward =>
      s.(logLane := Forward(s.logLane, cfg.logSinks), timeline := s.timeline + LogEntries(InFlight(s.logLane, ToTimeline)))
    case MetricPoll(p) =>
      if s.metricLane.stage != Idle then s
      else s.(metrics := M.Tick(cfg.metrics, s.metrics, p),
              metricLane := Begin(s.metricLane, MetricBatch(cfg.metrics, s.metrics, p)))
    case MetricForward =>
      s.(metricLane := Forward(s.metricLane, cfg.metricSinks), timeline := s.timeline + MetricEntries(InFlight(s.metricLane, ToTimeline)))
    case Query => s
  }

  /** The state after any schedule. */
  ghost function Run(cfg: Config, schedule: seq<Action>): System {
    if schedule == [] then Start()
    else Step(cfg, Run(cfg, schedule[..|schedule| - 1]), schedule[|schedule| - 1])
  }

  // ---------- safety of every interleaving ----------

  function LogsIn(timeline: seq<Entry>): seq<Emission<LogRecord>> {
    if timeline == [] then []
    else
      var e := timeline[|timeline| - 1];
      var before := LogsIn(timeline[..|timeline| - 1]);
      if e.FromLogs? then before + [e.log] else before
  }

  function MetricsIn(timeline: seq<Entry>): seq<Emission<MetricPoint>> {
    if timeline == [] then []
    else
      var e := timeline[|timeline| - 1];
      var before := MetricsIn(timeline[..|timeline| - 1]);
      if e.FromMetrics? then before + [e.metric] else before
  }

  lemma {:induction false} AppendLogs(timeline: seq<Entry>, batch: seq<Emission<LogRecord>>)
    ensures LogsIn(timeline + LogEntries(batch)) == LogsIn(timeline) + batch
    ensures MetricsIn(timeline + LogEntries(batch)) == MetricsIn(timeline)
    decreases |batch|
  {
    if batch == [] {
      assert timeline + LogEntries(batch) == timeline;
    } else {
      var k := |batch| - 1;
      AppendLogs(timeline, batch[..k]);
      var all := timeline + LogEntries(batch);
      assert all[..|all| - 1] == timeline + LogEntries(batch[..k]);
      assert all[|all| - 1] == LogEntries(batch)[k];
      hide LogEntries;
      assert batch == batch[..k] + [batch[k]];
    }
  }

  lemma {:induction false} AppendMetrics(timeline: seq<Entry>, batch: seq<Emission<MetricPoint>>)
    ensures MetricsIn(timeline + MetricEntries(batch)) == MetricsIn(timeline) + batch
    ensures LogsIn(timeline + MetricEntries(batch)) == LogsIn(timeline)
    decreases |batch|
  {
    if batch == [] {
      assert timeline + MetricEntries(batch) == timeline;
    } else {
      var k := |batch| - 1;
      AppendMetrics(timeline, batch[..k]);
      var all := timeline + MetricEntries(batch);
      assert all[..|all| - 1] == timeline + MetricEntries(batch[..k]);
      assert all[|all| - 1] == MetricEntries(batch)[k];
      hide MetricEntries;
      assert batch == batch[..k] + [batch[k]];
    }
  }

  ghost predicate Safe(cfg: Config, s: System) {
    && Lockstep(s.logLane, s.logs.history, cfg.logSinks)
    && Lockstep(s.metricLane, s.metrics.history, cfg.metricSinks)
    && LogsIn(s.timeline) == s.logLane.shown
    && MetricsIn(s.timeline) == s.metricLane.shown
    && s.logs == L.After(cfg.logs, s.logPolls)
  }

  lemma LogTickAppends(cfg: L.Config, s: L.State, p: L.Poll)
    ensures L.Tick(cfg, s, p).history == s.history + LogBatch(cfg, s, p)
  {
    hide L.Emitted, Stamp, Prune;
    if p.response.None? { assert s.history + [] == s.history; }
  }

  lemma MetricTickAppends(cfg: M.Config, s: M.State, p: M.Poll)
    ensures M.Tick(cfg, s, p).history == s.history + MetricBatch(cfg, s, p)
  {
    hide M.Emitted, Stamp, Prune;
    if p.response.None? { assert s.history + [] == s.history; }
  }

  lemma PollExtendsRun(cfg: L.Config, polls: seq<L.Poll>, p: L.Poll)
    ensures L.After(cfg, polls + [p]) == L.Tick(cfg, L.After(cfg, polls), p)
  {
    hide L.Tick;
    assert (polls + [p])[..|polls|] == polls;
  }

  lemma StepKeepsSafe(cfg: Config, s: System, a: Action)
    requires Safe(cfg, s)
    ensures Safe(cfg, Step(cfg, s, a))
  {
    hide Lockstep, LogsIn, MetricsIn, L.Tick, M.Tick, L.After, LogBatch, MetricBatch;
    match a
    case LogPoll(p) =>
      if s.logLane.stage == Idle {
        LogTickAppends(cfg.logs, s.logs, p);
        BeginKeepsLockstep(s.logLane, s.logs.history, LogBatch(cfg.logs, s.logs, p), cfg.logSinks);
        PollExtendsRun(cfg.logs, s.logPolls, p);
      }
    case LogForward =>
      ForwardKeepsLockstep(s.logLane, s.logs.history, cfg.logSinks);
      AppendLogs(s.timeline, InFlight(s.logLane, ToTimeline));
      ShownGrows(s.logLane, cfg.logSinks);
    case MetricPoll(p) =>
      if s.metricLane.stage == Idle {
        MetricTickAppends(cfg.metrics, s.metrics, p);
        BeginKeepsLockstep(s.metricLane, s.metrics.history, MetricBatch(cfg.metrics, s.metrics, p), cfg.metricSinks);
      }
    case MetricForward =>
      ForwardKeepsLockstep(s.metricLane, s.metrics.history, cfg.metricSinks);
      AppendMetrics(s.timeline, InFlight(s.metricLane, ToTimeline));
      ShownGrows(s.metricLane, cfg.metricSinks);
    case Query =>
  }

  lemma ShownGrows<R>(lane: Lane<R>, sinks: Sinks)
    ensures Forward(lane, sinks).shown == lane.shown + InFlight(lane, ToTimeline)
  {
  }

  /** Every state of every interleaving is safe. */
  lemma {:induction false} EveryInterleavingIsSafe(cfg: Config, schedule: seq<Action>)
    ensures Safe(cfg, Run(cfg, schedule))
    decreases |schedule|
  {
    if schedule != [] {
      EveryInterleavingIsSafe(cfg, schedule[..|schedule| - 1]);
      hide Safe, Step;
      StepKeepsSafe(cfg, Run(cfg, schedule[..|schedule| - 1]), schedule[|schedule| - 1]);
    }
  }

  /** In every reachable state the signals handed to the store are a prefix of the ingestor's
      timeline entries, behind by at most the batch in flight; the archive is likewise a prefix
      of the store; and a bounded store holds the tail of what it was handed. */
  lemma DeliveredIsPrefix(cfg: Config, schedule: seq<Action>)
    ensures var s := Run(cfg, schedule);
      && s.logLane.archived <= s.logLane.stored <= LogsIn(s.timeline)
      && s.metricLane.archived <= s.metricLane.stored <= MetricsIn(s.timeline)
      && (LogsIn(s.timeline) == s.logLane.stored || LogsIn(s.timeline) == s.logLane.stored + s.logLane.batch)
      && (MetricsIn(s.timeline) == s.metricLane.stored || MetricsIn(s.timeline) == s.metricLane.stored + s.metricLane.batch)
    ensures var s := Run(cfg, schedule);
      && NewestKept(s.logLane.kept, cfg.logSinks.capacity, s.logLane.stored)
      && NewestKept(s.metricLane.kept, cfg.metricSinks.capacity, s.metricLane.stored)
  {
    EveryInterleavingIsSafe(cfg, schedule);
    var s := Run(cfg, schedule);
    LastIsKept(cfg.logSinks.capacity, s.logLane.stored);
    LastIsKept(cfg.metricSinks.capacity, s.metricLane.stored);
    hide Run, LogsIn, MetricsIn, Signals.Last, NewestKept;
  }

  // ---------- the ingestors do not interfere ----------

  /** Everything the log ingestor reads or writes apart from the shared timeline. */
  datatype LogView = LogView(state: L.State, lane: Lane<LogRecord>, polls: seq<L.Poll>, shown: seq<Emission<LogRecord>>)

  function ViewOf(s: System): LogView {
    LogView(s.logs, s.logLane, s.logPolls, LogsIn(s.timeline))
  }

  predicate IsLogAction(a: Action) {
    a.LogPoll? || a.LogForward?
  }

  function OnlyLogs(schedule: seq<Action>): seq<Action> {
    if schedule == [] then []
    else
      var before, a := OnlyLogs(schedule[..|schedule| - 1]), schedule[|schedule| - 1];
      if IsLogAction(a) then before + [a] else before
  }

  lemma ViewAfter(cfg: Config, s: System, t: System, a: Action)
    requires ViewOf(s) == ViewOf(t)
    ensures IsLogAction(a) ==> ViewOf(Step(cfg, s, a)) == ViewOf(Step(cfg, t, a))
    ensures !IsLogAction(a) ==> ViewOf(Step(cfg, s, a)) == ViewOf(t)
  {
    hide LogsIn, L.Tick, M.Tick, LogBatch, MetricBatch, Begin, Forward;
    if a.LogForward? {
      AppendLogs(s.timeline, InFlight(s.logLane, ToTimeline));
      AppendLogs(t.timeline, InFlight(t.logLane, ToTimeline));
    }
    if a.MetricForward? {
      AppendMetrics(s.timeline, InFlight(s.metricLane, ToTimeline));
    }
  }

  /** Interleaving the metric ingestor and queries changes nothing the log ingestor does: its
      state, its deliveries and its part of the timeline are those of its own steps alone. */
  lemma {:induction false} LogIngestorRunsAlone(cfg: Config, schedule: seq<Action>)
    ensures ViewOf(Run(cfg, schedule)) == ViewOf(Run(cfg, OnlyLogs(schedule)))
    decreases |schedule|
  {
    if schedule != [] {
      var before, a := schedule[..|schedule| - 1], schedule[|schedule| - 1];
      LogIngestorRunsAlone(cfg, before);
      ViewAfter(cfg, Run(cfg, before), Run(cfg, OnlyLogs(before)), a);
      hide Step, ViewOf, IsLogAction;
      assert (OnlyLogs(before) + [a])[..|OnlyLogs(before)|] == OnlyLogs(before);
    }
  }

  // ---------- exactly-once delivery survives interleaving ----------

  /** Whenever the log ingestor is between polls, under any interleaving, every covered record of
      a faithful backend is once in the shared timeline and once in the store. */
  lemma InterleavedExactlyOnce(cfg: Config, schedule: seq<Action>, backend: set<LogRecord>)
    requires var s := Run(cfg, schedule);
      && s.logLane.stage == Idle && L.ClockRuns(s.logPolls) && Faithful(cfg.logs, backend, s.logPolls)
      && DistinctIDs(cfg.logs, backend) && NoStalePoll(cfg.logs, Successes(s.logPolls))
    ensures var s := Run(cfg, schedule);
      forall r :: r in backend ==>
        var times := if Covered(cfg.logs, Successes(s.logPolls), r) then 1 else 0;
        && Count(LogsIn(s.timeline), L.EventID(cfg.logs, r)) == times
        && Count(s.logLane.stored, L.EventID(cfg.logs, r)) == times
  {
    var s := Run(cfg, schedule);
    EveryInterleavingIsSafe(cfg, schedule);
    ExactlyOnceDelivery(cfg.logs, backend, s.logPolls);
    assert s.logLane.shown == s.logs.history && s.logLane.stored == s.logs.history;
    hide Run, L.After, Faithful, NoStalePoll, Covered, Count, LogsIn, L.EventID;
  }
}

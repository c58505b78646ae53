/** The metric ingestor: a severity filter in front of the same pruned duplicate table. */
module MetricsIngestion {
  import opened GoTime
  import opened Text
  import opened Telemetry
  import opened SeenTable
  import Timeline
  import RuntimeConfig

  /** `eventID` is the digest of a point's identifying fields, `describe` its display fields. */
  datatype Config = Config(
    collectWindow: int,
    utilizationWarn: real,
    utilizationError: real,
    eventID: MetricPoint -> string,
    describe: (MetricPoint, Severity) -> string)

  datatype Severity = Warning | Error

  function Window(cfg: Config): (w: int)
    ensures w > 0 && (cfg.collectWindow > 0 ==> w == cfg.collectWindow) && (cfg.collectWindow <= 0 ==> w == 5 * MINUTE)
  {
    RuntimeConfig.Window(cfg.collectWindow)
  }

  function WarnThreshold(cfg: Config): (t: real)
    ensures t > 0.0 && (cfg.utilizationWarn > 0.0 ==> t == cfg.utilizationWarn) && (cfg.utilizationWarn <= 0.0 ==> t == 70.0)
  {
    RuntimeConfig.WarnThreshold(cfg.utilizationWarn)
  }

  function ErrorThreshold(cfg: Config): (t: real)
    ensures t > 0.0 && (cfg.utilizationError > 0.0 ==> t == cfg.utilizationError) && (cfg.utilizationError <= 0.0 ==> t == 90.0)
  {
    RuntimeConfig.ErrorThreshold(cfg.utilizationError)
  }

  /** The metrics that alert at all. */
  predicate IsUtilization(p: MetricPoint) {
    var metric := ToLower(TrimSpace(p.metricName));
    metric == "cpuutilization" || metric == "memoryutilization"
  }

  /** `metricSeverity`: `None` is "do not emit". */
  function MetricSeverity(p: MetricPoint, cfg: Config): Option<Severity> {
    if !IsUtilization(p) then None
    else if p.value >= ErrorThreshold(cfg) then Some(Error)
    else if p.value >= WarnThreshold(cfg) then Some(Warning)
    else None
  }

  predicate Alerts(p: MetricPoint, cfg: Config) {
    MetricSeverity(p, cfg).Some?
  }

  // ---------- one poll as a state transformer ----------

  /** `pruned` is the clock of the last successful poll; the ingestor does not store it. */
  datatype State = State(lastEnd: Time, pruned: Time, seen: Seen, history: seq<Emission<MetricPoint>>)

  datatype Poll = Poll(clock: Time, response: Option<seq<MetricPoint>>)

  const INITIAL: State := State(ZERO_TIME, ZERO_TIME, map[], [])

  /** The alerting points of a batch with their ids, in order. */
  function Alerting(cfg: Config, points: seq<MetricPoint>): seq<Tagged<MetricPoint>> {
    if points == [] then []
    else
      var p := points[|points| - 1];
      Alerting(cfg, points[..|points| - 1]) + (if Alerts(p, cfg) then [Tagged(cfg.eventID(p), p)] else [])
  }

  lemma AlertingNothing(cfg: Config)
    ensures Alerting(cfg, []) == []
  {
  }

  lemma AlertingStep(cfg: Config, points: seq<MetricPoint>, k: int)
    requires 0 <= k < |points|
    ensures Alerting(cfg, points[..k + 1])
      == if Alerts(points[k], cfg) then Alerting(cfg, points[..k]) + [Tagged(cfg.eventID(points[k]), points[k])]
         else Alerting(cfg, points[..k])
  {
    hide Alerts;
    assert points[..k + 1][..k] == points[..k];
  }

  function Cutoff(cfg: Config, clock: Time): Time {
    clock - Retention(Window(cfg))
  }

  ghost function Emitted(cfg: Config, s: State, clock: Time, points: seq<MetricPoint>): seq<Tagged<MetricPoint>> {
    Fresh(Alerting(cfg, points), Prune(s.seen, Cutoff(cfg, clock)))
  }

  ghost function Tick(cfg: Config, s: State, p: Poll): State {
    match p.response
    case None => s
    case Some(points) =>
      var batch := Emitted(cfg, s, p.clock, points);
      State(if batch == [] then s.lastEnd else p.clock, p.clock,
            Stamp(Prune(s.seen, Cutoff(cfg, p.clock)), batch, p.clock), s.history + Emit(batch, p.clock))
  }

  ghost function After(cfg: Config, polls: seq<Poll>): State {
    if polls == [] then INITIAL
    else Tick(cfg, After(cfg, polls[..|polls| - 1]), polls[|polls| - 1])
  }

  function EventOf(cfg: Config, e: Emission<MetricPoint>): Event {
    Event(e.id, if e.item.timestamp == ZERO_TIME then e.at else e.item.timestamp,
          match MetricSeverity(e.item, cfg) case Some(s) => cfg.describe(e.item, s) case None => "")
  }

  function EventsOf(cfg: Config, h: seq<Emission<MetricPoint>>): (es: seq<Event>)
    ensures |es| == |h| && forall i :: 0 <= i < |h| ==> es[i] == EventOf(cfg, h[i])
  {
    seq(|h|, i requires 0 <= i < |h| => EventOf(cfg, h[i]))
  }

  function ItemsOf(h: seq<Emission<MetricPoint>>): (ps: seq<MetricPoint>)
    ensures |ps| == |h| && forall i :: 0 <= i < |h| ==> ps[i] == h[i].item
  {
    seq(|h|, i requires 0 <= i < |h| => h[i].item)
  }

  lemma EmitStep(cfg: Config, batch: seq<Tagged<MetricPoint>>, t: Tagged<MetricPoint>, at: Time)
    ensures ItemsOf(Emit(batch + [t], at)) == ItemsOf(Emit(batch, at)) + [t.item]
    ensures EventsOf(cfg, Emit(batch + [t], at)) == EventsOf(cfg, Emit(batch, at)) + [EventOf(cfg, Emission(at, t.id, t.item))]
  {
    hide EventOf, Cutoff;
  }

  // ---------- the ingestor ----------

  class MetricPointSink {
    var received: seq<MetricPoint>

    method AddMetricPoints(points: seq<MetricPoint>)
      modifies this
      ensures received == old(received) + points
    {
      received := received + points;
    }
  }

  class MetricsTimelineIngestor {
    const cfg: Config
    const timeline: Timeline.InMemoryService
    const metricSink: MetricPointSink?
    var lastEnd: Time
    var seenIDs: Seen
    ghost var pruned: Time
    ghost var history: seq<Emission<MetricPoint>>

    constructor (cfg: Config, timeline: Timeline.InMemoryService, metricSink: MetricPointSink?)
      ensures this.cfg == cfg && this.timeline == timeline && this.metricSink == metricSink
      ensures Current() == INITIAL
    {
      this.cfg, this.timeline, this.metricSink := cfg, timeline, metricSink;
      lastEnd, seenIDs, pruned, history := ZERO_TIME, map[], ZERO_TIME, [];
    }

    ghost function Current(): State
      reads this
    {
      State(lastEnd, pruned, seenIDs, history)
    }

    method PruneSeen(now: Time)
      modifies this`seenIDs
      ensures seenIDs == Prune(old(seenIDs), Cutoff(cfg, now))
      ensures 6 * Window(cfg) <= MAX_INT64 ==> forall id :: id in seenIDs <==>
        id in old(seenIDs) && old(seenIDs)[id] >= now - Max(6 * Window(cfg), 30 * MINUTE)
    {
      var retention := Wrap64(Window(cfg) * 6);
      if retention < MIN_SEEN_RETENTION {
        retention := MIN_SEEN_RETENTION;
      }
      var cutoff := now - retention;
      var unvisited := seenIDs.Keys;
      while unvisited != {}
        invariant unvisited <= seenIDs.Keys <= old(seenIDs).Keys
        invariant forall id :: id in seenIDs ==> seenIDs[id] == old(seenIDs)[id]
        invariant forall id :: id in old(seenIDs) && id !in unvisited ==>
          (id in seenIDs <==> !(old(seenIDs)[id] < cutoff))
        decreases unvisited
      {
        var eventID :| eventID in unvisited;
        unvisited := unvisited - {eventID};
        if seenIDs[eventID] < cutoff {
          seenIDs := seenIDs - {eventID};
        }
      }
    }

    /** The loop over a fetched batch. */
    method Absorb(points: seq<MetricPoint>, now: Time)
        returns (added: seq<MetricPoint>, events: seq<Event>, ghost batch: seq<Tagged<MetricPoint>>)
      modifies this`seenIDs
      ensures batch == Fresh(Alerting(cfg, points), old(seenIDs))
      ensures seenIDs == Stamp(old(seenIDs), batch, now)
      ensures added == ItemsOf(Emit(batch, now)) && events == EventsOf(cfg, Emit(batch, now))
    {
      hide MetricSeverity, Fresh, Stamp, Alerting;
      FreshOfNothing<MetricPoint>(seenIDs, now);
      assert Alerting(cfg, []) == [] by { AlertingNothing(cfg); }
      added, events, batch := [], [], [];
      for k := 0 to |points|
        invariant batch == Fresh(Alerting(cfg, points[..k]), old(seenIDs))
        invariant seenIDs == Stamp(old(seenIDs), batch, now)
        invariant added == ItemsOf(Emit(batch, now)) && events == EventsOf(cfg, Emit(batch, now))
      {
        var point := points[k];
        AlertingStep(cfg, points, k);
        var severity := MetricSeverity(point, cfg);
        if severity.None? {
          continue;
        }
        var id := cfg.eventID(point);
        FreshAppend(Alerting(cfg, points[..k]), Tagged(id, point), old(seenIDs), now);
        if id in seenIDs {
          continue;
        }
        EmitStep(cfg, batch, Tagged(id, point), now);
        seenIDs := seenIDs[id := now];
        added := added + [point];
        var timestamp := point.timestamp;
        if timestamp == ZERO_TIME {
          timestamp := now;
        }
        events := events + [Event(id, timestamp, cfg.describe(point, severity.value))];
        batch := batch + [Tagged(id, point)];
      }
      assert points[..|points|] == points;
    }

    /** The dedupe half of a successful poll: prune, then absorb the batch. */
    method Advance(now: Time, points: seq<MetricPoint>)
        returns (added: seq<MetricPoint>, events: seq<Event>, ghost emitted: seq<Emission<MetricPoint>>)
      modifies this`seenIDs, this`pruned, this`history
      ensures Tick(cfg, old(Current()), Poll(now, Some(points)))
        == State(if events == [] then lastEnd else now, pruned, seenIDs, history)
      ensures history == old(history) + emitted
      ensures added == ItemsOf(emitted) && events == EventsOf(cfg, emitted)
    {
      TickOf(cfg, Current(), now, points);
      hide Fresh, Stamp, Prune, Alerting, Tick, EventOf, Cutoff;
      pruned := now;
      PruneSeen(now);
      ghost var batch;
      added, events, batch := Absorb(points, now);
      emitted := Emit(batch, now);
      history := history + emitted;
    }

    /** One poll of the last window; `now` is read after the collection. An error changes nothing. */
    method IngestOnce(collect: int -> Option<seq<MetricPoint>>, now: Time)
        returns (ok: bool, ghost emitted: seq<Emission<MetricPoint>>)
      modifies this, timeline, metricSink
      ensures var response := collect(Window(cfg));
        ok == response.Some? && Current() == Tick(cfg, old(Current()), Poll(now, response))
      ensures lastEnd == if emitted == [] then old(lastEnd) else now
      ensures history == old(history) + emitted
      ensures timeline.events == old(timeline.events) + EventsOf(cfg, emitted)
      ensures metricSink != null ==> metricSink.received == old(metricSink.received) + ItemsOf(emitted)
    {
      hide Fresh, Stamp, Prune, Alerting, EventOf, Emitted;
      emitted := [];
      var response := collect(Window(cfg));
      if response.None? {
        return false, [];
      }
      hide Tick;
      ok := true;
      var added, events := [], [];
      added, events, emitted := Advance(now, response.value);
      if |events| == 0 {
        return;
      }
      timeline.AddEvents(events);
      if metricSink != null {
        metricSink.AddMetricPoints(added);
      }
      lastEnd := now;
    }
  }

  lemma TickOf(cfg: Config, s: State, clock: Time, points: seq<MetricPoint>)
    ensures var kept := Prune(s.seen, Cutoff(cfg, clock));
      var batch := Fresh(Alerting(cfg, points), kept);
      Tick(cfg, s, Poll(clock, Some(points)))
        == State(if batch == [] then s.lastEnd else clock, clock, Stamp(kept, batch, clock), s.history + Emit(batch, clock))
  {
    hide Fresh, Stamp, Prune, Alerting;
  }

  // ---------- the table is exact ----------

  ghost predicate ClockRuns(polls: seq<Poll>) {
    forall i, j :: 0 <= i < j < |polls| ==> polls[i].clock <= polls[j].clock
  }

  ghost predicate TableExact(cfg: Config, s: State) {
    && Chronological(s.history)
    && (forall i :: 0 <= i < |s.history| ==> s.history[i].at <= s.pruned && Alerts(s.history[i].item, cfg))
    && s.seen == Recent(s.history, Cutoff(cfg, s.pruned))
  }

  lemma {:induction false} AlertingAlerts(cfg: Config, points: seq<MetricPoint>)
    ensures forall t :: t in Alerting(cfg, points) ==>
      Alerts(t.item, cfg) && t.id == cfg.eventID(t.item) && t.item in points
    decreases |points|
  {
    hide Alerts;
    if points != [] {
      var k := |points| - 1;
      AlertingAlerts(cfg, points[..k]);
      assert points == points[..k] + [points[k]];
    }
  }

  lemma TickKeepsTableExact(cfg: Config, s: State, p: Poll)
    requires TableExact(cfg, s) && (s.history == [] || s.pruned <= p.clock)
    ensures TableExact(cfg, Tick(cfg, s, p))
    ensures p.response.Some? ==> Prune(s.seen, Cutoff(cfg, p.clock)) == Recent(s.history, Cutoff(cfg, p.clock))
  {
    hide Recent, Prune, Stamp, LastEmission, Fresh, Retention, Alerts, Alerting;
    if p.response.Some? {
      var batch := Emitted(cfg, s, p.clock, p.response.value);
      var before := if s.history == [] then Cutoff(cfg, p.clock) else Cutoff(cfg, s.pruned);
      NothingRecent<MetricPoint>(Cutoff(cfg, s.pruned));
      NothingRecent<MetricPoint>(before);
      TableTracksHistory(s.history, before, Cutoff(cfg, p.clock), batch, p.clock);
      AlertingAlerts(cfg, p.response.value);
      forall i | 0 <= i < |batch| ensures Alerts(batch[i].item, cfg) {
        FreshIds(Alerting(cfg, p.response.value), Prune(s.seen, Cutoff(cfg, p.clock)), batch[i].id);
        assert batch[i] in batch;
      }
    }
  }

  /** The severity filter changes nothing about the table: after every run it is the history of
      alerting points cut off at the retention before the last successful poll. */
  lemma {:induction false} RunKeepsTableExact(cfg: Config, polls: seq<Poll>)
    requires ClockRuns(polls)
    ensures TableExact(cfg, After(cfg, polls))
    ensures polls != [] && After(cfg, polls).history != [] ==> After(cfg, polls).pruned <= polls[|polls| - 1].clock
    decreases |polls|
  {
    if polls != [] {
      hide TableExact;
      var k := |polls| - 1;
      RunKeepsTableExact(cfg, polls[..k]);
      TickKeepsTableExact(cfg, After(cfg, polls[..k]), polls[k]);
    }
  }

  /** Every event of every run is a CPU or memory utilization at or above the warning threshold, and
      says "error" at or above the error threshold and "warning" below it. */
  lemma EventsSaySeverity(cfg: Config, polls: seq<Poll>, i: nat)
    requires ClockRuns(polls) && i < |After(cfg, polls).history|
    ensures var e, shown := After(cfg, polls).history[i], EventsOf(cfg, After(cfg, polls).history)[i];
      var p, metric := e.item, ToLower(TrimSpace(e.item.metricName));
      && (metric == "cpuutilization" || metric == "memoryutilization")
      && (p.value >= ErrorThreshold(cfg) || p.value >= WarnThreshold(cfg))
      && shown.id == e.id && shown.timestamp == (if p.timestamp != ZERO_TIME then p.timestamp else e.at)
      && (p.value >= ErrorThreshold(cfg) ==> shown.detail == cfg.describe(p, Error))
      && (p.value < ErrorThreshold(cfg) ==> shown.detail == cfg.describe(p, Warning))
  {
    RunKeepsTableExact(cfg, polls);
    hide After, Recent, ToLower, TrimSpace, WarnThreshold, ErrorThreshold;
  }

  /** And no such point is left out for its value or its name. */
  lemma AlertsIff(p: MetricPoint, cfg: Config)
    ensures Alerts(p, cfg) <==>
      && ToLower(TrimSpace(p.metricName)) in {"cpuutilization", "memoryutilization"}
      && (p.value >= WarnThreshold(cfg) || p.value >= ErrorThreshold(cfg))
  {
    hide ToLower, TrimSpace, WarnThreshold, ErrorThreshold;
  }

  /** What that means for an id: it is kept while some emission of it is at most six windows, or half
      an hour, older than the last successful poll. */
  lemma TableHoldsIff(cfg: Config, polls: seq<Poll>, id: string)
    requires ClockRuns(polls) && 6 * Window(cfg) <= MAX_INT64
    ensures var s := After(cfg, polls);
      id in s.seen <==> exists i :: 0 <= i < |s.history| && s.history[i].id == id
                                    && s.history[i].at >= s.pruned - Max(6 * Window(cfg), 30 * MINUTE)
  {
    var s := After(cfg, polls);
    RunKeepsTableExact(cfg, polls);
    hide After, Recent, Window, Alerts;
    RecentDecides(s.history, id, Cutoff(cfg, s.pruned));
  }

  /** A fetched point is emitted exactly when it alerts, the full history holds no emission of its
      id since the cutoff, and it is the first alerting point with its id in the batch. */
  lemma PrunedTableDecides(cfg: Config, polls: seq<Poll>, clock: Time, points: seq<MetricPoint>, i: int)
    requires ClockRuns(polls + [Poll(clock, Some(points))])
    requires 0 <= i < |Alerting(cfg, points)|
    ensures var items := Alerting(cfg, points);
      Novel(items, i, Prune(After(cfg, polls).seen, Cutoff(cfg, clock)))
      <==> !EmittedSince(After(cfg, polls).history, items[i].id, Cutoff(cfg, clock))
           && forall j :: 0 <= j < i ==> items[j].id != items[i].id
  {
    var run := polls + [Poll(clock, Some(points))];
    assert forall i :: 0 <= i < |polls| ==> run[i] == polls[i];
    RunKeepsTableExact(cfg, polls);
    var s := After(cfg, polls);
    if polls != [] { assert run[|polls| - 1].clock <= run[|polls|].clock; }
    TickKeepsTableExact(cfg, s, Poll(clock, Some(points)));
    RecentDecides(s.history, Alerting(cfg, points)[i].id, Cutoff(cfg, clock));
  }
}

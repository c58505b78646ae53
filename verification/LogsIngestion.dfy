/** The log ingestor: poll windows, duplicate filter, failure atomicity. */
module LogsIngestion {
  import opened GoTime
  import opened Text
  import opened Telemetry
  import opened SeenTable
  import Timeline
  import RuntimeConfig

  /** `digest` is the hex prefix of SHA-1, `formatTime` is RFC 3339 and `describe` the display
      fields of an event; nothing below depends on what they compute. */
  datatype Config = Config(
    collectWindow: int,
    digest: string -> string,
    formatTime: Time -> string,
    describe: LogRecord -> string)

  function Window(cfg: Config): (w: int)
    ensures w > 0 && (cfg.collectWindow > 0 ==> w == cfg.collectWindow) && (cfg.collectWindow <= 0 ==> w == 5 * MINUTE)
  {
    RuntimeConfig.Window(cfg.collectWindow)
  }

  function EventID(cfg: Config, r: LogRecord): string {
    var id := TrimSpace(r.eventID);
    if id != "" then id
    else "cwlog-" + cfg.digest(Join([r.logGroupName, r.logStreamName,
                                     cfg.formatTime(r.timestamp), cfg.formatTime(r.ingestionTime), r.message], '|'))
  }

  function EventTimestamp(r: LogRecord, fallback: Time): Time {
    if r.timestamp != ZERO_TIME then r.timestamp
    else if r.ingestionTime != ZERO_TIME then r.ingestionTime
    else fallback
  }

  // ---------- one poll as a state transformer ----------

  datatype State = State(lastEnd: Time, seen: Seen, history: seq<Emission<LogRecord>>)

  /** A clock reading and what `Collect` answered; `None` is an error. */
  datatype Poll = Poll(clock: Time, response: Option<seq<LogRecord>>)

  const INITIAL: State := State(ZERO_TIME, map[], [])

  /** Where the window of a poll at `end` starts. */
  function WindowStart(cfg: Config, lastEnd: Time, end: Time): Time {
    if lastEnd == ZERO_TIME || !(lastEnd < end) then end - Window(cfg) else lastEnd
  }

  function Tag(cfg: Config, records: seq<LogRecord>): (items: seq<Tagged<LogRecord>>)
    ensures |items| == |records|
    ensures forall i :: 0 <= i < |items| ==> items[i] == Tagged(EventID(cfg, records[i]), records[i])
  {
    seq(|records|, i requires 0 <= i < |records| => Tagged(EventID(cfg, records[i]), records[i]))
  }

  function Cutoff(cfg: Config, clock: Time): Time {
    clock - Retention(Window(cfg))
  }

  ghost function Emitted(cfg: Config, s: State, clock: Time, records: seq<LogRecord>): seq<Tagged<LogRecord>> {
    Fresh(Tag(cfg, records), Prune(s.seen, Cutoff(cfg, clock)))
  }

  ghost function Tick(cfg: Config, s: State, p: Poll): State {
    match p.response
    case None => s
    case Some(records) =>
      var batch := Emitted(cfg, s, p.clock, records);
      State(p.clock, Stamp(Prune(s.seen, Cutoff(cfg, p.clock)), batch, p.clock), s.history + Emit(batch, p.clock))
  }

  /** The state after a whole run of polls. */
  ghost function After(cfg: Config, polls: seq<Poll>): State {
    if polls == [] then INITIAL
    else Tick(cfg, After(cfg, polls[..|polls| - 1]), polls[|polls| - 1])
  }

  function EventOf(cfg: Config, e: Emission<LogRecord>): Event {
    Event(e.id, EventTimestamp(e.item, e.at), cfg.describe(e.item))
  }

  /** The timeline entries an emission history produces. */
  function EventsOf(cfg: Config, h: seq<Emission<LogRecord>>): (es: seq<Event>)
    ensures |es| == |h|
    ensures forall i :: 0 <= i < |h| ==> es[i] == EventOf(cfg, h[i])
  {
    seq(|h|, i requires 0 <= i < |h| => EventOf(cfg, h[i]))
  }

  function ItemsOf(h: seq<Emission<LogRecord>>): (rs: seq<LogRecord>)
    ensures |rs| == |h|
    ensures forall i :: 0 <= i < |h| ==> rs[i] == h[i].item
  {
    seq(|h|, i requires 0 <= i < |h| => h[i].item)
  }

  lemma EmitStep(cfg: Config, batch: seq<Tagged<LogRecord>>, t: Tagged<LogRecord>, at: Time)
    ensures ItemsOf(Emit(batch + [t], at)) == ItemsOf(Emit(batch, at)) + [t.item]
    ensures EventsOf(cfg, Emit(batch + [t], at)) == EventsOf(cfg, Emit(batch, at)) + [EventOf(cfg, Emission(at, t.id, t.item))]
  {
    hide EventOf;
  }

  // ---------- what an event says of its record ----------

  /** Records with an event id are one event exactly when their trimmed ids agree. */
  lemma TrimmedIDsDecide(cfg: Config, r: LogRecord, q: LogRecord)
    requires TrimSpace(r.eventID) != "" && TrimSpace(q.eventID) != ""
    ensures EventID(cfg, r) == EventID(cfg, q) <==> TrimSpace(r.eventID) == TrimSpace(q.eventID)
  {
    hide TrimSpace;
  }

  /** The digest and the formatting lose nothing, and bars are only in messages. */
  ghost predicate Discerning(cfg: Config) {
    && (forall a, b :: cfg.digest(a) == cfg.digest(b) ==> a == b)
    && (forall t, u :: cfg.formatTime(t) == cfg.formatTime(u) ==> t == u)
    && (forall t :: '|' !in cfg.formatTime(t))
  }

  predicate Barless(r: LogRecord) {
    '|' !in r.logGroupName && '|' !in r.logStreamName
  }

  /** Records without one are one event exactly when group, stream, both instants and message agree. */
  lemma DigestedFieldsDecide(cfg: Config, r: LogRecord, q: LogRecord)
    requires TrimSpace(r.eventID) == "" && TrimSpace(q.eventID) == "" && Discerning(cfg) && Barless(r) && Barless(q)
    ensures EventID(cfg, r) == EventID(cfg, q)
      <==> r.logGroupName == q.logGroupName && r.logStreamName == q.logStreamName
           && r.timestamp == q.timestamp && r.ingestionTime == q.ingestionTime && r.message == q.message
  {
    var a := [r.logGroupName, r.logStreamName, cfg.formatTime(r.timestamp), cfg.formatTime(r.ingestionTime), r.message];
    var b := [q.logGroupName, q.logStreamName, cfg.formatTime(q.timestamp), cfg.formatTime(q.ingestionTime), q.message];
    JoinDetermines(a, b, '|');
    hide TrimSpace, Join;
    assert a == b <==> a[0] == b[0] && a[1] == b[1] && a[2] == b[2] && a[3] == b[3] && a[4] == b[4];
    var x, y := cfg.digest(Join(a, '|')), cfg.digest(Join(b, '|'));
    assert x == ("cwlog-" + x)[6..] && y == ("cwlog-" + y)[6..];
  }

  /** An emitted event stands at its record's instant, else at its ingestion, else at the poll. */
  lemma EventInstant(cfg: Config, h: seq<Emission<LogRecord>>, i: nat)
    requires i < |h|
    ensures var r, e := h[i].item, EventsOf(cfg, h)[i];
      && e.id == h[i].id && e.detail == cfg.describe(r)
      && (r.timestamp != ZERO_TIME ==> e.timestamp == r.timestamp)
      && (r.timestamp == ZERO_TIME != r.ingestionTime ==> e.timestamp == r.ingestionTime)
      && (r.timestamp == r.ingestionTime == ZERO_TIME ==> e.timestamp == h[i].at)
  {
  }

  // ---------- the ingestor ----------

  class LogRecordSink {
    var received: seq<LogRecord>

    method AddLogRecords(records: seq<LogRecord>)
      modifies this
      ensures received == old(received) + records
    {
      received := received + records;
    }
  }

  class LogsTimelineIngestor {
    const cfg: Config
    const timeline: Timeline.InMemoryService
    const logSink: LogRecordSink?
    var lastEnd: Time
    var seenIDs: Seen
    ghost var history: seq<Emission<LogRecord>>

    constructor (cfg: Config, timeline: Timeline.InMemoryService, logSink: LogRecordSink?)
      ensures this.cfg == cfg && this.timeline == timeline && this.logSink == logSink
      ensures Current() == INITIAL
    {
      this.cfg, this.timeline, this.logSink := cfg, timeline, logSink;
      lastEnd, seenIDs, history := ZERO_TIME, map[], [];
    }

    ghost function Current(): State
      reads this
    {
      State(lastEnd, seenIDs, history)
    }

    method PruneSeen(now: Time)
      modifies this`seenIDs
      ensures seenIDs == Prune(old(seenIDs), Cutoff(cfg, now))
      ensures 6 * Window(cfg) <= MAX_INT64 ==> forall id :: id in seenIDs <==>
        id in old(seenIDs) && old(seenIDs)[id] >= now - Max(6 * Window(cfg), 30 * MINUTE)
    {
      var retention := Wrap64(Window(cfg) * 6);
      if retention < MIN_SEEN_RETENTION {
        retention := MIN_SEEN_RETENTION;
      }
      var cutoff := now - retention;
      var unvisited := seenIDs.Keys;
      while unvisited != {}
        invariant unvisited <= seenIDs.Keys <= old(seenIDs).Keys
        invariant forall id :: id in seenIDs ==> seenIDs[id] == old(seenIDs)[id]
        invariant forall id :: id in old(seenIDs) && id !in unvisited ==>
          (id in seenIDs <==> !(old(seenIDs)[id] < cutoff))
        decreases unvisited
      {
        var eventID :| eventID in unvisited;
        unvisited := unvisited - {eventID};
        if seenIDs[eventID] < cutoff {
          seenIDs := seenIDs - {eventID};
        }
      }
    }

    /** The loop over a fetched batch: drop the ids in the table, stamp and keep the others. */
    method Absorb(records: seq<LogRecord>, end: Time) returns (added: seq<LogRecord>, events: seq<Event>, ghost batch: seq<Tagged<LogRecord>>)
      modifies this`seenIDs
      ensures batch == Fresh(Tag(cfg, records), old(seenIDs))
      ensures seenIDs == Stamp(old(seenIDs), batch, end)
      ensures added == ItemsOf(Emit(batch, end)) && events == EventsOf(cfg, Emit(batch, end))
    {
      added, events, batch := [], [], [];
      ghost var items := Tag(cfg, records);
      for k := 0 to |records|
        invariant batch == Fresh(items[..k], old(seenIDs))
        invariant seenIDs == Stamp(old(seenIDs), batch, end)
        invariant added == ItemsOf(Emit(batch, end)) && events == EventsOf(cfg, Emit(batch, end))
      {
        var record := records[k];
        var id := EventID(cfg, record);
        FreshStep(items, k, old(seenIDs), end);
        if id in seenIDs {
          continue;
        }
        EmitStep(cfg, batch, items[k], end);
        seenIDs := seenIDs[id := end];
        added := added + [record];
        events := events + [Event(id, EventTimestamp(record, end), cfg.describe(record))];
        batch := batch + [items[k]];
      }
      assert items[..|records|] == items;
    }

    /** The dedupe half of a successful poll: advance the window, prune, absorb the batch. */
    method Advance(end: Time, records: seq<LogRecord>)
        returns (added: seq<LogRecord>, events: seq<Event>, ghost emitted: seq<Emission<LogRecord>>)
      modifies this`lastEnd, this`seenIDs, this`history
      ensures Tick(cfg, old(Current()), Poll(end, Some(records))) == Current()
      ensures history == old(history) + emitted
      ensures added == ItemsOf(emitted) && events == EventsOf(cfg, emitted)
    {
      TickOf(cfg, Current(), end, records);
      hide Fresh, Stamp, Prune, Tick, EventOf, Cutoff;
      lastEnd := end;
      PruneSeen(end);
      ghost var batch;
      added, events, batch := Absorb(records, end);
      emitted := Emit(batch, end);
      history := history + emitted;
    }

    /** One poll of the window since the last success. An error changes nothing; a success advances
        the window, the table, the timeline and the sink together. */
    method IngestOnce(end: Time, collect: (Time, Time) -> Option<seq<LogRecord>>)
        returns (ok: bool, ghost emitted: seq<Emission<LogRecord>>)
      modifies this, timeline, logSink
      ensures var start := WindowStart(cfg, old(lastEnd), end);
        var response := collect(start, end);
        && start == (if ZERO_TIME != old(lastEnd) < end then old(lastEnd) else end - Window(cfg))
        && ok == response.Some? && Current() == Tick(cfg, old(Current()), Poll(end, response))
      ensures history == old(history) + emitted
      ensures timeline.events == old(timeline.events) + EventsOf(cfg, emitted)
      ensures logSink != null ==> logSink.received == old(logSink.received) + ItemsOf(emitted)
    {
      hide Fresh, Stamp, Prune, EventOf, Emitted;
      emitted := [];
      var start := lastEnd;
      if start == ZERO_TIME || !(start < end) {
        start := end - Window(cfg);
      }
      var response := collect(start, end);
      if response.None? {
        return false, [];
      }
      hide Tick;
      ok := true;
      var added, events := [], [];
      added, events, emitted := Advance(end, response.value);
      if |events| == 0 {
        return;
      }
      timeline.AddEvents(events);
      if logSink != null {
        logSink.AddLogRecords(added);
      }
    }
  }

  lemma TickOf(cfg: Config, s: State, clock: Time, records: seq<LogRecord>)
    ensures var kept := Prune(s.seen, Cutoff(cfg, clock));
      var batch := Fresh(Tag(cfg, records), kept);
      Tick(cfg, s, Poll(clock, Some(records))) == State(clock, Stamp(kept, batch, clock), s.history + Emit(batch, clock))
  {
    hide Fresh, Stamp, Prune;
  }

  // ---------- the table is exact ----------

  /** The wall clock never steps back, and is never read as the zero instant. */
  ghost predicate ClockRuns(polls: seq<Poll>) {
    && (forall i :: 0 <= i < |polls| ==> polls[i].clock != ZERO_TIME)
    && (forall i, j :: 0 <= i < j < |polls| ==> polls[i].clock <= polls[j].clock)
  }

  ghost predicate TableExact(cfg: Config, s: State) {
    && Chronological(s.history)
    && (forall i :: 0 <= i < |s.history| ==> s.history[i].at <= s.lastEnd)
    && s.seen == Recent(s.history, Cutoff(cfg, s.lastEnd))
  }

  lemma TickKeepsTableExact(cfg: Config, s: State, p: Poll)
    requires TableExact(cfg, s) && (s.history == [] || s.lastEnd <= p.clock)
    ensures TableExact(cfg, Tick(cfg, s, p))
    ensures p.response.Some? ==> Prune(s.seen, Cutoff(cfg, p.clock)) == Recent(s.history, Cutoff(cfg, p.clock))
  {
    hide Recent, Prune, Stamp, LastEmission, Fresh, Retention;
    if p.response.Some? {
      var batch := Emitted(cfg, s, p.clock, p.response.value);
      var before := if s.history == [] then Cutoff(cfg, p.clock) else Cutoff(cfg, s.lastEnd);
      NothingRecent<LogRecord>(Cutoff(cfg, s.lastEnd));
      NothingRecent<LogRecord>(before);
      TableTracksHistory(s.history, before, Cutoff(cfg, p.clock), batch, p.clock);
    }
  }

  /** After every run the pruned table is the history cut off at `lastEnd - retention`. */
  lemma {:induction false} RunKeepsTableExact(cfg: Config, polls: seq<Poll>)
    requires ClockRuns(polls)
    ensures TableExact(cfg, After(cfg, polls))
    ensures polls != [] && After(cfg, polls).history != [] ==> After(cfg, polls).lastEnd <= polls[|polls| - 1].clock
    decreases |polls|
  {
    if polls != [] {
      hide TableExact;
      var k := |polls| - 1;
      RunKeepsTableExact(cfg, polls[..k]);
      TickKeepsTableExact(cfg, After(cfg, polls[..k]), polls[k]);
    }
  }

  /** What that means for an id: it is kept while some emission of it is at most six windows, or half
      an hour, older than the last success. */
  lemma TableHoldsIff(cfg: Config, polls: seq<Poll>, id: string)
    requires ClockRuns(polls) && 6 * Window(cfg) <= MAX_INT64
    ensures var s := After(cfg, polls);
      id in s.seen <==> exists i :: 0 <= i < |s.history| && s.history[i].id == id
                                    && s.history[i].at >= s.lastEnd - Max(6 * Window(cfg), 30 * MINUTE)
  {
    var s := After(cfg, polls);
    RunKeepsTableExact(cfg, polls);
    hide After, Recent, Window;
    RecentDecides(s.history, id, Cutoff(cfg, s.lastEnd));
  }

  /** A run that can go on with a poll leaves an exact table no later than the poll. */
  lemma ReadyForPoll(cfg: Config, polls: seq<Poll>, p: Poll)
    requires ClockRuns(polls + [p])
    ensures var s := After(cfg, polls); TableExact(cfg, s) && (s.history == [] || s.lastEnd <= p.clock)
  {
    hide TableExact, After;
    var run := polls + [p];
    assert forall i :: 0 <= i < |polls| ==> run[i] == polls[i];
    RunKeepsTableExact(cfg, polls);
    assert polls != [] ==> run[|polls| - 1].clock <= run[|polls|].clock;
    EmptyRun(cfg);
  }

  lemma EmptyRun(cfg: Config)
    ensures After(cfg, []).history == []
  {
  }

  /** On a live run a fetched record is emitted exactly when the full history holds no
      emission of its id since `end - retention` and it comes first in its batch. */
  lemma PrunedTableDecides(cfg: Config, polls: seq<Poll>, clock: Time, records: seq<LogRecord>, i: int)
    requires ClockRuns(polls + [Poll(clock, Some(records))]) && 0 <= i < |records|
    ensures Novel(Tag(cfg, records), i, Prune(After(cfg, polls).seen, Cutoff(cfg, clock)))
      <==> !EmittedSince(After(cfg, polls).history, EventID(cfg, records[i]), Cutoff(cfg, clock))
           && forall j :: 0 <= j < i ==> EventID(cfg, records[j]) != EventID(cfg, records[i])
  {
    var s := After(cfg, polls);
    hide After, Prune, Recent, Cutoff, EventID, EmittedSince, Tick;
    ReadyForPoll(cfg, polls, Poll(clock, Some(records)));
    TickKeepsTableExact(cfg, s, Poll(clock, Some(records)));
    RecentDecides(s.history, EventID(cfg, records[i]), Cutoff(cfg, clock));
  }
}

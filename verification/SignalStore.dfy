/** The bounded in-memory signal buffer: it keeps the newest signals and owns its field maps. */
module SignalStore {
  import opened GoTime
  import opened Ordering
  import opened Telemetry

  const DEFAULT_MAX_METRICS: int := 20000
  const DEFAULT_MAX_LOGS: int := 20000

  datatype Query = Query(start: Time, end: Time)

  /** The heap object behind a record's `Fields`. */
  class FieldMap {
    var entries: map<string, string>

    constructor (entries: map<string, string>)
      ensures this.entries == entries
    {
      this.entries := entries;
    }

    method Set(key: string, value: string)
      modifies this
      ensures entries == old(entries)[key := value]
    {
      entries := entries[key := value];
    }
  }

  /** A record as callers pass it: `base` with its `fields` held by reference. */
  datatype Entry = Entry(base: LogRecord, fields: FieldMap?)

  ghost function Maps(entries: seq<Entry>): set<FieldMap> {
    set e | e in entries && e.fields != null :: e.fields
  }

  ghost function Value(e: Entry): LogRecord
    reads e.fields
  {
    e.base.(fields := if e.fields == null then map[] else e.fields.entries)
  }

  /** The references show these records at the moment. */
  ghost predicate Shows(entries: seq<Entry>, values: seq<LogRecord>)
    reads Maps(entries)
  {
    |values| == |entries| && forall i :: 0 <= i < |entries| ==> entries[i] in entries && values[i] == Value(entries[i])
  }

  // ---------- the bounded buffer ----------

  /** The last `n` elements. */
  function Last<T>(n: nat, s: seq<T>): seq<T> {
    if |s| <= n then s else s[|s| - n..]
  }

  /** Trimming early loses nothing that trimming late would keep. */
  lemma LastConcat<T>(n: nat, s: seq<T>, t: seq<T>)
    ensures Last(n, Last(n, s) + t) == Last(n, s + t)
  {
  }

  /** There are as many as fit, they are the newest, and additions that fit are wholly among them. */
  lemma LastIsNewest<T>(n: nat, s: seq<T>, t: seq<T>)
    ensures |Last(n, s)| == Min(n, |s|) && Last(n, s) == s[|s| - |Last(n, s)|..]
    ensures |t| <= n ==> exists kept :: Last(n, s + t) == kept + t
  {
    if |t| <= n {
      var r := Last(n, s + t);
      var kept := r[..|r| - |t|];
      assert r == kept + t;
    }
  }

  /** The buffer has the newest of the history, as many as fit, and what was added last, if it fits,
      wholly at its end. */
  ghost predicate HoldsNewest<T(!new)>(buffer: seq<T>, history: seq<T>, max: nat, added: seq<T>) {
    && |buffer| == Min(max, |history|) && buffer == history[|history| - |buffer|..]
    && (|added| <= max ==> exists kept :: buffer == kept + added)
  }

  lemma LastHoldsNewest<T(!new)>(n: nat, s: seq<T>, t: seq<T>)
    ensures HoldsNewest(Last(n, s + t), s + t, n, t)
  {
    LastIsNewest(n, s + t, []);
    LastIsNewest(n, s, t);
    hide Last;
  }

  /** The buffer after a run of add calls. */
  function Buffered<T>(n: nat, batches: seq<seq<T>>): seq<T> {
    if batches == [] then []
    else Last(n, Buffered(n, batches[..|batches| - 1]) + batches[|batches| - 1])
  }

  function Flatten<T>(batches: seq<seq<T>>): seq<T> {
    if batches == [] then [] else Flatten(batches[..|batches| - 1]) + batches[|batches| - 1]
  }

  /** However the additions were batched, the buffer is the tail of the unbounded history. */
  lemma {:induction false} BufferIsTailOfHistory<T>(n: nat, batches: seq<seq<T>>)
    ensures Buffered(n, batches) == Last(n, Flatten(batches))
    ensures var buffer, history := Buffered(n, batches), Flatten(batches);
      |buffer| == Min(n, |history|) && buffer == history[|history| - |buffer|..]
    decreases |batches|
  {
    LastIsNewest(n, Flatten(batches), []);
    hide Last;
    if batches == [] {
      LastOfNothing<T>(n);
    } else {
      var k := |batches| - 1;
      BufferIsTailOfHistory(n, batches[..k]);
      LastConcat(n, Flatten(batches[..k]), batches[k]);
    }
  }

  lemma LastOfNothing<T>(n: nat)
    ensures Last<T>(n, []) == []
  {
  }

  // ---------- queries ----------

  predicate InBounds(ts: Time, q: Query) {
    (q.start == ZERO_TIME || q.start <= ts) && (q.end == ZERO_TIME || ts <= q.end)
  }

  function LogTime(r: LogRecord): Time {
    if r.timestamp == ZERO_TIME then r.ingestionTime else r.timestamp
  }

  function MetricOrder(p: MetricPoint): Key {
    [Num(p.timestamp), Text(p.resourceID), Text(p.metricName)]
  }

  function LogOrder(r: LogRecord): Key {
    [Num(r.timestamp), Text(r.eventID)]
  }

  function EntryOrder(e: Entry): Key {
    LogOrder(e.base)
  }

  function SelectMetrics(ms: seq<MetricPoint>, q: Query): seq<MetricPoint> {
    if ms == [] then []
    else SelectMetrics(ms[..|ms| - 1], q) + (if InBounds(ms[|ms| - 1].timestamp, q) then [ms[|ms| - 1]] else [])
  }

  function SelectLogs(rs: seq<LogRecord>, q: Query): seq<LogRecord> {
    if rs == [] then []
    else SelectLogs(rs[..|rs| - 1], q) + (if InBounds(LogTime(rs[|rs| - 1]), q) then [rs[|rs| - 1]] else [])
  }

  ghost predicate IsMetricAnswer(ms: seq<MetricPoint>, q: Query, r: seq<MetricPoint>) {
    Sorted(r, MetricOrder) && multiset(r) == multiset(SelectMetrics(ms, q))
  }

  ghost predicate IsLogAnswer(rs: seq<LogRecord>, q: Query, r: seq<LogRecord>) {
    Sorted(r, LogOrder) && multiset(r) == multiset(SelectLogs(rs, q))
  }

  /** The answer to a query over these signals, for a given library sort. */
  function MetricAnswer(sort: Sorter, ms: seq<MetricPoint>, q: Query): seq<MetricPoint>
    requires Sorts(sort)
  {
    ArrangeBy(sort, SelectMetrics(ms, q), MetricOrder)
  }

  function LogAnswer(sort: Sorter, rs: seq<LogRecord>, q: Query): seq<LogRecord>
    requires Sorts(sort)
  {
    ArrangeBy(sort, SelectLogs(rs, q), LogOrder)
  }

  /** Whatever the library sort is, an answer is a sorted permutation of the signals in range. */
  lemma AnswersAreSorted(sort: Sorter, ms: seq<MetricPoint>, rs: seq<LogRecord>, q: Query)
    requires Sorts(sort)
    ensures IsMetricAnswer(ms, q, MetricAnswer(sort, ms, q)) && IsLogAnswer(rs, q, LogAnswer(sort, rs, q))
  {
    hide ArrangeBy, SelectMetrics, SelectLogs, Sorted, MetricOrder, LogOrder;
    ArrangeBySorts(sort, SelectMetrics(ms, q), MetricOrder);
    ArrangeBySorts(sort, SelectLogs(rs, q), LogOrder);
  }

  // ---------- what an answer shows, on the fields ----------

  /** Older points first, then by resource, then by metric. */
  ghost predicate MetricsOldestFirst(ps: seq<MetricPoint>) {
    forall i, j :: 0 <= i < j < |ps| ==>
      || ps[i].timestamp < ps[j].timestamp
      || (ps[i].timestamp == ps[j].timestamp
          && (StringLess(ps[i].resourceID, ps[j].resourceID)
              || (ps[i].resourceID == ps[j].resourceID && !StringLess(ps[j].metricName, ps[i].metricName))))
  }

  /** Older records first, then by event id; what counts is the record's own instant. */
  ghost predicate LogsOldestFirst(rs: seq<LogRecord>) {
    forall i, j :: 0 <= i < j < |rs| ==>
      rs[i].timestamp < rs[j].timestamp || (rs[i].timestamp == rs[j].timestamp && !StringLess(rs[j].eventID, rs[i].eventID))
  }

  lemma MetricOrderMeans(p: MetricPoint, q: MetricPoint)
    ensures Less(MetricOrder(p), MetricOrder(q)) <==>
      || p.timestamp < q.timestamp
      || (p.timestamp == q.timestamp
          && (StringLess(p.resourceID, q.resourceID)
              || (p.resourceID == q.resourceID && StringLess(p.metricName, q.metricName))))
  {
    assert !Less([], []);
    hide Less, StringLess;
    var a, b: Key := [Text(p.metricName)], [Text(q.metricName)];
    assert a == a[..1] + [] && b == b[..1] + [];
    TextLess(p.metricName, [], q.metricName, []);
    TextLess(p.resourceID, a, q.resourceID, b);
    NumLess(p.timestamp, [Text(p.resourceID)] + a, q.timestamp, [Text(q.resourceID)] + b);
    assert MetricOrder(p) == [Num(p.timestamp)] + ([Text(p.resourceID)] + a);
    assert MetricOrder(q) == [Num(q.timestamp)] + ([Text(q.resourceID)] + b);
  }

  lemma LogOrderMeans(r: LogRecord, q: LogRecord)
    ensures Less(LogOrder(r), LogOrder(q)) <==> r.timestamp < q.timestamp || (r.timestamp == q.timestamp && StringLess(r.eventID, q.eventID))
  {
    assert !Less([], []);
    hide Less, StringLess;
    assert [Text(r.eventID)] == [Text(r.eventID)] + [] && [Text(q.eventID)] == [Text(q.eventID)] + [];
    TextLess(r.eventID, [], q.eventID, []);
    NumLess(r.timestamp, [Text(r.eventID)], q.timestamp, [Text(q.eventID)]);
    assert LogOrder(r) == [Num(r.timestamp)] + [Text(r.eventID)] && LogOrder(q) == [Num(q.timestamp)] + [Text(q.eventID)];
  }

  lemma {:induction false} MetricsInRange(ms: seq<MetricPoint>, q: Query, p: MetricPoint)
    ensures multiset(SelectMetrics(ms, q))[p]
      == if (q.start == ZERO_TIME || q.start <= p.timestamp) && (q.end == ZERO_TIME || p.timestamp <= q.end) then multiset(ms)[p] else 0
    decreases |ms|
  {
    if ms != [] {
      var k := |ms| - 1;
      assert ms == ms[..k] + [ms[k]];
      MetricsInRange(ms[..k], q, p);
    }
  }

  lemma {:induction false} LogsInRange(rs: seq<LogRecord>, q: Query, r: LogRecord)
    ensures var at := if r.timestamp != ZERO_TIME then r.timestamp else r.ingestionTime;
      multiset(SelectLogs(rs, q))[r]
      == if (q.start == ZERO_TIME || q.start <= at) && (q.end == ZERO_TIME || at <= q.end) then multiset(rs)[r] else 0
    decreases |rs|
  {
    if rs != [] {
      var k := |rs| - 1;
      assert rs == rs[..k] + [rs[k]];
      LogsInRange(rs[..k], q, r);
    }
  }

  /** A metric answer holds each point within the bounds as often as it is held, oldest first. */
  lemma MetricAnswerShows(sort: Sorter, ms: seq<MetricPoint>, q: Query)
    requires Sorts(sort)
    ensures MetricsOldestFirst(MetricAnswer(sort, ms, q))
    ensures forall p: MetricPoint ::
      (multiset(MetricAnswer(sort, ms, q))[p]
       == if (q.start == ZERO_TIME || q.start <= p.timestamp) && (q.end == ZERO_TIME || p.timestamp <= q.end) then multiset(ms)[p] else 0)
  {
    AnswersAreSorted(sort, ms, [], q);
    hide MetricOrder, MetricAnswer, SelectMetrics, Less, StringLess, Sorts;
    var a := MetricAnswer(sort, ms, q);
    forall i, j | 0 <= i < j < |a| ensures MetricsOldestFirst([a[i], a[j]]) { MetricOrderMeans(a[j], a[i]); NotBelow(a[i], a[j]); }
    OldestFirstPairs(a);
    forall p: MetricPoint
      ensures multiset(a)[p]
        == if (q.start == ZERO_TIME || q.start <= p.timestamp) && (q.end == ZERO_TIME || p.timestamp <= q.end) then multiset(ms)[p] else 0
    {
      MetricsInRange(ms, q, p);
    }
  }

  lemma NotBelow(p: MetricPoint, q: MetricPoint)
    requires !Less(MetricOrder(q), MetricOrder(p))
    ensures MetricsOldestFirst([p, q])
  {
    MetricOrderMeans(q, p);
    StringTrichotomy(p.resourceID, q.resourceID);
    hide MetricOrder, Less, StringLess;
  }

  lemma OldestFirstPairs(a: seq<MetricPoint>)
    requires forall i, j :: 0 <= i < j < |a| ==> MetricsOldestFirst([a[i], a[j]])
    ensures MetricsOldestFirst(a)
  {
    hide StringLess;
    forall i, j | 0 <= i < j < |a|
      ensures a[i].timestamp < a[j].timestamp
        || (a[i].timestamp == a[j].timestamp
            && (StringLess(a[i].resourceID, a[j].resourceID)
                || (a[i].resourceID == a[j].resourceID && !StringLess(a[j].metricName, a[i].metricName))))
    {
      var two := [a[i], a[j]];
      assert MetricsOldestFirst(two) && two[0] == a[i] && two[1] == a[j];
    }
  }

  /** A log answer holds each record whose instant, else its ingestion, is within the bounds. */
  lemma LogAnswerShows(sort: Sorter, rs: seq<LogRecord>, q: Query)
    requires Sorts(sort)
    ensures LogsOldestFirst(LogAnswer(sort, rs, q))
    ensures forall r: LogRecord ::
      (var at := if r.timestamp != ZERO_TIME then r.timestamp else r.ingestionTime;
       multiset(LogAnswer(sort, rs, q))[r]
       == if (q.start == ZERO_TIME || q.start <= at) && (q.end == ZERO_TIME || at <= q.end) then multiset(rs)[r] else 0)
  {
    AnswersAreSorted(sort, [], rs, q);
    hide LogOrder, LogAnswer, SelectLogs, Less, StringLess, Sorts;
    var a := LogAnswer(sort, rs, q);
    forall i, j | 0 <= i < j < |a|
      ensures a[i].timestamp < a[j].timestamp || (a[i].timestamp == a[j].timestamp && !StringLess(a[j].eventID, a[i].eventID))
    {
      LogOrderMeans(a[j], a[i]);
    }
    forall r: LogRecord
      ensures var at := if r.timestamp != ZERO_TIME then r.timestamp else r.ingestionTime;
        multiset(a)[r] == if (q.start == ZERO_TIME || q.start <= at) && (q.end == ZERO_TIME || at <= q.end) then multiset(rs)[r] else 0
    {
      LogsInRange(rs, q, r);
    }
  }

  lemma SelectStep(rs: seq<LogRecord>, i: int, q: Query)
    requires 0 <= i < |rs|
    ensures SelectLogs(rs[..i + 1], q) == SelectLogs(rs[..i], q) + (if InBounds(LogTime(rs[i]), q) then [rs[i]] else [])
  {
    assert rs[..i + 1][..i] == rs[..i];
  }

  // ---------- the store ----------

  class InMemoryStore {
    const maxMetrics: nat
    const maxLogs: nat
    const sort: Sorter
    var metrics: seq<MetricPoint>
    var logs: seq<Entry>
    ghost var metricHistory: seq<MetricPoint>
    ghost var logHistory: seq<LogRecord>

    /** The field maps the store owns. */
    ghost function Owned(): set<FieldMap>
      reads this
    {
      Maps(logs)
    }

    ghost predicate Valid()
      reads this, Owned()
    {
      && 0 < maxMetrics && 0 < maxLogs && Sorts(sort)
      && metrics == Last(maxMetrics, metricHistory)
      && Shows(logs, Last(maxLogs, logHistory))
    }

    constructor (maxMetrics: int, maxLogs: int, sort: Sorter)
      requires Sorts(sort)
      ensures this.sort == sort
      ensures Valid() && metricHistory == [] && logHistory == [] && Owned() == {}
      ensures this.maxMetrics == (if maxMetrics <= 0 then 20000 else maxMetrics)
      ensures this.maxLogs == (if maxLogs <= 0 then 20000 else maxLogs)
    {
      this.maxMetrics := if maxMetrics <= 0 then DEFAULT_MAX_METRICS else maxMetrics;
      this.maxLogs := if maxLogs <= 0 then DEFAULT_MAX_LOGS else maxLogs;
      this.sort := sort;
      metrics, logs, metricHistory, logHistory := [], [], [], [];
    }

    method AddMetricPoints(points: seq<MetricPoint>)
      requires Valid()
      modifies this`metrics, this`metricHistory
      ensures Valid() && metricHistory == old(metricHistory) + points
      ensures HoldsNewest(metrics, metricHistory, maxMetrics, points)
    {
      LastHoldsNewest(maxMetrics, metricHistory, points);
      hide HoldsNewest, Sorts;
      if |points| == 0 {
        assert metricHistory + points == metricHistory;
        return;
      }
      LastConcat(maxMetrics, metricHistory, points);
      metrics := metrics + points;
      if |metrics| > maxMetrics {
        metrics := metrics[|metrics| - maxMetrics..];
      }
      metricHistory := metricHistory + points;
    }

    method AddLogRecords(records: seq<Entry>, ghost values: seq<LogRecord>)
      requires Valid() && Shows(records, values)
      modifies this`logs, this`logHistory
      ensures Valid() && logHistory == old(logHistory) + values
      ensures fresh(Owned() - old(Owned()))
      ensures exists shown :: Shows(logs, shown) && HoldsNewest(shown, logHistory, maxLogs, values)
    {
      assert |values| == |records|;
      LastHoldsNewest(maxLogs, logHistory, values);
      hide Last, Value, Shows, Maps, HoldsNewest, Sorts;
      if |records| == 0 {
        assert logHistory + values == logHistory;
        return;
      }
      LastConcat(maxLogs, logHistory, values);
      logs := Append(logs, Last(maxLogs, logHistory), records, values, maxLogs);
      logHistory := logHistory + values;
    }

    method QueryMetricPoints(q: Query) returns (filtered: seq<MetricPoint>)
      requires Valid()
      ensures filtered == MetricAnswer(sort, Last(maxMetrics, metricHistory), q)
    {
      hide Sorts, ArrangeBy, MetricOrder;
      filtered := [];
      for i := 0 to |metrics|
        invariant filtered == SelectMetrics(metrics[..i], q)
      {
        assert metrics[..i + 1][..i] == metrics[..i];
        var ts := metrics[i].timestamp;
        if q.start != ZERO_TIME && ts < q.start { continue; }
        if q.end != ZERO_TIME && ts > q.end { continue; }
        filtered := filtered + [metrics[i]];
      }
      assert metrics[..|metrics|] == metrics;
      filtered := ArrangeBy(sort, filtered, MetricOrder);
    }

    /** The records in range, as references into the buffer. */
    method SelectEntries(q: Query) returns (selected: seq<Entry>, ghost values: seq<LogRecord>)
      requires Valid()
      ensures Shows(selected, values) && values == SelectLogs(Last(maxLogs, logHistory), q)
    {
      selected, values := [], [];
      ghost var all := Last(maxLogs, logHistory);
      for i := 0 to |logs|
        invariant |values| == |selected| && values == SelectLogs(all[..i], q)
        invariant forall k :: 0 <= k < |selected| ==> values[k] == Value(selected[k])
      {
        var record := logs[i];
        SelectStep(all, i, q);
        var ts := record.base.timestamp;
        if ts == ZERO_TIME {
          ts := record.base.ingestionTime;
        }
        if q.start != ZERO_TIME && ts < q.start { continue; }
        if q.end != ZERO_TIME && ts > q.end { continue; }
        selected, values := selected + [record], values + [all[i]];
      }
      assert all[..|logs|] == all;
    }

    /** The answer is a sorted copy: its maps are new. */
    method QueryLogRecords(q: Query) returns (filtered: seq<Entry>, ghost values: seq<LogRecord>)
      requires Valid()
      ensures values == LogAnswer(sort, Last(maxLogs, logHistory), q)
      ensures Shows(filtered, values) && fresh(Maps(filtered))
    {
      var selected, found := SelectEntries(q);
      var copies := CopyEntries(selected, found);
      filtered := ArrangeBy(sort, copies, EntryOrder);
      values := ArrangeBy(sort, found, LogOrder);
      ArrangedShows(sort, copies, found);
    }
  }

  /** Sorting references sorts the records they stand for in the same way. */
  lemma ArrangedShows(sort: Sorter, copies: seq<Entry>, found: seq<LogRecord>)
    requires Sorts(sort) && Shows(copies, found)
    ensures Shows(ArrangeBy(sort, copies, EntryOrder), ArrangeBy(sort, found, LogOrder))
    ensures Maps(ArrangeBy(sort, copies, EntryOrder)) <= Maps(copies)
  {
    assert Keys(copies, EntryOrder) == Keys(found, LogOrder);
    var order := sort(Keys(found, LogOrder));
    assert Arranges(order, Keys(found, LogOrder));
    hide Sorts, Arranges, Value, EntryOrder, LogOrder;
    assert forall e :: e in Pick(copies, order) ==> e in copies;
  }

  lemma ShowsConcat(a: seq<Entry>, x: seq<LogRecord>, b: seq<Entry>, y: seq<LogRecord>)
    requires Shows(a, x) && Shows(b, y)
    ensures Shows(a + b, x + y)
    ensures Maps(a + b) == Maps(a) + Maps(b)
  {
    assert forall e :: e in a + b <==> e in a || e in b;
    assert forall i :: 0 <= i < |a| ==> (a + b)[i] == a[i];
    assert forall i :: 0 <= i < |b| ==> (a + b)[|a| + i] == b[i];
  }

  /** `s = append(nil, s[len(s)-max:]...)` when the slice has outgrown its bound. */
  method Trim(entries: seq<Entry>, ghost values: seq<LogRecord>, max: nat) returns (kept: seq<Entry>)
    requires Shows(entries, values)
    ensures Shows(kept, Last(max, values)) && Maps(kept) <= Maps(entries)
  {
    assert Last(max, values) == if |entries| <= max then values else values[|entries| - max..];
    hide *;
    kept := entries;
    if |entries| > max {
      kept := entries[|entries| - max..];
      ShowsTail(entries, values, |entries| - max);
    }
  }

  /** Copies of more records go behind the entries, and the newest stay. */
  method Append(entries: seq<Entry>, ghost shown: seq<LogRecord>, records: seq<Entry>, ghost values: seq<LogRecord>, max: nat)
      returns (kept: seq<Entry>)
    requires Shows(entries, shown) && Shows(records, values)
    ensures Shows(kept, Last(max, shown + values)) && fresh(Maps(kept) - Maps(entries))
  {
    hide Last;
    var copies := CopyEntries(records, values);
    assert Shows(entries, shown);
    hide Value;
    ShowsConcat(entries, shown, copies, values);
    kept := Trim(entries + copies, shown + values, max);
  }

  lemma ShowsTail(entries: seq<Entry>, values: seq<LogRecord>, d: nat)
    requires Shows(entries, values) && d <= |entries|
    ensures Shows(entries[d..], values[d..]) && Maps(entries[d..]) <= Maps(entries)
  {
    hide Value;
    assert forall e :: e in entries[d..] ==> e in entries;
    forall i | 0 <= i < |entries| - d
      ensures entries[d..][i] in entries[d..] && values[d..][i] == Value(entries[d..][i])
    {
      assert entries[d..][i] == entries[d + i];
    }
  }

  /** Every record gets a map of its own. */
  method CopyEntries(records: seq<Entry>, ghost values: seq<LogRecord>) returns (copies: seq<Entry>)
    requires Shows(records, values)
    ensures Shows(copies, values) && fresh(Maps(copies))
  {
    copies := [];
    for i := 0 to |records|
      invariant |copies| == i
      invariant forall k :: 0 <= k < i ==> (copies[k].fields != null ==> fresh(copies[k].fields))
      invariant forall k :: 0 <= k < i ==> values[k] == Value(copies[k])
    {
      var fields := CopyFields(records[i].fields);
      copies := copies + [Entry(records[i].base, fields)];
    }
  }

  /** A nil or empty map is copied to nil, any other to a new map with the same entries. */
  method CopyFields(fields: FieldMap?) returns (copy: FieldMap?)
    ensures copy != null ==> fresh(copy) && fields != null && copy.entries == fields.entries
    ensures copy == null ==> fields == null || fields.entries == map[]
  {
    if fields == null || |fields.entries| == 0 {
      return null;
    }
    var out := new FieldMap(map[]);
    var unvisited := fields.entries.Keys;
    while unvisited != {}
      invariant unvisited <= fields.entries.Keys
      invariant out.entries.Keys == fields.entries.Keys - unvisited
      invariant forall k :: k in out.entries ==> out.entries[k] == fields.entries[k]
      decreases unvisited
    {
      var key :| key in unvisited;
      unvisited := unvisited - {key};
      out.Set(key, fields.entries[key]);
    }
    copy := out;
  }

  // ---------- ownership ----------

  /** No write outside the store and the maps it owns changes what it holds, hence any answer. */
  twostate lemma OutsideWritesAreInvisible(store: InMemoryStore)
    requires old(store.Valid()) && unchanged(store) && forall m :: m in old(store.Owned()) ==> unchanged(m)
    ensures store.Valid() && store.Owned() == old(store.Owned())
    ensures store.metricHistory == old(store.metricHistory) && store.logHistory == old(store.logHistory)
  {
    var all := Last(store.maxLogs, store.logHistory);
    assert forall i :: 0 <= i < |store.logs| ==> store.logs[i] in store.logs && all[i] == old(Value(store.logs[i]));
  }

  /** Overwriting any maps with anything. */
  method Overwrite(maps: set<FieldMap>, scribble: FieldMap -> map<string, string>)
    modifies maps
  {
    forall m | m in maps {
      m.entries := scribble(m);
    }
  }

  /** Records are added, any maps the store does not own are overwritten with anything, a query is
      answered, all its maps are overwritten too, and the same query gets the same answer. */
  method MutationsAreInvisible(store: InMemoryStore, records: seq<Entry>, ghost values: seq<LogRecord>,
                               outside: set<FieldMap>, scribble: FieldMap -> map<string, string>, q: Query)
      returns (ghost first: seq<LogRecord>, ghost second: seq<LogRecord>)
    requires store.Valid() && Shows(records, values) && outside !! store.Owned()
    modifies store, outside
    ensures store.Valid() && store.logHistory == old(store.logHistory) + values
    ensures first == second == LogAnswer(store.sort, Last(store.maxLogs, store.logHistory), q)
  {
    hide Sorts, LogAnswer, Last, Shows;
    store.AddLogRecords(records, values);
    label added:
    Overwrite(outside, scribble);
    OutsideWritesAreInvisible@added(store);
    var returned: seq<Entry>, again: seq<Entry>;
    returned, first := store.QueryLogRecords(q);
    label answered:
    Overwrite(set e | e in returned && e.fields != null :: e.fields, scribble);
    OutsideWritesAreInvisible@answered(store);
    again, second := store.QueryLogRecords(q);
  }

  // ---------- queries are functions of the buffer when keys distinguish ----------

  lemma MetricAnswerUnique(ms: seq<MetricPoint>, q: Query, a: seq<MetricPoint>, b: seq<MetricPoint>)
    requires IsMetricAnswer(ms, q, a) && IsMetricAnswer(ms, q, b)
    requires KeyDistinguishes(SelectMetrics(ms, q), MetricOrder)
    ensures a == b
  {
    SamePermutationElements(a, SelectMetrics(ms, q));
    SortedUnique(a, b, MetricOrder);
  }

  lemma LogAnswerUnique(rs: seq<LogRecord>, q: Query, a: seq<LogRecord>, b: seq<LogRecord>)
    requires IsLogAnswer(rs, q, a) && IsLogAnswer(rs, q, b)
    requires KeyDistinguishes(SelectLogs(rs, q), LogOrder)
    ensures a == b
  {
    SamePermutationElements(a, SelectLogs(rs, q));
    SortedUnique(a, b, LogOrder);
  }
}

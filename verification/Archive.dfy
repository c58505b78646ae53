/** The archive sink: metric points and log records as objects of the local store. */
module Archive {
  import opened GoTime
  import opened Text
  import opened Telemetry
  import opened FileTree
  import opened ObjectKeys
  import opened StorePaths
  import opened ObjectStore
  import opened StoreRefinement
  import opened StoreRetention
  import opened ArchiveKeys

  /** The times read while archiving one item: the sink's clock, and those of the put. */
  datatype Tick = Tick(fallbackNow: Time, clock: Clock)

  /** One item on its way to the store; `payload` is absent when encoding it failed. */
  datatype Deposit = Deposit(key: string, payload: Option<Bytes>, metadata: Metadata, clock: Clock)

  function PointDeposit(f: Formats, encode: MetricPoint -> Option<Bytes>, p: MetricPoint, tick: Tick): Deposit {
    Deposit(MetricKey(f, p, tick.fallbackNow), encode(p),
            map["type" := "metric", "resource_id" := p.resourceID, "namespace" := p.namespace, "metric_name" := p.metricName],
            tick.clock)
  }

  function RecordDeposit(f: Formats, encode: LogRecord -> Option<Bytes>, r: LogRecord, tick: Tick): Deposit {
    Deposit(LogKey(f, r, tick.fallbackNow), encode(r),
            map["type" := "log", "log_group_name" := r.logGroupName, "log_stream_name" := r.logStreamName, "event_id" := r.eventID],
            tick.clock)
  }

  function PointDeposits(f: Formats, encode: MetricPoint -> Option<Bytes>, points: seq<MetricPoint>, ticks: seq<Tick>): (ds: seq<Deposit>)
    requires |points| == |ticks|
    ensures |ds| == |points| && forall i :: 0 <= i < |ds| ==> ds[i] == PointDeposit(f, encode, points[i], ticks[i])
  {
    seq(|points|, i requires 0 <= i < |points| => PointDeposit(f, encode, points[i], ticks[i]))
  }

  function RecordDeposits(f: Formats, encode: LogRecord -> Option<Bytes>, records: seq<LogRecord>, ticks: seq<Tick>): (ds: seq<Deposit>)
    requires |records| == |ticks|
    ensures |ds| == |records| && forall i :: 0 <= i < |ds| ==> ds[i] == RecordDeposit(f, encode, records[i], ticks[i])
  {
    seq(|records|, i requires 0 <= i < |records| => RecordDeposit(f, encode, records[i], ticks[i]))
  }

  /** Storing the deposits in order; what cannot be encoded or stored is skipped. */
  function Archived(c: Codec, root: Path, t: Tree, ds: seq<Deposit>): Tree
    requires RootOk(root)
  {
    if ds == [] then t
    else
      var d := ds[|ds| - 1];
      var t' := Archived(c, root, t, ds[..|ds| - 1]);
      if d.payload.None? then t' else PutTree(c, root, t', d.key, d.payload.value, d.metadata, d.clock).0
  }

  class Sink {
    const store: LocalStore
    const formats: Formats

    constructor (store: LocalStore, formats: Formats)
      ensures this.store == store && this.formats == formats
    {
      this.store, this.formats := store, formats;
    }

    method AddMetricPoints(points: seq<MetricPoint>, ticks: seq<Tick>, encode: MetricPoint -> Option<Bytes>)
      requires |points| == |ticks| && RootOk(store.root)
      modifies store`tree
      ensures store.tree == Archived(store.codec, store.root, old(store.tree), PointDeposits(formats, encode, points, ticks))
    {
      hide PutTree, MetricKey;
      ghost var ds := PointDeposits(formats, encode, points, ticks);
      assert ds[..0] == [];
      for i := 0 to |points|
        invariant store.tree == Archived(store.codec, store.root, old(store.tree), ds[..i])
      {
        var point := points[i];
        assert ds[..i + 1][..i] == ds[..i] && ds[i] == PointDeposit(formats, encode, point, ticks[i]);
        var payload := encode(point);
        if payload.None? {
          continue;
        }
        var key := MetricKey(formats, point, ticks[i].fallbackNow);
        var metadata := map["type" := "metric", "resource_id" := point.resourceID,
                            "namespace" := point.namespace, "metric_name" := point.metricName];
        var stored := store.Put(key, payload.value, metadata, ticks[i].clock);
      }
      assert ds[..|points|] == ds;
    }

    method AddLogRecords(records: seq<LogRecord>, ticks: seq<Tick>, encode: LogRecord -> Option<Bytes>)
      requires |records| == |ticks| && RootOk(store.root)
      modifies store`tree
      ensures store.tree == Archived(store.codec, store.root, old(store.tree), RecordDeposits(formats, encode, records, ticks))
    {
      hide PutTree, LogKey;
      ghost var ds := RecordDeposits(formats, encode, records, ticks);
      assert ds[..0] == [];
      for i := 0 to |records|
        invariant store.tree == Archived(store.codec, store.root, old(store.tree), ds[..i])
      {
        var record := records[i];
        assert ds[..i + 1][..i] == ds[..i] && ds[i] == RecordDeposit(formats, encode, record, ticks[i]);
        var payload := encode(record);
        if payload.None? {
          continue;
        }
        var key := LogKey(formats, record, ticks[i].fallbackNow);
        var metadata := map["type" := "log", "log_group_name" := record.logGroupName,
                            "log_stream_name" := record.logStreamName, "event_id" := record.eventID];
        var stored := store.Put(key, payload.value, metadata, ticks[i].clock);
      }
      assert ds[..|records|] == ds;
    }
  }

  // ---------- what the archive holds ----------

  /** The deposit that a key ends up with: the last one that could be encoded. */
  function Kept(objs: Objects, ds: seq<Deposit>): Objects {
    if ds == [] then objs
    else
      var d := ds[|ds| - 1];
      var before := Kept(objs, ds[..|ds| - 1]);
      if d.payload.None? then before else before[d.key := Entry(d.payload.value, d.metadata, d.clock.now)]
  }

  ghost predicate Total(c: Codec) {
    forall at: Time, m: Metadata :: c.marshal(at, m).Some?
  }

  /** Archiving items whose keys belong to the family stores every one that can be encoded. */
  lemma {:induction false} ArchiveRefines(c: Codec, root: Path, keys: iset<string>, t: Tree, objs: Objects, ds: seq<Deposit>)
    requires Inverse(c) && Total(c) && Represents(c, root, keys, t, objs)
    requires forall i :: 0 <= i < |ds| ==> ds[i].key in keys
    ensures Represents(c, root, keys, Archived(c, root, t, ds), Kept(objs, ds))
    decreases |ds|
  {
    hide PutTree, Family, TreeOk, AllHeld, AllOwned, AllOnTheWay, NoFileAbove, RootOk, Inverse;
    if ds != [] {
      var d := ds[|ds| - 1];
      ArchiveRefines(c, root, keys, t, objs, ds[..|ds| - 1]);
      if d.payload.Some? {
        assert c.marshal(d.clock.now, d.metadata).Some?;
        PutRefines(c, root, keys, Archived(c, root, t, ds[..|ds| - 1]), Kept(objs, ds[..|ds| - 1]), d.key, d.payload.value, d.metadata, d.clock);
      }
    }
  }

  /** A deposit stays under its key until one with the same key replaces it. */
  lemma {:induction false} LastDepositStays(objs: Objects, ds: seq<Deposit>, i: nat)
    requires i < |ds| && ds[i].payload.Some?
    requires forall j :: i < j < |ds| && ds[j].payload.Some? ==> ds[j].key != ds[i].key
    ensures ds[i].key in Kept(objs, ds) && Kept(objs, ds)[ds[i].key] == Entry(ds[i].payload.value, ds[i].metadata, ds[i].clock.now)
    decreases |ds|
  {
    if i < |ds| - 1 {
      LastDepositStays(objs, ds[..|ds| - 1], i);
    }
  }

  // ---------- records that retention never sees ----------

  /** A file that a log key names is listed exactly when the record's token does not end in ".meta". */
  lemma LogIsListedIff(c: Codec, root: Path, f: Formats, r: LogRecord, now: Time, t: Tree, infos: seq<Info>)
    requires RootOk(root) && Sound(f) && IsFile(t, DataPath(root, LogKey(f, r, now)))
    requires TreeOk(t) && IsListing(c, root, t, "", infos)
    ensures (exists i :: i in infos && i.key == LogKey(f, r, now)) <==> !HasSuffix(RecordToken(f, r, now), ".meta")
  {
    var k := LogKey(f, r, now);
    LogKeyIsGoodIff(f, r, now);
    hide LogKey, RecordToken, Sound, SanitizeKey, HasSuffix, TreeOk, Ordering.StrictlySorted;
    if exists i :: i in infos && i.key == k {
      var i :| i in infos && i.key == k;
      var p :| Selected(c, root, t, "", p, i);
      ListedKeyIsNoSidecar(c, root, t, p, i);
    } else if GoodKey(k) {
      GoodFileIsSelected(c, root, t, k);
    }
  }

  lemma ListedKeyIsNoSidecar(c: Codec, root: Path, t: Tree, p: Path, i: Info)
    requires RootOk(root) && TreeOk(t) && Selected(c, root, t, "", p, i) && SanitizeKey(i.key) == Key(i.key)
    ensures GoodKey(i.key)
  {
    DotIsRefused();
    TreePathOrdinary(t, p);
    RelativeKey(root, p);
    hide SanitizeKey, Split, HasSuffix, ReadMetadata, KeyOf, Ordinary, TreeOk, HasPrefix;
    assert |p| > |root|;
    assert Name(p[|root|..]) == Name(p);
    if HasSuffix(i.key, SIDECAR) {
      LastPartOfSidecar(i.key);
    }
  }

  lemma GoodFileIsSelected(c: Codec, root: Path, t: Tree, k: string)
    requires RootOk(root) && GoodKey(k) && IsFile(t, DataPath(root, k))
    ensures Selected(c, root, t, "", Data(root, k), InfoOf(c, root, t, Data(root, k))) && InfoOf(c, root, t, Data(root, k)).key == k
  {
    KeyOfData(root, k);
    NameIsNoSidecar(root, k);
    RootAboveData(root, k);
    assert Data(root, k) == DataPath(root, k);
    hide GoodKey, HasSuffix, ReadMetadata, KeyOf, Data, DataPath, Above;
  }
}

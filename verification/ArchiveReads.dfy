/** Which archived items can be read back, in a store that only the archive writes. */
module ArchiveReads {
  import opened GoTime
  import opened Text
  import opened Telemetry
  import opened FileTree
  import opened ObjectKeys
  import opened StorePaths
  import opened ObjectStore
  import opened StoreRefinement
  import opened ArchiveKeys
  import opened Archive

  const KEY_PARTS := 6

  /** A key that names itself and has as many parts as every archive key. */
  predicate Shaped(key: string) {
    SanitizeKey(key) == Key(key) && |Split(key, '/')| == KEY_PARTS
  }

  /** Six names below the root there are only files, and less deep only directories. */
  ghost predicate Layered(root: Path, t: Tree) {
    && RootOk(root) && TreeOk(t) && NoFileAbove(t, root)
    && forall p :: p in t && Above(root, p) ==> (t[p].File? <==> |p| == |root| + KEY_PARTS)
  }

  /** Where a key keeps its data; its metadata is at the key with the suffix of metadata files. */
  function At(root: Path, text: string): Path {
    root + Split(text, '/')
  }

  function Content(t: Tree, p: Path): Option<Bytes> {
    if IsFile(t, p) then Some(t[p].data) else None
  }

  lemma EmptyRootIsLayered(root: Path, t: Tree)
    requires RootOk(root) && TreeOk(t) && NoFileAbove(t, root)
    requires forall p :: p in t && Above(root, p) ==> p == root
    ensures Layered(root, t)
  {
    AboveSelf(root);
    hide TreeOk, RootOk, Above;
  }

  /** So is every store that represents objects under archive keys. */
  lemma RepresentedIsLayered(c: Codec, root: Path, f: Formats, t: Tree, objs: Objects)
    requires Sound(f) && Represents(c, root, ArchiveFamily(f), t, objs)
    ensures Layered(root, t)
  {
    hide TreeOk, NoFileAbove, RootOk, GoodKey, IsArchiveKey, Above, AllHeld, Split, Sound, Data, Side, Apart;
    var keys := ArchiveFamily(f);
    forall k | k in keys ensures GoodKey(k) && |Data(root, k)| == |Side(root, k)| == |root| + KEY_PARTS {
      ArchiveKeyIsGood(f, k);
      DataIs(root, k);
    }
    forall p | p in t && Above(root, p) ensures t[p].File? <==> |p| == |root| + KEY_PARTS {
      if t[p].File? {
        assert Owned(root, objs, p);
      } else if p != root {
        var k :| k in keys && Above(p, Parent(Data(root, k)));
        AboveSameLength(p, Parent(Data(root, k)));
      }
    }
  }

  lemma SameAt(root: Path, a: string, b: string)
    ensures At(root, a) == At(root, b) <==> a == b
  {
    JoinSplit(a, '/');
    JoinSplit(b, '/');
    hide Split, Join;
    BelowRoot(root, Split(a, '/'), Split(b, '/'));
  }

  // ---------- one write ----------

  lemma LayeredMkdir(root: Path, t: Tree, up: Path)
    requires Layered(root, t) && Above(root, up) && |up| < |root| + KEY_PARTS && OrdinaryPath(up)
    ensures MkdirAll(t, up).Some?
    ensures var t' := MkdirAll(t, up).value; Layered(root, t') && IsDir(t', up) && forall p :: Content(t', p) == Content(t, p)
  {
    hide MkdirAll, TreeOk, Above, RootOk;
    forall q | Above(q, up) ensures !IsFile(t, q) {
      AboveCompare(q, root, up);
      AboveSameLength(q, up);
    }
    MkdirAllMakes(t, up);
    var t' := MkdirAll(t, up).value;
    MadeKeepsTree(t, up, t');
    AboveSelf(up);
    forall p | Above(p, up) ensures |p| < |root| + KEY_PARTS { AboveSameLength(p, up); }
  }

  lemma LayeredWrite(root: Path, t: Tree, p: Path, data: Bytes, modTime: Time)
    requires Layered(root, t) && Above(root, p) && |p| == |root| + KEY_PARTS && IsDir(t, Parent(p)) && Ordinary(Name(p))
    ensures WriteFile(t, p, data, modTime).Some?
    ensures var t' := WriteFile(t, p, data, modTime).value;
      && Layered(root, t') && IsDir(t', Parent(p))
      && forall q :: Content(t', q) == if q == p then Some(data) else Content(t, q)
  {
    WriteKeepsTree(t, p, data, modTime);
    hide TreeOk, Above, RootOk, Ordinary;
    forall q | Above(q, root) ensures q != p { AboveSameLength(q, root); }
  }

  /** The two files of a key: siblings, six names below the root. */
  lemma Places(root: Path, key: string)
    requires RootOk(root) && Shaped(key)
    ensures var d, m := At(root, key), At(root, key + SIDECAR);
      && DataPath(root, key) == d && d != [] && SidecarPath(d) == m && Parent(m) == Parent(d)
      && Above(root, d) && Above(root, m) && Above(root, Parent(d)) && |d| == |m| == |root| + KEY_PARTS
      && OrdinaryPath(Parent(d)) && Ordinary(Name(d)) && Ordinary(Name(m))
  {
    PathOfFixpoint(root, key);
    SidecarSplit(key);
    hide Split, SanitizeKey, DataPath, Ordinary;
    var parts := Split(key, '/');
    SidecarBelow(root, parts);
    assert Name(parts) == parts[KEY_PARTS - 1] && Name(root + parts) == Name(parts);
    assert Ordinary(parts[KEY_PARTS - 1]);
    SidecarIsOrdinary(Name(parts));
    assert Parent(root + parts) == root + Parent(parts);
    assert OrdinaryPath(root + parts);
  }

  /** What a deposit writes at a text: its metadata beside its key, its payload at it. */
  function Writes(c: Codec, d: Deposit, text: string): Option<Bytes> {
    if d.payload.None? then None
    else if text == d.key + SIDECAR then c.marshal(d.clock.now, d.metadata)
    else if text == d.key then d.payload
    else None
  }

  function Else<T>(first: Option<T>, second: Option<T>): Option<T> {
    if first.Some? then first else second
  }

  lemma PutTreeSteps(c: Codec, root: Path, t: Tree, d: Deposit)
    requires RootOk(root) && SanitizeKey(d.key) == Key(d.key) && d.payload.Some? && DataPath(root, d.key) != []
    ensures var p, bytes := DataPath(root, d.key), c.marshal(d.clock.now, d.metadata);
      var made := MkdirAll(t, Parent(p));
      made.Some? ==>
        var first := WriteFile(made.value, p, d.payload.value, d.clock.dataWritten);
        first.Some? ==>
          PutTree(c, root, t, d.key, d.payload.value, d.metadata, d.clock).0
          == if bytes.None? then first.value
             else
               var second := WriteFile(first.value, SidecarPath(p), bytes.value, d.clock.sidecarWritten);
               if second.Some? then second.value else first.value
  {
    hide SanitizeKey, MkdirAll, WriteFile, DataPath, SidecarPath;
  }

  /** A put of an encodable deposit changes exactly what the deposit writes. */
  lemma PutWrites(c: Codec, root: Path, t: Tree, d: Deposit)
    requires Layered(root, t) && Shaped(d.key) && d.payload.Some?
    ensures var t' := PutTree(c, root, t, d.key, d.payload.value, d.metadata, d.clock).0;
      && Layered(root, t')
      && forall text :: Content(t', At(root, text)) == Else(Writes(c, d, text), Content(t, At(root, text)))
  {
    Places(root, d.key);
    PutTreeSteps(c, root, t, d);
    hide PutTree, SanitizeKey, At, Layered, MkdirAll, WriteFile, DataPath, SidecarPath, Content, Ordinary, Above;
    var p, m, bytes := At(root, d.key), At(root, d.key + SIDECAR), c.marshal(d.clock.now, d.metadata);
    LayeredMkdir(root, t, Parent(p));
    var t1 := MkdirAll(t, Parent(p)).value;
    LayeredWrite(root, t1, p, d.payload.value, d.clock.dataWritten);
    var t2 := WriteFile(t1, p, d.payload.value, d.clock.dataWritten).value;
    if bytes.Some? {
      LayeredWrite(root, t2, m, bytes.value, d.clock.sidecarWritten);
    }
    forall text ensures (At(root, text) == p <==> text == d.key) && (At(root, text) == m <==> text == d.key + SIDECAR) {
      SameAt(root, text, d.key);
      SameAt(root, text, d.key + SIDECAR);
    }
  }

  // ---------- a whole batch ----------

  ghost predicate AllShaped(ds: seq<Deposit>) {
    forall i :: 0 <= i < |ds| ==> Shaped(ds[i].key)
  }

  /** What is at a text after the deposits: what the last one that writes there wrote. */
  function After(c: Codec, before: Option<Bytes>, ds: seq<Deposit>, text: string): Option<Bytes> {
    if ds == [] then before
    else Else(Writes(c, ds[|ds| - 1], text), After(c, before, ds[..|ds| - 1], text))
  }

  lemma {:induction false} ArchivedContent(c: Codec, root: Path, t: Tree, ds: seq<Deposit>)
    requires Layered(root, t) && AllShaped(ds)
    ensures RootOk(root)
    ensures var t' := Archived(c, root, t, ds);
      Layered(root, t') && forall text :: Content(t', At(root, text)) == After(c, Content(t, At(root, text)), ds, text)
    decreases |ds|
  {
    assert RootOk(root);
    hide Layered, Shaped, Writes, PutTree, Content, At, RootOk;
    if ds != [] {
      var d := ds[|ds| - 1];
      ArchivedContent(c, root, t, ds[..|ds| - 1]);
      if d.payload.Some? {
        PutWrites(c, root, Archived(c, root, t, ds[..|ds| - 1]), d);
      } else {
        assert forall text :: Writes(c, d, text) == None by { WritesNothing(c, d); }
      }
    }
  }

  lemma WritesNothing(c: Codec, d: Deposit)
    requires d.payload.None?
    ensures forall text :: Writes(c, d, text) == None
  {
  }

  lemma {:induction false} AfterSplit(c: Codec, before: Option<Bytes>, ds: seq<Deposit>, i: nat, text: string)
    requires i <= |ds|
    ensures After(c, before, ds, text) == After(c, After(c, before, ds[..i], text), ds[i..], text)
    decreases |ds|
  {
    hide Writes;
    if i == |ds| {
      assert ds[..i] == ds && ds[i..] == [];
    } else {
      var k := |ds| - 1;
      AfterSplit(c, before, ds[..k], i, text);
      assert ds[..k][..i] == ds[..i] && ds[i..][..k - i] == ds[..k][i..] && ds[i..][k - i] == ds[k];
    }
  }

  // ---------- reading ----------

  function Decoded(c: Codec, bytes: Bytes): (Time, Metadata) {
    match c.unmarshal(bytes)
    case Some(meta) => meta
    case None => (ZERO_TIME, map[])
  }

  /** A read takes the data at the key and the metadata beside it. */
  lemma ReadIs(c: Codec, root: Path, t: Tree, key: string)
    requires Layered(root, t) && Shaped(key)
    ensures Content(t, At(root, key)).None? ==> GetTree(c, root, t, key) == Err(NotFound)
    ensures var data, bytes := Content(t, At(root, key)), Content(t, At(root, key + SIDECAR));
      data.Some? && bytes.Some? ==>
        GetTree(c, root, t, key) == Ok(Object(key, data.value, Decoded(c, bytes.value).1, Decoded(c, bytes.value).0))
  {
    Places(root, key);
    var d, m := At(root, key), At(root, key + SIDECAR);
    if d in t {
      FindPresent(t, d);
      if m in t { FindPresent(t, m); }
    } else {
      WayIsClear(root, t, Parent(d));
      NothingThere(t, d);
    }
    hide SanitizeKey, At, Find, DataPath, SidecarPath, Ordinary, Above, TreeOk, NoFileAbove, RootOk;
  }

  lemma WayIsClear(root: Path, t: Tree, up: Path)
    requires Layered(root, t) && Above(root, up) && |up| < |root| + KEY_PARTS
    ensures NoFileAbove(t, up)
  {
    hide TreeOk, Above, RootOk;
    forall q | Above(q, up) ensures !IsFile(t, q) {
      AboveCompare(q, root, up);
      AboveSameLength(q, up);
    }
  }

  predicate Encodes(c: Codec, d: Deposit) {
    d.payload.Some? && c.marshal(d.clock.now, d.metadata).Some?
  }

  /** The read that gives back what was deposited. */
  ghost predicate ReadsBack(c: Codec, root: Path, t: Tree, d: Deposit) {
    RootOk(root) && d.payload.Some? && GetTree(c, root, t, d.key) == Ok(Object(d.key, d.payload.value, d.metadata, d.clock.now))
  }

  lemma WritesItsFiles(c: Codec, d: Deposit)
    requires Encodes(c, d)
    ensures Writes(c, d, d.key) == d.payload && Writes(c, d, d.key + SIDECAR) == c.marshal(d.clock.now, d.metadata)
  {
  }

  /** A deposit reads back after a whole batch exactly when what later deposits leave in its two
      files is its payload and something that decodes to its time and metadata. */
  lemma ReadsBackIff(c: Codec, root: Path, t: Tree, ds: seq<Deposit>, i: nat)
    requires Layered(root, t) && AllShaped(ds) && i < |ds| && Encodes(c, ds[i])
    ensures var d, later := ds[i], ds[i + 1..];
      var data := After(c, d.payload, later, d.key);
      var bytes := After(c, c.marshal(d.clock.now, d.metadata), later, d.key + SIDECAR);
      && data.Some? && bytes.Some?
      && (ReadsBack(c, root, Archived(c, root, t, ds), d)
          <==> data == d.payload && Decoded(c, bytes.value) == (d.clock.now, d.metadata))
  {
    var d, later, k := ds[i], ds[i + 1..], ds[i].key;
    hide Layered, Shaped, GetTree, Content, At, Decoded, Archived, After, Writes, RootOk, ReadsBack;
    WritesItsFiles(c, d);
    ArchivedContent(c, root, t, ds);
    FilesAfter(c, Content(t, At(root, k)), ds, i, k);
    FilesAfter(c, Content(t, At(root, k + SIDECAR)), ds, i, k + SIDECAR);
    ReadsBackWhen(c, root, Archived(c, root, t, ds), d);
  }

  lemma ReadsBackWhen(c: Codec, root: Path, t: Tree, d: Deposit)
    requires Layered(root, t) && Shaped(d.key) && d.payload.Some?
    ensures var data, bytes := Content(t, At(root, d.key)), Content(t, At(root, d.key + SIDECAR));
      data.Some? && bytes.Some? ==>
        (ReadsBack(c, root, t, d) <==> data == d.payload && Decoded(c, bytes.value) == (d.clock.now, d.metadata))
  {
    ReadIs(c, root, t, d.key);
    hide Shaped, GetTree, Content, At, Decoded, RootOk, TreeOk, NoFileAbove;
  }

  lemma FilesAfter(c: Codec, before: Option<Bytes>, ds: seq<Deposit>, i: nat, text: string)
    requires i < |ds| && Writes(c, ds[i], text).Some?
    ensures After(c, before, ds, text) == After(c, Writes(c, ds[i], text), ds[i + 1..], text)
    ensures After(c, before, ds, text).Some?
  {
    hide Writes;
    AfterSplit(c, before, ds, i + 1, text);
    assert ds[..i + 1][..i] == ds[..i];
    StaysThere(c, Writes(c, ds[i], text), ds[i + 1..], text);
  }

  lemma {:induction false} StaysThere(c: Codec, before: Option<Bytes>, ds: seq<Deposit>, text: string)
    requires before.Some?
    ensures After(c, before, ds, text).Some?
    decreases |ds|
  {
    hide Writes;
    if ds != [] { StaysThere(c, before, ds[..|ds| - 1], text); }
  }

  // ---------- which later deposits matter ----------

  /** The deposit writes one of the other's two files. */
  predicate Overwrites(later: Deposit, d: Deposit) {
    later.payload.Some? && (later.key == d.key || later.key == d.key + SIDECAR || d.key == later.key + SIDECAR)
  }

  lemma {:induction false} AfterOthers(c: Codec, before: Option<Bytes>, ds: seq<Deposit>, d: Deposit)
    requires forall j :: 0 <= j < |ds| ==> !Overwrites(ds[j], d)
    ensures After(c, before, ds, d.key) == before && After(c, before, ds, d.key + SIDECAR) == before
    decreases |ds|
  {
    if ds != [] {
      var k := |ds| - 1;
      WritesElsewhere(c, ds[k], d);
      hide Writes, Overwrites;
      AfterOthers(c, before, ds[..k], d);
    }
  }

  lemma WritesElsewhere(c: Codec, other: Deposit, d: Deposit)
    requires !Overwrites(other, d)
    ensures Writes(c, other, d.key) == None && Writes(c, other, d.key + SIDECAR) == None
  {
    assert d.key + SIDECAR == other.key + SIDECAR ==> d.key == other.key by {
      if d.key + SIDECAR == other.key + SIDECAR { SameSuffix(d.key, other.key, SIDECAR); }
    }
  }

  /** What no later deposit overwrites reads back, whatever else the archive stores. */
  lemma UntouchedReadsBack(c: Codec, root: Path, t: Tree, ds: seq<Deposit>, i: nat)
    requires Inverse(c) && Layered(root, t) && AllShaped(ds) && i < |ds| && Encodes(c, ds[i])
    requires forall j :: i < j < |ds| ==> !Overwrites(ds[j], ds[i])
    ensures ReadsBack(c, root, Archived(c, root, t, ds), ds[i])
  {
    var d, later := ds[i], ds[i + 1..];
    assert Decoded(c, c.marshal(d.clock.now, d.metadata).value) == (d.clock.now, d.metadata);
    hide Layered, AllShaped, ReadsBack, Overwrites, Archived, After, Decoded, Inverse;
    ReadsBackIff(c, root, t, ds, i);
    assert forall j :: 0 <= j < |later| ==> later[j] == ds[i + 1 + j];
    AfterOthers(c, d.payload, later, d);
    AfterOthers(c, c.marshal(d.clock.now, d.metadata), later, d);
  }

  // ---------- metric points ----------

  lemma GoodKeysOverwrite(a: Deposit, b: Deposit)
    requires GoodKey(a.key) && GoodKey(b.key)
    ensures Overwrites(a, b) <==> a.payload.Some? && a.key == b.key
  {
    hide SanitizeKey, HasSuffix;
    SuffixEnds(a.key, SIDECAR, SIDECAR) by { Itself(SIDECAR); }
    SuffixEnds(b.key, SIDECAR, SIDECAR) by { Itself(SIDECAR); }
  }

  /** Every archived metric point can be read back, unless a later one has the same hashed identity,
      whatever the archive holds besides. */
  lemma ArchivedPointIsReadable(c: Codec, root: Path, f: Formats, encode: MetricPoint -> Option<Bytes>, t: Tree,
                                points: seq<MetricPoint>, ticks: seq<Tick>, i: nat)
    requires Inverse(c) && Sound(f) && Layered(root, t) && |points| == |ticks| && i < |points|
    requires Encodes(c, PointDeposit(f, encode, points[i], ticks[i]))
    requires forall j :: i < j < |points| && encode(points[j]).Some? ==>
      f.hash(PointMaterial(f, points[j], ticks[j].fallbackNow)) != f.hash(PointMaterial(f, points[i], ticks[i].fallbackNow))
    ensures RootOk(root)
    ensures var p, key := points[i], MetricKey(f, points[i], ticks[i].fallbackNow);
      var about := map["type" := "metric", "resource_id" := p.resourceID, "namespace" := p.namespace, "metric_name" := p.metricName];
      GetTree(c, root, Archived(c, root, t, PointDeposits(f, encode, points, ticks)), key)
      == Ok(Object(key, encode(p).value, about, ticks[i].clock.now))
  {
    var ds := PointDeposits(f, encode, points, ticks);
    assert ReadsBack(c, root, Archived(c, root, t, ds), ds[i]) by {
      PointReadsBack(c, root, f, encode, t, points, ticks, i);
    }
    hide Layered, Sound, PointMaterial, MetricKey, Inverse, Archived, Encodes, GetTree;
  }

  lemma PointReadsBack(c: Codec, root: Path, f: Formats, encode: MetricPoint -> Option<Bytes>, t: Tree,
                       points: seq<MetricPoint>, ticks: seq<Tick>, i: nat)
    requires Inverse(c) && Sound(f) && Layered(root, t) && |points| == |ticks| && i < |points|
    requires Encodes(c, PointDeposit(f, encode, points[i], ticks[i]))
    requires forall j :: i < j < |points| && encode(points[j]).Some? ==>
      f.hash(PointMaterial(f, points[j], ticks[j].fallbackNow)) != f.hash(PointMaterial(f, points[i], ticks[i].fallbackNow))
    ensures ReadsBack(c, root, Archived(c, root, t, PointDeposits(f, encode, points, ticks)), PointDeposit(f, encode, points[i], ticks[i]))
  {
    var ds := PointDeposits(f, encode, points, ticks);
    hide Layered, Sound, PointMaterial, MetricKey, ReadsBack, Inverse, Archived, Overwrites, Encodes, SanitizeKey, Split, HasSuffix;
    forall j | 0 <= j < |ds| ensures GoodKey(ds[j].key) && Shaped(ds[j].key) {
      MetricKeyIsGood(f, points[j], ticks[j].fallbackNow);
    }
    hide GoodKey, Shaped;
    forall j | i < j < |ds| ensures !Overwrites(ds[j], ds[i]) {
      GoodKeysOverwrite(ds[j], ds[i]);
      if ds[j].key == ds[i].key {
        MetricKeyDeterminesHash(f, points[j], ticks[j].fallbackNow, points[i], ticks[i].fallbackNow);
      }
    }
    UntouchedReadsBack(c, root, t, ds, i);
  }

  // ---------- log records ----------

  /** The first record is stored where the second keeps its metadata. */
  predicate Shadows(f: Formats, r: LogRecord, now: Time, r': LogRecord, now': Time) {
    f.hour(RecordTime(r, now)) == f.hour(RecordTime(r', now')) && RecordName(f, r, now) == RecordName(f, r', now') + ".json.meta"
  }

  lemma {:induction false} JoinLast(parts: seq<string>, tail: string, sep: char)
    requires parts != []
    ensures Join(parts, sep) + tail == Join(parts[..|parts| - 1] + [parts[|parts| - 1] + tail], sep)
  {
    var longer := parts[..|parts| - 1] + [parts[|parts| - 1] + tail];
    if |parts| > 1 {
      JoinLast(parts[1..], tail, sep);
      assert longer[1..] == parts[1..][..|parts| - 2] + [parts[|parts| - 1] + tail];
    }
  }

  lemma KeyWithSuffix(h: (string, string, string, string), name: string)
    ensures Join(Below("logs", h, name + ".json"), '/') + SIDECAR == Join(Below("logs", h, (name + ".json.meta") + ".json"), '/')
  {
    var parts := Below("logs", h, name + ".json");
    JoinLast(parts, SIDECAR, '/');
    assert (name + ".json") + SIDECAR == (name + ".json.meta") + ".json";
    assert parts[..5] + [parts[5] + SIDECAR] == Below("logs", h, (name + ".json.meta") + ".json");
  }

  lemma MetaIsName(name: string)
    requires IsName(name)
    ensures IsName(name + ".json.meta")
  {
  }

  /** A log key is another's metadata file exactly when the records fall in one hour and the name of
      the first is that of the second with ".json.meta" after it. */
  lemma ShadowsIff(f: Formats, r: LogRecord, now: Time, r': LogRecord, now': Time)
    requires Sound(f)
    ensures LogKey(f, r, now) == LogKey(f, r', now') + SIDECAR <==> Shadows(f, r, now, r', now')
  {
    RecordNameIs(f, r, now);
    RecordNameIs(f, r', now');
    var g, h, name := f.hour(RecordTime(r, now)), f.hour(RecordTime(r', now')), RecordName(f, r', now') + ".json.meta";
    MetaIsName(RecordName(f, r', now'));
    KeyWithSuffix(h, RecordName(f, r', now'));
    hide IsName, IsNumber, RecordName, RecordTime, Join, Below;
    if LogKey(f, r, now) == LogKey(f, r', now') + SIDECAR {
      SameArchiveKey("logs", g, RecordName(f, r, now), h, name);
    }
  }

  /** The later record leaves both files of the earlier one alone. */
  predicate Spares(f: Formats, r: LogRecord, now: Time, r': LogRecord, now': Time) {
    !SameRecordName(f, r, now, r', now') && !Shadows(f, r, now, r', now') && !Shadows(f, r', now', r, now)
  }

  lemma SparesIff(f: Formats, encode: LogRecord -> Option<Bytes>, r: LogRecord, tick: Tick, r': LogRecord, tick': Tick)
    requires Sound(f) && encode(r).Some?
    ensures Overwrites(RecordDeposit(f, encode, r, tick), RecordDeposit(f, encode, r', tick'))
      <==> !Spares(f, r, tick.fallbackNow, r', tick'.fallbackNow)
  {
    var now, now' := tick.fallbackNow, tick'.fallbackNow;
    hide LogKey, SameRecordName, Shadows, Sound;
    LogKeySameIff(f, r, now, r', now');
    ShadowsIff(f, r, now, r', now');
    ShadowsIff(f, r', now', r, now);
  }

  lemma RecordsAreShaped(f: Formats, encode: LogRecord -> Option<Bytes>, records: seq<LogRecord>, ticks: seq<Tick>)
    requires Sound(f) && |records| == |ticks|
    ensures AllShaped(RecordDeposits(f, encode, records, ticks))
  {
    hide Sound, LogKey, SanitizeKey, Split, GoodKey, RecordToken, HasSuffix;
    var ds := RecordDeposits(f, encode, records, ticks);
    forall j | 0 <= j < |ds| ensures Shaped(ds[j].key) {
      LogKeyIsGoodIff(f, records[j], ticks[j].fallbackNow);
    }
  }

  /** Every archived log record can be read back, even one that is mistaken for a metadata file,
      unless a later one gets its name or stands where either keeps its metadata. */
  lemma ArchivedRecordIsReadable(c: Codec, root: Path, f: Formats, encode: LogRecord -> Option<Bytes>, t: Tree,
                                 records: seq<LogRecord>, ticks: seq<Tick>, i: nat)
    requires Inverse(c) && Sound(f) && Layered(root, t) && |records| == |ticks| && i < |records|
    requires Encodes(c, RecordDeposit(f, encode, records[i], ticks[i]))
    requires forall j :: i < j < |records| && encode(records[j]).Some? ==>
      Spares(f, records[j], ticks[j].fallbackNow, records[i], ticks[i].fallbackNow)
    ensures RootOk(root)
    ensures var r, key := records[i], LogKey(f, records[i], ticks[i].fallbackNow);
      var about := map["type" := "log", "log_group_name" := r.logGroupName, "log_stream_name" := r.logStreamName, "event_id" := r.eventID];
      GetTree(c, root, Archived(c, root, t, RecordDeposits(f, encode, records, ticks)), key)
      == Ok(Object(key, encode(r).value, about, ticks[i].clock.now))
  {
    var ds := RecordDeposits(f, encode, records, ticks);
    assert ReadsBack(c, root, Archived(c, root, t, ds), ds[i]) by {
      RecordReadsBack(c, root, f, encode, t, records, ticks, i);
    }
    hide Layered, Sound, LogKey, Inverse, Archived, Encodes, GetTree, Spares;
  }

  lemma RecordReadsBack(c: Codec, root: Path, f: Formats, encode: LogRecord -> Option<Bytes>, t: Tree,
                        records: seq<LogRecord>, ticks: seq<Tick>, i: nat)
    requires Inverse(c) && Sound(f) && Layered(root, t) && |records| == |ticks| && i < |records|
    requires Encodes(c, RecordDeposit(f, encode, records[i], ticks[i]))
    requires forall j :: i < j < |records| && encode(records[j]).Some? ==>
      Spares(f, records[j], ticks[j].fallbackNow, records[i], ticks[i].fallbackNow)
    ensures ReadsBack(c, root, Archived(c, root, t, RecordDeposits(f, encode, records, ticks)), RecordDeposit(f, encode, records[i], ticks[i]))
  {
    var ds := RecordDeposits(f, encode, records, ticks);
    hide Layered, Sound, LogKey, ReadsBack, Inverse, Archived, Spares, Encodes, AllShaped;
    RecordsAreShaped(f, encode, records, ticks);
    forall j | i < j < |ds| ensures !Overwrites(ds[j], ds[i]) {
      if encode(records[j]).Some? {
        SparesIff(f, encode, records[j], ticks[j], records[i], ticks[i]);
      }
    }
    hide Overwrites;
    UntouchedReadsBack(c, root, t, ds, i);
  }

  /** A record stored right after one that it shadows takes its metadata: the read back is right
      exactly when the payload happens to decode to what was there. */
  lemma ShadowedReadsBackIff(c: Codec, root: Path, f: Formats, encode: LogRecord -> Option<Bytes>, t: Tree,
                             r: LogRecord, tick: Tick, r': LogRecord, tick': Tick)
    requires Sound(f) && Layered(root, t) && Shadows(f, r', tick'.fallbackNow, r, tick.fallbackNow)
    requires Encodes(c, RecordDeposit(f, encode, r, tick)) && encode(r').Some?
    ensures var d := RecordDeposit(f, encode, r, tick);
      ReadsBack(c, root, Archived(c, root, t, RecordDeposits(f, encode, [r, r'], [tick, tick'])), d)
      <==> Decoded(c, encode(r').value) == (tick.clock.now, d.metadata)
  {
    hide Layered, Sound, LogKey, ReadsBack, Archived, Decoded, Shadows, AllShaped, Inverse;
    var d, d' := RecordDeposit(f, encode, r, tick), RecordDeposit(f, encode, r', tick');
    ShadowsIff(f, r', tick'.fallbackNow, r, tick.fallbackNow);
    RecordsAreShaped(f, encode, [r, r'], [tick, tick']);
    assert RecordDeposits(f, encode, [r, r'], [tick, tick']) == [d, d'];
    PairReadsBackIff(c, root, t, d, d');
  }

  lemma PairReadsBackIff(c: Codec, root: Path, t: Tree, d: Deposit, d': Deposit)
    requires Layered(root, t) && AllShaped([d, d']) && Encodes(c, d) && d'.payload.Some? && d'.key == d.key + SIDECAR
    ensures ReadsBack(c, root, Archived(c, root, t, [d, d']), d) <==> Decoded(c, d'.payload.value) == (d.clock.now, d.metadata)
  {
    hide Layered, ReadsBack, Archived, Decoded, AllShaped, After;
    ReadsBackIff(c, root, t, [d, d'], 0);
    assert [d, d'][1..] == [d'];
    OneLater(c, d, d');
  }

  lemma OneLater(c: Codec, d: Deposit, d': Deposit)
    requires d'.key == d.key + SIDECAR && d'.payload.Some?
    ensures After(c, d.payload, [d'], d.key) == d.payload
    ensures After(c, c.marshal(d.clock.now, d.metadata), [d'], d.key + SIDECAR) == d'.payload
  {
    assert [d'][..0] == [];
    assert |d.key| < |d.key + SIDECAR| < |d.key + SIDECAR + SIDECAR|;
  }

  /** The event ids "x" and "x.json.meta" of one group and hour are such a pair. */
  lemma ShadowExample(f: Formats, r: LogRecord, r': LogRecord, now: Time)
    requires r.eventID == "x" && r'.eventID == "x.json.meta" && r.logGroupName == r'.logGroupName
    requires r.timestamp == r'.timestamp != ZERO_TIME
    ensures Shadows(f, r', now, r, now)
  {
    hide SanitizeToken, TrimSpace, IsToken, Mark;
    BothAreTokens();
    OwnToken("x");
    OwnToken("x.json.meta");
    var group := SanitizeToken(r.logGroupName) + ['-'];
    assert group + "x.json.meta" == (group + "x") + ".json.meta";
  }

  lemma BothAreTokens()
    ensures IsToken("x") && IsToken("x.json.meta") && !Mark("x"[0]) && !Mark("x.json.meta"[10])
  {
  }

  lemma OwnToken(s: string)
    requires IsToken(s) && !Mark(s[|s| - 1])
    ensures TrimSpace(s) == s && SanitizeToken(s) == s
  {
    TokenCharsAreSafe(s);
    TokenIdempotentIff(s);
  }
}

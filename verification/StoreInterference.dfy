/** Which keys can be stored next to each other: exactly those that keep apart. */
module StoreInterference {
  import opened GoTime
  import opened Text
  import opened FileTree
  import opened ObjectKeys
  import opened StorePaths
  import opened ObjectStore
  import opened StoreRefinement

  /** A text that starts with another and a slash names something below it. */
  lemma PrefixIsAbove(root: Path, a: string, b: string)
    requires HasPrefix(b, a + "/")
    ensures Above(root + Split(a, '/'), root + Split(b, '/')) && |Split(a, '/')| < |Split(b, '/')|
  {
    var rest := b[|a| + 1..];
    assert b == a + "/" + rest && a + "/" + rest == a + ['/'] + rest;
    SplitConcat(a, rest, '/');
    hide Split;
    var x, y := Split(a, '/'), Split(rest, '/');
    assert root + (x + y) == (root + x) + y;
  }

  /** Something a put of `j` cannot get past. */
  ghost predicate Blocked(root: Path, t: Tree, j: string)
    requires RootOk(root) && GoodKey(j)
  {
    IsDir(t, Data(root, j)) || IsDir(t, Side(root, j)) || !NoFileAbove(t, Parent(Data(root, j)))
  }

  lemma WriteFails(t: Tree, d: Path, m: Path, data: Bytes, bytes: Bytes, clock: Clock)
    requires d != [] && m != [] && d != m && (IsDir(t, d) || IsDir(t, m))
    ensures var w := WriteFile(t, d, data, clock.dataWritten);
      w.None? || WriteFile(w.value, m, bytes, clock.sidecarWritten).None?
  {
  }

  lemma PutTreeFails(c: Codec, root: Path, t: Tree, k: string, data: Bytes, metadata: Metadata, clock: Clock)
    requires RootOk(root) && GoodKey(k)
    ensures var made, bytes := MkdirAll(t, Parent(Data(root, k))), c.marshal(clock.now, metadata);
      made.None? || bytes.None?
      || (var w := WriteFile(made.value, Data(root, k), data, clock.dataWritten);
          w.None? || WriteFile(w.value, Side(root, k), bytes.value, clock.sidecarWritten).None?)
      ==> PutTree(c, root, t, k, data, metadata, clock).1 == Err(Failed)
  {
    hide SanitizeKey, MkdirAll, WriteFile, DataPath, SidecarPath, HasSuffix;
  }

  lemma BlockedPutFails(c: Codec, root: Path, t: Tree, j: string, data: Bytes, metadata: Metadata, clock: Clock)
    requires RootOk(root) && GoodKey(j) && TreeOk(t) && Blocked(root, t, j)
    ensures PutTree(c, root, t, j, data, metadata, clock).1 == Err(Failed)
  {
    SamePathSameKey(root, j, j);
    hide Data, Side, PutTree, GoodKey, RootOk, MkdirAll, TreeOk, WriteFile;
    MkdirAllMakes(t, Parent(Data(root, j)));
    var made, bytes := MkdirAll(t, Parent(Data(root, j))), c.marshal(clock.now, metadata);
    if made.Some? && bytes.Some? {
      WriteFails(made.value, Data(root, j), Side(root, j), data, bytes.value, clock);
    }
    PutTreeFails(c, root, t, j, data, metadata, clock);
  }

  lemma StoredKeyBlocks(c: Codec, root: Path, t: Tree, k: string, e: Entry, j: string)
    requires RootOk(root) && TreeOk(t) && GoodKey(k) && GoodKey(j) && Holds(c, root, t, k, e)
    ensures !Apart(j, k) ==> IsDir(t, Data(root, j)) || IsDir(t, Side(root, j))
  {
    DataIs(root, j);
    DataIs(root, k);
    SideIs(root, j);
    AncestorsAreDirs(t, Data(root, k));
    hide GoodKey, Data, Side, Above, Split, TreeOk;
    if HasPrefix(k, j + "/") {
      PrefixIsAbove(root, j, k);
    }
    if HasPrefix(k, j + SIDECAR + "/") {
      PrefixIsAbove(root, j + SIDECAR, k);
    }
  }

  lemma StoredFilesBlock(c: Codec, root: Path, t: Tree, k: string, e: Entry, j: string)
    requires RootOk(root) && GoodKey(k) && GoodKey(j) && Holds(c, root, t, k, e)
    ensures !Apart(k, j) ==> !NoFileAbove(t, Parent(Data(root, j)))
  {
    DataIs(root, j);
    DataIs(root, k);
    SideIs(root, k);
    AboveParent(Data(root, j));
    hide GoodKey, Data, Side, Above, Split;
    if HasPrefix(j, k + "/") {
      PrefixIsAbove(root, k, j);
      assert Above(Data(root, k), Parent(Data(root, j)));
    }
    if HasPrefix(j, k + SIDECAR + "/") {
      PrefixIsAbove(root, k + SIDECAR, j);
      assert Above(Side(root, k), Parent(Data(root, j)));
    }
  }

  // ---------- operations that fail ----------

  /** Exactly the keys that sanitizing refuses are refused by every operation, which then does nothing. */
  lemma RefusedIff(c: Codec, root: Path, t: Tree, key: string, data: Bytes, metadata: Metadata, clock: Clock)
    requires RootOk(root)
    ensures PutTree(c, root, t, key, data, metadata, clock).1 == Err(RefusedKey) <==> !SanitizeKey(key).Key?
    ensures GetTree(c, root, t, key) == Err(RefusedKey) <==> !SanitizeKey(key).Key?
    ensures DeleteTree(root, t, key).1 == Err(RefusedKey) <==> !SanitizeKey(key).Key?
    ensures !SanitizeKey(key).Key? ==> PutTree(c, root, t, key, data, metadata, clock).0 == DeleteTree(root, t, key).0 == t
  {
    hide SanitizeKey, MkdirAll, WriteFile, Remove, Find, DataPath, SidecarPath, ReadMetadata;
  }

  lemma HeldReads(c: Codec, root: Path, t: Tree, k: string, e: Entry)
    requires RootOk(root) && GoodKey(k) && Holds(c, root, t, k, e)
    ensures GetTree(c, root, t, k) == Ok(Object(k, e.data, e.metadata, e.createdAt))
  {
    ReadStored(c, root, t, k, e);
    assert Data(root, k) == DataPath(root, k);
    hide ReadMetadata, Find, DataPath, SanitizeKey;
  }

  lemma BareReads(c: Codec, root: Path, t: Tree, k: string)
    requires RootOk(root) && GoodKey(k) && IsFile(t, Data(root, k)) && Find(t, Side(root, k)) == NotExist
    ensures var file := t[Data(root, k)]; GetTree(c, root, t, k) == Ok(Object(k, file.data, map[], file.modTime))
  {
    FindPresent(t, Data(root, k));
    assert Data(root, k) == DataPath(root, k) && Side(root, k) == SidecarPath(Data(root, k));
    hide Find, DataPath, SidecarPath, SanitizeKey;
  }

  /** The put has made the directories and written the data, and nothing else. */
  ghost predicate HalfStored(root: Path, t: Tree, k: string, t': Tree, d: Node)
    requires RootOk(root) && GoodKey(k)
  {
    && TreeOk(t') && IsFile(t', Data(root, k)) && t'[Data(root, k)] == d
    && (forall p :: p in t && p != Data(root, k) ==> p in t' && t'[p] == t[p])
    && (Side(root, k) in t' ==> Side(root, k) in t)
  }

  lemma UnencodedPut(c: Codec, root: Path, keys: iset<string>, t: Tree, objs: Objects, k: string, data: Bytes, metadata: Metadata, clock: Clock)
    requires Represents(c, root, keys, t, objs) && k in keys && c.marshal(clock.now, metadata).None?
    ensures var r := PutTree(c, root, t, k, data, metadata, clock);
      r.1 == Err(Failed) && HalfStored(root, t, k, r.0, File(data, clock.dataWritten))
  {
    WayIsFree(c, root, keys, t, objs, k);
    PlaceIsNoDir(c, root, keys, t, objs, k);
    FourFiles(root, keys, k, k);
    assert GoodKey(k) && RootOk(root) && TreeOk(t);
    HalfPutIs(c, root, t, k, data, metadata, clock);
    hide PutTree, MkdirAll, TreeOk, Represents, Family, GoodKey, Data, Side, Made, NoFileAbove, Ordinary;
    WriteData(t, Data(root, k), Side(root, k), data, clock.dataWritten);
  }

  lemma WriteData(t: Tree, d: Path, m: Path, data: Bytes, written: Time)
    requires TreeOk(t) && d != [] && m != [] && d != m && Parent(m) == Parent(d) && NoFileAbove(t, Parent(d)) && !IsDir(t, d) && OrdinaryPath(d)
    ensures MkdirAll(t, Parent(d)).Some?
    ensures var w := WriteFile(MkdirAll(t, Parent(d)).value, d, data, written);
      && w.Some? && TreeOk(w.value) && IsFile(w.value, d) && w.value[d] == File(data, written)
      && (forall p :: p in t && p != d ==> p in w.value && w.value[p] == t[p])
      && (m in w.value ==> m in t)
  {
    var up := Parent(d);
    MkdirAllMakes(t, up);
    hide MkdirAll, TreeOk, Ordinary, Above;
    var t1 := MkdirAll(t, up).value;
    MadeKeepsTree(t, up, t1);
    AboveSelf(up);
    AboveSameLength(d, up);
    AboveSameLength(m, up);
    assert IsDir(t1, up) && !IsDir(t1, d);
    assert Ordinary(Name(d));
    WriteKeepsTree(t1, d, data, written);
  }

  lemma HalfPutIs(c: Codec, root: Path, t: Tree, k: string, data: Bytes, metadata: Metadata, clock: Clock)
    requires RootOk(root) && GoodKey(k) && c.marshal(clock.now, metadata).None?
    ensures var made := MkdirAll(t, Parent(Data(root, k)));
      made.Some? && WriteFile(made.value, Data(root, k), data, clock.dataWritten).Some?
      ==> PutTree(c, root, t, k, data, metadata, clock) == (WriteFile(made.value, Data(root, k), data, clock.dataWritten).value, Err(Failed))
  {
    hide SanitizeKey, MkdirAll, WriteFile, DataPath, SidecarPath, HasSuffix;
  }

  /** A put whose metadata cannot be encoded fails, but not without a trace: the key holds the new
      data with the metadata and time of the object it replaced, or, if there was none, with no
      metadata and the file's own time. Other objects are left alone. */
  lemma FailedPutLeaves(c: Codec, root: Path, keys: iset<string>, t: Tree, objs: Objects, k: string, data: Bytes, metadata: Metadata, clock: Clock)
    requires Represents(c, root, keys, t, objs) && k in keys && c.marshal(clock.now, metadata).None?
    ensures var r := PutTree(c, root, t, k, data, metadata, clock);
      && r.1 == Err(Failed)
      && GetTree(c, root, r.0, k) == Ok(if k in objs then Object(k, data, objs[k].metadata, objs[k].createdAt) else Object(k, data, map[], clock.dataWritten))
      && forall j :: j in objs && j != k ==> GetTree(c, root, r.0, j) == GetTree(c, root, t, j)
  {
    UnencodedPut(c, root, keys, t, objs, k, data, metadata, clock);
    var t' := PutTree(c, root, t, k, data, metadata, clock).0;
    FamilyIsGood(keys, objs);
    hide PutTree, GetTree, Data, Side, GoodKey, TreeOk, NoFileAbove, AllOwned, AllOnTheWay, Family, HalfStored, Holds;
    if k in objs {
      HalfStoredHere(c, root, t, k, t', objs[k], File(data, clock.dataWritten)) by { FourFiles(root, keys, k, k); }
    } else {
      AbsentHasNoFiles(c, root, keys, t, objs, k);
      HalfStoredNew(c, root, t, k, t', File(data, clock.dataWritten));
    }
    forall j | j in objs && j != k ensures GetTree(c, root, t', j) == GetTree(c, root, t, j) {
      HalfStoredThere(c, root, t, k, t', j, objs[j], File(data, clock.dataWritten)) by { FourFiles(root, keys, j, k); }
    }
  }

  lemma HalfStoredHere(c: Codec, root: Path, t: Tree, k: string, t': Tree, e: Entry, d: Node)
    requires RootOk(root) && GoodKey(k) && HalfStored(root, t, k, t', d) && d.File? && Holds(c, root, t, k, e)
    requires Data(root, k) != Side(root, k)
    ensures GetTree(c, root, t', k) == Ok(Object(k, d.data, e.metadata, e.createdAt))
  {
    hide GetTree, Data, Side, GoodKey, TreeOk;
    HeldReads(c, root, t', k, e.(data := d.data));
  }

  lemma HalfStoredNew(c: Codec, root: Path, t: Tree, k: string, t': Tree, d: Node)
    requires RootOk(root) && GoodKey(k) && HalfStored(root, t, k, t', d) && d.File? && Side(root, k) !in t
    ensures GetTree(c, root, t', k) == Ok(Object(k, d.data, map[], d.modTime))
  {
    hide GetTree, Data, Side, GoodKey, TreeOk, Find;
    SideIsMissing(root, t, k, t', d);
    BareReads(c, root, t', k);
  }

  lemma HalfStoredThere(c: Codec, root: Path, t: Tree, k: string, t': Tree, j: string, e: Entry, d: Node)
    requires RootOk(root) && GoodKey(k) && GoodKey(j) && HalfStored(root, t, k, t', d) && Holds(c, root, t, j, e)
    requires Data(root, j) != Data(root, k) && Side(root, j) != Data(root, k)
    ensures GetTree(c, root, t', j) == GetTree(c, root, t, j)
  {
    hide GetTree, Data, Side, GoodKey, TreeOk;
    HeldReads(c, root, t, j, e);
    HeldReads(c, root, t', j, e);
  }

  lemma SideIsMissing(root: Path, t: Tree, k: string, t': Tree, d: Node)
    requires RootOk(root) && GoodKey(k) && HalfStored(root, t, k, t', d) && Side(root, k) !in t
    ensures Find(t', Side(root, k)) == NotExist
  {
    var p, m := Data(root, k), Side(root, k);
    AncestorsAreDirs(t', p);
    AboveParent(p);
    hide Data, Side, GoodKey, Find, Above, TreeOk;
    forall q | Above(q, Parent(m)) ensures !IsFile(t', q) {
      AboveSameLength(q, Parent(m));
    }
    NothingThere(t', m);
  }

  // ---------- a store without leftover directories ----------

  ghost function KeysOf(objs: Objects): iset<string> {
    iset k: string | k in objs
  }

  lemma MoreKeys(c: Codec, root: Path, keys: iset<string>, more: iset<string>, t: Tree, objs: Objects)
    requires Represents(c, root, keys, t, objs) && Family(more) && keys <= more
    ensures Represents(c, root, more, t, objs)
  {
    hide Data, GoodKey, Above, Apart, AllHeld, AllOwned, TreeOk, NoFileAbove;
    forall p | IsDir(t, p) && Above(root, p) && p != root ensures OnTheWay(root, more, p) {
      assert OnTheWay(root, keys, p);
    }
  }

  /** Directories lie only on the way to the objects: a good key can be stored exactly when neither
      it nor its metadata file meets the files of an object. */
  lemma PutSucceedsIff(c: Codec, root: Path, t: Tree, objs: Objects, j: string, data: Bytes, metadata: Metadata, clock: Clock)
    requires Inverse(c) && Represents(c, root, KeysOf(objs), t, objs) && GoodKey(j) && c.marshal(clock.now, metadata).Some?
    ensures PutTree(c, root, t, j, data, metadata, clock).1 == Ok(())
      <==> forall k :: k in objs ==> Apart(j, k) && Apart(k, j)
  {
    hide PutTree, Data, Side, GoodKey, Apart, Above, TreeOk, NoFileAbove, AllOwned, AllOnTheWay, Holds, Inverse;
    if forall k :: k in objs ==> Apart(j, k) && Apart(k, j) {
      var more := KeysOf(objs) + iset{j};
      assert Apart(j, j) by { ApartFromSelf(j); }
      MoreKeys(c, root, KeysOf(objs), more, t, objs);
      PutRefines(c, root, more, t, objs, j, data, metadata, clock);
    } else {
      var k :| k in objs && !(Apart(j, k) && Apart(k, j));
      StoredKeyBlocks(c, root, t, k, objs[k], j);
      StoredFilesBlock(c, root, t, k, objs[k], j);
      BlockedPutFails(c, root, t, j, data, metadata, clock);
    }
  }

  lemma ApartFromSelf(j: string)
    ensures Apart(j, j)
  {
    assert |j + "/"| > |j| && |j + SIDECAR + "/"| > |j|;
  }

  lemma PlainPair(a: string, b: string)
    requires Ordinary(a) && Ordinary(b) && Trimmed(a + ['/'] + b)
    ensures SanitizeKey(a + ['/'] + b) == Key(a + ['/'] + b)
  {
    assert '/' !in a && '/' !in b;
    hide SanitizeKey, Split, Trimmed, Ordinary;
    SplitFirst(a, b, '/');
    SplitSingle(b, '/');
    OrdinaryPair(a, b);
    FixpointIff(a + ['/'] + b);
  }

  lemma OrdinaryPair(a: string, b: string)
    requires Ordinary(a) && Ordinary(b)
    ensures OrdinaryPath([a] + [b])
  {
    hide Ordinary;
  }

  lemma ShortKeyIsGood()
    ensures GoodKey("a")
  {
    hide SanitizeKey, Split;
    SplitSingle("a", '/');
    FixpointIff("a");
    assert OrdinaryPath(["a"]);
  }

  lemma KeyInSidecarIsGood()
    ensures GoodKey("a.meta.json" + ['/'] + "b")
  {
    var k := "a.meta.json" + ['/'] + "b";
    assert |k| == 13 && k[12] == 'b' && k[0] == 'a' && SIDECAR[9] == 'n';
    PlainPair("a.meta.json", "b");
    hide SanitizeKey;
    assert k[|k| - |SIDECAR|..][9] == 'b';
  }

  /** Two good keys, neither a directory of the other, of which only one can be stored. */
  lemma SidecarDirectoryExample()
    ensures var j, k := "a", "a.meta.json" + ['/'] + "b";
      && GoodKey(j) && GoodKey(k)
      && !HasPrefix(k, j + "/") && !HasPrefix(j, k + "/") && HasPrefix(k, j + SIDECAR + "/") && !Apart(j, k)
  {
    ShortKeyIsGood();
    KeyInSidecarIsGood();
    hide GoodKey;
    var j, k := "a", "a.meta.json" + ['/'] + "b";
    assert k[1] == '.' && (j + "/")[1] == '/';
    assert j + SIDECAR + "/" == "a.meta.json" + ['/'];
    assert k[..12] == "a.meta.json" + ['/'];
  }
}

/** The object store refines a map from keys to objects, on families of keys that keep apart. */
module StoreRefinement {
  import opened GoTime
  import opened Text
  import opened FileTree
  import opened ObjectKeys
  import opened StorePaths
  import opened ObjectStore

  datatype Entry = Entry(data: Bytes, metadata: Metadata, createdAt: Time)

  type Objects = map<string, Entry>

  // ---------- the abstraction ----------

  /** The tree holds the object `e` under `key`: its data, and a metadata file that decodes. */
  ghost predicate Holds(c: Codec, root: Path, t: Tree, key: string, e: Entry)
    requires RootOk(root) && GoodKey(key)
  {
    && IsFile(t, Data(root, key)) && t[Data(root, key)].data == e.data
    && IsFile(t, Side(root, key)) && c.unmarshal(t[Side(root, key)].data) == Some((e.createdAt, e.metadata))
  }

  ghost predicate AllGood(objs: Objects) {
    forall k :: k in objs ==> GoodKey(k)
  }

  ghost predicate Owned(root: Path, objs: Objects, p: Path)
    requires RootOk(root) && AllGood(objs)
  {
    exists k :: k in objs && (p == Data(root, k) || p == Side(root, k))
  }

  /** A directory on the way to some key of the family. */
  ghost predicate OnTheWay(root: Path, keys: iset<string>, p: Path)
    requires RootOk(root) && Family(keys)
  {
    exists k :: k in keys && Above(p, Parent(Data(root, k)))
  }

  ghost predicate AllHeld(c: Codec, root: Path, t: Tree, objs: Objects)
    requires RootOk(root) && AllGood(objs)
  {
    forall k :: k in objs ==> Holds(c, root, t, k, objs[k])
  }

  /** Every file below the root belongs to an object. */
  ghost predicate AllOwned(root: Path, t: Tree, objs: Objects)
    requires RootOk(root) && AllGood(objs)
  {
    forall p :: IsFile(t, p) && Above(root, p) ==> Owned(root, objs, p)
  }

  ghost predicate AllOnTheWay(root: Path, keys: iset<string>, t: Tree)
    requires RootOk(root) && Family(keys)
  {
    forall p :: IsDir(t, p) && Above(root, p) && p != root ==> OnTheWay(root, keys, p)
  }

  /** Below the root there are the two files of every object, directories on the way to keys of
      the family, and nothing else. */
  ghost predicate Represents(c: Codec, root: Path, keys: iset<string>, t: Tree, objs: Objects) {
    && RootOk(root) && Family(keys) && TreeOk(t) && NoFileAbove(t, root)
    && (forall k :: k in objs ==> k in keys)
    && AllHeld(c, root, t, objs) && AllOwned(root, t, objs) && AllOnTheWay(root, keys, t)
  }

  /** An empty directory below directories holds no objects. */
  lemma EmptyRootRepresents(c: Codec, root: Path, keys: iset<string>, t: Tree)
    requires RootOk(root) && Family(keys) && TreeOk(t) && NoFileAbove(t, root)
    requires forall p :: p in t && Above(root, p) ==> p == root
    ensures Represents(c, root, keys, t, map[])
  {
    hide Family, GoodKey, Above, TreeOk;
    assert IsFile(t, root) ==> Above(root, root) by { AboveSelf(root); }
  }

  lemma AboveSelf(p: Path)
    ensures Above(p, p)
  {
  }

  // ---------- the way to a key is free ----------

  lemma AboveSameLength(p: Path, q: Path)
    ensures Above(p, q) ==> |p| <= |q|
    ensures Above(p, q) && |p| == |q| ==> p == q
  {
  }

  lemma AboveChain(p: Path, q: Path, r: Path)
    requires Above(p, q) && Above(q, r)
    ensures Above(p, r)
  {
  }

  lemma AboveCompare(p: Path, q: Path, r: Path)
    requires Above(p, r) && Above(q, r)
    ensures Above(p, q) || Above(q, p)
  {
    if |p| <= |q| {
      assert p == r[..|p|] && q == r[..|q|];
      assert q[..|p|] == p;
    } else {
      assert p == r[..|p|] && q == r[..|q|];
      assert p[..|q|] == q;
    }
  }

  lemma RootAboveData(root: Path, k: string)
    requires RootOk(root) && GoodKey(k)
    ensures Above(root, Parent(Data(root, k))) && Above(root, Data(root, k)) && Above(root, Side(root, k))
    ensures Above(Parent(Data(root, k)), Data(root, k)) && Above(Parent(Data(root, k)), Side(root, k))
  {
    hide GoodKey, RootOk;
    var p, up := Data(root, k), Parent(Data(root, k));
    assert root == p[..|root|] == up[..|root|];
    assert p == up + [Name(p)];
    assert Side(root, k) == up + [Name(Side(root, k))];
  }

  lemma AboveIsNoFileOf(root: Path, keys: iset<string>, j: string, k: string, q: Path)
    requires RootOk(root) && Family(keys) && j in keys && k in keys && Above(q, Parent(Data(root, k)))
    ensures q != Data(root, j) && q != Side(root, j)
  {
    assert GoodKey(k);
    RootAboveData(root, k);
    AboveChain(q, Parent(Data(root, k)), Data(root, k));
    AboveSameLength(q, Parent(Data(root, k)));
    hide Data, Side, GoodKey, Above, Family, RootOk;
    NothingInTheWay(root, keys, j, k);
  }

  /** No path above a key of the family belongs to an object. */
  lemma AboveIsNotOwned(root: Path, keys: iset<string>, objs: Objects, k: string, q: Path)
    requires RootOk(root) && Family(keys) && k in keys && AllGood(objs) && (forall j :: j in objs ==> j in keys)
    requires Above(q, Parent(Data(root, k)))
    ensures !Owned(root, objs, q)
  {
    hide Data, Side, GoodKey, Above, Apart, RootOk;
    forall j | j in objs ensures q != Data(root, j) && q != Side(root, j) {
      AboveIsNoFileOf(root, keys, j, k, q);
    }
  }

  /** No file stands in the way of a key of the family. */
  lemma WayIsFree(c: Codec, root: Path, keys: iset<string>, t: Tree, objs: Objects, k: string)
    requires Represents(c, root, keys, t, objs) && k in keys
    ensures NoFileAbove(t, Parent(Data(root, k)))
  {
    assert GoodKey(k);
    RootAboveData(root, k);
    hide Data, Side, Owned, GoodKey, Above, TreeOk, AllHeld, AllOnTheWay, Family, RootOk;
    var up := Parent(Data(root, k));
    forall q | Above(q, up) ensures !IsFile(t, q) {
      AboveCompare(q, root, up);
      AboveIsNotOwned(root, keys, objs, k, q);
    }
  }

  /** No directory stands where a key of the family keeps its files. */
  lemma PlaceIsNoDir(c: Codec, root: Path, keys: iset<string>, t: Tree, objs: Objects, k: string)
    requires Represents(c, root, keys, t, objs) && k in keys
    ensures !IsDir(t, Data(root, k)) && !IsDir(t, Side(root, k))
  {
    assert GoodKey(k);
    RootAboveData(root, k);
    hide Data, Side, Holds, Owned, GoodKey, Above, TreeOk;
    forall p | p == Data(root, k) || p == Side(root, k) ensures !IsDir(t, p) {
      if IsDir(t, p) {
        assert p != root;
        var j :| j in keys && Above(p, Parent(Data(root, j)));
        RootAboveData(root, j);
        AboveChain(p, Parent(Data(root, j)), Data(root, j));
        AboveSameLength(p, Parent(Data(root, j)));
        NothingInTheWay(root, keys, k, j);
        assert false;
      }
    }
  }

  /** The files of two keys are four different files. */
  lemma FourFiles(root: Path, keys: iset<string>, j: string, k: string)
    requires RootOk(root) && Family(keys) && j in keys && k in keys
    ensures Data(root, j) != Side(root, k) && Data(root, k) != Side(root, j)
    ensures j != k ==> Data(root, j) != Data(root, k) && Side(root, j) != Side(root, k)
  {
    hide Data, Side, GoodKey;
    SamePathSameKey(root, j, k);
    SamePathSameKey(root, k, j);
  }

  lemma NotOwned(root: Path, keys: iset<string>, objs: Objects, k: string)
    requires RootOk(root) && Family(keys) && k in keys && k !in objs && forall j :: j in objs ==> j in keys
    ensures !Owned(root, objs, Data(root, k)) && !Owned(root, objs, Side(root, k))
  {
    hide Data, Side, GoodKey, Apart;
    forall j | j in objs
      ensures Data(root, j) != Data(root, k) && Data(root, j) != Side(root, k)
      ensures Side(root, j) != Data(root, k) && Side(root, j) != Side(root, k)
    {
      FourFiles(root, keys, j, k);
    }
  }

  /** A key without an object has no files. */
  lemma AbsentHasNoFiles(c: Codec, root: Path, keys: iset<string>, t: Tree, objs: Objects, k: string)
    requires Represents(c, root, keys, t, objs) && k in keys && k !in objs
    ensures Data(root, k) !in t && Side(root, k) !in t
  {
    PlaceIsNoDir(c, root, keys, t, objs, k);
    NotOwned(root, keys, objs, k);
    assert GoodKey(k);
    RootAboveData(root, k);
    hide Data, Side, Holds, OnTheWay, Owned, GoodKey, Above, TreeOk, Family, NoFileAbove;
    assert !IsFile(t, Data(root, k)) && !IsFile(t, Side(root, k));
  }

  // ---------- storing ----------

  /** What storing adds to the tree: the missing directories and the two files. */
  ghost predicate Stored(root: Path, t: Tree, k: string, t': Tree, d: Node, m: Node)
    requires RootOk(root) && GoodKey(k)
  {
    && (forall p :: p in t' <==> p in t || Above(p, Parent(Data(root, k))) || p == Data(root, k) || p == Side(root, k))
    && (forall p :: p in t && p != Data(root, k) && p != Side(root, k) ==> t'[p] == t[p])
    && (forall p :: p in t' && p !in t && p != Data(root, k) && p != Side(root, k) ==> t'[p].Dir?)
    && IsFile(t', Data(root, k)) && t'[Data(root, k)] == d
    && IsFile(t', Side(root, k)) && t'[Side(root, k)] == m
  }

  lemma PutTreeIs(c: Codec, root: Path, t: Tree, k: string, data: Bytes, metadata: Metadata, clock: Clock)
    requires RootOk(root) && GoodKey(k)
    ensures var d, m := Data(root, k), Side(root, k);
      var made, bytes := MkdirAll(t, Parent(d)), c.marshal(clock.now, metadata);
      made.Some? && bytes.Some? && WriteFile(made.value, d, data, clock.dataWritten).Some? ==>
        var t2 := WriteFile(made.value, d, data, clock.dataWritten).value;
        var w := WriteFile(t2, m, bytes.value, clock.sidecarWritten);
        PutTree(c, root, t, k, data, metadata, clock) == if w.Some? then (w.value, Ok(())) else (t2, Err(Failed))
  {
    hide SanitizeKey, MkdirAll, WriteFile, DataPath, SidecarPath, HasSuffix;
  }

  lemma StoredIs(root: Path, t: Tree, k: string, t1: Tree, d: Node, m: Node)
    requires RootOk(root) && GoodKey(k) && Made(t, Parent(Data(root, k)), t1) && d.File? && m.File?
    requires Data(root, k) != Side(root, k)
    ensures Stored(root, t, k, t1[Data(root, k) := d][Side(root, k) := m], d, m)
  {
    hide Data, Side, GoodKey, Above;
  }

  lemma StoreWrites(c: Codec, root: Path, keys: iset<string>, t: Tree, objs: Objects, k: string, data: Bytes, metadata: Metadata, clock: Clock)
    requires Represents(c, root, keys, t, objs) && k in keys && c.marshal(clock.now, metadata).Some?
    ensures var r := PutTree(c, root, t, k, data, metadata, clock);
      && r.1 == Ok(()) && TreeOk(r.0)
      && Stored(root, t, k, r.0, File(data, clock.dataWritten), File(c.marshal(clock.now, metadata).value, clock.sidecarWritten))
  {
    WayIsFree(c, root, keys, t, objs, k);
    PlaceIsNoDir(c, root, keys, t, objs, k);
    FourFiles(root, keys, k, k);
    assert GoodKey(k) && RootOk(root) && TreeOk(t);
    hide PutTree, MkdirAll, TreeOk, Represents, Family, GoodKey, Data, Side, Made, Stored, NoFileAbove;
    var d, m, up, bytes := Data(root, k), Side(root, k), Parent(Data(root, k)), c.marshal(clock.now, metadata).value;
    WriteBoth(t, d, m, up, data, bytes, clock) by { SideIsOrdinary(root, k); }
    PutTreeIs(c, root, t, k, data, metadata, clock);
    StoredIs(root, t, k, MkdirAll(t, up).value, File(data, clock.dataWritten), File(bytes, clock.sidecarWritten));
  }

  lemma WriteBoth(t: Tree, d: Path, m: Path, up: Path, data: Bytes, bytes: Bytes, clock: Clock)
    requires TreeOk(t) && NoFileAbove(t, up) && !IsDir(t, d) && !IsDir(t, m)
    requires d != [] && m != [] && d != m && Parent(d) == Parent(m) == up && OrdinaryPath(d) && Ordinary(Name(m))
    ensures MkdirAll(t, up).Some?
    ensures WriteFile(MkdirAll(t, up).value, d, data, clock.dataWritten).Some?
    ensures var t2 := WriteFile(MkdirAll(t, up).value, d, data, clock.dataWritten).value;
      var w := WriteFile(t2, m, bytes, clock.sidecarWritten);
      && w.Some? && TreeOk(w.value)
      && w.value == MkdirAll(t, up).value[d := File(data, clock.dataWritten)][m := File(bytes, clock.sidecarWritten)]
      && Made(t, up, MkdirAll(t, up).value)
  {
    MkdirAllMakes(t, up);
    hide Ordinary, TreeOk, MkdirAll;
    var t1 := MkdirAll(t, up).value;
    assert OrdinaryPath(up);
    MadeKeepsTree(t, up, t1);
    AboveSelf(up);
    AboveSameLength(d, up);
    AboveSameLength(m, up);
    assert IsDir(t1, up) && !IsDir(t1, d) && !IsDir(t1, m);
    assert Ordinary(Name(d));
    WriteKeepsTree(t1, d, data, clock.dataWritten);
    var t2 := WriteFile(t1, d, data, clock.dataWritten).value;
    WriteKeepsTree(t2, m, bytes, clock.sidecarWritten);
  }

  lemma StoredKeepsRoot(root: Path, t: Tree, k: string, t': Tree, d: Node, m: Node)
    requires RootOk(root) && GoodKey(k) && NoFileAbove(t, root) && Stored(root, t, k, t', d, m)
    ensures NoFileAbove(t', root)
  {
    hide Data, Side, GoodKey, Above;
    forall q | Above(q, root) ensures !IsFile(t', q) {
      AboveSameLength(q, root);
      assert q != Data(root, k) && q != Side(root, k);
      assert !IsFile(t, q);
    }
  }

  lemma StoredKeepsOthers(c: Codec, root: Path, keys: iset<string>, t: Tree, k: string, t': Tree, d: Node, m: Node, j: string, e: Entry)
    requires RootOk(root) && Family(keys) && j in keys && k in keys && j != k
    requires Stored(root, t, k, t', d, m) && Holds(c, root, t, j, e)
    ensures Holds(c, root, t', j, e)
  {
    FourFiles(root, keys, j, k);
    hide Data, Side, GoodKey, Above, Family;
  }

  lemma StoredKeepsOwners(root: Path, t: Tree, objs: Objects, k: string, e: Entry, t': Tree, d: Node, m: Node)
    requires RootOk(root) && AllGood(objs) && GoodKey(k) && AllOwned(root, t, objs) && Stored(root, t, k, t', d, m)
    ensures AllOwned(root, t', objs[k := e])
  {
    hide Data, Side, GoodKey, Above;
    var after := objs[k := e];
    forall p | IsFile(t', p) && Above(root, p) ensures Owned(root, after, p) {
      if p != Data(root, k) && p != Side(root, k) {
        assert IsFile(t, p);
        assert Owned(root, objs, p);
        var j :| j in objs && (p == Data(root, j) || p == Side(root, j));
        assert j in after;
      } else {
        assert k in after;
      }
    }
  }

  lemma IsOnTheWay(root: Path, keys: iset<string>, k: string)
    requires RootOk(root) && Family(keys) && k in keys
    ensures forall p :: Above(p, Parent(Data(root, k))) ==> OnTheWay(root, keys, p)
  {
    hide Data, Above, GoodKey, Apart;
  }

  lemma StoredDir(root: Path, t: Tree, k: string, t': Tree, d: Node, m: Node, p: Path)
    requires RootOk(root) && GoodKey(k) && Stored(root, t, k, t', d, m) && d.File? && m.File? && IsDir(t', p)
    ensures IsDir(t, p) || Above(p, Parent(Data(root, k)))
  {
    hide Data, Side, GoodKey, Above;
    assert p != Data(root, k) && p != Side(root, k);
  }

  lemma StoredKeepsDirs(root: Path, keys: iset<string>, t: Tree, k: string, t': Tree, d: Node, m: Node)
    requires RootOk(root) && Family(keys) && k in keys && AllOnTheWay(root, keys, t)
    requires Stored(root, t, k, t', d, m) && d.File? && m.File?
    ensures AllOnTheWay(root, keys, t')
  {
    IsOnTheWay(root, keys, k);
    hide Data, Side, GoodKey, Above, Apart, OnTheWay, Stored;
    forall p | IsDir(t', p) && Above(root, p) && p != root ensures OnTheWay(root, keys, p) {
      StoredDir(root, t, k, t', d, m, p);
    }
  }

  lemma StoredHolds(c: Codec, root: Path, t: Tree, k: string, t': Tree, d: Node, m: Node, e: Entry)
    requires RootOk(root) && GoodKey(k) && Stored(root, t, k, t', d, m)
    requires d.File? && d.data == e.data && m.File? && c.unmarshal(m.data) == Some((e.createdAt, e.metadata))
    ensures Holds(c, root, t', k, e)
  {
    hide Data, Side, GoodKey, Above;
  }

  lemma StoredKeepsHeld(c: Codec, root: Path, keys: iset<string>, t: Tree, objs: Objects, k: string, e: Entry, t': Tree, d: Node, m: Node)
    requires RootOk(root) && Family(keys) && k in keys && (forall j :: j in objs ==> j in keys)
    requires AllHeld(c, root, t, objs) && Stored(root, t, k, t', d, m)
    requires d.File? && d.data == e.data && m.File? && c.unmarshal(m.data) == Some((e.createdAt, e.metadata))
    ensures AllHeld(c, root, t', objs[k := e])
  {
    hide Holds, Stored, GoodKey, Apart;
    StoredHolds(c, root, t, k, t', d, m, e);
    forall j | j in objs && j != k ensures Holds(c, root, t', j, objs[j]) {
      StoredKeepsOthers(c, root, keys, t, k, t', d, m, j, objs[j]);
    }
  }

  lemma FamilyIsGood(keys: iset<string>, objs: Objects)
    requires Family(keys) && forall k :: k in objs ==> k in keys
    ensures AllGood(objs)
  {
    hide GoodKey, Apart;
  }

  /** Storing replaces the object of the key and leaves every other key alone. */
  lemma PutRefines(c: Codec, root: Path, keys: iset<string>, t: Tree, objs: Objects, k: string, data: Bytes, metadata: Metadata, clock: Clock)
    requires Inverse(c) && Represents(c, root, keys, t, objs) && k in keys && c.marshal(clock.now, metadata).Some?
    ensures var r := PutTree(c, root, t, k, data, metadata, clock);
      r.1 == Ok(()) && Represents(c, root, keys, r.0, objs[k := Entry(data, metadata, clock.now)])
  {
    StoreWrites(c, root, keys, t, objs, k, data, metadata, clock);
    assert GoodKey(k);
    hide PutTree, Data, Side, GoodKey, Family, Stored, TreeOk, NoFileAbove, AllOwned, AllOnTheWay, AllHeld;
    var t', e := PutTree(c, root, t, k, data, metadata, clock).0, Entry(data, metadata, clock.now);
    var d, m := File(data, clock.dataWritten), File(c.marshal(clock.now, metadata).value, clock.sidecarWritten);
    StoredKeepsRoot(root, t, k, t', d, m);
    FamilyIsGood(keys, objs[k := e]);
    StoredKeepsOwners(root, t, objs, k, e, t', d, m);
    StoredKeepsDirs(root, keys, t, k, t', d, m);
    StoredKeepsHeld(c, root, keys, t, objs, k, e, t', d, m);
  }

  // ---------- reading ----------

  lemma ReadStored(c: Codec, root: Path, t: Tree, k: string, e: Entry)
    requires RootOk(root) && GoodKey(k) && Holds(c, root, t, k, e)
    ensures ReadMetadata(c, t, Data(root, k)) == (e.createdAt, e.metadata)
    ensures Find(t, Data(root, k)) == Found(t[Data(root, k)])
  {
    FindPresent(t, Data(root, k));
    FindPresent(t, Side(root, k));
    assert Side(root, k) == SidecarPath(Data(root, k));
    hide Data, Side, GoodKey, Find, SidecarPath;
  }

  /** Reading returns exactly the last object stored under the key, or reports that there is none. */
  lemma GetRefines(c: Codec, root: Path, keys: iset<string>, t: Tree, objs: Objects, k: string)
    requires Represents(c, root, keys, t, objs) && k in keys
    ensures GetTree(c, root, t, k)
            == if k in objs then Ok(Object(k, objs[k].data, objs[k].metadata, objs[k].createdAt)) else Err(NotFound)
  {
    var d := Data(root, k);
    assert GoodKey(k);
    if k in objs {
      ReadStored(c, root, t, k, objs[k]);
    } else {
      AbsentHasNoFiles(c, root, keys, t, objs, k);
      DataIsAbsent(c, root, keys, t, objs, k);
    }
    hide ReadMetadata, Find, Represents, Family, DataPath, SanitizeKey;
    assert d == DataPath(root, k);
  }

  lemma DataIsAbsent(c: Codec, root: Path, keys: iset<string>, t: Tree, objs: Objects, k: string)
    requires Represents(c, root, keys, t, objs) && k in keys && k !in objs
    ensures Find(t, Data(root, k)) == NotExist && Find(t, Side(root, k)) == NotExist
  {
    AbsentHasNoFiles(c, root, keys, t, objs, k);
    WayIsFree(c, root, keys, t, objs, k);
    assert GoodKey(k);
    hide Data, Side, GoodKey, Family, Find, Holds, Owned, OnTheWay;
    NothingThere(t, Data(root, k));
    NothingThere(t, Side(root, k));
  }

  lemma NothingThere(t: Tree, p: Path)
    requires TreeOk(t) && p != [] && p !in t && NoFileAbove(t, Parent(p))
    ensures Find(t, p) == NotExist
  {
    FindAbsent(t, p);
    AboveParent(p);
    hide Above;
  }

  // ---------- deleting ----------

  lemma RemoveBoth(t: Tree, d: Path, m: Path)
    requires IsFile(t, d) && IsFile(t, m) && d != m
    ensures Remove(t, d) == Some(t - {d}) && Remove(t - {d}, m) == Some(t - {d} - {m})
  {
    FindPresent(t, d);
    FindPresent(t - {d}, m);
  }

  lemma DeleteTreeIs(root: Path, t: Tree, k: string)
    requires RootOk(root) && GoodKey(k)
    ensures var first := Remove(t, Data(root, k));
      first.Some? && Remove(first.value, Side(root, k)).Some?
      ==> DeleteTree(root, t, k) == (Remove(first.value, Side(root, k)).value, Ok(()))
  {
    hide SanitizeKey, Remove, DataPath, SidecarPath, HasSuffix;
  }

  /** Nothing but the two files of `k` is gone. */
  ghost predicate Deleted(root: Path, t: Tree, k: string, t': Tree)
    requires RootOk(root) && GoodKey(k)
  {
    && (forall p :: p in t' <==> p in t && p != Data(root, k) && p != Side(root, k))
    && (forall p :: p in t' ==> t'[p] == t[p])
  }

  lemma DeletedIs(root: Path, t: Tree, k: string)
    requires RootOk(root) && GoodKey(k)
    ensures Deleted(root, t, k, t - {Data(root, k)} - {Side(root, k)})
    ensures Data(root, k) !in t && Side(root, k) !in t ==> Deleted(root, t, k, t)
  {
    hide Data, Side, GoodKey;
  }

  lemma DeleteWrites(c: Codec, root: Path, keys: iset<string>, t: Tree, objs: Objects, k: string)
    requires Represents(c, root, keys, t, objs) && k in keys
    ensures var r := DeleteTree(root, t, k); r.1 == Ok(()) && TreeOk(r.0) && Deleted(root, t, k, r.0)
  {
    DeleteTreeIs(root, t, k);
    DeletedIs(root, t, k);
    FourFiles(root, keys, k, k);
    assert GoodKey(k) && TreeOk(t);
    if k in objs {
      assert Holds(c, root, t, k, objs[k]);
      hide DeleteTree, Data, Side, GoodKey, Find, TreeOk, Represents, Deleted, Remove;
      RemoveBoth(t, Data(root, k), Side(root, k));
      RemoveKeepsTree(t, Data(root, k));
      RemoveKeepsTree(t - {Data(root, k)}, Side(root, k));
    } else {
      AbsentHasNoFiles(c, root, keys, t, objs, k);
      DataIsAbsent(c, root, keys, t, objs, k);
      hide DeleteTree, Data, Side, GoodKey, Find, TreeOk, Represents, Deleted;
    }
  }

  lemma DeletedKeepsOthers(c: Codec, root: Path, keys: iset<string>, t: Tree, k: string, t': Tree, j: string, e: Entry)
    requires RootOk(root) && Family(keys) && j in keys && k in keys && j != k
    requires Deleted(root, t, k, t') && Holds(c, root, t, j, e)
    ensures Holds(c, root, t', j, e)
  {
    FourFiles(root, keys, j, k);
    hide Data, Side, GoodKey, Family;
  }

  lemma DeletedKeepsHeld(c: Codec, root: Path, keys: iset<string>, t: Tree, objs: Objects, k: string, t': Tree)
    requires RootOk(root) && Family(keys) && k in keys && (forall j :: j in objs ==> j in keys)
    requires AllHeld(c, root, t, objs) && Deleted(root, t, k, t')
    ensures AllHeld(c, root, t', objs - {k})
  {
    hide Holds, Deleted, GoodKey, Apart;
    forall j | j in objs && j != k ensures Holds(c, root, t', j, objs[j]) {
      DeletedKeepsOthers(c, root, keys, t, k, t', j, objs[j]);
    }
  }

  lemma DeletedKeepsOwners(root: Path, t: Tree, objs: Objects, k: string, t': Tree)
    requires RootOk(root) && AllGood(objs) && GoodKey(k) && AllOwned(root, t, objs) && Deleted(root, t, k, t')
    ensures AllOwned(root, t', objs - {k})
  {
    hide Data, Side, GoodKey, Above;
    var after := objs - {k};
    forall p | IsFile(t', p) && Above(root, p) ensures Owned(root, after, p) {
      assert IsFile(t, p);
      assert Owned(root, objs, p);
      var j :| j in objs && (p == Data(root, j) || p == Side(root, j));
      assert j in after;
    }
  }

  lemma DeletedKeepsDirs(root: Path, keys: iset<string>, t: Tree, k: string, t': Tree)
    requires RootOk(root) && Family(keys) && GoodKey(k) && NoFileAbove(t, root) && AllOnTheWay(root, keys, t) && Deleted(root, t, k, t')
    ensures AllOnTheWay(root, keys, t') && NoFileAbove(t', root)
  {
    hide Data, Side, GoodKey, Above, Family, OnTheWay;
    forall p | IsDir(t', p) && Above(root, p) && p != root ensures OnTheWay(root, keys, p) {
      assert IsDir(t, p);
    }
    forall p | Above(p, root) ensures !IsFile(t', p) {
      assert !IsFile(t, p);
    }
  }

  /** Deleting removes the object of the key, if any, and leaves every other key alone. */
  lemma DeleteRefines(c: Codec, root: Path, keys: iset<string>, t: Tree, objs: Objects, k: string)
    requires Represents(c, root, keys, t, objs) && k in keys
    ensures var r := DeleteTree(root, t, k);
      r.1 == Ok(()) && Represents(c, root, keys, r.0, objs - {k})
  {
    DeleteWrites(c, root, keys, t, objs, k);
    assert GoodKey(k);
    hide DeleteTree, Data, Side, GoodKey, Family, TreeOk, NoFileAbove, AllOwned, AllOnTheWay, AllHeld, Deleted;
    var t' := DeleteTree(root, t, k).0;
    FamilyIsGood(keys, objs - {k});
    DeletedKeepsHeld(c, root, keys, t, objs, k, t');
    DeletedKeepsOwners(root, t, objs, k, t');
    DeletedKeepsDirs(root, keys, t, k, t');
  }
}

/** The local object store: objects and their metadata as pairs of files below a root directory. */
module ObjectStore {
  import opened GoTime
  import opened Text
  import opened Ordering
  import opened FileTree
  import opened ObjectKeys
  import opened StorePaths

  type Metadata = map<string, string>

  /** The JSON form of a creation time with metadata; encoding can fail, decoding can too. */
  datatype Codec = Codec(marshal: (Time, Metadata) -> Option<Bytes>, unmarshal: Bytes -> Option<(Time, Metadata)>)

  ghost predicate Inverse(c: Codec) {
    forall at: Time, m: Metadata :: c.marshal(at, m).Some? ==> c.unmarshal(c.marshal(at, m).value) == Some((at, m))
  }

  datatype StoreError = RefusedKey | NotFound | Failed

  datatype Outcome<+T> = Ok(value: T) | Err(error: StoreError)

  datatype Object = Object(key: string, data: Bytes, metadata: Metadata, createdAt: Time)

  datatype Info = Info(key: string, createdAt: Time)

  /** The times a call reads: the store's clock, and the file system's for the two files written. */
  datatype Clock = Clock(now: Time, dataWritten: Time, sidecarWritten: Time)

  // ---------- what the operations do to the tree ----------

  function PutTree(c: Codec, root: Path, t: Tree, key: string, data: Bytes, metadata: Metadata, clock: Clock): (Tree, Outcome<()>)
    requires RootOk(root)
  {
    match SanitizeKey(key)
    case KeyRequired => (t, Err(RefusedKey))
    case InvalidPath => (t, Err(RefusedKey))
    case Key(safe) =>
      var path := DataPath(root, safe);
      DataPathBelow(root, key);
      match MkdirAll(t, Parent(path))
      case None => (t, Err(Failed))
      case Some(t1) =>
        match WriteFile(t1, path, data, clock.dataWritten)
        case None => (t1, Err(Failed))
        case Some(t2) =>
          match c.marshal(clock.now, metadata)
          case None => (t2, Err(Failed))
          case Some(bytes) =>
            match WriteFile(t2, SidecarPath(path), bytes, clock.sidecarWritten)
            case None => (t2, Err(Failed))
            case Some(t3) => (t3, Ok(()))
  }

  /** Creation time and metadata; without a readable metadata file, the object's modification time. */
  function ReadMetadata(c: Codec, t: Tree, path: Path): (Time, Metadata)
    requires path != []
  {
    match Find(t, SidecarPath(path))
    case Found(File(bytes, _)) =>
      (match c.unmarshal(bytes)
       case Some(meta) => meta
       case None => (ZERO_TIME, map[]))
    case _ =>
      match Find(t, path)
      case Found(File(_, modTime)) => (modTime, map[])
      case _ => (ZERO_TIME, map[])
  }

  function GetTree(c: Codec, root: Path, t: Tree, key: string): Outcome<Object>
    requires RootOk(root)
  {
    match SanitizeKey(key)
    case KeyRequired => Err(RefusedKey)
    case InvalidPath => Err(RefusedKey)
    case Key(safe) =>
      var path := DataPath(root, safe);
      DataPathBelow(root, key);
      match Find(t, path)
      case NotExist => Err(NotFound)
      case Found(File(data, _)) =>
        var (createdAt, metadata) := ReadMetadata(c, t, path);
        Ok(Object(safe, data, metadata, createdAt))
      case _ => Err(Failed)
  }

  function DeleteTree(root: Path, t: Tree, key: string): (Tree, Outcome<()>)
    requires RootOk(root)
  {
    match SanitizeKey(key)
    case KeyRequired => (t, Err(RefusedKey))
    case InvalidPath => (t, Err(RefusedKey))
    case Key(safe) =>
      var path := DataPath(root, safe);
      DataPathBelow(root, key);
      match Remove(t, path)
      case None => (t, Err(Failed))
      case Some(t1) =>
        match Remove(t1, SidecarPath(path))
        case None => (t1, Err(Failed))
        case Some(t2) => (t2, Ok(()))
  }

  lemma DataPathBelow(root: Path, key: string)
    requires RootOk(root)
    ensures SanitizeKey(key).Key? ==> DataPath(root, SanitizeKey(key).key) != []
  {
    hide SanitizeKey, DataPath;
    if SanitizeKey(key).Key? {
      AcceptedStaysBelow(root, key);
    }
  }

  // ---------- listing ----------

  /** The files below the root that are objects, not metadata. */
  predicate Listed(root: Path, t: Tree, p: Path) {
    IsFile(t, p) && Above(root, p) && p != [] && !HasSuffix(Name(p), SIDECAR)
  }

  function KeyOf(root: Path, p: Path): string {
    if |p| <= |root| then "." else Join(p[|root|..], '/')
  }

  function InfoOf(c: Codec, root: Path, t: Tree, p: Path): Info
    requires p != []
  {
    Info(KeyOf(root, p), ReadMetadata(c, t, p).0)
  }

  function InfoKey(i: Info): Ordering.Key {
    [Ordering.Text(i.key)]
  }

  ghost predicate Selected(c: Codec, root: Path, t: Tree, prefix: string, p: Path, info: Info) {
    Listed(root, t, p) && HasPrefix(KeyOf(root, p), prefix) && info == InfoOf(c, root, t, p)
  }

  /** One entry for every object below the root whose key starts with the prefix, by key. */
  ghost predicate IsListing(c: Codec, root: Path, t: Tree, prefix: string, infos: seq<Info>) {
    && StrictlySorted(infos, InfoKey)
    && (forall i :: i in infos <==> exists p :: Selected(c, root, t, prefix, p, i))
  }

  lemma ListingUnique(c: Codec, root: Path, t: Tree, prefix: string, a: seq<Info>, b: seq<Info>)
    requires IsListing(c, root, t, prefix, a) && IsListing(c, root, t, prefix, b)
    ensures a == b
  {
    hide Selected;
    StrictlySortedUnique(a, b, InfoKey);
  }

  lemma {:induction false} TreePathOrdinary(t: Tree, p: Path)
    requires TreeOk(t) && p in t
    ensures OrdinaryPath(p)
    decreases |p|
  {
    hide Ordinary;
    if p != [] {
      assert Linked(t, p);
      TreePathOrdinary(t, Parent(p));
      assert p == Parent(p) + [Name(p)];
    }
  }

  /** Different files are listed under different keys. */
  lemma KeyOfInjective(root: Path, t: Tree, p: Path, q: Path)
    requires TreeOk(t) && Listed(root, t, p) && Listed(root, t, q) && KeyOf(root, p) == KeyOf(root, q)
    ensures p == q
  {
    TreePathOrdinary(t, p);
    TreePathOrdinary(t, q);
    RelativeKey(root, p);
    RelativeKey(root, q);
    assert |p| >= |root| && p[..|root|] == root && |q| >= |root| && q[..|root|] == root;
    hide Split, Join, KeyOf, Listed, Ordinary;
    assert p == p[..|root|] + p[|root|..] && q == q[..|root|] + q[|root|..];
  }

  /** The key of a file splits into the names below the root. */
  lemma RelativeKey(root: Path, p: Path)
    requires OrdinaryPath(p) && Above(root, p)
    ensures |p| > |root| ==> Split(KeyOf(root, p), '/') == p[|root|..] && KeyOf(root, p) != "."
    ensures |p| <= |root| ==> KeyOf(root, p) == "." && p[|root|..] == []
  {
    if |p| > |root| {
      var names := p[|root|..];
      forall n | n in names ensures '/' !in n { assert Ordinary(n); }
      SplitJoin(names, '/');
      assert Ordinary(names[0]);
      SplitSingle(".", '/');
    }
  }

  // ---------- retention ----------

  predicate Expired(info: Info, cutoff: Time) {
    info.createdAt != ZERO_TIME && info.createdAt < cutoff
  }

  function Candidates(infos: seq<Info>, cutoff: Time): seq<Info> {
    if infos == [] then []
    else
      var k := |infos| - 1;
      Candidates(infos[..k], cutoff) + (if Expired(infos[k], cutoff) then [infos[k]] else [])
  }

  /** Deleting the expired objects of a listing in order, up to the first failure. */
  function Sweep(root: Path, t: Tree, infos: seq<Info>, cutoff: Time): (Tree, Outcome<()>)
    requires RootOk(root)
  {
    if infos == [] then (t, Ok(()))
    else
      var k := |infos| - 1;
      var (t', done) := Sweep(root, t, infos[..k], cutoff);
      if done.Err? || !Expired(infos[k], cutoff) then (t', done) else DeleteTree(root, t', infos[k].key)
  }

  lemma {:induction false} SweepStops(root: Path, t: Tree, infos: seq<Info>, cutoff: Time, i: nat)
    requires RootOk(root) && i <= |infos|
    ensures Sweep(root, t, infos[..i], cutoff).1.Err? ==> Sweep(root, t, infos, cutoff) == Sweep(root, t, infos[..i], cutoff)
    decreases |infos|
  {
    hide DeleteTree, Expired;
    assert infos[..|infos|] == infos;
    if i < |infos| {
      var k := |infos| - 1;
      assert infos[..k][..i] == infos[..i];
      SweepStops(root, t, infos[..k], cutoff, i);
    }
  }

  /** What a retention run over a listing returns and leaves. */
  ghost predicate Retained(root: Path, t: Tree, infos: seq<Info>, cutoff: Time, dryRun: bool, t': Tree, r: Outcome<seq<Info>>) {
    && RootOk(root)
    && if dryRun then t' == t && r == Ok(Candidates(infos, cutoff))
       else
         var (swept, done) := Sweep(root, t, infos, cutoff);
         t' == swept && r == if done.Err? then Err(done.error) else Ok(Candidates(infos, cutoff))
  }

  datatype RetentionPolicy = RetentionPolicy(prefix: string, maxAge: int, dryRun: bool)

  /** What `ApplyRetention` returns and leaves. */
  ghost predicate Ran(c: Codec, root: Path, t: Tree, policy: RetentionPolicy, now: Time, t': Tree, r: Outcome<seq<Info>>) {
    if policy.maxAge <= 0 then r == Ok([]) && t' == t
    else if Find(t, root) == NotDirectory then r == Err(Failed) && t' == t
    else
      exists infos :: IsListing(c, root, t, policy.prefix, infos) && Retained(root, t, infos, now - policy.maxAge, policy.dryRun, t', r)
  }

  /** The retention loop has handled the first `i` entries of the listing without a failure. */
  ghost predicate Swept(root: Path, t: Tree, infos: seq<Info>, i: nat, cutoff: Time, dryRun: bool, t': Tree, candidates: seq<Info>) {
    && RootOk(root) && i <= |infos|
    && candidates == Candidates(infos[..i], cutoff)
    && if dryRun then t' == t else Sweep(root, t, infos[..i], cutoff) == (t', Ok(()))
  }

  lemma SweepSnoc(root: Path, t: Tree, infos: seq<Info>, i: nat, cutoff: Time)
    requires RootOk(root) && i < |infos|
    ensures Candidates(infos[..i + 1], cutoff)
            == Candidates(infos[..i], cutoff) + (if Expired(infos[i], cutoff) then [infos[i]] else [])
    ensures var before := Sweep(root, t, infos[..i], cutoff);
      Sweep(root, t, infos[..i + 1], cutoff)
      == if before.1.Err? || !Expired(infos[i], cutoff) then before else DeleteTree(root, before.0, infos[i].key)
  {
    hide DeleteTree, Expired;
    assert infos[..i + 1][..i] == infos[..i];
  }

  lemma SweptKeeps(root: Path, t: Tree, infos: seq<Info>, i: nat, cutoff: Time, dryRun: bool, t': Tree, candidates: seq<Info>)
    requires Swept(root, t, infos, i, cutoff, dryRun, t', candidates) && i < |infos|
    requires dryRun || !Expired(infos[i], cutoff)
    ensures Swept(root, t, infos, i + 1, cutoff, dryRun, t', candidates + (if Expired(infos[i], cutoff) then [infos[i]] else []))
    ensures candidates + [] == candidates
  {
    SweepSnoc(root, t, infos, i, cutoff);
    hide DeleteTree, Expired, Sweep, Candidates;
  }

  lemma SweptDeletes(root: Path, t: Tree, infos: seq<Info>, i: nat, cutoff: Time, t': Tree, candidates: seq<Info>, t'': Tree)
    requires Swept(root, t, infos, i, cutoff, false, t', candidates) && i < |infos| && Expired(infos[i], cutoff)
    requires DeleteTree(root, t', infos[i].key).1.Ok? && t'' == DeleteTree(root, t', infos[i].key).0
    ensures Swept(root, t, infos, i + 1, cutoff, false, t'', candidates + [infos[i]])
  {
    assert DeleteTree(root, t', infos[i].key).1.value == ();
    SweepSnoc(root, t, infos, i, cutoff);
    hide DeleteTree, Expired, Sweep, Candidates;
  }

  lemma SweepFails(root: Path, t: Tree, infos: seq<Info>, i: nat, cutoff: Time)
    requires RootOk(root) && i < |infos| && Expired(infos[i], cutoff) && Sweep(root, t, infos[..i], cutoff).1.Ok?
    ensures var after := DeleteTree(root, Sweep(root, t, infos[..i], cutoff).0, infos[i].key);
      after.1.Err? ==> Sweep(root, t, infos, cutoff) == after
  {
    SweepSnoc(root, t, infos, i, cutoff);
    hide DeleteTree, Expired, Sweep;
    SweepStops(root, t, infos, cutoff, i + 1);
  }

  lemma SweptFails(root: Path, t: Tree, infos: seq<Info>, i: nat, cutoff: Time, t': Tree, candidates: seq<Info>)
    requires Swept(root, t, infos, i, cutoff, false, t', candidates) && i < |infos| && Expired(infos[i], cutoff)
    ensures var after := DeleteTree(root, t', infos[i].key);
      after.1.Err? ==> Retained(root, t, infos, cutoff, false, after.0, Err(after.1.error))
  {
    hide DeleteTree, Expired, Sweep, Candidates;
    SweepFails(root, t, infos, i, cutoff);
  }

  lemma SweptAll(root: Path, t: Tree, infos: seq<Info>, cutoff: Time, dryRun: bool, t': Tree, candidates: seq<Info>)
    requires Swept(root, t, infos, |infos|, cutoff, dryRun, t', candidates)
    ensures Retained(root, t, infos, cutoff, dryRun, t', Ok(candidates))
  {
    assert infos[..|infos|] == infos;
  }

  // ---------- the store ----------

  class LocalStore {
    const root: Path
    const codec: Codec
    var tree: Tree

    constructor (root: Path, codec: Codec, tree: Tree)
      ensures this.root == root && this.codec == codec && this.tree == tree
    {
      this.root, this.codec, this.tree := root, codec, tree;
    }

    method Put(key: string, data: Bytes, metadata: Metadata, clock: Clock) returns (r: Outcome<()>)
      requires RootOk(root)
      modifies this`tree
      ensures (tree, r) == PutTree(codec, root, old(tree), key, data, metadata, clock)
    {
      hide SanitizeKey, DataPath, MkdirAll, WriteFile, SidecarPath;
      var safe := SanitizeKey(key);
      if !safe.Key? {
        return Err(RefusedKey);
      }
      var dataPath := DataPath(root, safe.key);
      DataPathBelow(root, key);
      var made := MkdirAll(tree, Parent(dataPath));
      if made.None? {
        return Err(Failed);
      }
      tree := made.value;
      var written := WriteFile(tree, dataPath, data, clock.dataWritten);
      if written.None? {
        return Err(Failed);
      }
      tree := written.value;
      var bytes := codec.marshal(clock.now, metadata);
      if bytes.None? {
        return Err(Failed);
      }
      written := WriteFile(tree, SidecarPath(dataPath), bytes.value, clock.sidecarWritten);
      if written.None? {
        return Err(Failed);
      }
      tree := written.value;
      return Ok(());
    }

    method Get(key: string) returns (r: Outcome<Object>)
      requires RootOk(root)
      ensures r == GetTree(codec, root, tree, key)
    {
      hide SanitizeKey, DataPath, ReadMetadata, Find;
      var safe := SanitizeKey(key);
      if !safe.Key? {
        return Err(RefusedKey);
      }
      var dataPath := DataPath(root, safe.key);
      DataPathBelow(root, key);
      match Find(tree, dataPath) {
        case NotExist =>
          return Err(NotFound);
        case Found(File(data, _)) =>
          var (createdAt, metadata) := ReadMetadata(codec, tree, dataPath);
          return Ok(Object(safe.key, data, metadata, createdAt));
        case _ =>
          return Err(Failed);
      }
    }

    method Delete(key: string) returns (r: Outcome<()>)
      requires RootOk(root)
      modifies this`tree
      ensures (tree, r) == DeleteTree(root, old(tree), key)
    {
      hide SanitizeKey, DataPath, Remove, SidecarPath;
      var safe := SanitizeKey(key);
      if !safe.Key? {
        return Err(RefusedKey);
      }
      var dataPath := DataPath(root, safe.key);
      DataPathBelow(root, key);
      var removed := Remove(tree, dataPath);
      if removed.None? {
        return Err(Failed);
      }
      tree := removed.value;
      removed := Remove(tree, SidecarPath(dataPath));
      if removed.None? {
        return Err(Failed);
      }
      tree := removed.value;
      return Ok(());
    }

    /** Walking the directory in any order. */
    method Walk(prefix: string) returns (infos: seq<Info>)
      requires TreeOk(tree)
      ensures NoDuplicates(infos) && KeyDistinguishes(infos, InfoKey)
      ensures forall i :: i in infos <==> exists p :: Selected(codec, root, tree, prefix, p, i)
    {
      infos := [];
      var pending := tree.Keys;
      ghost var walked: set<Path> := {};
      while pending != {}
        invariant pending !! walked && pending + walked == tree.Keys
        invariant Collected(codec, root, tree, prefix, walked, infos)
        decreases pending
      {
        var p :| p in pending;
        CollectStep(codec, root, tree, prefix, walked, infos, p);
        pending := pending - {p};
        walked := walked + {p};
        if Listed(root, tree, p) && HasPrefix(KeyOf(root, p), prefix) {
          infos := infos + [InfoOf(codec, root, tree, p)];
        }
      }
      CollectedAll(codec, root, tree, prefix, walked, infos);
    }

    method List(prefix: string) returns (r: Outcome<seq<Info>>)
      requires TreeOk(tree)
      ensures r.Err? <==> Find(tree, root) == NotDirectory
      ensures r.Err? ==> r.error == Failed
      ensures r.Ok? ==> IsListing(codec, root, tree, prefix, r.value)
    {
      match Find(tree, root) {
        case NotDirectory =>
          return Err(Failed);
        case NotExist =>
          NothingBelow(codec, root, tree, prefix);
          return Ok([]);
        case Found(_) =>
          var infos := Walk(prefix);
          var sorted := SortFunc(infos, InfoKey);
          SortedListing(codec, root, tree, prefix, infos, sorted);
          return Ok(sorted);
      }
    }

    method ApplyRetention(policy: RetentionPolicy, now: Time) returns (r: Outcome<seq<Info>>)
      requires RootOk(root) && TreeOk(tree)
      modifies this`tree
      ensures Ran(codec, root, old(tree), policy, now, tree, r)
    {
      hide Swept, Retained, IsListing, DeleteTree, Find;
      if policy.maxAge <= 0 {
        return Ok([]);
      }
      var listed := List(policy.prefix);
      if listed.Err? {
        return Err(listed.error);
      }
      var infos := listed.value;
      var cutoff := now - policy.maxAge;
      var candidates := [];
      SweptNone(root, tree, infos, cutoff, policy.dryRun);
      for i := 0 to |infos|
        invariant Swept(root, old(tree), infos, i, cutoff, policy.dryRun, tree, candidates)
      {
        var info := infos[i];
        if policy.dryRun || !Expired(info, cutoff) {
          SweptKeeps(root, old(tree), infos, i, cutoff, policy.dryRun, tree, candidates);
        }
        if info.createdAt == ZERO_TIME || !(info.createdAt < cutoff) {
          continue;
        }
        candidates := candidates + [info];
        if policy.dryRun {
          continue;
        }
        ghost var before := tree;
        var deleted := Delete(info.key);
        if deleted.Err? {
          SweptFails(root, old(tree), infos, i, cutoff, before, candidates[..|candidates| - 1]);
          return Err(deleted.error);
        }
        SweptDeletes(root, old(tree), infos, i, cutoff, before, candidates[..|candidates| - 1], tree);
      }
      SweptAll(root, old(tree), infos, cutoff, policy.dryRun, tree, candidates);
      return Ok(candidates);
    }
  }

  lemma SweptNone(root: Path, t: Tree, infos: seq<Info>, cutoff: Time, dryRun: bool)
    requires RootOk(root)
    ensures Swept(root, t, infos, 0, cutoff, dryRun, t, [])
  {
  }

  /** The walk so far has collected one entry for every selected file it passed. */
  ghost predicate Collected(c: Codec, root: Path, t: Tree, prefix: string, walked: set<Path>, infos: seq<Info>) {
    && NoDuplicates(infos) && KeyDistinguishes(infos, InfoKey)
    && (forall i :: i in infos <==> exists p :: p in walked && Selected(c, root, t, prefix, p, i))
  }

  lemma CollectStep(c: Codec, root: Path, t: Tree, prefix: string, walked: set<Path>, infos: seq<Info>, p: Path)
    requires TreeOk(t) && p in t && p !in walked && Collected(c, root, t, prefix, walked, infos)
    ensures if Listed(root, t, p) && HasPrefix(KeyOf(root, p), prefix)
            then Collected(c, root, t, prefix, walked + {p}, infos + [InfoOf(c, root, t, p)])
            else Collected(c, root, t, prefix, walked + {p}, infos)
  {
    hide TreeOk, ReadMetadata, KeyOf, Above, HasSuffix;
    if Listed(root, t, p) && HasPrefix(KeyOf(root, p), prefix) {
      var x, more := InfoOf(c, root, t, p), infos + [InfoOf(c, root, t, p)];
      assert Selected(c, root, t, prefix, p, x);
      forall i | i in infos ensures i.key != x.key {
        var q :| q in walked && Selected(c, root, t, prefix, q, i);
        if i.key == x.key { KeyOfInjective(root, t, p, q); }
      }
      assert forall i :: InfoKey(i)[0].s == i.key;
      forall i ensures i in more <==> exists q :: q in walked + {p} && Selected(c, root, t, prefix, q, i) {
        if i == x { assert p in walked + {p}; }
      }
    }
  }

  lemma CollectedAll(c: Codec, root: Path, t: Tree, prefix: string, walked: set<Path>, infos: seq<Info>)
    requires walked == t.Keys && Collected(c, root, t, prefix, walked, infos)
    ensures forall i :: i in infos <==> exists p :: Selected(c, root, t, prefix, p, i)
  {
    hide KeyOf, InfoOf, Above, HasSuffix;
    forall i | exists p :: Selected(c, root, t, prefix, p, i) ensures i in infos {
      var p :| Selected(c, root, t, prefix, p, i);
      assert p in walked;
    }
  }

  lemma SortedListing(c: Codec, root: Path, t: Tree, prefix: string, infos: seq<Info>, sorted: seq<Info>)
    requires NoDuplicates(infos) && KeyDistinguishes(infos, InfoKey)
    requires forall i :: i in infos <==> exists p :: Selected(c, root, t, prefix, p, i)
    requires Sorted(sorted, InfoKey) && multiset(sorted) == multiset(infos)
    ensures IsListing(c, root, t, prefix, sorted)
  {
    hide Selected, Sorted, StrictlySorted, InfoKey;
    SamePermutationElements(sorted, infos);
    PermutationNoDuplicates(infos, sorted);
    SortedIsStrict(sorted, InfoKey);
  }

  /** Nothing is listed below a root that does not exist. */
  lemma NothingBelow(c: Codec, root: Path, t: Tree, prefix: string)
    requires TreeOk(t) && Find(t, root) == NotExist
    ensures IsListing(c, root, t, prefix, [])
  {
    hide InfoOf, KeyOf, HasSuffix, Linked;
    assert root !in t;
    forall i, p ensures !Selected(c, root, t, prefix, p, i) {
      if Selected(c, root, t, prefix, p, i) {
        AncestorsAreDirs(t, p);
        assert false;
      }
    }
  }
}

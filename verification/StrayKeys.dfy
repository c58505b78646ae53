/** Listed keys that name another object than their own: what deleting by a listed key removes. */
module StrayKeys {
  import opened Text
  import opened FileTree
  import opened ObjectKeys
  import opened StorePaths
  import opened ObjectStore

  /** Deleting looks a key up only through its sanitized form. */
  lemma SameSanitizedSameDelete(root: Path, t: Tree, a: string, b: string)
    requires RootOk(root) && SanitizeKey(a) == SanitizeKey(b)
    ensures DeleteTree(root, t, a) == DeleteTree(root, t, b)
  {
    hide SanitizeKey, DataPath, Remove, SidecarPath;
  }

  /** What a delete leaves alone: every file but the data and the metadata file of its path. */
  lemma DeleteSpares(root: Path, t: Tree, key: string, p: Path)
    requires RootOk(root) && IsFile(t, p)
    requires SanitizeKey(key).Key? ==>
      p != DataPath(root, SanitizeKey(key).key) && p != SidecarPathOf(DataPath(root, SanitizeKey(key).key))
    ensures IsFile(DeleteTree(root, t, key).0, p)
  {
    hide SanitizeKey, DataPath, SidecarPath, Remove;
    DataPathBelow(root, key);
    if SanitizeKey(key).Key? {
      var path := DataPath(root, SanitizeKey(key).key);
      RemoveSpares(t, path, p);
      if Remove(t, path).Some? {
        RemoveSpares(Remove(t, path).value, SidecarPath(path), p);
      }
    }
  }

  function SidecarPathOf(p: Path): Path {
    if p == [] then [] else SidecarPath(p)
  }

  lemma RemoveSpares(t: Tree, q: Path, p: Path)
    requires IsFile(t, p) && p != q
    ensures Remove(t, q).Some? ==> IsFile(Remove(t, q).value, p)
  {
    hide Find, Empty;
  }

  lemma DeleteRemoves(root: Path, t: Tree, key: string)
    requires RootOk(root) && SanitizeKey(key).Key? && IsFile(t, DataPath(root, SanitizeKey(key).key))
    ensures DataPath(root, SanitizeKey(key).key) !in DeleteTree(root, t, key).0
  {
    DataPathBelow(root, key);
    var path := DataPath(root, SanitizeKey(key).key);
    FindPresent(t, path);
    hide SanitizeKey, DataPath, SidecarPath, Find;
    RemoveAddsNothing(t - {path}, SidecarPath(path));
  }

  lemma RemoveAddsNothing(t: Tree, q: Path)
    ensures Remove(t, q).Some? ==> forall p :: p in Remove(t, q).value ==> p in t
  {
    hide Find, Empty;
  }

  // ---------- the key of a listed file ----------

  /** A written path that is not its own sanitized form leads to another path, if anywhere. */
  lemma OtherNames(root: Path, names: Path, key: string)
    requires OrdinaryPath(root) && OrdinaryPath(names) && names != [] && key == Join(names, '/')
    requires SanitizeKey(key).Key? && SanitizeKey(key) != Key(key)
    ensures DataPath(root, SanitizeKey(key).key) != root + names
  {
    hide SanitizeKey, DataPath, Resolved, Ordinary, Bare, Join;
    AcceptedStaysBelow(root, key);
    if Resolved(Bare(key)) == names {
      SameNamesSameKey(key, names);
    }
    BelowRoot(root, names, Resolved(Bare(key)));
  }

  /** The key of a file leads back to it only when it is its own sanitized form. */
  lemma OtherPath(root: Path, t: Tree, p: Path)
    requires RootOk(root) && TreeOk(t) && Listed(root, t, p) && SanitizeKey(KeyOf(root, p)).Key?
    requires SanitizeKey(KeyOf(root, p)) != Key(KeyOf(root, p))
    ensures DataPath(root, SanitizeKey(KeyOf(root, p)).key) != p
  {
    hide SanitizeKey, DataPath, Join, HasSuffix, TreeOk, Ordinary;
    TreePathOrdinary(t, p);
    DotIsRefused();
    assert |p| > |root|;
    var names := p[|root|..];
    assert p == root + names;
    OtherNames(root, names, KeyOf(root, p));
  }

  /** A written path whose trimmed form resolves to itself was trimmed. */
  lemma SameNamesSameKey(key: string, names: Path)
    requires OrdinaryPath(names) && names != [] && key == Join(names, '/') && Resolved(Bare(key)) == names && SanitizeKey(key).Key?
    ensures SanitizeKey(key) == Key(key)
  {
    SanitizeMeaning(key);
    CleanShortens(Bare(key));
    BareShortens(key);
    hide Bare, Resolved, SanitizeKey, Join;
    assert Clean(Bare(key)) == PathText(Rooted(Bare(key)), names);
  }

  /** Deleting a listed file by its own key removes that file if and only if the key is its own
      sanitized form; for a file below the root, if and only if the key has no white space at an end. */
  lemma OwnKeyDeletesIff(root: Path, t: Tree, p: Path)
    requires RootOk(root) && TreeOk(t) && Listed(root, t, p)
    ensures p !in DeleteTree(root, t, KeyOf(root, p)).0 <==> SanitizeKey(KeyOf(root, p)) == Key(KeyOf(root, p))
    ensures |p| > |root| ==> (SanitizeKey(KeyOf(root, p)) == Key(KeyOf(root, p)) <==> Trimmed(KeyOf(root, p)))
  {
    var key := KeyOf(root, p);
    ListedKeyIsPlain(root, t, p);
    if SanitizeKey(key) == Key(key) {
      OwnPath(root, t, p);
      hide SanitizeKey, DataPath, DeleteTree, KeyOf;
      DeleteRemoves(root, t, key);
    } else {
      if SanitizeKey(key).Key? {
        OtherPath(root, t, p);
        ListedIsNoSidecar(root, t, p, DataPath(root, SanitizeKey(key).key));
      }
      hide SanitizeKey, DataPath, DeleteTree, KeyOf, SidecarPathOf;
      DeleteSpares(root, t, key, p);
    }
  }

  lemma ListedKeyIsPlain(root: Path, t: Tree, p: Path)
    requires RootOk(root) && TreeOk(t) && Listed(root, t, p)
    ensures |p| > |root| ==> (SanitizeKey(KeyOf(root, p)) == Key(KeyOf(root, p)) <==> Trimmed(KeyOf(root, p)))
  {
    hide SanitizeKey, Split, KeyOf, Trimmed, Ordinary, HasSuffix;
    TreePathOrdinary(t, p);
    RelativeKey(root, p);
    FixpointIff(KeyOf(root, p));
  }

  lemma ListedIsNoSidecar(root: Path, t: Tree, p: Path, q: Path)
    requires Listed(root, t, p)
    ensures p != SidecarPathOf(q)
  {
    if q != [] {
      Itself(SIDECAR);
      SuffixEnds(Name(q), SIDECAR, SIDECAR);
      assert Name(SidecarPath(q)) == Name(q) + SIDECAR;
    }
  }

  lemma OwnPath(root: Path, t: Tree, p: Path)
    requires RootOk(root) && TreeOk(t) && Listed(root, t, p) && SanitizeKey(KeyOf(root, p)) == Key(KeyOf(root, p))
    ensures DataPath(root, KeyOf(root, p)) == p
  {
    assert Above(root, p);
    hide SanitizeKey, DataPath, Split, Ordinary, HasSuffix, KeyOf, TreeOk, Listed;
    TreePathOrdinary(t, p);
    RelativeKey(root, p);
    PathOfFixpoint(root, KeyOf(root, p));
    DotIsRefused();
    assert p == root + p[|root|..];
  }

  // ---------- an object stored under a stray key ----------

  /** Storing under "./ a" writes the file " a", listed as " a"; deleting by that key, as retention
      does, deletes "a" instead. */
  lemma StrayDelete(root: Path, t: Tree, key: string)
    requires RootOk(root) && SanitizeKey(key) == Key(key)
    ensures var spaced := [' '] + key;
      && SanitizeKey("./" + spaced) == Key(spaced)
      && DataPath(root, spaced) == root + Split(spaced, '/') && DataPath(root, spaced) != DataPath(root, key)
      && DeleteTree(root, t, spaced) == DeleteTree(root, t, key)
  {
    var spaced := [' '] + key;
    UncoveredSpace(key);
    PathOfFixpoint(root, key);
    SpacedPath(key);
    hide SanitizeKey, Split, DataPath, Ordinary, DeleteTree;
    SameSanitizedSameDelete(root, t, spaced, key);
    var names := Split(spaced, '/');
    BelowNamed(root, names);
    assert names[0] == [' '] + Split(key, '/')[0];
    BelowRoot(root, names, Split(key, '/'));
  }

  lemma BelowNamed(root: Path, names: Path)
    requires OrdinaryPath(root) && OrdinaryPath(names)
    ensures Resolve(true, root + names) == root + names
  {
    hide Ordinary, Resolve;
    ResolveOrdinary(true, root + names);
  }
}

/** Where the store keeps the two files of a key, and which keys never get in each other's way. */
module StorePaths {
  import opened Text
  import opened FileTree
  import opened ObjectKeys

  const SIDECAR := ".meta.json"

  function SidecarPath(p: Path): Path
    requires p != []
  {
    Parent(p) + [Name(p) + SIDECAR]
  }

  predicate RootOk(root: Path) {
    root != [] && OrdinaryPath(root)
  }

  /** A key that names itself and is not mistaken for a metadata file. */
  predicate GoodKey(key: string) {
    SanitizeKey(key) == Key(key) && !HasSuffix(key, SIDECAR)
  }

  /** Neither the object nor the metadata file of `j` stands where `k` needs a directory. */
  predicate Apart(j: string, k: string) {
    !HasPrefix(k, j + "/") && !HasPrefix(k, j + SIDECAR + "/")
  }

  ghost predicate Family(keys: iset<string>) {
    && (forall k :: k in keys ==> GoodKey(k))
    && (forall j, k :: j in keys && k in keys ==> Apart(j, k))
  }

  // ---------- the two paths ----------

  function Data(root: Path, key: string): (p: Path)
    requires RootOk(root) && GoodKey(key)
    ensures p != [] && OrdinaryPath(p) && |p| > |root| && root == p[..|root|]
  {
    PathOfFixpoint(root, key);
    DataPath(root, key)
  }

  function Side(root: Path, key: string): (p: Path)
    requires RootOk(root) && GoodKey(key)
    ensures p != [] && |p| == |Data(root, key)| && Parent(p) == Parent(Data(root, key))
  {
    SidecarPath(Data(root, key))
  }

  lemma DataIs(root: Path, key: string)
    requires RootOk(root) && GoodKey(key)
    ensures Data(root, key) == root + Split(key, '/')
  {
    PathOfFixpoint(root, key);
  }

  lemma SidecarSplit(key: string)
    ensures Split(key + SIDECAR, '/') == Parent(Split(key, '/')) + [Name(Split(key, '/')) + SIDECAR]
  {
    assert '/' !in SIDECAR;
    SplitAppend(key, SIDECAR, '/');
  }

  lemma SidecarBelow(root: Path, parts: Path)
    requires parts != []
    ensures SidecarPath(root + parts) == root + (Parent(parts) + [Name(parts) + SIDECAR])
  {
    assert Parent(root + parts) == root + Parent(parts);
  }

  lemma SideIs(root: Path, key: string)
    requires RootOk(root) && GoodKey(key)
    ensures Side(root, key) == root + Split(key + SIDECAR, '/')
  {
    DataIs(root, key);
    SidecarSplit(key);
    hide Split, GoodKey, Data, RootOk, SidecarPath;
    SidecarBelow(root, Split(key, '/'));
  }

  lemma SideIsOrdinary(root: Path, key: string)
    requires RootOk(root) && GoodKey(key)
    ensures Ordinary(Name(Side(root, key)))
  {
    hide Ordinary, Data, GoodKey;
    var p := Data(root, key);
    assert Ordinary(p[|p| - 1]);
    SidecarIsOrdinary(Name(p));
  }

  lemma SidecarIsOrdinary(name: string)
    requires Ordinary(name)
    ensures Ordinary(name + SIDECAR)
  {
    assert '/' !in SIDECAR && |SIDECAR| == 10;
  }

  /** A text whose parts begin another's is a directory of it. */
  lemma SplitPrefix(a: string, b: string)
    requires Split(a, '/') <= Split(b, '/') && a != b
    ensures HasPrefix(b, a + "/")
  {
    var s, t := Split(a, '/'), Split(b, '/');
    JoinSplit(a, '/');
    JoinSplit(b, '/');
    hide Split, Join;
    assert s != t;
    assert t == s + t[|s|..];
    JoinConcat(s, t[|s|..], '/');
    assert b == a + "/" + Join(t[|s|..], '/');
  }

  lemma BelowRoot(root: Path, a: Path, b: Path)
    ensures Above(root + a, root + b) ==> a <= b
    ensures root + a == root + b ==> a == b
  {
    assert (root + a)[|root|..] == a && (root + b)[|root|..] == b;
    if Above(root + a, root + b) {
      assert a == (root + b)[|root|..][..|a|];
    }
  }

  lemma SuffixEnds(a: string, b: string, c: string)
    requires HasSuffix(b, c)
    ensures HasSuffix(a + b, c)
  {
    assert (a + b)[|a + b| - |c|..] == b[|b| - |c|..];
  }

  /** Only a text that ends like a metadata file has a last part that does. */
  lemma LastPartEnds(text: string)
    requires HasSuffix(Name(Split(text, '/')), SIDECAR)
    ensures HasSuffix(text, SIDECAR)
  {
    JoinSplit(text, '/');
    hide Split, HasSuffix;
    var parts := Split(text, '/');
    var k := |parts| - 1;
    if k > 0 {
      JoinConcat(parts[..k], [parts[k]], '/');
      assert parts == parts[..k] + [parts[k]];
      SuffixEnds(Join(parts[..k], '/') + ['/'], parts[k], SIDECAR);
    }
  }

  lemma NameIsNoSidecar(root: Path, key: string)
    requires RootOk(root) && GoodKey(key)
    ensures !HasSuffix(Name(Data(root, key)), SIDECAR)
    ensures HasSuffix(Name(Side(root, key)), SIDECAR)
  {
    DataIs(root, key);
    hide Split, SanitizeKey, Data, RootOk, HasSuffix;
    var parts := Split(key, '/');
    assert Name(root + parts) == Name(parts);
    if HasSuffix(Name(parts), SIDECAR) {
      LastPartEnds(key);
    }
    SuffixEnds(Name(parts), SIDECAR, SIDECAR) by { Itself(SIDECAR); }
  }

  lemma Itself(s: string)
    ensures HasSuffix(s, s)
  {
  }

  // ---------- keys that never get in each other's way ----------

  lemma SamePathSameKey(root: Path, j: string, k: string)
    requires RootOk(root) && GoodKey(j) && GoodKey(k)
    ensures Data(root, j) == Data(root, k) ==> j == k
    ensures Side(root, j) == Side(root, k) ==> j == k
    ensures Data(root, j) != Side(root, k)
  {
    DataIs(root, j);
    DataIs(root, k);
    JoinSplit(j, '/');
    JoinSplit(k, '/');
    NameIsNoSidecar(root, j);
    NameIsNoSidecar(root, k);
    hide Split, SanitizeKey, HasSuffix, Data;
    BelowRoot(root, Split(j, '/'), Split(k, '/'));
    var a, b := Data(root, j), Data(root, k);
    if Side(root, j) == Side(root, k) {
      SameSuffix(Name(a), Name(b), SIDECAR);
      assert a == Parent(a) + [Name(a)] && b == Parent(b) + [Name(b)];
    }
  }

  lemma SameSuffix(a: string, b: string, c: string)
    requires a + c == b + c
    ensures a == b
  {
    assert a == (a + c)[..|a + c| - |c|] && b == (b + c)[..|b + c| - |c|];
  }

  /** No file of one key stands above the object of another. */
  lemma NothingInTheWay(root: Path, keys: iset<string>, j: string, k: string)
    requires RootOk(root) && Family(keys) && j in keys && k in keys
    ensures Above(Data(root, j), Data(root, k)) ==> j == k
    ensures !Above(Side(root, j), Data(root, k))
  {
    assert Apart(j, k);
    DataIs(root, j);
    DataIs(root, k);
    SideIs(root, j);
    SamePathSameKey(root, k, j);
    BelowRoot(root, Split(j, '/'), Split(k, '/'));
    BelowRoot(root, Split(j + SIDECAR, '/'), Split(k, '/'));
    hide Split, SanitizeKey, HasSuffix, Data, Above, Family;
    if Above(Data(root, j), Data(root, k)) && j != k {
      SplitPrefix(j, k);
      assert false;
    }
    if Above(Side(root, j), Data(root, k)) {
      assert j + SIDECAR != k;
      SplitPrefix(j + SIDECAR, k);
      assert false;
    }
  }
}

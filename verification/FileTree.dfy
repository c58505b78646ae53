/** A tree of directories and files, and the file operations the object store performs on it. */
module FileTree {
  import opened GoTime
  import opened Text

  newtype byte = x: int | 0 <= x < 256

  type Bytes = seq<byte>

  /** A path from the top of the tree, name by name. */
  type Path = seq<string>

  datatype Node = Dir | File(data: Bytes, modTime: Time)

  type Tree = map<Path, Node>

  predicate Ordinary(name: string) {
    name != "" && '/' !in name && name != "." && name != ".."
  }

  function Parent(p: Path): Path
    requires p != []
  {
    p[..|p| - 1]
  }

  function Name(p: Path): string
    requires p != []
  {
    p[|p| - 1]
  }

  predicate IsDir(t: Tree, p: Path) {
    p in t && t[p].Dir?
  }

  predicate IsFile(t: Tree, p: Path) {
    p in t && t[p].File?
  }

  /** Everything but the top hangs, under an ordinary name, in a directory. */
  predicate Linked(t: Tree, p: Path) {
    p == [] || (Ordinary(Name(p)) && IsDir(t, Parent(p)))
  }

  ghost predicate TreeOk(t: Tree) {
    IsDir(t, []) && forall p :: p in t ==> Linked(t, p)
  }

  // ---------- operations ----------

  /** What opening a path finds: a node, nothing, or a file where a directory is needed. */
  datatype Lookup = Found(node: Node) | NotExist | NotDirectory

  function Find(t: Tree, p: Path): Lookup
    decreases |p|
  {
    if p in t then Found(t[p])
    else if p == [] then NotExist
    else match Find(t, Parent(p))
      case Found(Dir) => NotExist
      case Found(File(_, _)) => NotDirectory
      case missing => missing
  }

  /** `os.MkdirAll`: nothing changes when a file is in the way. */
  function MkdirAll(t: Tree, p: Path): Option<Tree>
    decreases |p|
  {
    if p in t then (if t[p].Dir? then Some(t) else None)
    else if p == [] then None
    else match MkdirAll(t, Parent(p))
      case None => None
      case Some(t') => Some(t'[p := Dir])
  }

  /** `os.WriteFile`. */
  function WriteFile(t: Tree, p: Path, data: Bytes, modTime: Time): Option<Tree> {
    if p == [] || IsDir(t, p) || !IsDir(t, Parent(p)) then None else Some(t[p := File(data, modTime)])
  }

  predicate Empty(t: Tree, p: Path) {
    forall q :: q in t ==> q == [] || Parent(q) != p
  }

  /** `os.Remove`, where a missing path is no error. */
  function Remove(t: Tree, p: Path): Option<Tree> {
    match Find(t, p)
    case NotExist => Some(t)
    case NotDirectory => None
    case Found(File(_, _)) => Some(t - {p})
    case Found(Dir) => if p != [] && Empty(t, p) then Some(t - {p}) else None
  }

  // ---------- what the operations keep ----------

  /** `q` is `p` or one of the paths above it. */
  predicate Above(q: Path, p: Path) {
    q <= p
  }

  lemma AboveParent(p: Path)
    requires p != []
    ensures forall q :: Above(q, p) <==> q == p || Above(q, Parent(p))
  {
    forall q | Above(q, p) && q != p ensures Above(q, Parent(p)) {
    }
  }

  ghost predicate NoFileAbove(t: Tree, p: Path) {
    forall q :: Above(q, p) ==> !IsFile(t, q)
  }

  /** Making directories makes exactly the missing ones on the way to `p`. */
  ghost predicate Made(t: Tree, p: Path, t': Tree) {
    && (forall q :: q in t' <==> q in t || Above(q, p))
    && (forall q :: q in t ==> t'[q] == t[q])
    && (forall q :: q in t' && q !in t ==> t'[q].Dir?)
  }

  lemma {:induction false} AncestorsAreDirs(t: Tree, p: Path)
    requires TreeOk(t) && p in t
    ensures forall q :: Above(q, p) && q != p ==> IsDir(t, q)
    decreases |p|
  {
    hide Above;
    if p == [] {
      assert forall q :: Above(q, []) ==> q == [] by { AboveTop(); }
    } else {
      assert Linked(t, p);
      AncestorsAreDirs(t, Parent(p));
      AboveParent(p);
    }
  }

  lemma AboveTop()
    ensures forall q :: Above(q, []) <==> q == []
  {
  }

  lemma {:induction false} MkdirAllMakes(t: Tree, p: Path)
    requires TreeOk(t)
    ensures NoFileAbove(t, p) <==> MkdirAll(t, p).Some?
    ensures NoFileAbove(t, p) ==> Made(t, p, MkdirAll(t, p).value)
    decreases |p|
  {
    assert Above(p, p);
    hide Above, Linked;
    if p in t {
      AncestorsAreDirs(t, p);
    } else {
      AboveParent(p);
      MkdirAllMakes(t, Parent(p));
    }
  }

  predicate OrdinaryPath(p: Path) {
    forall i :: 0 <= i < |p| ==> Ordinary(p[i])
  }

  lemma MadeKeepsTree(t: Tree, p: Path, t': Tree)
    requires TreeOk(t) && OrdinaryPath(p) && NoFileAbove(t, p) && Made(t, p, t')
    ensures TreeOk(t')
  {
    hide Ordinary;
    forall q | q in t' ensures Linked(t', q) {
      if q in t {
        assert Linked(t, q);
      } else if q != [] {
        assert Above(Parent(q), p);
        assert Ordinary(Name(q));
        assert !IsFile(t, Parent(q));
      }
    }
  }

  lemma WriteKeepsTree(t: Tree, p: Path, data: Bytes, modTime: Time)
    requires TreeOk(t) && p != [] && Ordinary(Name(p)) && WriteFile(t, p, data, modTime).Some?
    ensures TreeOk(WriteFile(t, p, data, modTime).value)
  {
    hide Ordinary;
    var t' := t[p := File(data, modTime)];
    assert IsDir(t', []);
    forall q | q in t' ensures Linked(t', q) {
      if q != p { assert Linked(t, q); }
    }
  }

  lemma RemoveKeepsTree(t: Tree, p: Path)
    requires TreeOk(t) && Remove(t, p).Some?
    ensures TreeOk(Remove(t, p).value)
  {
    hide Ordinary, Find;
    if p in t {
      FindPresent(t, p);
      var t' := t - {p};
      forall q | q in t' ensures Linked(t', q) { assert Linked(t, q); }
    } else {
      FindAbsent(t, p);
    }
  }

  lemma FindPresent(t: Tree, p: Path)
    requires p in t
    ensures Find(t, p) == Found(t[p])
  {
  }

  /** A missing path is reported as such exactly when no file is above it. */
  lemma {:induction false} FindAbsent(t: Tree, p: Path)
    requires TreeOk(t) && p !in t
    ensures !Find(t, p).Found?
    ensures Find(t, p) == NotExist <==> NoFileAbove(t, p)
    decreases |p|
  {
    assert Above(p, p) && Above(Parent(p), Parent(p));
    hide Above, Linked;
    var up := Parent(p);
    AboveParent(p);
    if up in t {
      FindPresent(t, up);
      AncestorsAreDirs(t, up);
    } else {
      FindAbsent(t, up);
    }
  }
}

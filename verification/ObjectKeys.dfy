/** Object keys: which ones the store accepts, and the path each one names. */
module ObjectKeys {
  import opened Text
  import opened FileTree

  datatype Sanitized = Key(key: string) | KeyRequired | InvalidPath

  // ---------- lexical cleaning ----------

  /** One step of lexical path cleaning. */
  function Enter(rooted: bool, out: Path, name: string): Path {
    if name == "" || name == "." then out
    else if name != ".." then out + [name]
    else if out != [] && out[|out| - 1] != ".." then out[..|out| - 1]
    else if rooted then out
    else out + [name]
  }

  function Resolve(rooted: bool, names: Path): Path {
    if names == [] then []
    else Enter(rooted, Resolve(rooted, names[..|names| - 1]), names[|names| - 1])
  }

  predicate Rooted(path: string) {
    path != "" && path[0] == '/'
  }

  function Resolved(path: string): Path {
    Resolve(Rooted(path), Split(path, '/'))
  }

  function PathText(rooted: bool, out: Path): string {
    if rooted then "/" + Join(out, '/') else if out == [] then "." else Join(out, '/')
  }

  /** `filepath.Clean`. */
  function Clean(path: string): string {
    PathText(Rooted(path), Resolved(path))
  }

  predicate At(s: string, i: int, part: string) {
    0 <= i <= |s| - |part| && s[i..i + |part|] == part
  }

  predicate Contains(s: string, part: string) {
    exists i :: 0 <= i <= |s| && At(s, i, part)
  }

  function Bare(key: string): string {
    TrimSpace(if HasPrefix(key, "/") then key[1..] else key)
  }

  predicate Escapes(cleaned: string) {
    cleaned == "." || HasPrefix(cleaned, "../") || cleaned == ".." || Contains(cleaned, "/../")
  }

  function SanitizeKey(key: string): Sanitized {
    var trimmed := Bare(key);
    if trimmed == "" then KeyRequired
    else
      var cleaned := Clean(trimmed);
      if Escapes(cleaned) then InvalidPath else Key(cleaned)
  }

  // ---------- what cleaning leaves ----------

  predicate Step(name: string) {
    name != "" && '/' !in name && name != "."
  }

  /** Names only, with every step up in front and none in a rooted path. */
  ghost predicate Tidy(rooted: bool, out: Path) {
    && (forall i :: 0 <= i < |out| ==> Step(out[i]))
    && (forall i :: 0 <= i < |out| && out[i] == ".." ==> !rooted && forall j :: 0 <= j < i ==> out[j] == "..")
  }

  lemma EnterTidy(rooted: bool, out: Path, name: string)
    requires Tidy(rooted, out) && '/' !in name
    ensures Tidy(rooted, Enter(rooted, out, name))
  {
    if out != [] && out[|out| - 1] == ".." {
      assert forall i :: 0 <= i < |out| ==> out[i] == "..";
    }
  }

  lemma {:induction false} ResolveTidy(rooted: bool, names: Path)
    requires forall i :: 0 <= i < |names| ==> '/' !in names[i]
    ensures Tidy(rooted, Resolve(rooted, names))
    decreases |names|
  {
    if names != [] {
      hide Tidy, Enter;
      var k := |names| - 1;
      ResolveTidy(rooted, names[..k]);
      EnterTidy(rooted, Resolve(rooted, names[..k]), names[k]);
    } else {
      assert Resolve(rooted, names) == [];
    }
  }

  lemma ResolvedTidy(path: string)
    ensures Tidy(Rooted(path), Resolved(path))
  {
    hide Tidy, Resolve;
    ResolveTidy(Rooted(path), Split(path, '/'));
  }

  // ---------- which keys are refused ----------

  /** A text with "/../" inside has a step up between its separators. */
  lemma StepUpInside(s: string)
    requires Contains(s, "/../")
    ensures ".." in Split(s, '/')
  {
    var i :| 0 <= i <= |s| && At(s, i, "/../");
    var a, b := s[..i], s[i + 4..];
    assert s == a + s[i..i + 4] + b;
    assert s == a + ['/'] + (".." + ['/'] + b) by { assert "/../" == ['/'] + ".." + ['/']; }
    SplitConcat(a, ".." + ['/'] + b, '/');
    SplitFirst("..", b, '/');
    hide Split;
  }

  lemma SplitText(rooted: bool, out: Path)
    requires out != [] && forall i :: 0 <= i < |out| ==> Step(out[i])
    ensures Split(PathText(rooted, out), '/') == (if rooted then [""] else []) + out
  {
    forall p | p in out ensures '/' !in p { }
    SplitJoin(out, '/');
    SplitCons('/', Join(out, '/'), '/');
    hide Split, Join, Step;
    assert "/" + Join(out, '/') == ['/'] + Join(out, '/');
    assert [] + out == out;
  }

  lemma FirstIsUp(out: Path)
    requires out != [] && forall i :: 0 <= i < |out| ==> Step(out[i])
    ensures out[0] == ".." <==> Join(out, '/') == ".." || HasPrefix(Join(out, '/'), "../")
    ensures Join(out, '/') != "."
    ensures Join(out, '/') != ""
  {
    var text := Join(out, '/');
    if text == ".." || text == "." || text == "" {
      SplitText(false, out);
      SplitSingle(text, '/');
      assert Split(text, '/') == out;
      assert out == [text];
      assert Step(out[0]);
    } else {
      OneName(out);
      FirstIsUpLonger(out);
    }
  }

  lemma OneName(out: Path)
    ensures |out| == 1 ==> Join(out, '/') == out[0]
  {
  }

  lemma FirstIsUpLonger(out: Path)
    requires out != [] && forall i :: 0 <= i < |out| ==> Step(out[i])
    requires Join(out, '/') != ".."
    ensures out[0] == ".." <==> HasPrefix(Join(out, '/'), "../")
  {
    var text := Join(out, '/');
    SplitText(false, out);
    if HasPrefix(text, "../") {
      PrefixSplits(text);
    }
    hide Split, Step;
    if out[0] == ".." {
      UpGoesOn(out);
    }
  }

  lemma UpGoesOn(out: Path)
    requires out != [] && out[0] == ".." && Join(out, '/') != ".."
    ensures HasPrefix(Join(out, '/'), "../")
  {
    assert |out| > 1;
    assert Join(out, '/') == ".." + ['/'] + Join(out[1..], '/');
    hide Join;
    assert ".." + ['/'] == "../";
  }

  lemma PrefixSplits(text: string)
    requires HasPrefix(text, "../")
    ensures Split(text, '/')[0] == ".."
  {
    hide Split;
    assert text == ".." + ['/'] + text[3..];
    SplitFirst("..", text[3..], '/');
  }

  /** A cleaned path is refused exactly when it names nothing or steps up. */
  lemma EscapesIff(rooted: bool, out: Path)
    requires Tidy(rooted, out)
    ensures Escapes(PathText(rooted, out)) <==> (!rooted && out == []) || ".." in out
  {
    var text := PathText(rooted, out);
    if out == [] {
      NothingEscapes(rooted);
    } else {
      if !rooted { FirstIsUp(out); }
      assert ".." in out ==> out[0] == "..";
      if Contains(text, "/../") {
        StepUpInside(text);
        SplitText(rooted, out);
      }
      assert rooted ==> text[0] == '/';
    }
  }

  lemma NothingEscapes(rooted: bool)
    ensures Escapes(PathText(rooted, [])) <==> !rooted
  {
    assert |PathText(rooted, [])| == 1;
    assert PathText(true, []) == "/";
  }

  /** A key is accepted exactly when, trimmed, it names the root or a path below it without
      stepping up; what it is called is that path, written plainly. */
  lemma SanitizeMeaning(key: string)
    ensures var bare := Bare(key);
      && (SanitizeKey(key) == KeyRequired <==> bare == "")
      && (SanitizeKey(key).Key? <==> bare != "" && (Rooted(bare) || Resolved(bare) != []) && ".." !in Resolved(bare))
      && (SanitizeKey(key).Key? ==> SanitizeKey(key).key == PathText(Rooted(bare), Resolved(bare)) && OrdinaryPath(Resolved(bare)))
  {
    var bare := Bare(key);
    ResolvedTidy(bare);
    EscapesIff(Rooted(bare), Resolved(bare));
    hide Bare, Resolved, PathText, Escapes;
    var out := Resolved(bare);
    if ".." !in out {
      forall i | 0 <= i < |out| ensures Ordinary(out[i]) { assert out[i] in out && Step(out[i]); }
    }
  }

  // ---------- keys that name themselves ----------

  /** The length of a written path, with one separator after each name. */
  function Weight(names: Path): nat {
    if names == [] then 0 else Weight(names[..|names| - 1]) + |names[|names| - 1]| + 1
  }

  lemma {:induction false} WeightCons(name: string, names: Path)
    ensures Weight([name] + names) == |name| + 1 + Weight(names)
    decreases |names|
  {
    if names == [] {
      assert ([name] + names)[..0] == [];
    } else {
      var k := |names| - 1;
      assert ([name] + names)[..k + 1] == [name] + names[..k];
      WeightCons(name, names[..k]);
    }
  }

  lemma {:induction false} JoinWeight(names: Path)
    requires names != []
    ensures |Join(names, '/')| + 1 == Weight(names)
    decreases |names|
  {
    assert names == [names[0]] + names[1..];
    WeightCons(names[0], names[1..]);
    if |names| > 1 {
      JoinWeight(names[1..]);
    }
  }

  lemma {:induction false} ResolveWeight(rooted: bool, names: Path)
    ensures Weight(Resolve(rooted, names)) + (if names != [] && names[0] == "" then 1 else 0) <= Weight(names)
    decreases |names|
  {
    if names != [] {
      var k := |names| - 1;
      var out := Resolve(rooted, names[..k]);
      ResolveWeight(rooted, names[..k]);
      EnterWeight(rooted, out, names[k]);
      if k == 0 {
        assert out == [];
      }
    }
  }

  lemma EnterWeight(rooted: bool, out: Path, name: string)
    ensures Weight(Enter(rooted, out, name)) <= Weight(out) + (if name == "" then 0 else |name| + 1)
  {
    assert (out + [name])[..|out|] == out;
  }

  /** Cleaning never makes a path longer. */
  lemma CleanShortens(path: string)
    requires path != ""
    ensures |Clean(path)| <= |path|
  {
    var names, out := Split(path, '/'), Resolved(path);
    ResolveWeight(Rooted(path), names);
    JoinSplit(path, '/');
    JoinWeight(names);
    if out != [] { JoinWeight(out); }
    SplitRooted(path);
    hide Split, Resolved, Weight, Rooted;
  }

  lemma SplitRooted(path: string)
    ensures Rooted(path) ==> Split(path, '/')[0] == ""
  {
  }

  lemma {:induction false} ResolveOrdinary(rooted: bool, names: Path)
    requires OrdinaryPath(names)
    ensures Resolve(rooted, names) == names
    decreases |names|
  {
    if names != [] {
      ResolveOrdinary(rooted, names[..|names| - 1]);
    }
  }

  /** A key is its own sanitized form exactly when it is trimmed and its parts are ordinary names. */
  lemma FixpointIff(key: string)
    ensures SanitizeKey(key) == Key(key) <==> Trimmed(key) && OrdinaryPath(Split(key, '/'))
  {
    if SanitizeKey(key) == Key(key) {
      FixpointIsPlain(key);
    } else if Trimmed(key) && OrdinaryPath(Split(key, '/')) {
      PlainIsFixpoint(key);
      assert false;
    }
  }

  lemma FixpointIsPlain(key: string)
    requires SanitizeKey(key) == Key(key)
    ensures Trimmed(key) && OrdinaryPath(Split(key, '/'))
  {
    var bare := Bare(key);
    SanitizeMeaning(key);
    CleanShortens(bare);
    BareShortens(key);
    hide Bare, Split, Resolved, Clean, Trimmed, TrimSpace;
    assert !Rooted(bare);
    assert key == Join(Resolved(bare), '/');
    forall p | p in Resolved(bare) ensures '/' !in p { assert Ordinary(p); }
    SplitJoin(Resolved(bare), '/');
  }

  lemma SlashFirst(key: string)
    ensures HasPrefix(key, "/") <==> Rooted(key)
  {
    assert Rooted(key) ==> key[..1] == "/";
  }

  /** Trimming a key shortens it unless it is trimmed and does not start with a slash. */
  lemma BareShortens(key: string)
    ensures |Bare(key)| <= |key|
    ensures Rooted(key) ==> |Bare(key)| < |key|
    ensures |Bare(key)| == |key| ==> Bare(key) == key
    ensures Trimmed(Bare(key))
    ensures Trimmed(key) && !Rooted(key) ==> Bare(key) == key
  {
    SlashFirst(key);
    TrimTrimmed(key);
  }

  lemma PlainIsFixpoint(key: string)
    requires Trimmed(key) && OrdinaryPath(Split(key, '/'))
    ensures SanitizeKey(key) == Key(key)
  {
    var names := Split(key, '/');
    SplitRooted(key);
    EmptySplit();
    assert Ordinary(names[0]);
    assert !Rooted(key) && key != "";
    BareShortens(key);
    SanitizeMeaning(key);
    ResolveOrdinary(false, names);
    JoinSplit(key, '/');
    hide Bare, Split, Trimmed, Resolve, Join;
    assert ".." !in names;
  }

  lemma EmptySplit()
    ensures Split("", '/') == [""]
  {
  }

  lemma JoinFirst(names: Path)
    requires names != [] && names[0] != ""
    ensures Join(names, '/') != "" && Join(names, '/')[0] == names[0][0]
  {
  }

  lemma JoinLast(names: Path)
    requires names != [] && names[|names| - 1] != ""
    ensures var text, last := Join(names, '/'), names[|names| - 1];
      text != "" && text[|text| - 1] == last[|last| - 1]
  {
    var k := |names| - 1;
    assert names == names[..k] + [names[k]];
    if k > 0 {
      JoinConcat(names[..k], [names[k]], '/');
    }
  }

  /** The path the key resolves to starts or ends with white space. */
  predicate SpaceAtEdge(key: string) {
    var out := Resolved(Bare(key));
    out != [] && ((out[0] != "" && IsSpace(out[0][0]))
                  || var last := out[|out| - 1]; last != "" && IsSpace(last[|last| - 1]))
  }

  /** A key written with ordinary names is its own form unless white space stands at an end. */
  lemma WrittenFixpointIff(out: Path)
    requires out != [] && OrdinaryPath(out)
    ensures var text, last := Join(out, '/'), out[|out| - 1];
      && out[0] != "" && last != ""
      && (SanitizeKey(text) == Key(text) <==> !IsSpace(out[0][0]) && !IsSpace(last[|last| - 1]))
  {
    assert Ordinary(out[0]) && Ordinary(out[|out| - 1]);
    hide SanitizeKey, Join, IsSpace, Split, Ordinary;
    PlainSplit(out);
    JoinFirst(out);
    JoinLast(out);
    FixpointIff(Join(out, '/'));
  }

  lemma RootedIsNoFixpoint(key: string)
    requires Rooted(key)
    ensures SanitizeKey(key) != Key(key)
  {
    hide SanitizeKey, Split;
    SplitRooted(key);
    assert !Ordinary(Split(key, '/')[0]);
    FixpointIff(key);
  }

  /** Sanitizing an accepted key twice is sanitizing it once exactly when, trimmed, it does not start
      with a slash and the path it resolves to neither starts nor ends with white space. */
  lemma IdempotentIff(key: string)
    requires SanitizeKey(key).Key?
    ensures SanitizeKey(SanitizeKey(key).key) == SanitizeKey(key) <==> !Rooted(Bare(key)) && !SpaceAtEdge(key)
  {
    hide SanitizeKey, Join, IsSpace, Rooted, Bare, Resolved, Ordinary;
    SanitizeMeaning(key);
    var out := Resolved(Bare(key));
    RootedText(out);
    if Rooted(Bare(key)) {
      RootedIsNoFixpoint(SanitizeKey(key).key);
    } else {
      WrittenFixpointIff(out);
    }
  }

  lemma RootedText(out: Path)
    ensures Rooted(PathText(true, out))
  {
    hide Join;
  }

  lemma PlainSplit(out: Path)
    requires out != [] && OrdinaryPath(out)
    ensures Split(Join(out, '/'), '/') == out
  {
    forall n | n in out ensures '/' !in n { assert Ordinary(n); }
    SplitJoin(out, '/');
  }

  // ---------- the path of a key ----------

  /** `filepath.Join(root, key)`. */
  function DataPath(root: Path, key: string): Path {
    Resolve(true, root + Split(key, '/'))
  }

  lemma {:induction false} ResolveBelow(root: Path, names: Path)
    requires OrdinaryPath(root) && forall i :: 0 <= i < |names| ==> names[i] == "" || Ordinary(names[i])
    ensures Resolve(true, root + names) == root + NonEmpty(names)
    decreases |names|
  {
    if names == [] {
      ResolveOrdinary(true, root);
      assert root + names == root && root + NonEmpty(names) == root;
    } else {
      var k := |names| - 1;
      assert (root + names)[..|root + names| - 1] == root + names[..k];
      ResolveBelow(root, names[..k]);
    }
  }

  lemma WrittenStaysBelow(root: Path, rooted: bool, out: Path)
    requires OrdinaryPath(root) && OrdinaryPath(out) && (rooted || out != [])
    ensures DataPath(root, PathText(rooted, out)) == root + out
  {
    hide Split, Resolve, Join;
    if out == [] {
      SplitOfSlash();
      ResolveBelow(root, ["", ""]);
      NothingToName();
      assert root + [] == root + out;
    } else {
      forall i | 0 <= i < |out| ensures Step(out[i]) { assert Ordinary(out[i]); }
      hide Ordinary, Step;
      SplitText(rooted, out);
      NamesOf(out);
      ResolveWritten(root, rooted, out);
    }
  }

  lemma ResolveWritten(root: Path, rooted: bool, out: Path)
    requires OrdinaryPath(root) && OrdinaryPath(out)
    ensures Resolve(true, root + ((if rooted then [""] else []) + out)) == root + NonEmpty((if rooted then [""] else []) + out)
  {
    hide Ordinary, Resolve, NonEmpty;
    ResolveBelow(root, (if rooted then [""] else []) + out);
  }

  /** The path of an accepted key never leaves the root, whatever the key was. */
  lemma AcceptedStaysBelow(root: Path, key: string)
    requires OrdinaryPath(root) && SanitizeKey(key).Key?
    ensures DataPath(root, SanitizeKey(key).key) == root + Resolved(Bare(key))
    ensures OrdinaryPath(Resolved(Bare(key)))
  {
    SanitizeMeaning(key);
    hide Bare, SanitizeKey, Resolved, DataPath, PathText, Ordinary;
    WrittenStaysBelow(root, Rooted(Bare(key)), Resolved(Bare(key)));
  }

  lemma SplitOfSlash()
    ensures PathText(true, []) == "/" && Split("/", '/') == ["", ""]
  {
    SplitCons('/', "", '/');
    assert ['/'] + "" == "/" && [""] + [""] == ["", ""];
  }

  lemma NothingToName()
    ensures NonEmpty(["", ""]) == []
  {
    NonEmptyConcat([""], [""]);
    NonEmptyOfOne("");
    assert [""] + [""] == ["", ""];
  }

  lemma NamesOf(out: Path)
    requires OrdinaryPath(out)
    ensures NonEmpty([""] + out) == out && NonEmpty([] + out) == out
  {
    forall i | 0 <= i < |out| ensures out[i] != "" { assert Ordinary(out[i]); }
    NonEmptyConcat([""], out);
    NonEmptyOfOne("");
    NonEmptyKeeps(out);
    assert [] + out == out;
  }

  /** The path of a key that names itself. */
  lemma PathOfFixpoint(root: Path, key: string)
    requires OrdinaryPath(root) && SanitizeKey(key) == Key(key)
    ensures DataPath(root, key) == root + Split(key, '/') && OrdinaryPath(Split(key, '/'))
  {
    FixpointIff(key);
    hide SanitizeKey, Split;
    ResolveOrdinary(true, root + Split(key, '/'));
  }

  lemma OneSlash(key: string)
    requires SanitizeKey(key) == Key(key)
    ensures SanitizeKey(['/'] + key) == Key(key)
  {
    hide Bare, SanitizeKey, Split, Trimmed;
    FixpointIff(key);
    PlainBare(key);
    SlashDropped(key);
    SanitizeSame(['/'] + key, key);
  }

  lemma RootedPlain(key: string, bare: string, names: Path)
    requires Bare(key) == bare && Rooted(bare) && Resolved(bare) == names && OrdinaryPath(names)
    ensures SanitizeKey(key) == Key("/" + Join(names, '/'))
  {
    hide Bare, Resolved, SanitizeKey, Join;
    NoStepUp(names);
    SanitizeMeaning(key);
  }

  /** Two leading slashes become one, and that one then goes too: sanitizing "//a" twice gives "a". */
  lemma TwoSlashes(key: string)
    requires SanitizeKey(key) == Key(key)
    ensures SanitizeKey(['/'] + (['/'] + key)) == Key("/" + key)
    ensures SanitizeKey(['/'] + key) == Key(key)
  {
    hide Bare, SanitizeKey, Split, Trimmed, Join, Resolved, Rooted;
    OneSlash(key);
    FixpointIff(key);
    SlashDropped(['/'] + key);
    BareOfRooted(key);
    RootedResolves(key);
    RootedPlain(['/'] + (['/'] + key), ['/'] + key, Split(key, '/'));
    JoinSplit(key, '/');
  }

  lemma NoStepUp(names: Path)
    requires OrdinaryPath(names)
    ensures ".." !in names
  {
  }

  lemma SanitizeSame(a: string, b: string)
    requires Bare(a) == Bare(b)
    ensures SanitizeKey(a) == SanitizeKey(b)
  {
    hide Bare, Clean, Escapes;
  }

  lemma SlashDropped(key: string)
    ensures Bare(['/'] + key) == TrimSpace(key)
  {
    assert (['/'] + key)[1..] == key && HasPrefix(['/'] + key, "/");
  }

  lemma PlainBare(key: string)
    requires Trimmed(key) && OrdinaryPath(Split(key, '/'))
    ensures Bare(key) == key == TrimSpace(key) && key != ""
  {
    EmptySplit();
    SplitRooted(key);
    assert Ordinary(Split(key, '/')[0]);
    BareShortens(key);
    TrimTrimmed(key);
  }

  lemma BareOfRooted(key: string)
    requires Trimmed(key)
    ensures TrimSpace(['/'] + key) == ['/'] + key
  {
    TrimTrimmed(['/'] + key);
  }

  lemma RootedResolves(key: string)
    requires OrdinaryPath(Split(key, '/'))
    ensures Rooted(['/'] + key) && Resolved(['/'] + key) == Split(key, '/')
  {
    SplitCons('/', key, '/');
    hide Split, Resolve;
    var names := Split(key, '/');
    forall i | 0 <= i < |names| ensures names[i] != "" { assert Ordinary(names[i]); }
    ResolveBelow([], [""] + names);
    NamesOf(names);
    assert [] + ([""] + names) == [""] + names && [] + names == names;
  }

  lemma {:induction false} ResolveDot(names: Path)
    requires OrdinaryPath(names)
    ensures Resolve(false, ["."] + names) == names
    decreases |names|
  {
    var all := ["."] + names;
    if names == [] {
      assert all[..0] == [] && Resolve(false, []) == [];
    } else {
      var k := |names| - 1;
      assert all[..k + 1] == ["."] + names[..k];
      ResolveDot(names[..k]);
    }
  }

  lemma SpacedName(name: string)
    requires Ordinary(name)
    ensures Ordinary([' '] + name)
  {
    assert ([' '] + name)[0] == ' ';
  }

  /** A space in front of a key that names itself makes an ordinary path, of another first name. */
  lemma SpacedPath(key: string)
    requires OrdinaryPath(Split(key, '/'))
    ensures OrdinaryPath(Split([' '] + key, '/')) && Split([' '] + key, '/') == Before(' ', Split(key, '/'))
  {
    SplitCons(' ', key, '/');
    hide Split, Ordinary;
    var names := Split(key, '/');
    assert Ordinary(names[0]);
    SpacedName(names[0]);
  }

  lemma SpaceDropped(key: string)
    requires SanitizeKey(key) == Key(key)
    ensures SanitizeKey([' '] + key) == Key(key)
  {
    hide SanitizeKey, Split, Trimmed, TrimSpace, Bare;
    FixpointIff(key);
    PlainBare(key);
    SpacedBare(key);
    SanitizeSame([' '] + key, key);
  }

  lemma SpacedBare(key: string)
    ensures Bare([' '] + key) == TrimSpace(key)
  {
    SlashFirst([' '] + key);
    TrimLeftPadded([' '], key);
  }

  /** White space that resolving uncovers survives one sanitizing and not a second: sanitizing
      "./ a" gives " a", and sanitizing that gives "a". */
  lemma UncoveredSpace(key: string)
    requires SanitizeKey(key) == Key(key)
    ensures SanitizeKey("./" + ([' '] + key)) == Key([' '] + key)
    ensures SanitizeKey([' '] + key) == Key(key)
  {
    hide SanitizeKey, Split, Trimmed, TrimSpace, Bare, Resolved, Join;
    SpaceDropped(key);
    FixpointIff(key);
    var spaced := [' '] + key;
    SpacedPath(key);
    PlainBare(key);
    DottedBare(key);
    DottedResolves(spaced);
    NoStepUp(Split(spaced, '/'));
    SanitizeMeaning("./" + spaced);
    JoinSplit(spaced, '/');
  }

  lemma DottedBare(key: string)
    requires Trimmed(key) && key != ""
    ensures Bare("./" + ([' '] + key)) == "./" + ([' '] + key)
  {
    var dotted := "./" + ([' '] + key);
    assert dotted[0] == '.' && dotted[|dotted| - 1] == key[|key| - 1];
    BareShortens(dotted);
  }

  lemma DottedResolves(path: string)
    requires OrdinaryPath(Split(path, '/'))
    ensures !Rooted("./" + path) && Resolved("./" + path) == Split(path, '/')
  {
    assert "./" + path == "." + ['/'] + path;
    SplitFirst(".", path, '/');
    assert ("./" + path)[0] == '.';
    hide Split, Resolve;
    ResolveDot(Split(path, '/'));
  }

  lemma DotIsBare()
    ensures Bare(".") == "."
  {
    TrimTrimmed(".");
    SlashFirst(".");
  }

  lemma DotResolves()
    ensures Resolved(".") == [] && !Rooted(".")
  {
    SplitSingle(".", '/');
    hide Split;
    assert ["."][..0] == [] && Resolve(false, []) == [];
  }

  lemma DotIsRefused()
    ensures !SanitizeKey(".").Key?
  {
    hide Bare, SanitizeKey, Resolved, Rooted;
    DotIsBare();
    DotResolves();
    SanitizeMeaning(".");
  }
}

/** The metric-target setting: a comma-separated list of `<type>:<id>` tokens. */
module MetricTargets {
  import opened Text
  import opened MetricsCollector
  import Ordering

  datatype TargetError =
    | MissingColon(token: string)
    | EmptyValue(token: string)
    | NotClusterAndService(token: string)
    | UnsupportedType(token: string, targetType: string)

  datatype Result<+T> = Ok(value: T) | Err(error: TargetError)

  function Instance(id: string): ResourceTarget {
    ResourceTarget(KIND_EC2, id, "", "")
  }

  function Service(cluster: string, service: string): ResourceTarget {
    ResourceTarget(KIND_ECS_SERVICE, "", cluster, service)
  }

  // ---------- one token ----------

  function ParseToken(token: string): Result<ResourceTarget> {
    match Cut(token, ':')
    case None => Err(MissingColon(token))
    case Some(parts) =>
      var targetType, targetValue := ToLower(TrimSpace(parts.0)), TrimSpace(parts.1);
      if targetValue == "" then Err(EmptyValue(token))
      else if targetType == "ec2" then Ok(Instance(targetValue))
      else if targetType == "ecs" || targetType == "ecs_service" then
        match Cut(targetValue, '/') {
          case None => Err(NotClusterAndService(token))
          case Some(both) =>
            var cluster, service := TrimSpace(both.0), TrimSpace(both.1);
            if cluster == "" || service == "" then Err(NotClusterAndService(token)) else Ok(Service(cluster, service))
        }
      else Err(UnsupportedType(token, targetType))
  }

  /** The text has no first slash between two names. */
  ghost predicate NoSides(text: string) {
    forall a, b :: text == a + ['/'] + b && '/' !in a ==> TrimSpace(a) == "" || TrimSpace(b) == ""
  }

  lemma NoSidesIff(text: string)
    ensures NoSides(text) <==> match Cut(text, '/') case None => true case Some(both) => TrimSpace(both.0) == "" || TrimSpace(both.1) == ""
  {
    hide TrimSpace, Cut;
    forall a, b | text == a + ['/'] + b && '/' !in a ensures Cut(text, '/') == Some((a, b)) {
      CutAt(a, b, '/');
    }
  }

  /** Which error a token is, by what stands before and after its first colon. */
  lemma TokenErrors(kind: string, value: string)
    requires ':' !in kind
    ensures ParseToken(kind) == Err(MissingColon(kind))
    ensures var token, name := kind + [':'] + value, ToLower(TrimSpace(kind));
      && (ParseToken(token) == Err(EmptyValue(token)) <==> TrimSpace(value) == "")
      && (ParseToken(token) == Err(UnsupportedType(token, name))
          <==> TrimSpace(value) != "" && name !in {"ec2", "ecs", "ecs_service"})
      && (ParseToken(token) == Err(NotClusterAndService(token))
          <==> TrimSpace(value) != "" && name in {"ecs", "ecs_service"} && NoSides(TrimSpace(value)))
  {
    hide TrimSpace, ToLower, Cut, NoSides;
    CutAt(kind, value, ':');
    NoSidesIff(TrimSpace(value));
  }

  // ---------- the list ----------

  /** The targets of the non-blank items, or the error of the first malformed one. */
  function ParseItems(items: seq<string>): Result<seq<ResourceTarget>> {
    if items == [] then Ok([])
    else
      var k := |items| - 1;
      match ParseItems(items[..k])
      case Err(e) => Err(e)
      case Ok(targets) =>
        var token := TrimSpace(items[k]);
        if token == "" then Ok(targets)
        else match ParseToken(token)
          case Err(e) => Err(e)
          case Ok(t) => Ok(targets + [t])
  }

  function SortKey(t: ResourceTarget): Ordering.Key {
    [Ordering.Text(t.kind + ":" + t.instanceID + ":" + t.clusterName + ":" + t.serviceName)]
  }

  function Arranged(targets: seq<ResourceTarget>): seq<ResourceTarget> {
    Ordering.StableSort(targets, SortKey)
  }

  function Parse(raw: string): Result<seq<ResourceTarget>> {
    match ParseItems(Split(raw, ','))
    case Err(e) => Err(e)
    case Ok(targets) => Ok(Arranged(targets))
  }

  lemma {:induction false} ParseItemsPrefix(items: seq<string>, i: nat)
    requires i <= |items|
    ensures ParseItems(items[..i]).Err? ==> ParseItems(items) == ParseItems(items[..i])
    decreases |items|
  {
    hide ParseToken, TrimSpace;
    assert items[..|items|] == items;
    if i < |items| {
      var k := |items| - 1;
      assert items[..k][..i] == items[..i];
      ParseItemsPrefix(items[..k], i);
    }
  }

  /** The loop has parsed the first `i` items into `targets`. */
  ghost predicate SoFar(items: seq<string>, i: nat, targets: seq<ResourceTarget>) {
    i <= |items| && ParseItems(items[..i]) == Ok(targets)
  }

  lemma SoFarStep(items: seq<string>, i: nat, targets: seq<ResourceTarget>)
    requires SoFar(items, i, targets) && i < |items|
    ensures var token := TrimSpace(items[i]);
      if token == "" then SoFar(items, i + 1, targets)
      else if ParseToken(token).Ok? then SoFar(items, i + 1, targets + [ParseToken(token).value])
      else ParseItems(items) == Err(ParseToken(token).error)
  {
    hide TrimSpace, ParseToken;
    assert items[..i + 1][..i] == items[..i];
    ParseItemsPrefix(items, i + 1);
  }

  /** Trimming the whole setting first makes no difference, since every item is trimmed anyway. */
  method ParseMetricTargets(raw: string) returns (r: Result<seq<ResourceTarget>>)
    ensures r == Parse(raw)
  {
    hide ParseToken, Split, Ordering.StableSort, TrimSpace, SoFar, ParseItems;
    var trimmed := TrimSpace(raw);
    TrimmedSetting(raw);
    if trimmed == "" {
      BlankSetting();
      return Ok([]);
    }
    var items := Split(trimmed, ',');
    var targets := [];
    NothingSoFar(items);
    for i := 0 to |items|
      invariant SoFar(items, i, targets)
    {
      var item := items[i];
      SoFarStep(items, i, targets);
      var token := TrimSpace(item);
      if token == "" {
        continue;
      }
      match ParseToken(token) {
        case Err(e) => return Err(e);
        case Ok(t) => targets := targets + [t];
      }
    }
    AllSoFar(items, targets);
    return Ok(Arranged(targets));
  }

  lemma NothingSoFar(items: seq<string>)
    ensures SoFar(items, 0, [])
  {
  }

  lemma AllSoFar(items: seq<string>, targets: seq<ResourceTarget>)
    requires SoFar(items, |items|, targets)
    ensures ParseItems(items) == Ok(targets)
  {
    assert items[..|items|] == items;
  }

  lemma BlankSetting()
    ensures Parse("") == Ok([])
  {
    assert [""][..0] == [];
    assert TrimSpace("") == "";
    assert ParseItems([]) == Ok([]);
  }

  // ---------- trimming the whole setting ----------

  lemma {:induction false} SameTokens(a: seq<string>, b: seq<string>)
    requires |a| == |b| && forall i :: 0 <= i < |a| ==> TrimSpace(a[i]) == TrimSpace(b[i])
    ensures ParseItems(a) == ParseItems(b)
    decreases |a|
  {
    hide ParseToken, TrimSpace;
    if a != [] {
      var k := |a| - 1;
      SameTokens(a[..k], b[..k]);
    }
  }

  lemma SplitSpace(c: char, s: string)
    requires IsSpace(c)
    ensures ParseItems(Split([c] + s, ',')) == ParseItems(Split(s, ','))
    ensures ParseItems(Split(s + [c], ',')) == ParseItems(Split(s, ','))
  {
    var parts := Split(s, ',');
    SplitCons(c, s, ',');
    SplitSnoc(s, c, ',');
    SameTokensBefore(c, parts);
    SameTokensAfter(parts, c);
    assert c != ',';
    hide Split, ParseItems, TrimSpace, IsSpace;
  }

  lemma SameTokensBefore(c: char, parts: seq<string>)
    requires IsSpace(c) && parts != []
    ensures ParseItems(Before(c, parts)) == ParseItems(parts)
  {
    hide ParseItems, TrimSpace, IsSpace;
    TrimPaddedLeft(c, parts[0]);
    SameTokens(Before(c, parts), parts);
  }

  lemma SameTokensAfter(parts: seq<string>, c: char)
    requires IsSpace(c) && parts != []
    ensures ParseItems(Lengthen(parts, [c])) == ParseItems(parts)
  {
    hide ParseItems, TrimSpace, IsSpace;
    TrimPaddedRight(parts[|parts| - 1], c);
    SameTokens(Lengthen(parts, [c]), parts);
  }

  lemma {:induction false} TrimLeftSetting(s: string)
    ensures ParseItems(Split(TrimLeft(s), ',')) == ParseItems(Split(s, ','))
  {
    hide Split, ParseItems, IsSpace;
    if s != "" && IsSpace(s[0]) {
      TrimLeftSetting(s[1..]);
      SplitSpace(s[0], s[1..]);
      assert s == [s[0]] + s[1..];
    }
  }

  lemma {:induction false} TrimRightSetting(s: string)
    ensures ParseItems(Split(TrimRight(s), ',')) == ParseItems(Split(s, ','))
  {
    hide Split, ParseItems, IsSpace;
    if s != "" && IsSpace(s[|s| - 1]) {
      TrimRightSetting(s[..|s| - 1]);
      SplitSpace(s[|s| - 1], s[..|s| - 1]);
      assert s == s[..|s| - 1] + [s[|s| - 1]];
    }
  }

  lemma TrimPaddedLeft(c: char, s: string)
    requires IsSpace(c)
    ensures TrimSpace([c] + s) == TrimSpace(s)
  {
    hide IsSpace, TrimSpace, Trimmed;
    var p, q := TrimWitness(s);
    assert [c] + s == ([c] + p) + TrimSpace(s) + q;
    TrimPadded([c] + p, TrimSpace(s), q);
  }

  lemma TrimPaddedRight(s: string, c: char)
    requires IsSpace(c)
    ensures TrimSpace(s + [c]) == TrimSpace(s)
  {
    hide IsSpace, TrimSpace, Trimmed;
    var p, q := TrimWitness(s);
    assert s + [c] == p + TrimSpace(s) + (q + [c]);
    TrimPadded(p, TrimSpace(s), q + [c]);
  }

  lemma TrimmedSetting(raw: string)
    ensures Parse(TrimSpace(raw)) == Parse(raw)
  {
    hide ParseItems, Split, Ordering.StableSort;
    TrimLeftSetting(raw);
    TrimRightSetting(TrimLeft(raw));
  }

  // ---------- how targets are written ----------

  predicate Name(s: string) {
    s != "" && Trimmed(s) && ',' !in s
  }

  predicate WellFormed(t: ResourceTarget) {
    || (t == Instance(t.instanceID) && Name(t.instanceID))
    || (t == Service(t.clusterName, t.serviceName) && Name(t.clusterName) && '/' !in t.clusterName && Name(t.serviceName))
  }

  /** How a target is written: its type's name in some letter case, and white space around every part. */
  datatype Spelling =
    Spelling(before: string, typeName: string, gap: string, inner: string, slashLeft: string, slashRight: string, after: string)

  predicate Spells(t: ResourceTarget, how: Spelling) {
    && AllSpace(how.before) && AllSpace(how.gap) && AllSpace(how.inner)
    && AllSpace(how.slashLeft) && AllSpace(how.slashRight) && AllSpace(how.after)
    && (t.kind == KIND_EC2 ==> ToLower(how.typeName) == "ec2")
    && (t.kind == KIND_ECS_SERVICE ==> ToLower(how.typeName) == "ecs" || ToLower(how.typeName) == "ecs_service")
  }

  function RenderValue(t: ResourceTarget, how: Spelling): string {
    if t.kind == KIND_EC2 then t.instanceID
    else t.clusterName + how.slashLeft + ['/'] + (how.slashRight + t.serviceName)
  }

  function RenderBody(t: ResourceTarget, how: Spelling): string {
    how.typeName + how.gap + [':'] + (how.inner + RenderValue(t, how))
  }

  function Render(t: ResourceTarget, how: Spelling): string {
    how.before + RenderBody(t, how) + how.after
  }

  /** An item of the setting: white space only, or a target. */
  datatype Item = Blank(pad: string) | Target(t: ResourceTarget, how: Spelling)

  predicate ItemOk(item: Item) {
    match item
    case Blank(pad) => AllSpace(pad)
    case Target(t, how) => WellFormed(t) && Spells(t, how)
  }

  function RenderItem(item: Item): string {
    match item
    case Blank(pad) => pad
    case Target(t, how) => Render(t, how)
  }

  function RenderItems(items: seq<Item>): (r: seq<string>)
    ensures |r| == |items| && forall i :: 0 <= i < |r| ==> r[i] == RenderItem(items[i])
  {
    seq(|items|, i requires 0 <= i < |items| => RenderItem(items[i]))
  }

  function TargetsOf(items: seq<Item>): seq<ResourceTarget> {
    if items == [] then []
    else
      var k := |items| - 1;
      TargetsOf(items[..k]) + TargetOf(items[k])
  }

  // ---------- a written target parses ----------

  predicate Plain(s: string) {
    s != "" && forall i :: 0 <= i < |s| ==> !IsSpace(s[i]) && s[i] != ',' && s[i] != ':'
  }

  lemma TypeNamesArePlain()
    ensures Plain("ec2") && Plain("ecs") && Plain("ecs_service")
  {
  }

  lemma PlainLowers(s: string)
    requires Plain(ToLower(s))
    ensures Plain(s)
  {
    forall i | 0 <= i < |s| ensures !IsSpace(s[i]) && s[i] != ',' && s[i] != ':' {
      assert ToLower(s)[i] == LowerChar(s[i]);
    }
  }

  lemma TypeNamePlain(t: ResourceTarget, how: Spelling)
    requires WellFormed(t) && Spells(t, how)
    ensures Plain(how.typeName)
  {
    TypeNamesArePlain();
    PlainLowers(how.typeName) by { hide Plain, ToLower; }
  }

  lemma SpacesAreNoMarks(s: string)
    requires AllSpace(s)
    ensures ',' !in s && ':' !in s && '/' !in s
  {
  }

  lemma ValueIsName(t: ResourceTarget, how: Spelling)
    requires WellFormed(t) && Spells(t, how)
    ensures Name(RenderValue(t, how))
  {
    SpacesAreNoMarks(how.slashLeft);
    SpacesAreNoMarks(how.slashRight);
    hide IsSpace;
  }

  lemma ValueParses(t: ResourceTarget, how: Spelling)
    requires WellFormed(t) && Spells(t, how) && t.kind == KIND_ECS_SERVICE
    ensures var both := Cut(RenderValue(t, how), '/');
      both.Some? && TrimSpace(both.value.0) == t.clusterName && TrimSpace(both.value.1) == t.serviceName
  {
    hide TrimSpace, ToLower, Cut, IsSpace;
    SpacesAreNoMarks(how.slashLeft);
    CutAt(t.clusterName + how.slashLeft, how.slashRight + t.serviceName, '/');
    TrimAfter(t.clusterName, how.slashLeft);
    TrimBefore(how.slashRight, t.serviceName);
  }

  lemma PairParses(typeName: string, gap: string, inner: string, value: string)
    requires Plain(typeName) && AllSpace(gap) && AllSpace(inner) && Name(value)
    ensures var both := Cut(typeName + gap + [':'] + (inner + value), ':');
      both.Some? && TrimSpace(both.value.0) == typeName && TrimSpace(both.value.1) == value
  {
    hide TrimSpace, Cut, IsSpace;
    SpacesAreNoMarks(gap);
    assert forall i :: 0 <= i < |typeName| ==> typeName[i] != ':';
    CutAt(typeName + gap, inner + value, ':');
    TrimAfter(typeName, gap);
    TrimBefore(inner, value);
  }

  lemma EC2Value(t: ResourceTarget, how: Spelling)
    ensures t.kind == KIND_EC2 ==> RenderValue(t, how) == t.instanceID
  {
  }

  lemma BodyParses(t: ResourceTarget, how: Spelling)
    requires WellFormed(t) && Spells(t, how)
    ensures ParseToken(RenderBody(t, how)) == Ok(t)
  {
    hide TrimSpace, ToLower, Cut, IsSpace, AllSpace, Plain, RenderValue, Trimmed;
    TypeNamePlain(t, how);
    ValueIsName(t, how);
    PairParses(how.typeName, how.gap, how.inner, RenderValue(t, how));
    EC2Value(t, how);
    if t.kind == KIND_ECS_SERVICE {
      ValueParses(t, how);
    }
  }

  lemma TrimAfter(s: string, pad: string)
    requires Trimmed(s) && AllSpace(pad)
    ensures TrimSpace(s + pad) == s
  {
    TrimPadded("", s, pad);
    assert "" + s + pad == s + pad;
  }

  lemma TrimBefore(pad: string, s: string)
    requires Trimmed(s) && AllSpace(pad)
    ensures TrimSpace(pad + s) == s
  {
    TrimPadded(pad, s, "");
    assert pad + s + "" == pad + s;
  }

  lemma BodyIsName(t: ResourceTarget, how: Spelling)
    requires WellFormed(t) && Spells(t, how)
    ensures Name(RenderBody(t, how))
  {
    TypeNamePlain(t, how);
    ValueIsName(t, how);
    SpacesAreNoMarks(how.gap);
    SpacesAreNoMarks(how.inner);
    hide RenderValue, IsSpace, AllSpace, Spells, WellFormed;
  }

  lemma ItemIsClean(item: Item)
    requires ItemOk(item)
    ensures ',' !in RenderItem(item)
  {
    hide RenderBody, IsSpace, WellFormed;
    match item
    case Blank(pad) =>
      SpacesAreNoMarks(pad);
    case Target(t, how) =>
      BodyIsName(t, how);
      SpacesAreNoMarks(how.before);
      SpacesAreNoMarks(how.after);
  }

  /** Every item as written trims to nothing or to a token that parses to its target. */
  lemma ItemParses(item: Item)
    requires ItemOk(item)
    ensures var token := TrimSpace(RenderItem(item));
      if item.Blank? then token == "" else token != "" && ParseToken(token) == Ok(item.t)
  {
    hide TrimSpace, ParseToken, RenderBody, IsSpace, WellFormed;
    match item
    case Blank(pad) =>
      TrimPadded(pad, "", "");
      assert pad + "" + "" == pad;
    case Target(t, how) =>
      BodyParses(t, how);
      BodyIsName(t, how);
      TrimPadded(how.before, RenderBody(t, how), how.after);
  }

  /** The targets an item adds. */
  function TargetOf(item: Item): seq<ResourceTarget> {
    if item.Target? then [item.t] else []
  }

  lemma ParseItemsEnd(texts: seq<string>, k: nat, targets: seq<ResourceTarget>)
    requires k + 1 == |texts| && ParseItems(texts[..k]) == Ok(targets)
    ensures TrimSpace(texts[k]) == "" ==> ParseItems(texts) == Ok(targets)
    ensures TrimSpace(texts[k]) != "" && ParseToken(TrimSpace(texts[k])).Ok?
      ==> ParseItems(texts) == Ok(targets + [ParseToken(TrimSpace(texts[k])).value])
  {
    hide TrimSpace, ParseToken;
  }

  lemma ParseItemsStep(texts: seq<string>, k: nat, targets: seq<ResourceTarget>, item: Item)
    requires k + 1 == |texts| && ParseItems(texts[..k]) == Ok(targets)
    requires ItemOk(item) && texts[k] == RenderItem(item)
    ensures ParseItems(texts) == Ok(targets + TargetOf(item))
  {
    ItemParses(item);
    ParseItemsEnd(texts, k, targets);
    hide TrimSpace, ParseToken, RenderItem, ItemOk, ParseItems;
    assert targets + [] == targets;
  }

  lemma ItemsParseStep(items: seq<Item>, k: nat)
    requires k + 1 == |items| && ItemOk(items[k])
    requires ParseItems(RenderItems(items[..k])) == Ok(TargetsOf(items[..k]))
    ensures ParseItems(RenderItems(items)) == Ok(TargetsOf(items))
  {
    hide ParseItems, RenderItem, ItemOk;
    assert RenderItems(items)[..k] == RenderItems(items[..k]);
    ParseItemsStep(RenderItems(items), k, TargetsOf(items[..k]), items[k]);
  }

  lemma {:induction false} ItemsParse(items: seq<Item>)
    requires forall i :: 0 <= i < |items| ==> ItemOk(items[i])
    ensures ParseItems(RenderItems(items)) == Ok(TargetsOf(items))
    decreases |items|
  {
    hide ItemOk;
    if items != [] {
      ItemsParse(items[..|items| - 1]);
      ItemsParseStep(items, |items| - 1);
    }
  }

  /** Writing any list of well-formed targets, with any padding and blank items, and parsing it
      gives the list back, arranged. */
  lemma RenderedSettingParses(items: seq<Item>)
    requires forall i :: 0 <= i < |items| ==> ItemOk(items[i])
    ensures Parse(Join(RenderItems(items), ',')) == Ok(Arranged(TargetsOf(items)))
  {
    hide Split, ParseItems, RenderItem, ItemOk, Ordering.StableSort;
    if items == [] {
      BlankSetting();
    } else {
      var written := RenderItems(items);
      forall i | 0 <= i < |written| ensures ',' !in written[i] { ItemIsClean(items[i]); }
      SplitJoin(written, ',');
      ItemsParse(items);
    }
  }

  // ---------- whatever parses is a written target ----------

  lemma ValueIsWritten(value: string) returns (left: string, right: string)
    requires Trimmed(value) && Cut(value, '/').Some?
    ensures var (a, b) := Cut(value, '/').value;
      && AllSpace(left) && AllSpace(right)
      && value == TrimSpace(a) + left + ['/'] + (right + TrimSpace(b))
      && '/' !in TrimSpace(a)
  {
    var (a, b) := Cut(value, '/').value;
    hide Cut, TrimSpace, IsSpace;
    assert a != "" ==> value[0] == a[0];
    assert b != "" ==> value[|value| - 1] == b[|b| - 1];
    left := TrimTail(a);
    right := TrimHead(b);
    assert forall i :: 0 <= i < |TrimSpace(a)| ==> TrimSpace(a)[i] == a[i];
  }

  lemma PairIsWritten(token: string, a: string, b: string) returns (gap: string, inner: string)
    requires Trimmed(token) && Cut(token, ':') == Some((a, b)) && ',' !in token
    ensures AllSpace(gap) && AllSpace(inner) && token == TrimSpace(a) + gap + [':'] + (inner + TrimSpace(b))
    ensures ',' !in TrimSpace(b)
  {
    hide Cut, TrimSpace, IsSpace;
    assert a != "" ==> token[0] == a[0];
    assert b != "" ==> token[|token| - 1] == b[|b| - 1];
    gap := TrimTail(a);
    inner := TrimHead(b);
    CleanValue(a + [':'] + inner, TrimSpace(b), token);
  }

  lemma PartsOfClean(a: string, b: string)
    requires ',' !in a + b
    ensures ',' !in a && ',' !in b
  {
    assert forall i :: 0 <= i < |a| ==> a[i] == (a + b)[i];
    assert forall i :: 0 <= i < |b| ==> b[i] == (a + b)[|a| + i];
  }

  lemma CleanValue(front: string, value: string, token: string)
    requires ',' !in token && front + value == token
    ensures ',' !in value
  {
    PartsOfClean(front, value);
  }

  lemma TokenIsWritten(token: string, t: ResourceTarget) returns (how: Spelling)
    requires Trimmed(token) && ',' !in token && ParseToken(token) == Ok(t)
    ensures WellFormed(t) && Spells(t, how) && token == RenderBody(t, how)
  {
    assert Cut(token, ':').Some?;
    hide ParseToken, WellFormed, Spells, Cut, Trimmed, RenderBody, TrimSpace;
    var parts := Cut(token, ':').value;
    var gap, inner := PairIsWritten(token, parts.0, parts.1);
    how := ValueIsTarget(token, t, parts.0, parts.1, gap, inner);
  }

  lemma ValueIsTarget(token: string, t: ResourceTarget, a: string, b: string, gap: string, inner: string) returns (how: Spelling)
    requires ParseToken(token) == Ok(t) && Cut(token, ':') == Some((a, b)) && ',' !in TrimSpace(b)
    requires AllSpace(gap) && AllSpace(inner) && token == TrimSpace(a) + gap + [':'] + (inner + TrimSpace(b))
    ensures WellFormed(t) && Spells(t, how) && token == RenderBody(t, how)
  {
    hide TrimSpace, ToLower, IsSpace;
    var typeName, value := TrimSpace(a), TrimSpace(b);
    if ToLower(typeName) == "ec2" {
      assert t == Instance(value);
      how := Spelling("", typeName, gap, inner, "", "", "");
    } else {
      var (c, s) := Cut(value, '/').value;
      var left, right := ValueIsWritten(value);
      ServiceIsWellFormed(value, TrimSpace(c), left, right, TrimSpace(s));
      assert t == Service(TrimSpace(c), TrimSpace(s));
      how := Spelling("", typeName, gap, inner, left, right, "");
    }
  }

  lemma ServiceIsWellFormed(value: string, cluster: string, left: string, right: string, service: string)
    requires ',' !in value && value == cluster + left + ['/'] + (right + service)
    requires cluster != "" && service != "" && Trimmed(cluster) && Trimmed(service) && '/' !in cluster
    ensures WellFormed(Service(cluster, service))
  {
    hide IsSpace;
    PartsOfClean(cluster, left + ['/'] + (right + service)) by {
      assert cluster + (left + ['/'] + (right + service)) == value;
    }
    PartsOfClean(cluster + left + ['/'] + right, service) by {
      assert cluster + left + ['/'] + right + service == value;
    }
  }

  lemma ItemIsWritten(text: string) returns (item: Item)
    requires ',' !in text && (TrimSpace(text) != "" ==> ParseToken(TrimSpace(text)).Ok?)
    ensures ItemOk(item) && RenderItem(item) == text
  {
    hide TrimSpace, ParseToken, IsSpace, WellFormed, Spells;
    var token := TrimSpace(text);
    var p, q := TrimWitness(text);
    if token == "" {
      item := Blank(text);
    } else {
      assert forall i :: 0 <= i < |token| ==> token[i] == text[|p| + i];
      var t := ParseToken(token).value;
      var how := TokenIsWritten(token, t);
      PaddedSpelling(t, how, p, q);
      item := Target(t, how.(before := p, after := q));
    }
  }

  lemma PaddedSpelling(t: ResourceTarget, how: Spelling, p: string, q: string)
    requires Spells(t, how) && AllSpace(p) && AllSpace(q)
    ensures var padded := how.(before := p, after := q); Spells(t, padded) && RenderBody(t, padded) == RenderBody(t, how)
  {
  }

  lemma {:induction false} ItemsAreWritten(texts: seq<string>) returns (items: seq<Item>)
    requires ParseItems(texts).Ok? && forall i :: 0 <= i < |texts| ==> ',' !in texts[i]
    ensures RenderItems(items) == texts && forall i :: 0 <= i < |items| ==> ItemOk(items[i])
    decreases |texts|
  {
    hide TrimSpace, ParseToken, RenderItem, ItemOk;
    items := [];
    if texts != [] {
      var k := |texts| - 1;
      var before := ItemsAreWritten(texts[..k]);
      var item := ItemIsWritten(texts[k]);
      items := before + [item];
      assert RenderItems(items) == RenderItems(before) + [RenderItem(item)];
    }
  }

  /** `raw` writes a list of well-formed targets that, arranged, is `targets`. */
  ghost predicate Writes(raw: string, targets: seq<ResourceTarget>) {
    exists items: seq<Item> :: IsWriting(items, raw, targets)
  }

  ghost predicate IsWriting(items: seq<Item>, raw: string, targets: seq<ResourceTarget>) {
    && (forall i :: 0 <= i < |items| ==> ItemOk(items[i]))
    && raw == Join(RenderItems(items), ',')
    && targets == Arranged(TargetsOf(items))
  }

  /** The setting is accepted exactly when it writes a list of well-formed targets, and then it
      means that list, arranged; everything else is an error. */
  lemma ParsesIffWritten(raw: string, targets: seq<ResourceTarget>)
    ensures Parse(raw) == Ok(targets) <==> Writes(raw, targets)
  {
    hide Split, ParseItems, RenderItem, ItemOk, Ordering.StableSort, Join, RenderItems;
    if Parse(raw) == Ok(targets) {
      var items := ItemsAreWritten(Split(raw, ','));
      JoinSplit(raw, ',');
      ItemsParse(items);
      assert IsWriting(items, raw, targets);
    }
    if Writes(raw, targets) {
      var items: seq<Item> :| IsWriting(items, raw, targets);
      RenderedSettingParses(items);
    }
  }

  // ---------- what an accepted setting promises ----------

  lemma {:induction false} TargetsWellFormed(items: seq<Item>)
    requires forall i :: 0 <= i < |items| ==> ItemOk(items[i])
    ensures forall t :: t in TargetsOf(items) ==> WellFormed(t)
    decreases |items|
  {
    hide WellFormed, Spells;
    if items != [] {
      var k := |items| - 1;
      assert ItemOk(items[k]);
      TargetsWellFormed(items[..k]);
    }
  }

  /** The targets of a setting stand by kind, instance, cluster and service, written in a row. */
  lemma TargetsAreSorted(raw: string, i: nat, j: nat)
    requires Parse(raw).Ok? && i < j < |Parse(raw).value|
    ensures var t, u := Parse(raw).value[i], Parse(raw).value[j];
      !Ordering.StringLess(u.kind + ":" + u.instanceID + ":" + u.clusterName + ":" + u.serviceName,
                           t.kind + ":" + t.instanceID + ":" + t.clusterName + ":" + t.serviceName)
  {
    var targets := ParseItems(Split(raw, ',')).value;
    Ordering.StableSortSorts(targets, SortKey);
    hide ParseItems, Split, Ordering.StableSort, Ordering.Less, Ordering.StringLess;
    var t, u := Parse(raw).value[i], Parse(raw).value[j];
    var x, y := SortKey(t)[0].s, SortKey(u)[0].s;
    Ordering.NothingLess();
    Ordering.TextLess(y, [], x, []);
    assert SortKey(t) == [Ordering.Text(x)] + [] && SortKey(u) == [Ordering.Text(y)] + [];
  }

  /** Every target of an accepted setting is well formed and has at least one metric. */
  lemma AcceptedTargetsHaveMetrics(raw: string, t: ResourceTarget)
    requires Parse(raw).Ok? && t in Parse(raw).value
    ensures WellFormed(t) && |MetricSpecsForTarget(t).0| >= 1
  {
    hide Parse, WellFormed, ItemOk;
    var targets := Parse(raw).value;
    ParsesIffWritten(raw, targets);
    var items: seq<Item> :| IsWriting(items, raw, targets);
    TargetsWellFormed(items);
    var plain := TargetsOf(items);
    assert multiset(Ordering.StableSort(plain, SortKey)) == multiset(plain);
    assert t in multiset(targets);
    assert WellFormed(t);
    WellFormedHasMetrics(t);
  }

  lemma WellFormedHasMetrics(t: ResourceTarget)
    requires WellFormed(t)
    ensures |MetricSpecsForTarget(t).0| >= 1
  {
  }

  /** The error is that of the first malformed token. */
  lemma {:induction false} FirstMalformedTokenDecides(items: seq<string>, e: TargetError)
    ensures ParseItems(items) == Err(e) <==>
      exists i :: 0 <= i < |items| && ParseItems(items[..i]).Ok? && TrimSpace(items[i]) != "" && ParseToken(TrimSpace(items[i])) == Err(e)
    decreases |items|
  {
    hide TrimSpace, ParseToken;
    if ParseItems(items) == Err(e) {
      var k := |items| - 1;
      if ParseItems(items[..k]).Err? {
        FirstMalformedTokenDecides(items[..k], e);
        var i :| 0 <= i < k && ParseItems(items[..k][..i]).Ok? && TrimSpace(items[..k][i]) != "" && ParseToken(TrimSpace(items[..k][i])) == Err(e);
        assert items[..k][..i] == items[..i];
      }
    }
    forall i | 0 <= i < |items| && ParseItems(items[..i]).Ok? && TrimSpace(items[i]) != "" && ParseToken(TrimSpace(items[i])) == Err(e)
      ensures ParseItems(items) == Err(e)
    {
      assert items[..i + 1][..i] == items[..i];
      ParseItemsPrefix(items, i + 1);
    }
  }
}

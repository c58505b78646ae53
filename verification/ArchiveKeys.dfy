/** The keys under which the archive keeps metric points and log records. */
module ArchiveKeys {
  import opened GoTime
  import opened Text
  import opened Telemetry
  import opened FileTree
  import opened ObjectKeys
  import opened StorePaths
  import opened StoreInterference

  const TOKEN_LIMIT: int := 80

  // ---------- tokens ----------

  function SafeChar(c: char): char {
    if 'a' <= c <= 'z' then c
    else if 'A' <= c <= 'Z' then (c as int + 32) as char
    else if '0' <= c <= '9' then c
    else if c == '-' || c == '_' || c == '.' then c
    else '_'
  }

  predicate TokenChar(c: char) {
    'a' <= c <= 'z' || '0' <= c <= '9' || c == '-' || c == '_' || c == '.'
  }

  predicate Mark(c: char) {
    c == '.' || c == '_' || c == '-'
  }

  function SafeText(s: string): (r: string)
    ensures |r| == |s| && forall i :: 0 <= i < |r| ==> r[i] == SafeChar(s[i]) && TokenChar(r[i])
  {
    seq(|s|, i requires 0 <= i < |s| => SafeChar(s[i]))
  }

  function StripLeft(s: string): (r: string)
    ensures |r| <= |s| && (r != "" ==> !Mark(r[0]) && r[|r| - 1] == s[|s| - 1])
  {
    if s != "" && Mark(s[0]) then StripLeft(s[1..]) else s
  }

  function StripRight(s: string): (r: string)
    ensures |r| <= |s| && (r != "" ==> r[0] == s[0] && !Mark(r[|r| - 1]))
  {
    if s != "" && Mark(s[|s| - 1]) then StripRight(s[..|s| - 1]) else s
  }

  function SanitizeToken(value: string): string {
    var trimmed := TrimSpace(value);
    if trimmed == "" then "unknown"
    else
      var out := StripMarks(SafeText(trimmed));
      if out == "" then "unknown"
      else if |out| > TOKEN_LIMIT then out[..TOKEN_LIMIT]
      else out
  }

  predicate AllTokenChars(s: string) {
    forall i :: 0 <= i < |s| ==> TokenChar(s[i])
  }

  predicate IsToken(s: string) {
    0 < |s| <= 80 && !Mark(s[0]) && AllTokenChars(s)
  }

  /** `strings.Trim` with the marks as its cutset. */
  function StripMarks(s: string): string {
    StripRight(StripLeft(s))
  }

  /** Stripping leaves the end, or the start, of the text. */
  lemma {:induction false} StripLeftEnds(s: string)
    ensures StripLeft(s) == s[|s| - |StripLeft(s)|..]
  {
    if s != "" && Mark(s[0]) { StripLeftEnds(s[1..]); }
  }

  lemma {:induction false} StripRightStarts(s: string)
    ensures StripRight(s) == s[..|StripRight(s)|]
  {
    if s != "" && Mark(s[|s| - 1]) { StripRightStarts(s[..|s| - 1]); }
  }

  lemma StripKeeps(s: string)
    requires AllTokenChars(s)
    ensures var out := StripMarks(s); AllTokenChars(out) && (out != "" ==> !Mark(out[0]))
  {
    hide TokenChar, Mark, StripLeft, StripRight;
    var left := StripLeft(s);
    var out := StripRight(left);
    StripLeftEnds(s);
    StripRightStarts(left);
    assert forall i :: 0 <= i < |left| ==> left[i] == s[|s| - |left| + i];
    assert forall i :: 0 <= i < |out| ==> out[i] == left[i];
  }

  lemma UnknownIsToken()
    ensures IsToken("unknown")
  {
  }

  /** A token is short, never empty, starts with a letter or digit and is safe in a file name. */
  lemma SanitizedIsToken(value: string)
    ensures IsToken(SanitizeToken(value))
  {
    UnknownIsToken();
    hide TrimSpace, SafeChar, TokenChar, Mark, StripMarks;
    var safe := SafeText(TrimSpace(value));
    StripKeeps(safe);
  }

  lemma StripUnmarked(s: string)
    requires s != "" && !Mark(s[0])
    ensures !Mark(s[|s| - 1]) ==> StripMarks(s) == s
    ensures Mark(s[|s| - 1]) ==> |StripMarks(s)| < |s|
  {
    assert StripLeft(s) == s;
    assert Mark(s[|s| - 1]) ==> StripRight(s) == StripRight(s[..|s| - 1]);
  }

  lemma TokenCharsAreSafe(s: string)
    requires AllTokenChars(s)
    ensures SafeText(s) == s && TrimSpace(s) == s
  {
    assert forall i :: 0 <= i < |s| ==> SafeChar(s[i]) == s[i] && !IsSpace(s[i]);
    hide SafeChar, IsSpace, TokenChar, Mark, TrimSpace;
    TrimTrimmed(s);
  }

  /** Tokens are their own sanitized form unless cutting them short left a mark at the end. */
  lemma TokenIdempotentIff(s: string)
    requires IsToken(s)
    ensures SanitizeToken(s) == s <==> !Mark(s[|s| - 1])
  {
    hide SafeText, TrimSpace, TokenChar, Mark, StripMarks, AllTokenChars;
    TokenCharsAreSafe(s);
    StripUnmarked(s);
    if Mark(s[|s| - 1]) {
      UnknownIsUnmarked(s);
    }
  }

  lemma UnknownIsUnmarked(s: string)
    requires s != "" && Mark(s[|s| - 1])
    ensures s != "unknown"
  {
    assert "unknown"[6] == 'n';
  }

  /** Building a token character by character. */
  method BuildToken(value: string) returns (token: string)
    ensures token == SanitizeToken(value)
  {
    hide TrimSpace, StripMarks;
    var trimmed := TrimSpace(value);
    if trimmed == "" {
      return "unknown";
    }
    var built := "";
    for i := 0 to |trimmed|
      invariant |built| == i && forall j :: 0 <= j < i ==> built[j] == SafeChar(trimmed[j])
    {
      var r := trimmed[i];
      if 'a' <= r <= 'z' {
        built := built + [r];
      } else if 'A' <= r <= 'Z' {
        built := built + [(r as int + ('a' as int - 'A' as int)) as char];
      } else if '0' <= r <= '9' {
        built := built + [r];
      } else if r == '-' || r == '_' || r == '.' {
        built := built + [r];
      } else {
        built := built + ['_'];
      }
    }
    assert built == SafeText(trimmed);
    var out := StripMarks(built);
    if out == "" {
      return "unknown";
    }
    if |out| > TOKEN_LIMIT {
      return out[..TOKEN_LIMIT];
    }
    return out;
  }

  // ---------- keys ----------

  /** Formatting and hashing: the hour of an instant as year, month, day and hour; an instant and a
      value in full; and a text's hash. */
  datatype Formats = Formats(
    hour: Time -> (string, string, string, string),
    instant: Time -> string,
    value: real -> string,
    hash: string -> string)

  predicate IsNumber(s: string) {
    s != "" && forall i :: 0 <= i < |s| ==> IsDigit(s[i])
  }

  predicate IsHash(s: string) {
    |s| == 16 && forall i :: 0 <= i < |s| ==> IsDigit(s[i]) || 'a' <= s[i] <= 'f'
  }

  ghost predicate Sound(f: Formats) {
    && (forall t: Time :: var h := f.hour(t); IsNumber(h.0) && IsNumber(h.1) && IsNumber(h.2) && IsNumber(h.3))
    && (forall s: string :: IsHash(f.hash(s)))
  }

  function Below(top: string, h: (string, string, string, string), name: string): Path {
    [top, h.0, h.1, h.2, h.3, name]
  }

  function PointTime(p: MetricPoint, fallbackNow: Time): Time {
    if p.timestamp == ZERO_TIME then fallbackNow else p.timestamp
  }

  function PointMaterial(f: Formats, p: MetricPoint, fallbackNow: Time): string {
    Join([p.resourceID, p.namespace, p.metricName, f.instant(PointTime(p, fallbackNow)), f.value(p.value)], '|')
  }

  function PointName(f: Formats, p: MetricPoint, fallbackNow: Time): string {
    SanitizeToken(p.resourceID) + "-" + SanitizeToken(p.metricName) + ['-'] + f.hash(PointMaterial(f, p, fallbackNow))
  }

  function MetricKey(f: Formats, p: MetricPoint, fallbackNow: Time): string {
    Join(Below("metrics", f.hour(PointTime(p, fallbackNow)), PointName(f, p, fallbackNow) + ".json"), '/')
  }

  function RecordTime(r: LogRecord, fallbackNow: Time): Time {
    if r.timestamp != ZERO_TIME then r.timestamp
    else if r.ingestionTime != ZERO_TIME then r.ingestionTime
    else fallbackNow
  }

  function RecordMaterial(f: Formats, r: LogRecord, fallbackNow: Time): string {
    Join([r.logGroupName, r.logStreamName, r.message, f.instant(RecordTime(r, fallbackNow))], '|')
  }

  function RecordID(f: Formats, r: LogRecord, fallbackNow: Time): string {
    var eventID := TrimSpace(r.eventID);
    if eventID != "" then eventID else f.hash(RecordMaterial(f, r, fallbackNow))
  }

  function RecordName(f: Formats, r: LogRecord, fallbackNow: Time): string {
    SanitizeToken(r.logGroupName) + ['-'] + SanitizeToken(RecordID(f, r, fallbackNow))
  }

  function LogKey(f: Formats, r: LogRecord, fallbackNow: Time): string {
    Join(Below("logs", f.hour(RecordTime(r, fallbackNow)), RecordName(f, r, fallbackNow) + ".json"), '/')
  }

  // ---------- the shape of a key ----------

  /** A name made of tokens, a dash and another token. */
  predicate IsName(s: string) {
    s != "" && forall i :: 0 <= i < |s| ==> TokenChar(s[i])
  }

  lemma NumberIsOrdinary(s: string)
    requires IsNumber(s)
    ensures Ordinary(s)
  {
    assert IsDigit(s[0]);
  }

  lemma NameIsOrdinary(name: string)
    requires IsName(name)
    ensures Ordinary(name + ".json")
  {
    var s := name + ".json";
    assert |".json"| == 5;
    assert forall i :: 0 <= i < |s| ==> if i < |name| then s[i] == name[i] else s[i] == ".json"[i - |name|];
  }

  lemma BelowIsOrdinary(top: string, h: (string, string, string, string), name: string)
    requires Ordinary(top) && IsNumber(h.0) && IsNumber(h.1) && IsNumber(h.2) && IsNumber(h.3) && IsName(name)
    ensures OrdinaryPath(Below(top, h, name + ".json"))
  {
    NumberIsOrdinary(h.0);
    NumberIsOrdinary(h.1);
    NumberIsOrdinary(h.2);
    NumberIsOrdinary(h.3);
    NameIsOrdinary(name);
    hide Ordinary, IsNumber, IsName;
  }

  lemma KeyIsTrimmed(path: Path)
    requires path != [] && path[0] != "" && Name(path) != ""
    requires !IsSpace(path[0][0]) && !IsSpace(Name(path)[|Name(path)| - 1])
    ensures Trimmed(Join(path, '/'))
  {
    hide IsSpace, Join;
    JoinFirst(path);
    JoinLast(path);
  }

  lemma OrdinaryKey(path: Path)
    requires path != [] && OrdinaryPath(path) && Trimmed(Join(path, '/'))
    ensures var key := Join(path, '/'); Split(key, '/') == path && SanitizeKey(key) == Key(key)
  {
    forall p | p in path ensures '/' !in p { assert Ordinary(p); }
    hide Ordinary, SanitizeKey, Split, Join, Trimmed;
    SplitJoin(path, '/');
    FixpointIff(Join(path, '/'));
  }

  lemma TopIsOrdinary(top: string)
    requires top == "metrics" || top == "logs"
    ensures Ordinary(top) && !IsSpace(top[0])
  {
  }

  lemma JsonLast(name: string)
    ensures var s := name + ".json"; !IsSpace(s[|s| - 1])
  {
    var s := name + ".json";
    assert s[|s| - 1] == 'n';
  }

  /** An archive key splits into six ordinary names and is its own sanitized form. */
  lemma ArchiveKeyShape(top: string, h: (string, string, string, string), name: string)
    requires top == "metrics" || top == "logs"
    requires IsNumber(h.0) && IsNumber(h.1) && IsNumber(h.2) && IsNumber(h.3) && IsName(name)
    ensures var path := Below(top, h, name + ".json");
      var key := Join(path, '/');
      Split(key, '/') == path && SanitizeKey(key) == Key(key)
  {
    TopIsOrdinary(top);
    assert top != "";
    hide Ordinary, IsNumber, IsName, IsSpace, SanitizeKey, Split, Join, Trimmed;
    BelowIsOrdinary(top, h, name);
    JsonLast(name);
    KeyIsTrimmed(Below(top, h, name + ".json"));
    OrdinaryKey(Below(top, h, name + ".json"));
  }

  lemma LastPartOfSidecar(text: string)
    requires HasSuffix(text, SIDECAR)
    ensures HasSuffix(Name(Split(text, '/')), SIDECAR)
  {
    var front := text[..|text| - |SIDECAR|];
    assert text == front + SIDECAR;
    SidecarSplit(front);
    hide Split, HasSuffix;
    SuffixEnds(Name(Split(front, '/')), SIDECAR, SIDECAR) by { Itself(SIDECAR); }
  }

  lemma JsonEnds(name: string)
    ensures HasSuffix(name + ".json", SIDECAR) <==> HasSuffix(name, ".meta")
  {
    var s := name + ".json";
    assert |SIDECAR| == 10 && SIDECAR == ".meta" + ".json";
    if HasSuffix(s, SIDECAR) {
      assert s[|s| - 10..] == SIDECAR;
      assert name[|name| - 5..] == s[|s| - 10..][..5];
    }
    if HasSuffix(name, ".meta") {
      assert s[|s| - 10..] == name[|name| - 5..] + ".json";
    }
  }

  /** An archive key ends like a metadata file exactly when its name does. */
  lemma SidecarLikeIff(top: string, h: (string, string, string, string), name: string)
    requires top == "metrics" || top == "logs"
    requires IsNumber(h.0) && IsNumber(h.1) && IsNumber(h.2) && IsNumber(h.3) && IsName(name)
    ensures HasSuffix(Join(Below(top, h, name + ".json"), '/'), SIDECAR) <==> HasSuffix(name, ".meta")
  {
    hide SanitizeKey, Split, Join, IsName, IsNumber, HasSuffix;
    var key := Join(Below(top, h, name + ".json"), '/');
    ArchiveKeyShape(top, h, name);
    JsonEnds(name);
    if HasSuffix(key, SIDECAR) { LastPartOfSidecar(key); }
    if HasSuffix(name + ".json", SIDECAR) { LastPartEnds(key); }
  }

  // ---------- metric keys ----------

  lemma HashIsName(s: string)
    requires IsHash(s)
    ensures IsName(s) && '-' !in s && IsToken(s) && !HasSuffix(s, ".meta")
  {
    assert s[|s| - 5..][3] == s[14] && ".meta"[3] == 't';
  }

  lemma JoinNames(a: string, b: string)
    requires IsName(a) && IsName(b)
    ensures IsName(a + "-" + b) && IsName(a + ['-'] + b)
  {
    assert a + "-" + b == a + ['-'] + b;
  }

  lemma TokenIsName(s: string)
    requires IsToken(s)
    ensures IsName(s)
  {
  }

  /** After a dash, only the last part decides whether a name ends in ".meta". */
  lemma DashEnds(a: string, b: string)
    requires b != ""
    ensures HasSuffix(a + ['-'] + b, ".meta") <==> HasSuffix(b, ".meta")
  {
    var s := a + ['-'] + b;
    assert s[|a|] == '-' && |".meta"| == 5;
    if HasSuffix(b, ".meta") {
      SuffixEnds(a + ['-'], b, ".meta");
    }
    if HasSuffix(s, ".meta") {
      var tail := s[|s| - 5..];
      assert |b| < 5 ==> tail[4 - |b|] == '-';
      assert forall i :: 0 <= i < 5 ==> ".meta"[i] != '-';
      assert |b| >= 5;
      assert b[|b| - 5..] == tail;
    }
  }

  lemma PointNameIs(f: Formats, p: MetricPoint, now: Time)
    requires Sound(f)
    ensures IsName(PointName(f, p, now)) && !HasSuffix(PointName(f, p, now), ".meta")
  {
    var a, b, h := SanitizeToken(p.resourceID), SanitizeToken(p.metricName), f.hash(PointMaterial(f, p, now));
    SanitizedIsToken(p.resourceID);
    SanitizedIsToken(p.metricName);
    TokenIsName(a);
    TokenIsName(b);
    HashIsName(h);
    hide SanitizeToken, PointMaterial, IsName, IsToken, HasSuffix;
    JoinNames(a, b);
    JoinNames(a + "-" + b, h);
    DashEnds(a + "-" + b, h);
  }

  /** Every metric key is accepted as it is, is not mistaken for a metadata file, and has six parts. */
  lemma MetricKeyIsGood(f: Formats, p: MetricPoint, now: Time)
    requires Sound(f)
    ensures GoodKey(MetricKey(f, p, now)) && |Split(MetricKey(f, p, now), '/')| == 6
  {
    PointNameIs(f, p, now);
    var h := f.hour(PointTime(p, now));
    hide PointName, IsName, IsNumber, HasSuffix, Split, SanitizeKey;
    ArchiveKeyShape("metrics", h, PointName(f, p, now));
    SidecarLikeIff("metrics", h, PointName(f, p, now));
  }

  lemma SameArchiveKey(top: string, g: (string, string, string, string), a: string, h: (string, string, string, string), b: string)
    requires top == "metrics" || top == "logs"
    requires IsNumber(g.0) && IsNumber(g.1) && IsNumber(g.2) && IsNumber(g.3) && IsName(a)
    requires IsNumber(h.0) && IsNumber(h.1) && IsNumber(h.2) && IsNumber(h.3) && IsName(b)
    requires Join(Below(top, g, a + ".json"), '/') == Join(Below(top, h, b + ".json"), '/')
    ensures g == h && a == b
  {
    hide SanitizeKey, Split, Join, IsName, IsNumber;
    ArchiveKeyShape(top, g, a);
    ArchiveKeyShape(top, h, b);
    SameBelow(top, g, a + ".json", h, b + ".json");
    assert a == (a + ".json")[..|a|] && b == (b + ".json")[..|b|];
  }

  lemma SameName(f: Formats, p: MetricPoint, now: Time, q: MetricPoint, now': Time)
    requires Sound(f) && PointName(f, p, now) == PointName(f, q, now')
    ensures f.hash(PointMaterial(f, p, now)) == f.hash(PointMaterial(f, q, now'))
  {
    var x, y := f.hash(PointMaterial(f, p, now)), f.hash(PointMaterial(f, q, now'));
    HashIsName(x);
    HashIsName(y);
    hide SanitizeToken, PointMaterial, HasSuffix, IsToken, IsName, IsHash, Sound;
    LastSeparator(SanitizeToken(p.resourceID) + "-" + SanitizeToken(p.metricName), x,
                  SanitizeToken(q.resourceID) + "-" + SanitizeToken(q.metricName), y, '-');
  }

  /** Points with the same key have the same hashed identity. */
  lemma MetricKeyDeterminesHash(f: Formats, p: MetricPoint, now: Time, q: MetricPoint, now': Time)
    requires Sound(f) && MetricKey(f, p, now) == MetricKey(f, q, now')
    ensures f.hash(PointMaterial(f, p, now)) == f.hash(PointMaterial(f, q, now'))
    ensures f.hour(PointTime(p, now)) == f.hour(PointTime(q, now'))
  {
    PointNameIs(f, p, now);
    PointNameIs(f, q, now');
    var g, h := f.hour(PointTime(p, now)), f.hour(PointTime(q, now'));
    hide PointName, IsName, IsNumber, Join, HasSuffix;
    SameArchiveKey("metrics", g, PointName(f, p, now), h, PointName(f, q, now'));
    SameName(f, p, now, q, now');
  }

  lemma SameBelow(top: string, g: (string, string, string, string), a: string, h: (string, string, string, string), b: string)
    requires Below(top, g, a) == Below(top, h, b)
    ensures g == h && a == b
  {
    assert Below(top, g, a)[1] == g.0 && Below(top, g, a)[2] == g.1 && Below(top, g, a)[3] == g.2 && Below(top, g, a)[4] == g.3 && Below(top, g, a)[5] == a;
    assert Below(top, h, b)[1] == h.0 && Below(top, h, b)[2] == h.1 && Below(top, h, b)[3] == h.2 && Below(top, h, b)[4] == h.3 && Below(top, h, b)[5] == b;
  }

  // ---------- log keys ----------

  function RecordToken(f: Formats, r: LogRecord, now: Time): string {
    SanitizeToken(RecordID(f, r, now))
  }

  /** A log key is accepted as it is and has six parts; it is mistaken for a metadata file exactly
      when the record's token ends in ".meta". */
  lemma LogKeyIsGoodIff(f: Formats, r: LogRecord, now: Time)
    requires Sound(f)
    ensures SanitizeKey(LogKey(f, r, now)) == Key(LogKey(f, r, now)) && |Split(LogKey(f, r, now), '/')| == 6
    ensures GoodKey(LogKey(f, r, now)) <==> !HasSuffix(RecordToken(f, r, now), ".meta")
  {
    var a, b := SanitizeToken(r.logGroupName), RecordToken(f, r, now);
    SanitizedIsToken(r.logGroupName);
    SanitizedIsToken(RecordID(f, r, now));
    TokenIsName(a);
    TokenIsName(b);
    var h := f.hour(RecordTime(r, now));
    hide IsName, IsNumber, HasSuffix, Split, SanitizeKey, SanitizeToken, RecordID, IsToken;
    JoinNames(a, b);
    DashEnds(a, b);
    ArchiveKeyShape("logs", h, RecordName(f, r, now));
    SidecarLikeIff("logs", h, RecordName(f, r, now));
  }

  lemma RecordNameIs(f: Formats, r: LogRecord, now: Time)
    ensures IsName(RecordName(f, r, now))
  {
    SanitizedIsToken(r.logGroupName);
    SanitizedIsToken(RecordID(f, r, now));
    hide IsName, IsToken, SanitizeToken, RecordID;
    TokenIsName(SanitizeToken(r.logGroupName));
    TokenIsName(SanitizeToken(RecordID(f, r, now)));
    JoinNames(SanitizeToken(r.logGroupName), SanitizeToken(RecordID(f, r, now)));
  }

  /** The two records fall in one hour and get one name. */
  predicate SameRecordName(f: Formats, r: LogRecord, now: Time, r': LogRecord, now': Time) {
    f.hour(RecordTime(r, now)) == f.hour(RecordTime(r', now')) && RecordName(f, r, now) == RecordName(f, r', now')
  }

  /** Records share a key, so that the later overwrites the earlier, exactly when they fall in one
      hour and get one name. */
  lemma LogKeySameIff(f: Formats, r: LogRecord, now: Time, r': LogRecord, now': Time)
    requires Sound(f)
    ensures LogKey(f, r, now) == LogKey(f, r', now') <==> SameRecordName(f, r, now, r', now')
  {
    RecordNameIs(f, r, now);
    RecordNameIs(f, r', now');
    var g, h := f.hour(RecordTime(r, now)), f.hour(RecordTime(r', now'));
    hide IsName, IsNumber, RecordName, RecordTime, Join;
    if LogKey(f, r, now) == LogKey(f, r', now') {
      SameArchiveKey("logs", g, RecordName(f, r, now), h, RecordName(f, r', now'));
    }
  }

  /** Within one log group the name is as good as the record's token. */
  lemma GroupedRecordsSeparate(f: Formats, r: LogRecord, now: Time, r': LogRecord, now': Time)
    requires Sound(f) && r.logGroupName == r'.logGroupName
    ensures LogKey(f, r, now) == LogKey(f, r', now')
      <==> f.hour(RecordTime(r, now)) == f.hour(RecordTime(r', now')) && RecordToken(f, r, now) == RecordToken(f, r', now')
  {
    hide LogKey, SanitizeToken, RecordID, RecordTime, Sound;
    LogKeySameIff(f, r, now, r', now');
    var a, x, y := SanitizeToken(r.logGroupName) + ['-'], RecordToken(f, r, now), RecordToken(f, r', now');
    assert x == (a + x)[|a|..] && y == (a + y)[|a|..];
  }

  /** Ids that differ only in characters unsafe in a file name, such as "a b" and "a_b", share a token. */
  lemma TokensForgetUnsafeCharacters(a: string, b: string)
    requires |a| == |b| && forall i :: 0 <= i < |a| ==> SafeChar(a[i]) == SafeChar(b[i])
    requires a != "" && Trimmed(a) && Trimmed(b)
    ensures SanitizeToken(a) == SanitizeToken(b)
  {
    TrimTrimmed(a);
    TrimTrimmed(b);
    hide TrimSpace, SafeChar, StripMarks, Trimmed;
    assert SafeText(a) == SafeText(b);
  }

  lemma UnsafeExample()
    ensures SanitizeToken("a b") == SanitizeToken("a_b")
  {
    hide SanitizeToken;
    TokensForgetUnsafeCharacters("a b", "a_b");
  }

  /** The part of an id that a token shows the start of. */
  function Unmarked(id: string): string {
    StripMarks(SafeText(TrimSpace(id)))
  }

  /** That is the whole id, in safe characters, when no end of it is white space or turns into a mark. */
  lemma WholeIsUnmarked(id: string)
    requires id != "" && Trimmed(id) && !Mark(SafeChar(id[0])) && !Mark(SafeChar(id[|id| - 1]))
    ensures Unmarked(id) == SafeText(id)
  {
    TrimTrimmed(id);
    hide TrimSpace, SafeChar, Mark, StripMarks, Trimmed;
    StripUnmarked(SafeText(id));
  }

  /** Two ids too long for a token share one exactly when they agree in its 80 characters. */
  lemma TokensForgetTheEnd(a: string, b: string)
    requires |Unmarked(a)| > 80 && |Unmarked(b)| > 80
    ensures SanitizeToken(a) == SanitizeToken(b) <==> forall i :: 0 <= i < 80 ==> Unmarked(a)[i] == Unmarked(b)[i]
  {
    assert StripMarks(SafeText("")) == "";
    assert TrimSpace(a) != "" && TrimSpace(b) != "";
    hide SafeText, TrimSpace, StripMarks;
    var x, y := Unmarked(a)[..TOKEN_LIMIT], Unmarked(b)[..TOKEN_LIMIT];
    assert SanitizeToken(a) == x && SanitizeToken(b) == y;
    assert x == y <==> forall i :: 0 <= i < TOKEN_LIMIT ==> x[i] == y[i];
  }

  /** A record without an event id is named by its hash and never mistaken. */
  lemma HashedRecordIsGood(f: Formats, r: LogRecord, now: Time)
    requires Sound(f) && TrimSpace(r.eventID) == ""
    ensures GoodKey(LogKey(f, r, now))
  {
    var id := RecordID(f, r, now);
    assert IsHash(id);
    HashIsName(id);
    assert !Mark(id[15]);
    TokenIdempotentIff(id) by { hide IsHash; }
    hide SanitizeToken, IsToken, HasSuffix, RecordID, LogKey, GoodKey, Sound;
    LogKeyIsGoodIff(f, r, now);
  }

  /** The event id "x.meta" yields such a token. */
  lemma MetaTokenExample()
    ensures SanitizeToken("x.meta") == "x.meta" && HasSuffix("x.meta", ".meta")
  {
    hide SanitizeToken;
    assert "x.meta"[1..] == ".meta" && "x.meta"[5] == 'a';
    TokenIdempotentIff("x.meta");
  }

  // ---------- what a token shows ----------

  predicate Alphanumeric(c: char) {
    'a' <= c <= 'z' || 'A' <= c <= 'Z' || '0' <= c <= '9'
  }

  /** An id of at most 80 characters between letters or digits is shown whole: capitals as small
      letters, small letters, digits, dots, dashes and underscores as they are, the rest as underscores. */
  lemma TokenShows(id: string)
    requires 0 < |id| <= 80 && Alphanumeric(id[0]) && Alphanumeric(id[|id| - 1])
    ensures |SanitizeToken(id)| == |id|
    ensures forall i :: 0 <= i < |id| ==>
      (SanitizeToken(id)[i]
       == if 'A' <= id[i] <= 'Z' then ((id[i] as int) + 32) as char
          else if 'a' <= id[i] <= 'z' || '0' <= id[i] <= '9' || id[i] == '-' || id[i] == '.' then id[i]
          else '_')
  {
    TrimTrimmed(id);
    WholeIsUnmarked(id);
    hide TrimSpace, StripMarks, IsSpace;
  }

  /** Without a letter or a digit there is nothing to show. */
  lemma NothingToShow(id: string)
    requires forall i :: 0 <= i < |id| ==> !Alphanumeric(id[i])
    ensures SanitizeToken(id) == "unknown"
  {
    var p, q := TrimWitness(id);
    var t := TrimSpace(id);
    assert forall i :: 0 <= i < |t| ==> t[i] == id[|p| + i];
    AllMarksStripped(SafeText(t));
    hide TrimSpace, StripMarks, IsSpace, AllSpace;
  }

  lemma {:induction false} AllMarksStripped(s: string)
    requires forall i :: 0 <= i < |s| ==> Mark(s[i])
    ensures StripMarks(s) == ""
  {
    if s != "" { AllMarksStripped(s[1..]); }
  }

  // ---------- what a key shows ----------

  /** A metric key leads through the hour of the point, or of the archiving if it has no instant,
      to the tokens of its resource and metric and the hash of its identity. */
  lemma MetricKeyPath(f: Formats, p: MetricPoint, now: Time)
    requires Sound(f)
    ensures var h := f.hour(if p.timestamp != ZERO_TIME then p.timestamp else now);
      Split(MetricKey(f, p, now), '/') == ["metrics", h.0, h.1, h.2, h.3,
        SanitizeToken(p.resourceID) + "-" + SanitizeToken(p.metricName) + "-" + f.hash(PointMaterial(f, p, now)) + ".json"]
  {
    PointNameIs(f, p, now);
    hide SanitizeToken, PointMaterial, IsName, IsNumber, Join, Split, SanitizeKey, HasSuffix;
    ArchiveKeyShape("metrics", f.hour(PointTime(p, now)), PointName(f, p, now));
  }

  /** A log key leads through the hour of the record's instant, of its ingestion or of the
      archiving, the first that is set, to the tokens of its group and of its event id, or of its
      hash if it has no id. */
  lemma LogKeyPath(f: Formats, r: LogRecord, now: Time)
    requires Sound(f)
    ensures var h := f.hour(if r.timestamp != ZERO_TIME then r.timestamp else if r.ingestionTime != ZERO_TIME then r.ingestionTime else now);
      Split(LogKey(f, r, now), '/') == ["logs", h.0, h.1, h.2, h.3, SanitizeToken(r.logGroupName) + "-" + RecordToken(f, r, now) + ".json"]
    ensures RecordToken(f, r, now) == SanitizeToken(if TrimSpace(r.eventID) != "" then r.eventID else f.hash(RecordMaterial(f, r, now)))
  {
    RecordNameIs(f, r, now);
    TrimTrimmed(TrimSpace(r.eventID));
    assert SanitizeToken(TrimSpace(r.eventID)) == SanitizeToken(r.eventID) by { hide TrimSpace, SafeText, StripMarks; }
    hide SanitizeToken, TrimSpace, RecordMaterial, IsName, IsNumber, Join, Split, SanitizeKey;
    ArchiveKeyShape("logs", f.hour(RecordTime(r, now)), RecordName(f, r, now));
  }

  /** No metric point is kept under the key of a log record. */
  lemma MetricAndLogKeysDiffer(f: Formats, p: MetricPoint, now: Time, r: LogRecord, now': Time)
    requires Sound(f)
    ensures MetricKey(f, p, now) != LogKey(f, r, now')
  {
    hide MetricKey, LogKey, Split, Sound;
    MetricKeyPath(f, p, now);
    LogKeyPath(f, r, now');
    assert "metrics" != "logs" by { assert |"metrics"| != |"logs"|; }
    assert Split(MetricKey(f, p, now), '/')[0] == "metrics" && Split(LogKey(f, r, now'), '/')[0] == "logs";
  }

  // ---------- what is hashed ----------

  /** Instants are written in full and without a bar, values without a bar. */
  ghost predicate Precise(f: Formats) {
    && (forall t: Time :: '|' !in f.instant(t))
    && (forall t: Time, u: Time :: f.instant(t) == f.instant(u) ==> t == u)
    && (forall v: real :: '|' !in f.value(v))
  }

  lemma PointMaterialIff(f: Formats, p: MetricPoint, now: Time, q: MetricPoint, now': Time)
    requires Precise(f) && '|' !in p.resourceID + p.namespace + p.metricName && '|' !in q.resourceID + q.namespace + q.metricName
    ensures PointMaterial(f, p, now) == PointMaterial(f, q, now')
      <==> (p.resourceID == q.resourceID && p.namespace == q.namespace && p.metricName == q.metricName
            && PointTime(p, now) == PointTime(q, now') && f.value(p.value) == f.value(q.value))
  {
    var x := [p.resourceID, p.namespace, p.metricName, f.instant(PointTime(p, now)), f.value(p.value)];
    var y := [q.resourceID, q.namespace, q.metricName, f.instant(PointTime(q, now')), f.value(q.value)];
    hide Join, PointTime;
    JoinDetermines(x, y, '|');
    assert x == y <==> x[0] == y[0] && x[1] == y[1] && x[2] == y[2] && x[3] == y[3] && x[4] == y[4];
  }

  /** Points overwrite each other in the archive exactly when they agree on resource, namespace,
      metric, instant and written value, as long as their names hold no bar and their hashes do
      not collide. */
  lemma MetricKeySameIff(f: Formats, p: MetricPoint, now: Time, q: MetricPoint, now': Time)
    requires Sound(f) && Precise(f)
    requires '|' !in p.resourceID + p.namespace + p.metricName && '|' !in q.resourceID + q.namespace + q.metricName
    requires f.hash(PointMaterial(f, p, now)) == f.hash(PointMaterial(f, q, now')) ==> PointMaterial(f, p, now) == PointMaterial(f, q, now')
    ensures MetricKey(f, p, now) == MetricKey(f, q, now')
      <==> (p.resourceID == q.resourceID && p.namespace == q.namespace && p.metricName == q.metricName
            && PointTime(p, now) == PointTime(q, now') && f.value(p.value) == f.value(q.value))
  {
    PointMaterialIff(f, p, now, q, now');
    hide Sound, Precise, PointMaterial, PointTime, SanitizeToken, Join;
    if MetricKey(f, p, now) == MetricKey(f, q, now') {
      MetricKeyDeterminesHash(f, p, now, q, now');
    }
  }

  lemma RecordMaterialIff(f: Formats, r: LogRecord, now: Time, r': LogRecord, now': Time)
    requires Precise(f) && '|' !in r.logGroupName + r.logStreamName && '|' !in r'.logGroupName + r'.logStreamName
    ensures RecordMaterial(f, r, now) == RecordMaterial(f, r', now')
      <==> (r.logGroupName == r'.logGroupName && r.logStreamName == r'.logStreamName
            && r.message == r'.message && RecordTime(r, now) == RecordTime(r', now'))
  {
    var a, b := r.message + ['|'] + f.instant(RecordTime(r, now)), r'.message + ['|'] + f.instant(RecordTime(r', now'));
    FourJoined(r.logGroupName, r.logStreamName, r.message, f.instant(RecordTime(r, now)));
    FourJoined(r'.logGroupName, r'.logStreamName, r'.message, f.instant(RecordTime(r', now')));
    hide Join, RecordTime;
    var x, y := [r.logGroupName, r.logStreamName, a], [r'.logGroupName, r'.logStreamName, b];
    JoinDetermines(x, y, '|');
    assert x == y <==> x[0] == y[0] && x[1] == y[1] && x[2] == y[2];
    if a == b {
      LastSeparator(r.message, f.instant(RecordTime(r, now)), r'.message, f.instant(RecordTime(r', now')), '|');
    }
  }

  lemma FourJoined(a: string, b: string, c: string, d: string)
    ensures Join([a, b, c, d], '|') == Join([a, b, c + ['|'] + d], '|')
  {
    assert Join([c, d], '|') == c + ['|'] + d;
    JoinConcat([a, b], [c, d], '|');
    JoinConcat([a, b], [c + ['|'] + d], '|');
    assert [a, b] + [c, d] == [a, b, c, d] && [a, b] + [c + ['|'] + d] == [a, b, c + ['|'] + d];
  }

  /** Records of one group without an id overwrite each other exactly when they agree on stream,
      message and instant, as long as the names hold no bar and the hashes do not collide. */
  lemma HashedLogKeySameIff(f: Formats, r: LogRecord, now: Time, r': LogRecord, now': Time)
    requires Sound(f) && Precise(f) && r.logGroupName == r'.logGroupName && TrimSpace(r.eventID) == TrimSpace(r'.eventID) == ""
    requires '|' !in r.logGroupName + r.logStreamName && '|' !in r'.logGroupName + r'.logStreamName
    requires f.hash(RecordMaterial(f, r, now)) == f.hash(RecordMaterial(f, r', now')) ==> RecordMaterial(f, r, now) == RecordMaterial(f, r', now')
    ensures LogKey(f, r, now) == LogKey(f, r', now')
      <==> r.logStreamName == r'.logStreamName && r.message == r'.message && RecordTime(r, now) == RecordTime(r', now')
  {
    RecordMaterialIff(f, r, now, r', now');
    HashIsToken(f, RecordMaterial(f, r, now));
    HashIsToken(f, RecordMaterial(f, r', now'));
    assert RecordToken(f, r, now) == f.hash(RecordMaterial(f, r, now)) && RecordToken(f, r', now') == f.hash(RecordMaterial(f, r', now'))
      by { hide TrimSpace, SanitizeToken, RecordMaterial, Sound, Precise; }
    hide Sound, Precise, RecordMaterial, RecordTime, LogKey, RecordToken, TrimSpace;
    GroupedRecordsSeparate(f, r, now, r', now');
  }

  /** A hash is its own token. */
  lemma HashIsToken(f: Formats, material: string)
    requires Sound(f)
    ensures SanitizeToken(f.hash(material)) == f.hash(material)
  {
    var h := f.hash(material);
    HashIsName(h);
    assert !Mark(h[15]);
    hide IsHash, IsName, SanitizeToken, HasSuffix, IsToken;
    TokenIdempotentIff(h);
  }

  // ---------- archive keys keep apart ----------

  /** Keys with equally many parts are never in each other's way. */
  lemma SameDepthApart(j: string, k: string)
    requires |Split(j, '/')| == |Split(k, '/')|
    ensures Apart(j, k)
  {
    SidecarSplit(j);
    hide Split, HasPrefix;
    if HasPrefix(k, j + "/") { PrefixIsAbove([], j, k); }
    if HasPrefix(k, j + SIDECAR + "/") { PrefixIsAbove([], j + SIDECAR, k); }
  }

  /** The keys the archive uses that are not mistaken for metadata files. */
  ghost predicate IsArchiveKey(f: Formats, k: string) {
    || (exists p: MetricPoint, now: Time :: k == MetricKey(f, p, now))
    || (exists r: LogRecord, now: Time :: k == LogKey(f, r, now) && !HasSuffix(RecordToken(f, r, now), ".meta"))
  }

  ghost function ArchiveFamily(f: Formats): iset<string> {
    iset k: string | IsArchiveKey(f, k)
  }

  lemma ArchiveKeyIsGood(f: Formats, k: string)
    requires Sound(f) && IsArchiveKey(f, k)
    ensures GoodKey(k) && |Split(k, '/')| == 6
  {
    hide Split, GoodKey, HasSuffix, MetricKey, LogKey, RecordToken, Sound;
    if p: MetricPoint, now: Time :| k == MetricKey(f, p, now) {
      MetricKeyIsGood(f, p, now);
    } else {
      var r: LogRecord, now: Time :| k == LogKey(f, r, now) && !HasSuffix(RecordToken(f, r, now), ".meta");
      LogKeyIsGoodIff(f, r, now);
    }
  }

  /** The archive's keys form a family on which the object store keeps all its promises. */
  lemma ArchiveKeysKeepApart(f: Formats)
    requires Sound(f)
    ensures Family(ArchiveFamily(f))
  {
    hide Split, GoodKey, IsArchiveKey, Sound, Apart;
    forall k | k in ArchiveFamily(f) ensures GoodKey(k) && |Split(k, '/')| == 6 { ArchiveKeyIsGood(f, k); }
    forall j, k | j in ArchiveFamily(f) && k in ArchiveFamily(f) ensures Apart(j, k) { SameDepthApart(j, k); }
  }
}

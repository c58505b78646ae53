/** Metric labels for request paths: every dynamic segment becomes ":id". */
module PathLabel {
  import opened Text

  const PLACEHOLDER := ":id"

  // ---------- dynamic segments ----------

  predicate IsHexChar(c: char) {
    '0' <= c <= '9' || 'a' <= c <= 'f' || 'A' <= c <= 'F'
  }

  predicate IsAllDigits(s: string) {
    forall i :: 0 <= i < |s| ==> '0' <= s[i] <= '9'
  }

  /** Lengths in the source count bytes; a segment with a multi-byte character is no match anyway. */
  predicate IsLongHex(s: string) {
    |s| >= 16 && forall i :: 0 <= i < |s| ==> IsHexChar(s[i])
  }

  predicate IsUUID(s: string) {
    |s| == 36 && forall i :: 0 <= i < |s| ==>
      if i == 8 || i == 13 || i == 18 || i == 23 then s[i] == '-' else IsHexChar(s[i])
  }

  predicate IsDynamic(s: string) {
    s != "" && (IsAllDigits(s) || IsUUID(s) || IsLongHex(s))
  }

  // ---------- the meaning of a label ----------

  function Label(segment: string): string {
    if IsDynamic(segment) then PLACEHOLDER else segment
  }

  // ---------- which segments a label hides ----------

  ghost predicate AllIn(s: string, chars: string) {
    forall i :: 0 <= i < |s| ==> s[i] in chars
  }

  /** Five groups of 8, 4, 4, 4 and 12 hexadecimal digits between dashes. */
  ghost predicate WrittenUUID(s: string) {
    exists a, b, c, d, e ::
      && s == a + ['-'] + b + ['-'] + c + ['-'] + d + ['-'] + e
      && |a| == 8 && |b| == |c| == |d| == 4 && |e| == 12 && AllIn(a + b + c + d + e, "0123456789abcdefABCDEF")
  }

  lemma HexCharIff(c: char)
    ensures IsHexChar(c) <==> c in "0123456789abcdefABCDEF"
  {
    var hex := "0123456789abcdefABCDEF";
    assert forall k :: 0 <= k < |hex| ==> IsHexChar(hex[k]);
    if '0' <= c <= '9' { assert hex[c as int - '0' as int] == c; }
    if 'a' <= c <= 'f' { assert hex[10 + (c as int - 'a' as int)] == c; }
    if 'A' <= c <= 'F' { assert hex[16 + (c as int - 'A' as int)] == c; }
  }

  lemma DigitIff(c: char)
    ensures '0' <= c <= '9' <==> c in "0123456789"
  {
    var digits := "0123456789";
    assert forall k :: 0 <= k < |digits| ==> '0' <= digits[k] <= '9';
    if '0' <= c <= '9' { assert digits[c as int - '0' as int] == c; }
  }

  lemma Grouped(s: string)
    requires |s| == 36 && s[8] == s[13] == s[18] == s[23] == '-'
    ensures s == s[..8] + ['-'] + s[9..13] + ['-'] + s[14..18] + ['-'] + s[19..23] + ['-'] + s[24..]
  {
    assert s == s[..8] + [s[8]] + s[9..13] + [s[13]] + s[14..18] + [s[18]] + s[19..23] + [s[23]] + s[24..];
  }

  /** A stretch without a dash position is hexadecimal. */
  lemma GroupIsHex(s: string, i: nat, j: nat)
    requires IsUUID(s) && i <= j <= 36 && !(i <= 8 < j) && !(i <= 13 < j) && !(i <= 18 < j) && !(i <= 23 < j)
    ensures AllIn(s[i..j], "0123456789abcdefABCDEF")
  {
    forall k | 0 <= k < j - i ensures s[i..j][k] in "0123456789abcdefABCDEF" {
      HexCharIff(s[i + k]);
    }
  }

  lemma BothIn(a: string, b: string, chars: string)
    requires AllIn(a, chars) && AllIn(b, chars)
    ensures AllIn(a + b, chars)
  {
  }

  lemma UUIDIsWritten(s: string)
    requires IsUUID(s)
    ensures WrittenUUID(s)
  {
    var a, b, c, d, e, hex := s[..8], s[9..13], s[14..18], s[19..23], s[24..], "0123456789abcdefABCDEF";
    Grouped(s);
    GroupIsHex(s, 0, 8);
    GroupIsHex(s, 9, 13);
    GroupIsHex(s, 14, 18);
    GroupIsHex(s, 19, 23);
    GroupIsHex(s, 24, 36);
    assert s[0..8] == a && s[24..36] == e;
    hide IsUUID, AllIn;
    BothIn(a, b, hex);
    BothIn(a + b, c, hex);
    BothIn(a + b + c, d, hex);
    BothIn(a + b + c + d, e, hex);
  }

  lemma UUIDIff(s: string)
    ensures IsUUID(s) <==> WrittenUUID(s)
  {
    if IsUUID(s) { UUIDIsWritten(s); }
    hide IsUUID;
    if WrittenUUID(s) {
      var a, b, c, d, e :| s == a + ['-'] + b + ['-'] + c + ['-'] + d + ['-'] + e
        && |a| == 8 && |b| == |c| == |d| == 4 && |e| == 12 && AllIn(a + b + c + d + e, "0123456789abcdefABCDEF");
      GroupsAreUUID(a, b, c, d, e);
    }
  }

  lemma GroupsAreUUID(a: string, b: string, c: string, d: string, e: string)
    requires |a| == 8 && |b| == |c| == |d| == 4 && |e| == 12 && AllIn(a + b + c + d + e, "0123456789abcdefABCDEF")
    ensures IsUUID(a + ['-'] + b + ['-'] + c + ['-'] + d + ['-'] + e)
  {
    forall ch ensures IsHexChar(ch) <==> ch in "0123456789abcdefABCDEF" { HexCharIff(ch); }
    hide IsHexChar;
    var s, all := a + ['-'] + b + ['-'] + c + ['-'] + d + ['-'] + e, a + b + c + d + e;
    forall i | 0 <= i < |s| ensures if i == 8 || i == 13 || i == 18 || i == 23 then s[i] == '-' else IsHexChar(s[i]) {
      var k := if i < 8 then i else if i < 13 then i - 1 else if i < 18 then i - 2 else if i < 23 then i - 3 else i - 4;
      if i != 8 && i != 13 && i != 18 && i != 23 { assert s[i] == all[k]; }
    }
  }

  /** A label hides digits of any number, sixteen hexadecimal digits or more, and UUIDs; it keeps
      every other segment. */
  lemma HiddenIff(s: string)
    requires s != ""
    ensures if AllIn(s, "0123456789") || (|s| >= 16 && AllIn(s, "0123456789abcdefABCDEF")) || WrittenUUID(s)
      then Label(s) == ":id" else Label(s) == s
  {
    UUIDIff(s);
    forall c ensures IsHexChar(c) <==> c in "0123456789abcdefABCDEF" { HexCharIff(c); }
    forall c ensures '0' <= c <= '9' <==> c in "0123456789" { DigitIff(c); }
    hide IsHexChar, IsUUID, WrittenUUID;
    assert IsAllDigits(s) <==> AllIn(s, "0123456789");
    assert IsLongHex(s) <==> |s| >= 16 && AllIn(s, "0123456789abcdefABCDEF");
  }

  /** The non-empty segments of the trimmed path. */
  function Segments(path: string): (r: seq<string>)
    ensures forall s :: s in r ==> s != "" && '/' !in s
  {
    NonEmptyMembers(Split(TrimSpace(path), '/'));
    NonEmpty(Split(TrimSpace(path), '/'))
  }

  function Labels(segments: seq<string>): (r: seq<string>)
    ensures |r| == |segments| && forall i :: 0 <= i < |r| ==> r[i] == Label(segments[i])
  {
    seq(|segments|, i requires 0 <= i < |segments| => Label(segments[i]))
  }

  function PathLabels(path: string): seq<string> {
    Labels(Segments(path))
  }

  function FromRoot(labels: seq<string>): string {
    if labels == [] then "/" else Join([""] + labels, '/')
  }

  // ---------- the loop ----------

  /** The parts after the leading slash, which is added when it is missing, are the segments. */
  lemma PartsAreSegments(path: string, parts: seq<string>)
    requires TrimSpace(path) != ""
    requires var t := TrimSpace(path); parts == Split(if t[0] != '/' then "/" + t else t, '/')[1..]
    ensures NonEmpty(parts) == Segments(path)
  {
    var t := TrimSpace(path);
    if t[0] != '/' {
      assert ("/" + t)[1..] == t;
      assert ([""] + Split(t, '/'))[1..] == Split(t, '/');
    } else {
      assert ([""] + Split(t[1..], '/'))[1..] == Split(t[1..], '/');
      hide Split;
      NonEmptyConcat([""], parts);
      NonEmptyOfOne("");
    }
  }

  /** What the loop has appended for the parts read so far. */
  ghost predicate Normalized(normalized: seq<string>, parts: seq<string>) {
    normalized == [""] + Labels(NonEmpty(parts))
  }

  lemma NormalizedStep(normalized: seq<string>, parts: seq<string>, i: nat)
    requires i < |parts| && Normalized(normalized, parts[..i])
    ensures Normalized(if parts[i] == "" then normalized else normalized + [Label(parts[i])], parts[..i + 1])
  {
    hide Label, Labels;
    assert parts[..i + 1] == parts[..i] + [parts[i]];
    NonEmptyConcat(parts[..i], [parts[i]]);
    NonEmptyOfOne(parts[i]);
    LabelsSnoc(NonEmpty(parts[..i]), parts[i]);
  }

  /** The label of a path is its labelled non-empty segments, rooted. */
  method NormalizePathLabel(path: string) returns (name: string)
    ensures name == FromRoot(PathLabels(path))
  {
    hide Segments, Normalized, Labels, NonEmpty, Split, Join, IsDynamic, PathLabels, FromRoot, Trimmed, TrimSpace;
    if path == "" {
      EmptyIsTrimmed();
      NothingToLabel(path);
      return "/";
    }
    var trimmed := TrimSpace(path);
    if trimmed == "" || trimmed == "/" {
      NothingToLabel(path);
      return "/";
    }
    if !HasPrefix(trimmed, "/") {
      trimmed := "/" + trimmed;
    }
    var parts := Split(trimmed, '/');
    PartsAreSegments(path, parts[1..]);
    parts := parts[1..];
    var normalized := [""];
    assert Normalized(normalized, parts[..0]) by { Nothing(); }
    for i := 0 to |parts|
      invariant Normalized(normalized, parts[..i])
    {
      var part := parts[i];
      NormalizedStep(normalized, parts, i);
      if part == "" {
        continue;
      }
      if IsDynamic(part) {
        normalized := normalized + [PLACEHOLDER];
        continue;
      }
      normalized := normalized + [part];
    }
    assert parts[..|parts|] == parts;
    NormalizedIsRooted(normalized, path, parts);
    if |normalized| == 1 {
      return "/";
    }
    return Join(normalized, '/');
  }

  lemma EmptyIsTrimmed()
    ensures TrimSpace("") == ""
  {
  }

  lemma Nothing()
    ensures forall parts: seq<string> | parts == [] :: Normalized([""], parts)
  {
  }

  lemma NormalizedIsRooted(normalized: seq<string>, path: string, parts: seq<string>)
    requires NonEmpty(parts) == Segments(path) && Normalized(normalized, parts)
    ensures FromRoot(PathLabels(path)) == if |normalized| == 1 then "/" else Join(normalized, '/')
  {
    hide Segments, NonEmpty, Join;
  }

  lemma LabelsSnoc(segments: seq<string>, s: string)
    ensures Labels(segments + [s]) == Labels(segments) + [Label(s)]
  {
    hide Label;
  }

  lemma NothingToLabel(path: string)
    requires TrimSpace(path) == "" || TrimSpace(path) == "/"
    ensures PathLabels(path) == [] && FromRoot(PathLabels(path)) == "/"
  {
    hide TrimSpace, Join, NonEmpty;
    NonEmptyOfOne("");
    assert [""] + [""] == ["", ""];
    NonEmptyConcat([""], [""]);
    SplitOfRoot();
    assert Split("", '/') == [""];
  }

  // ---------- labels and segments ----------

  lemma PlaceholderIsStatic()
    ensures !IsDynamic(PLACEHOLDER)
  {
    assert PLACEHOLDER[0] == ':';
  }

  lemma DynamicChars(s: string)
    requires IsDynamic(s)
    ensures forall i :: 0 <= i < |s| ==> s[i] != '/' && !IsSpace(s[i])
  {
  }

  lemma LabelClean(s: string)
    requires s != "" && '/' !in s
    ensures Label(s) != "" && '/' !in Label(s) && !IsDynamic(Label(s)) && Label(Label(s)) == Label(s)
  {
    PlaceholderIsStatic();
    assert PLACEHOLDER[0] == ':' && PLACEHOLDER[1] == 'i' && PLACEHOLDER[2] == 'd';
    hide IsDynamic;
  }

  /** No label contains a dynamic segment, an empty one or a slash. */
  lemma LabelsClean(path: string)
    ensures forall l :: l in PathLabels(path) ==> l != "" && '/' !in l && !IsDynamic(l)
  {
    hide IsDynamic, Label;
    var segments := Segments(path);
    forall i | 0 <= i < |segments| ensures Label(segments[i]) != "" && '/' !in Label(segments[i]) && !IsDynamic(Label(segments[i])) {
      assert segments[i] in segments;
      LabelClean(segments[i]);
    }
  }

  /** Splitting a label gives back the labelled segments. */
  lemma SplitOfLabel(labels: seq<string>)
    requires labels != [] && forall l :: l in labels ==> l != "" && '/' !in l
    ensures Split(FromRoot(labels), '/') == [""] + labels
  {
    SplitJoin([""] + labels, '/');
  }

  /** Two paths share a label exactly when their segments agree once dynamic ones are replaced. */
  lemma SameLabelIff(p: string, q: string)
    ensures FromRoot(PathLabels(p)) == FromRoot(PathLabels(q)) <==> PathLabels(p) == PathLabels(q)
  {
    LabelsClean(p);
    LabelsClean(q);
    hide PathLabels, Split, IsDynamic;
    var a, b := PathLabels(p), PathLabels(q);
    assert Split("/", '/') == ["", ""] by { SplitOfRoot(); }
    if a != [] { SplitOfLabel(a); }
    if b != [] { SplitOfLabel(b); }
    assert a != [] ==> ([""] + a)[1] == a[0] && a[0] in a;
    assert b != [] ==> ([""] + b)[1] == b[0] && b[0] in b;
    assert a == ([""] + a)[1..] && b == ([""] + b)[1..];
  }

  lemma SplitOfRoot()
    ensures Split("/", '/') == ["", ""]
  {
    assert "/"[1..] == "";
    assert Split("", '/') == [""] && [""] + [""] == ["", ""];
  }

  // ---------- idempotence ----------

  lemma {:induction false} TrimRightConcat(a: string, b: string)
    requires a != "" && !IsSpace(a[|a| - 1])
    ensures TrimRight(a + b) == a + TrimRight(b)
    decreases |b|
  {
    if b == "" {
      assert a + b == a;
    } else if IsSpace(b[|b| - 1]) {
      assert (a + b)[..|a + b| - 1] == a + b[..|b| - 1];
      TrimRightConcat(a, b[..|b| - 1]);
    }
  }

  /** Trimming a label trims its last segment. */
  lemma TrimLabel(front: seq<string>, last: string)
    requires front != [] && front[0] == ""
    ensures TrimSpace(Join(front + [last], '/')) == Join(front + [TrimRight(last)], '/')
  {
    hide IsSpace, TrimRight;
    JoinEnd(front, last, '/');
    JoinEnd(front, TrimRight(last), '/');
    FrontStartsWithSlash(front, last);
    var head := Join(front, '/') + ['/'];
    assert !IsSpace(head[|head| - 1]) by { assert !IsSpace('/'); }
    TrimRightConcat(head, last);
  }

  lemma SegmentsOfLabel(init: seq<string>, last: string)
    requires '/' !in last && forall i :: 0 <= i < |init| ==> init[i] != "" && '/' !in init[i]
    ensures Segments(FromRoot(init + [last])) == if TrimRight(last) == "" then init else init + [TrimRight(last)]
  {
    var front, rest := [""] + init, TrimRight(last);
    hide Split, NonEmpty, Join, TrimSpace, TrimRight, IsSpace;
    assert '/' !in rest by { TrimRightWitness(last); }
    var whole := front + [rest];
    assert [""] + (init + [last]) == front + [last];
    TrimLabel(front, last);
    assert forall i :: 0 <= i < |whole| ==> '/' !in whole[i];
    SplitJoin(whole, '/');
    NonEmptyBetween(init, rest);
  }

  lemma NonEmptyBetween(parts: seq<string>, rest: string)
    requires forall i :: 0 <= i < |parts| ==> parts[i] != ""
    ensures NonEmpty([""] + parts + [rest]) == if rest == "" then parts else parts + [rest]
  {
    hide NonEmpty;
    var one, last := [""], [rest];
    NonEmptyConcat(one + parts, last);
    NonEmptyConcat(one, parts);
    NonEmptyKeeps(parts);
    NonEmptyOfOne("");
    NonEmptyOfOne(rest);
  }

  /** Normalizing a label again trims its last segment and labels the rest unchanged. */
  lemma RelabelLabel(labels: seq<string>)
    requires labels != [] && forall l :: l in labels ==> l != "" && '/' !in l && Label(l) == l
    ensures var k := |labels| - 1;
      var rest := TrimRight(labels[k]);
      PathLabels(FromRoot(labels)) == if rest == "" then labels[..k] else labels[..k] + [Label(rest)]
  {
    hide Label, Segments, TrimRight;
    var k := |labels| - 1;
    forall i | 0 <= i <= k ensures labels[i] != "" && '/' !in labels[i] && Label(labels[i]) == labels[i] {
      assert labels[i] in labels;
    }
    assert labels[..k] + [labels[k]] == labels;
    SegmentsOfLabel(labels[..k], labels[k]);
    assert Labels(labels[..k]) == labels[..k];
    LabelsSnoc(labels[..k], TrimRight(labels[k]));
  }

  lemma FrontStartsWithSlash(front: seq<string>, last: string)
    requires front != [] && front[0] == ""
    ensures var text := Join(front, '/') + ['/'] + last; text[0] == '/' && TrimLeft(text) == text
  {
  }

  predicate LastEndsInSpace(path: string) {
    var segments := Segments(path);
    segments != [] && var last := segments[|segments| - 1]; last != "" && IsSpace(last[|last| - 1])
  }

  /** Normalizing twice is normalizing once exactly when the last non-empty segment does not end
      in white space. */
  lemma IdempotentIff(path: string)
    ensures FromRoot(PathLabels(FromRoot(PathLabels(path)))) == FromRoot(PathLabels(path)) <==> !LastEndsInSpace(path)
  {
    hide Segments, IsDynamic, Label, FromRoot, TrimRight, TrimSpace;
    var segments, labels := Segments(path), PathLabels(path);
    LabelsClean(path);
    SameLabelIff(FromRoot(labels), path);
    if segments == [] {
      assert FromRoot([]) == "/" && TrimSpace("/") == "/" by { RootIsTrimmed(); }
      NothingToLabel("/");
    } else {
      var k := |segments| - 1;
      assert segments[k] in segments;
      forall i | 0 <= i <= k ensures Label(labels[i]) == labels[i] {
        assert segments[i] in segments;
        LabelClean(segments[i]);
      }
      hide PathLabels;
      RelabelLabel(labels);
      LastLabel(segments[k]);
      assert labels == labels[..k] + [labels[k]];
      assert |labels[..k]| != |labels|;
    }
  }

  /** White space before a closing slash survives once: "/a /" is labelled "/a ", and that "/a". */
  lemma SpaceBeforeSlash(s: string)
    requires s != "" && '/' !in s && Trimmed(s) && !IsDynamic(s + " ")
    ensures LastEndsInSpace("/" + s + " /") && PathLabels("/" + s + " /") == [s + " "]
  {
    var path, last := "/" + s + " /", s + " ";
    assert path[0] == '/' && path[|path| - 1] == '/' && last[|last| - 1] == ' ';
    TrimTrimmed(path);
    assert Segments(path) == [last] by { ClosedSegment(last, path); }
    hide Segments, Trimmed, IsDynamic;
  }

  lemma ClosedSegment(last: string, path: string)
    requires last != "" && '/' !in last && path == "/" + last + "/" && TrimSpace(path) == path
    ensures Segments(path) == [last]
  {
    hide Split, TrimSpace, NonEmpty;
    assert path == "" + ['/'] + (last + ['/'] + "");
    SplitFirst("", last + ['/'] + "", '/');
    SplitFirst(last, "", '/');
    SplitSingle("", '/');
    assert [""] + ([last] + [""]) == [""] + [last] + [""];
    NonEmptyBetween([last], "");
  }

  lemma RootIsTrimmed()
    ensures FromRoot([]) == "/" && TrimSpace("/") == "/"
  {
    TrimTrimmed("/");
  }

  /** Whether relabelling the trimmed last label gives it back. */
  lemma LastLabel(s: string)
    requires s != "" && '/' !in s
    ensures var l := Label(s);
      (TrimRight(l) != "" && Label(TrimRight(l)) == l) <==> !IsSpace(s[|s| - 1])
  {
    assert PLACEHOLDER[2] == 'd' && |PLACEHOLDER| == 3;
    LabelClean(s);
    var l := Label(s);
    if IsDynamic(s) {
      DynamicChars(s);
      assert TrimRight(l) == l;
    } else if IsSpace(s[|s| - 1]) {
      var r := TrimRight(l);
      if r != "" && IsDynamic(r) {
        assert Label(r)[2] != l[|l| - 1];
      }
    } else {
      assert TrimRight(l) == l;
    }
  }
}

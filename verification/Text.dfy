/** The parts of Go's `strings` and `fmt` packages that the program's codecs rely on. */
module Text {
  datatype Option<+T> = None | Some(value: T)

  // ---------- white space ----------

  /** `unicode.IsSpace`. */
  predicate IsSpace(c: char) {
    || '\t' <= c <= '\r' || c == ' ' || c == '\U{0085}' || c == '\U{00A0}' || c == '\U{1680}'
    || '\U{2000}' <= c <= '\U{200A}' || c == '\U{2028}' || c == '\U{2029}'
    || c == '\U{202F}' || c == '\U{205F}' || c == '\U{3000}'
  }

  predicate AllSpace(s: string) {
    forall i :: 0 <= i < |s| ==> IsSpace(s[i])
  }

  /** Neither end is white space. */
  predicate Trimmed(s: string) {
    s == "" || (!IsSpace(s[0]) && !IsSpace(s[|s| - 1]))
  }

  function TrimLeft(s: string): (r: string)
    ensures |r| <= |s|
    ensures r == "" || (!IsSpace(r[0]) && r[|r| - 1] == s[|s| - 1])
  {
    if s != "" && IsSpace(s[0]) then TrimLeft(s[1..]) else s
  }

  function TrimRight(s: string): (r: string)
    ensures |r| <= |s|
    ensures r == "" || (r[0] == s[0] && !IsSpace(r[|r| - 1]))
  {
    if s != "" && IsSpace(s[|s| - 1]) then TrimRight(s[..|s| - 1]) else s
  }

  /** `strings.TrimSpace`. */
  function TrimSpace(s: string): (r: string)
    ensures Trimmed(r)
  {
    TrimRight(TrimLeft(s))
  }

  lemma TrimTrimmed(s: string)
    ensures TrimSpace(s) == s <==> Trimmed(s)
  {
  }

  lemma {:induction false} TrimLeftPadded(p: string, s: string)
    requires AllSpace(p)
    ensures TrimLeft(p + s) == TrimLeft(s)
  {
    if p == "" {
      assert p + s == s;
    } else {
      assert (p + s)[1..] == p[1..] + s;
      TrimLeftPadded(p[1..], s);
    }
  }

  lemma {:induction false} TrimRightPadded(s: string, q: string)
    requires AllSpace(q)
    ensures TrimRight(s + q) == TrimRight(s)
  {
    if q == "" {
      assert s + q == s;
    } else {
      assert (s + q)[..|s + q| - 1] == s + q[..|q| - 1];
      TrimRightPadded(s, q[..|q| - 1]);
    }
  }

  /** White space around a trimmed token is removed, and nothing else. */
  lemma TrimPadded(p: string, s: string, q: string)
    requires AllSpace(p) && AllSpace(q) && Trimmed(s)
    ensures TrimSpace(p + s + q) == s
  {
    hide IsSpace, AllSpace, Trimmed, TrimLeft, TrimRight;
    assert p + s + q == p + (s + q);
    TrimLeftPadded(p, s + q);
    if s == "" {
      assert s + q == q;
      SpacesTrimAway(q);
    } else {
      TrimmedThenPadded(s, q);
    }
  }

  lemma SpacesTrimAway(q: string)
    requires AllSpace(q)
    ensures TrimRight(TrimLeft(q)) == ""
  {
    TrimLeftPadded(q, "");
    assert q + "" == q && TrimLeft("") == "" && TrimRight("") == "";
  }

  lemma TrimmedThenPadded(s: string, q: string)
    requires AllSpace(q) && Trimmed(s) && s != ""
    ensures TrimRight(TrimLeft(s + q)) == s
  {
    assert (s + q)[0] == s[0] && TrimLeft(s + q) == s + q && TrimRight(s) == s;
    hide IsSpace, AllSpace, TrimLeft, TrimRight;
    TrimRightPadded(s, q);
  }

  lemma Prepended(s: string, p: string, t: string)
    requires s != "" && s[1..] == p + t
    ensures s[..|s| - |t|] == [s[0]] + p && s == s[..|s| - |t|] + t
  {
    assert s == [s[0]] + p + t;
  }

  lemma Appended(s: string, t: string, q: string)
    requires s != "" && s[..|s| - 1] == t + q
    ensures s[|t|..] == q + [s[|s| - 1]] && s == t + s[|t|..]
  {
    assert s == t + (q + [s[|s| - 1]]);
  }

  lemma TrimLeftOnce(s: string)
    ensures TrimLeft(s) == if s != "" && IsSpace(s[0]) then TrimLeft(s[1..]) else s
  {
    hide IsSpace;
  }

  lemma TrimRightOnce(s: string)
    ensures TrimRight(s) == if s != "" && IsSpace(s[|s| - 1]) then TrimRight(s[..|s| - 1]) else s
  {
    hide IsSpace;
  }

  /** What is left is the end of the text, after nothing but white space. */
  lemma {:induction false} TrimLeftWitness(s: string)
    ensures AllSpace(s[..|s| - |TrimLeft(s)|]) && s == s[..|s| - |TrimLeft(s)|] + TrimLeft(s)
  {
    hide IsSpace, TrimLeft;
    TrimLeftOnce(s);
    if s != "" && IsSpace(s[0]) {
      TrimLeftWitness(s[1..]);
      Prepended(s, s[1..][..|s| - 1 - |TrimLeft(s)|], TrimLeft(s));
    }
  }

  /** What is left is the start of the text, before nothing but white space. */
  lemma {:induction false} TrimRightWitness(s: string)
    ensures AllSpace(s[|TrimRight(s)|..]) && s == TrimRight(s) + s[|TrimRight(s)|..]
  {
    hide IsSpace, TrimRight;
    TrimRightOnce(s);
    if s != "" && IsSpace(s[|s| - 1]) {
      TrimRightWitness(s[..|s| - 1]);
      Appended(s, TrimRight(s), s[..|s| - 1][|TrimRight(s)|..]);
    }
  }

  /** What trimming removed. */
  lemma TrimWitness(s: string) returns (p: string, q: string)
    ensures AllSpace(p) && AllSpace(q) && s == p + TrimSpace(s) + q
  {
    hide IsSpace, AllSpace, TrimLeft, TrimRight;
    var t := TrimLeft(s);
    p, q := s[..|s| - |t|], t[|TrimRight(t)|..];
    TrimLeftWitness(s);
    TrimRightWitness(t);
    ThreeParts(s, p, t, TrimRight(t), q);
  }

  lemma ThreeParts(s: string, p: string, t: string, u: string, q: string)
    requires s == p + t && t == u + q
    ensures s == p + u + q
  {
  }

  /** Only the end of a text that starts with no white space is trimmed. */
  lemma TrimTail(s: string) returns (q: string)
    requires s == "" || !IsSpace(s[0])
    ensures AllSpace(q) && s == TrimSpace(s) + q
  {
    assert TrimLeft(s) == s;
    hide IsSpace, AllSpace, TrimLeft, TrimRight;
    q := s[|TrimSpace(s)|..];
    TrimRightWitness(s);
  }

  /** Only the start of a text that ends with no white space is trimmed. */
  lemma TrimHead(s: string) returns (p: string)
    requires s == "" || !IsSpace(s[|s| - 1])
    ensures AllSpace(p) && s == p + TrimSpace(s)
  {
    var t := TrimLeft(s);
    assert t == "" || t[|t| - 1] == s[|s| - 1];
    assert TrimRight(t) == t;
    hide IsSpace, AllSpace, TrimLeft, TrimRight;
    p := s[..|s| - |t|];
    TrimLeftWitness(s);
  }

  // ---------- letter case ----------

  /** `unicode.ToLower` as far as its result is an ASCII letter; every other letter lowers to a
      non-ASCII one, which no comparison in the program distinguishes from the letter itself. */
  function LowerChar(c: char): char {
    if 'A' <= c <= 'Z' then (c as int + 32) as char
    else if c == '\U{0130}' then 'i'
    else if c == '\U{212A}' then 'k'
    else c
  }

  /** `strings.ToLower`, for comparison with ASCII text. */
  function ToLower(s: string): (r: string)
    ensures |r| == |s| && forall i :: 0 <= i < |s| ==> r[i] == LowerChar(s[i])
  {
    seq(|s|, i requires 0 <= i < |s| => LowerChar(s[i]))
  }

  // ---------- splitting and joining ----------

  /** `strings.Split` with a one-character separator. */
  function Split(s: string, sep: char): (parts: seq<string>)
    ensures parts != []
    ensures forall p :: p in parts ==> sep !in p
  {
    if s == "" then [""]
    else if s[0] == sep then [""] + Split(s[1..], sep)
    else
      var rest := Split(s[1..], sep);
      [[s[0]] + rest[0]] + rest[1..]
  }

  /** `strings.Join` with a one-character separator. */
  function Join(parts: seq<string>, sep: char): string {
    if parts == [] then ""
    else if |parts| == 1 then parts[0]
    else parts[0] + [sep] + Join(parts[1..], sep)
  }

  lemma {:induction false} JoinSplit(s: string, sep: char)
    ensures Join(Split(s, sep), sep) == s
  {
    if s != "" {
      JoinSplit(s[1..], sep);
      var rest := Split(s[1..], sep);
      if s[0] == sep {
        assert ([""] + rest)[1..] == rest;
      } else {
        assert ([[s[0]] + rest[0]] + rest[1..])[1..] == rest[1..];
      }
    }
  }

  lemma {:induction false} SplitSingle(p: string, sep: char)
    requires sep !in p
    ensures Split(p, sep) == [p]
  {
    if p != "" {
      SplitSingle(p[1..], sep);
      assert p[0] in p && p == [p[0]] + p[1..];
    }
  }

  lemma {:induction false} SplitFirst(p: string, rest: string, sep: char)
    requires sep !in p
    ensures Split(p + [sep] + rest, sep) == [p] + Split(rest, sep)
  {
    var s := p + [sep] + rest;
    if p == "" {
      assert s[1..] == rest;
    } else {
      assert s[1..] == p[1..] + [sep] + rest;
      SplitFirst(p[1..], rest, sep);
      assert p[0] in p && p == [p[0]] + p[1..];
    }
  }

  /** Splitting undoes joining when no part contains the separator. */
  lemma {:induction false} SplitJoin(parts: seq<string>, sep: char)
    requires parts != [] && forall p :: p in parts ==> sep !in p
    ensures Split(Join(parts, sep), sep) == parts
  {
    if |parts| == 1 {
      SplitSingle(parts[0], sep);
    } else {
      SplitJoin(parts[1..], sep);
      SplitFirst(parts[0], Join(parts[1..], sep), sep);
    }
  }

  lemma {:induction false} SplitConcat(a: string, b: string, sep: char)
    ensures Split(a + [sep] + b, sep) == Split(a, sep) + Split(b, sep)
  {
    hide Split, Before;
    if a == "" {
      assert a + [sep] + b == [sep] + b;
      SplitCons(sep, b, sep);
      SplitSingle(a, sep);
    } else {
      var c, tail := a[0], a[1..];
      assert a + [sep] + b == [c] + (tail + [sep] + b) && a == [c] + tail;
      SplitConcat(tail, b, sep);
      SplitCons(c, tail + [sep] + b, sep);
      SplitCons(c, tail, sep);
      BeforeConcat(c, Split(tail, sep), Split(b, sep));
    }
  }

  /** The parts with more text at the end of the last one. */
  function Lengthen(parts: seq<string>, more: string): (r: seq<string>)
    requires parts != []
    ensures r != []
  {
    parts[..|parts| - 1] + [parts[|parts| - 1] + more]
  }

  /** More text without a separator lengthens the last part. */
  lemma {:induction false} SplitAppend(s: string, more: string, sep: char)
    requires sep !in more
    ensures Split(s + more, sep) == Lengthen(Split(s, sep), more)
  {
    hide Split, Before;
    if s == "" {
      assert s + more == more;
      SplitSingle(more, sep);
      SplitSingle(s, sep);
      assert "" + more == more;
    } else {
      hide Lengthen;
      var c, tail := s[0], s[1..];
      SplitAppend(tail, more, sep);
      SplitCons(c, tail, sep);
      SplitCons(c, tail + more, sep);
      assert s == [c] + tail && s + more == [c] + (tail + more);
      LengthenLater(c, Split(tail, sep), more);
    }
  }

  lemma LengthenLater(c: char, parts: seq<string>, more: string)
    requires parts != []
    ensures Lengthen([""] + parts, more) == [""] + Lengthen(parts, more)
    ensures Before(c, parts) != [] && Lengthen(Before(c, parts), more) == Before(c, Lengthen(parts, more))
  {
    if |parts| == 1 {
      assert ([c] + parts[0]) + more == [c] + (parts[0] + more);
    }
  }

  lemma {:induction false} JoinConcat(a: seq<string>, b: seq<string>, sep: char)
    requires a != [] && b != []
    ensures Join(a + b, sep) == Join(a, sep) + [sep] + Join(b, sep)
  {
    if |a| == 1 {
      assert (a + b)[1..] == b;
    } else {
      assert (a + b)[1..] == a[1..] + b;
      JoinConcat(a[1..], b, sep);
    }
  }

  lemma BeforeConcat(c: char, x: seq<string>, y: seq<string>)
    requires x != []
    ensures Before(c, x + y) == Before(c, x) + y
    ensures [""] + (x + y) == ([""] + x) + y
  {
    assert (x + y)[1..] == x[1..] + y;
  }

  lemma SplitCons(c: char, s: string, sep: char)
    ensures Split([c] + s, sep) == if c == sep then [""] + Split(s, sep) else Before(c, Split(s, sep))
  {
    assert ([c] + s)[1..] == s;
  }

  function Before(c: char, parts: seq<string>): seq<string>
    requires parts != []
  {
    [[c] + parts[0]] + parts[1..]
  }

  lemma SplitSnoc(s: string, c: char, sep: char)
    ensures Split(s + [c], sep) == if c == sep then Split(s, sep) + [""] else Lengthen(Split(s, sep), [c])
  {
    if c == sep {
      SplitConcat(s, "", sep);
      assert s + [sep] + "" == s + [c];
      SplitSingle("", sep);
    } else {
      SplitAppend(s, [c], sep);
    }
  }

  lemma {:induction false} JoinEnd(parts: seq<string>, last: string, sep: char)
    requires parts != []
    ensures Join(parts + [last], sep) == Join(parts, sep) + [sep] + last
    decreases |parts|
  {
    if |parts| == 1 {
      assert (parts + [last])[1..] == [last];
    } else {
      assert (parts + [last])[1..] == parts[1..] + [last];
      JoinEnd(parts[1..], last, sep);
    }
  }

  // ---------- dropping empty parts ----------

  function NonEmpty(parts: seq<string>): seq<string> {
    if parts == [] then []
    else
      var k := |parts| - 1;
      if parts[k] == "" then NonEmpty(parts[..k]) else NonEmpty(parts[..k]) + [parts[k]]
  }

  lemma {:induction false} NonEmptyMembers(parts: seq<string>)
    ensures forall p :: p in NonEmpty(parts) <==> p in parts && p != ""
    decreases |parts|
  {
    if parts != [] {
      var k := |parts| - 1;
      assert parts == parts[..k] + [parts[k]];
      NonEmptyMembers(parts[..k]);
    }
  }

  lemma {:induction false} NonEmptyConcat(a: seq<string>, b: seq<string>)
    ensures NonEmpty(a + b) == NonEmpty(a) + NonEmpty(b)
    decreases |b|
  {
    if b == [] {
      assert a + b == a;
    } else {
      var k := |b| - 1;
      assert (a + b)[..|a + b| - 1] == a + b[..k];
      NonEmptyConcat(a, b[..k]);
    }
  }

  lemma NonEmptyOfOne(p: string)
    ensures NonEmpty([p]) == if p == "" then [] else [p]
  {
    assert [p][..0] == [] && NonEmpty([]) == [];
  }

  lemma {:induction false} NonEmptyKeeps(parts: seq<string>)
    requires forall i :: 0 <= i < |parts| ==> parts[i] != ""
    ensures NonEmpty(parts) == parts
    decreases |parts|
  {
    if parts != [] {
      var k := |parts| - 1;
      assert parts == parts[..k] + [parts[k]];
      NonEmptyKeeps(parts[..k]);
    }
  }

  // ---------- cutting ----------

  /** `strings.SplitN(s, sep, 2)`: the text before and after the first separator. */
  function Cut(s: string, sep: char): (r: Option<(string, string)>)
    ensures r.Some? <==> sep in s
    ensures r.Some? ==> sep !in r.value.0 && s == r.value.0 + [sep] + r.value.1
  {
    if s == "" then None
    else if s[0] == sep then Some(("", s[1..]))
    else match Cut(s[1..], sep)
      case None => None
      case Some(r) => Some(([s[0]] + r.0, r.1))
  }

  lemma {:induction false} CutAt(a: string, b: string, sep: char)
    requires sep !in a
    ensures Cut(a + [sep] + b, sep) == Some((a, b))
  {
    var s := a + [sep] + b;
    if a == "" {
      assert s[1..] == b;
    } else {
      assert s[1..] == a[1..] + [sep] + b;
      CutAt(a[1..], b, sep);
      assert a[0] in a && a == [a[0]] + a[1..];
    }
  }

  /** Texts that agree around their last separator agree before and after it. */
  lemma LastSeparator(a: string, x: string, b: string, y: string, sep: char)
    requires sep !in x && sep !in y
    requires a + [sep] + x == b + [sep] + y
    ensures a == b && x == y
  {
    var s, t := a + [sep] + x, b + [sep] + y;
    assert s[|a|] == sep && t[|b|] == sep;
    assert forall i :: |a| < i < |s| ==> s[i] == x[i - |a| - 1];
    assert forall i :: |b| < i < |t| ==> t[i] == y[i - |b| - 1];
    assert a == s[..|a|] && b == t[..|b|];
    assert x == s[|a| + 1..] && y == t[|b| + 1..];
  }

  /** Joined texts agree exactly when their parts do, as long as only last parts may hold the separator. */
  lemma {:induction false} JoinDetermines(a: seq<string>, b: seq<string>, sep: char)
    requires |a| == |b| && forall i :: 0 <= i < |a| - 1 ==> sep !in a[i] && sep !in b[i]
    ensures Join(a, sep) == Join(b, sep) <==> a == b
  {
    if |a| > 1 && Join(a, sep) == Join(b, sep) {
      CutAt(a[0], Join(a[1..], sep), sep);
      CutAt(b[0], Join(b[1..], sep), sep);
      JoinDetermines(a[1..], b[1..], sep);
      assert a == [a[0]] + a[1..] && b == [b[0]] + b[1..];
    }
  }

  predicate HasPrefix(s: string, p: string) {
    p <= s
  }

  predicate HasSuffix(s: string, q: string) {
    |q| <= |s| && s[|s| - |q|..] == q
  }

  // ---------- decimal numbers ----------

  predicate IsDigit(c: char) {
    '0' <= c <= '9'
  }

  function Digit(d: int): (c: char)
    requires 0 <= d < 10
    ensures IsDigit(c)
  {
    ('0' as int + d) as char
  }

  /** `%d` on a natural number. */
  function Decimal(n: nat): (s: string)
    ensures s != "" && forall i :: 0 <= i < |s| ==> IsDigit(s[i])
  {
    if n < 10 then [Digit(n)] else Decimal(n / 10) + [Digit(n % 10)]
  }

  /** `%d` on any integer. */
  function SignedDecimal(n: int): string {
    if n < 0 then "-" + Decimal(-n) else Decimal(n)
  }

  lemma {:induction false} DecimalInjective(m: nat, n: nat)
    requires Decimal(m) == Decimal(n)
    ensures m == n
  {
    var s, t := Decimal(m), Decimal(n);
    assert s[|s| - 1] == Digit(m % 10) && t[|t| - 1] == Digit(n % 10);
    if m >= 10 && n >= 10 {
      assert s[..|s| - 1] == Decimal(m / 10) && t[..|t| - 1] == Decimal(n / 10);
      DecimalInjective(m / 10, n / 10);
    }
  }

  /** The number a row of digits stands for. */
  function ValueOf(digits: string): int {
    if digits == "" then 0
    else 10 * ValueOf(digits[..|digits| - 1]) + (digits[|digits| - 1] as int - '0' as int)
  }

  /** A number's digits stand for it, with no zero in front. */
  lemma {:induction false} DecimalStandsFor(n: nat)
    ensures ValueOf(Decimal(n)) == n && (n > 0 ==> Decimal(n)[0] != '0')
    ensures SignedDecimal(n) == Decimal(n) && (n > 0 ==> SignedDecimal(-(n as int)) == "-" + Decimal(n))
  {
    assert ValueOf("") == 0;
    if n < 10 {
      assert [Digit(n)][..0] == "";
    } else {
      DecimalStandsFor(n / 10);
      var front := Decimal(n / 10);
      assert (front + [Digit(n % 10)])[..|front|] == front;
    }
  }
}

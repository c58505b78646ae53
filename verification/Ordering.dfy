/** Byte-wise string order, tuple order, and what Go's `slices` sorting promises.

    Every comparison function in the program compares a tuple of instants and strings.
    Such a tuple is a `Key`; a comparison function is then a function from elements to keys. */
module Ordering {

  // ---------- strings ----------

  /** `a < b` on Go strings. */
  predicate StringLess(a: string, b: string) {
    if |b| == 0 then false
    else if |a| == 0 then true
    else a[0] < b[0] || (a[0] == b[0] && StringLess(a[1..], b[1..]))
  }

  lemma {:induction false} StringTrichotomy(a: string, b: string)
    ensures !StringLess(a, a)
    ensures a == b || StringLess(a, b) || StringLess(b, a)
    ensures !(StringLess(a, b) && StringLess(b, a))
    decreases |a|
  {
    if a != [] {
      StringTrichotomy(a[1..], a[1..]);
      if b != [] {
        StringTrichotomy(a[1..], b[1..]);
        assert a == [a[0]] + a[1..] && b == [b[0]] + b[1..];
      }
    }
  }

  /** `a` is below `b` exactly when it ends first or has the smaller character where they first differ. */
  lemma {:induction false} StringLessIff(a: string, b: string)
    ensures StringLess(a, b) <==> exists k :: 0 <= k <= |a| && k < |b| && a[..k] == b[..k] && (k == |a| || a[k] < b[k])
  {
    if a != [] && b != [] {
      StringLessIff(a[1..], b[1..]);
      if StringLess(a[1..], b[1..]) && a[0] == b[0] {
        var k :| 0 <= k <= |a| - 1 && k < |b| - 1 && a[1..][..k] == b[1..][..k] && (k == |a| - 1 || a[1..][k] < b[1..][k]);
        assert a[..k + 1] == [a[0]] + a[1..][..k] && b[..k + 1] == [b[0]] + b[1..][..k];
      }
      if k :| 0 < k <= |a| && k < |b| && a[..k] == b[..k] && (k == |a| || a[k] < b[k]) {
        assert a[..k][0] == b[..k][0] && a[1..][..k - 1] == a[..k][1..] && b[1..][..k - 1] == b[..k][1..];
      }
    } else if b != [] {
      assert a[..0] == b[..0];
    }
  }

  lemma {:induction false} StringTransitive(a: string, b: string, c: string)
    requires StringLess(a, b) && StringLess(b, c)
    ensures StringLess(a, c)
  {
    if a != [] && a[0] == b[0] == c[0] {
      StringTransitive(a[1..], b[1..], c[1..]);
    }
  }

  // ---------- tuples ----------

  datatype Part = Num(n: int) | Text(s: string)

  type Key = seq<Part>

  predicate PartLess(a: Part, b: Part) {
    match (a, b)
    case (Num(m), Num(n)) => m < n
    case (Num(_), Text(_)) => true
    case (Text(_), Num(_)) => false
    case (Text(s), Text(t)) => StringLess(s, t)
  }

  lemma PartTrichotomy(a: Part, b: Part)
    ensures !PartLess(a, a)
    ensures a == b || PartLess(a, b) || PartLess(b, a)
    ensures !(PartLess(a, b) && PartLess(b, a))
  {
    if a.Text? { StringTrichotomy(a.s, a.s); }
    if a.Text? && b.Text? { StringTrichotomy(a.s, b.s); }
  }

  lemma PartTransitive(a: Part, b: Part, c: Part)
    requires PartLess(a, b) && PartLess(b, c)
    ensures PartLess(a, c)
  {
    if a.Text? { StringTransitive(a.s, b.s, c.s); }
  }

  /** Lexicographic order on tuples: the chains of `<` and `>` tests in the comparison functions. */
  predicate Less(a: Key, b: Key) {
    if |b| == 0 then false
    else if |a| == 0 then true
    else PartLess(a[0], b[0]) || (a[0] == b[0] && Less(a[1..], b[1..]))
  }

  lemma {:induction false} Trichotomy(a: Key, b: Key)
    ensures !Less(a, a)
    ensures a == b || Less(a, b) || Less(b, a)
    ensures !(Less(a, b) && Less(b, a))
    decreases |a|
  {
    if a != [] {
      PartTrichotomy(a[0], a[0]);
      Trichotomy(a[1..], a[1..]);
      if b != [] {
        PartTrichotomy(a[0], b[0]);
        Trichotomy(a[1..], b[1..]);
        assert a == [a[0]] + a[1..] && b == [b[0]] + b[1..];
      }
    }
  }

  lemma {:induction false} Transitive(a: Key, b: Key, c: Key)
    requires Less(a, b) && Less(b, c)
    ensures Less(a, c)
  {
    if a != [] {
      if PartLess(a[0], b[0]) && PartLess(b[0], c[0]) {
        PartTransitive(a[0], b[0], c[0]);
      } else if a[0] == b[0] == c[0] {
        Transitive(a[1..], b[1..], c[1..]);
      }
    }
  }

  /** Not-greater composes: what makes a sorted prefix stay below a later element. */
  lemma NotLessTransitive(a: Key, b: Key, c: Key)
    requires !Less(b, a) && !Less(c, b)
    ensures !Less(c, a)
  {
    Trichotomy(a, b);
    Trichotomy(b, c);
    if Less(c, a) {
      if a != b { Transitive(c, a, b); }
    }
  }

  // ---------- comparing part by part ----------

  lemma NumLess(m: int, x: Key, n: int, y: Key)
    ensures Less([Num(m)] + x, [Num(n)] + y) <==> m < n || (m == n && Less(x, y))
  {
    assert ([Num(m)] + x)[1..] == x && ([Num(n)] + y)[1..] == y;
  }

  lemma TextLess(s: string, x: Key, t: string, y: Key)
    ensures Less([Text(s)] + x, [Text(t)] + y) <==> StringLess(s, t) || (s == t && Less(x, y))
  {
    assert ([Text(s)] + x)[1..] == x && ([Text(t)] + y)[1..] == y;
  }

  lemma NothingLess()
    ensures !Less([], [])
  {
  }

  // ---------- sorted sequences ----------

  ghost predicate Sorted<T>(s: seq<T>, key: T -> Key) {
    forall i, j :: 0 <= i < j < |s| ==> !Less(key(s[j]), key(s[i]))
  }

  ghost predicate StrictlySorted<T>(s: seq<T>, key: T -> Key) {
    forall i, j :: 0 <= i < j < |s| ==> Less(key(s[i]), key(s[j]))
  }

  ghost predicate NoDuplicates<T>(s: seq<T>) {
    forall i, j :: 0 <= i < j < |s| ==> s[i] != s[j]
  }

  /** No two different elements of `s` compare equal. */
  ghost predicate KeyDistinguishes<T>(s: seq<T>, key: T -> Key) {
    forall x, y :: x in s && y in s && key(x) == key(y) ==> x == y
  }

  function Elements<T>(s: seq<T>): set<T> {
    set x | x in s
  }

  /** `slices.SortFunc`: some sorted permutation; nothing is promised about equal elements. */
  method SortFunc<T>(s: seq<T>, key: T -> Key) returns (r: seq<T>)
    ensures Sorted(r, key)
    ensures multiset(r) == multiset(s)
  {
    r := StableSort(s, key);
    StableSortSorts(s, key);
  }

  // ---------- stable sorting ----------

  /** Put `x` before the first element that is not smaller. */
  function InsertFront<T>(x: T, s: seq<T>, key: T -> Key): (r: seq<T>)
    ensures multiset(r) == multiset([x]) + multiset(s)
  {
    if s == [] then [x]
    else if Less(key(s[0]), key(x)) then
      assert s == [s[0]] + s[1..];
      [s[0]] + InsertFront(x, s[1..], key)
    else [x] + s
  }

  /** `slices.SortStableFunc`. */
  function StableSort<T>(s: seq<T>, key: T -> Key): (r: seq<T>)
    ensures multiset(r) == multiset(s)
  {
    if s == [] then []
    else
      assert s == [s[0]] + s[1..];
      InsertFront(s[0], StableSort(s[1..], key), key)
  }

  lemma {:induction false} InsertFrontSorted<T>(x: T, s: seq<T>, key: T -> Key)
    requires Sorted(s, key)
    ensures Sorted(InsertFront(x, s, key), key)
  {
    Trichotomy(key(x), key(x));
    if s != [] {
      Trichotomy(key(s[0]), key(x));
      if Less(key(s[0]), key(x)) {
        InsertFrontSorted(x, s[1..], key);
        var r := InsertFront(x, s[1..], key);
        forall j | 0 <= j < |r| ensures !Less(key(r[j]), key(s[0])) {
          assert r[j] in multiset(r);
          assert r[j] in multiset([x]) + multiset(s[1..]);
        }
      } else {
        forall j | 0 <= j < |s| ensures !Less(key(s[j]), key(x)) {
          if j > 0 { NotLessTransitive(key(x), key(s[0]), key(s[j])); }
        }
      }
    }
  }

  lemma {:induction false} StableSortSorts<T>(s: seq<T>, key: T -> Key)
    ensures Sorted(StableSort(s, key), key)
  {
    if s != [] {
      StableSortSorts(s[1..], key);
      InsertFrontSorted(s[0], StableSort(s[1..], key), key);
    }
  }

  /** The subsequence of elements that compare equal to `k`. */
  function WithKey<T>(s: seq<T>, key: T -> Key, k: Key): seq<T> {
    if s == [] then []
    else (if key(s[0]) == k then [s[0]] else []) + WithKey(s[1..], key, k)
  }

  lemma WithKeyFirst<T>(x: T, s: seq<T>, key: T -> Key, k: Key)
    ensures WithKey([x] + s, key, k) == (if key(x) == k then [x] else []) + WithKey(s, key, k)
  {
    assert ([x] + s)[1..] == s;
  }

  lemma InsertFrontFirst<T>(x: T, s: seq<T>, key: T -> Key)
    ensures InsertFront(x, s, key)
            == if s != [] && Less(key(s[0]), key(x)) then [s[0]] + InsertFront(x, s[1..], key) else [x] + s
  {
  }

  lemma {:induction false} InsertFrontStable<T>(x: T, s: seq<T>, key: T -> Key, k: Key)
    ensures WithKey(InsertFront(x, s, key), key, k)
            == (if key(x) == k then [x] else []) + WithKey(s, key, k)
  {
    hide InsertFront, WithKey, Less;
    InsertFrontFirst(x, s, key);
    if s != [] && Less(key(s[0]), key(x)) {
      var y, tail := s[0], s[1..];
      InsertFrontStable(x, tail, key, k);
      Trichotomy(key(y), key(x));
      WithKeyFirst(y, InsertFront(x, tail, key), key, k);
      WithKeyFirst(y, tail, key, k);
      assert s == [y] + tail;
    } else {
      WithKeyFirst(x, s, key, k);
    }
  }

  /** Stability: elements that compare equal keep their relative order. */
  lemma {:induction false} StableSortIsStable<T>(s: seq<T>, key: T -> Key, k: Key)
    ensures WithKey(StableSort(s, key), key, k) == WithKey(s, key, k)
  {
    if s != [] {
      StableSortIsStable(s[1..], key, k);
      InsertFrontStable(s[0], StableSort(s[1..], key), key, k);
    }
  }

  // ---------- uniqueness ----------

  lemma SortedHeads<T>(a: seq<T>, b: seq<T>, key: T -> Key)
    requires Sorted(a, key) && Sorted(b, key) && multiset(a) == multiset(b) && a != []
    ensures b != [] && key(a[0]) == key(b[0])
  {
    assert a[0] in multiset(b);
    var i :| 0 <= i < |b| && b[i] == a[0];
    assert b[0] in multiset(a);
    var j :| 0 <= j < |a| && a[j] == b[0];
    Trichotomy(key(a[0]), key(b[0]));
    Trichotomy(key(a[0]), key(a[0]));
    Trichotomy(key(b[0]), key(b[0]));
  }

  lemma EqualTails<T>(a: seq<T>, b: seq<T>)
    requires a != [] && b != [] && a[0] == b[0] && multiset(a) == multiset(b)
    ensures multiset(a[1..]) == multiset(b[1..])
  {
    assert a == [a[0]] + a[1..] && b == [b[0]] + b[1..];
    assert multiset(a[1..]) == multiset(a) - multiset([a[0]]);
    assert multiset(b[1..]) == multiset(b) - multiset([b[0]]);
  }

  /** A list whose comparison never ties has one sorted arrangement. */
  lemma {:induction false} SortedUnique<T>(a: seq<T>, b: seq<T>, key: T -> Key)
    requires Sorted(a, key) && Sorted(b, key)
    requires multiset(a) == multiset(b)
    requires KeyDistinguishes(a, key)
    ensures a == b
    decreases |a|
  {
    if a == [] {
      assert |multiset(b)| == 0;
    } else {
      SortedHeads(a, b, key);
      SamePermutationElements(a, b);
      assert a[0] == b[0] by { assert b[0] in a; }
      EqualTails(a, b);
      SortedUnique(a[1..], b[1..], key);
      assert a == [a[0]] + a[1..] && b == [b[0]] + b[1..];
    }
  }

  lemma SortedHeadsStable<T>(a: seq<T>, b: seq<T>, key: T -> Key)
    requires Sorted(a, key) && Sorted(b, key) && multiset(a) == multiset(b) && a != []
    requires forall k :: WithKey(a, key, k) == WithKey(b, key, k)
    ensures b != [] && a[0] == b[0]
  {
    SortedHeads(a, b, key);
    assert WithKey(a, key, key(a[0]))[0] == a[0];
    assert WithKey(b, key, key(a[0]))[0] == b[0];
  }

  /** A stable arrangement is unique even when the comparison ties. */
  lemma {:induction false} StableUnique<T>(a: seq<T>, b: seq<T>, key: T -> Key)
    requires Sorted(a, key) && Sorted(b, key) && multiset(a) == multiset(b)
    requires forall k :: WithKey(a, key, k) == WithKey(b, key, k)
    ensures a == b
    decreases |a|
  {
    if a == [] {
      assert |multiset(b)| == 0;
    } else {
      SortedHeadsStable(a, b, key);
      EqualTails(a, b);
      assert a == [a[0]] + a[1..] && b == [b[0]] + b[1..];
      forall k ensures WithKey(a[1..], key, k) == WithKey(b[1..], key, k) {
        var h := if key(a[0]) == k then [a[0]] else [];
        assert WithKey(a, key, k)[|h|..] == WithKey(a[1..], key, k);
        assert WithKey(b, key, k)[|h|..] == WithKey(b[1..], key, k);
      }
      StableUnique(a[1..], b[1..], key);
    }
  }

  /** A strictly sorted list is determined by the set of its elements. */
  lemma {:induction false} StrictlySortedUnique<T>(a: seq<T>, b: seq<T>, key: T -> Key)
    requires StrictlySorted(a, key) && StrictlySorted(b, key)
    requires forall x :: x in a <==> x in b
    ensures a == b
    decreases |a|
  {
    assert a != [] ==> a[0] in b;
    assert b != [] ==> b[0] in a;
    if a != [] {
      StrictHeads(a, b, key);
      StrictHeads(b, a, key);
      Trichotomy(key(a[0]), key(b[0]));
      StrictTail(a, key);
      StrictTail(b, key);
      assert a == [a[0]] + a[1..] && b == [b[0]] + b[1..];
      assert a[0] in b && b[0] in a;
      forall x ensures x in a[1..] <==> x in b[1..] {
        assert x in a <==> x in b;
      }
      StrictlySortedUnique(a[1..], b[1..], key);
    }
  }

  lemma StrictHeads<T>(a: seq<T>, b: seq<T>, key: T -> Key)
    requires StrictlySorted(a, key) && StrictlySorted(b, key) && a != [] && b != []
    requires forall x :: x in a <==> x in b
    ensures a[0] == b[0] || Less(key(b[0]), key(a[0]))
  {
    assert a[0] in b;
    var i :| 0 <= i < |b| && b[i] == a[0];
  }

  lemma StrictTail<T>(a: seq<T>, key: T -> Key)
    requires StrictlySorted(a, key) && a != []
    ensures StrictlySorted(a[1..], key)
    ensures a[0] !in a[1..]
  {
    if a[0] in a[1..] {
      var i :| 0 <= i < |a[1..]| && a[1..][i] == a[0];
      assert Less(key(a[0]), key(a[i + 1]));
      Trichotomy(key(a[0]), key(a[0]));
    }
  }

  /** Sorting a duplicate-free list whose comparison never ties gives a strict order. */
  lemma SortedIsStrict<T>(s: seq<T>, key: T -> Key)
    requires Sorted(s, key) && KeyDistinguishes(s, key) && NoDuplicates(s)
    ensures StrictlySorted(s, key)
  {
    forall i, j | 0 <= i < j < |s| ensures Less(key(s[i]), key(s[j])) {
      Trichotomy(key(s[i]), key(s[j]));
    }
  }

  /** A permutation of a duplicate-free list is duplicate-free. */
  lemma PermutationNoDuplicates<T>(a: seq<T>, b: seq<T>)
    requires multiset(a) == multiset(b) && NoDuplicates(a)
    ensures NoDuplicates(b)
  {
    if i, j :| 0 <= i < j < |b| && b[i] == b[j] {
      CountTwice(b, i, j);
      CountOnce(a, b[i]);
    }
  }

  lemma CountTwice<T>(s: seq<T>, i: int, j: int)
    requires 0 <= i < j < |s| && s[i] == s[j]
    ensures multiset(s)[s[i]] >= 2
  {
    assert s == s[..j] + s[j..];
    assert s[i] in s[..j];
    assert s[i] in s[j..] by { assert s[j..][0] == s[j]; }
  }

  lemma {:induction false} CountOnce<T>(s: seq<T>, x: T)
    requires NoDuplicates(s)
    ensures multiset(s)[x] <= 1
    ensures x in s <==> multiset(s)[x] == 1
    decreases |s|
  {
    if s != [] {
      assert s == [s[0]] + s[1..];
      CountOnce(s[1..], x);
      assert x == s[0] ==> x !in s[1..];
    }
  }

  lemma SamePermutationElements<T>(a: seq<T>, b: seq<T>)
    requires multiset(a) == multiset(b)
    ensures |a| == |b|
    ensures forall x :: x in a <==> x in b
  {
    assert |multiset(a)| == |a| && |multiset(b)| == |b|;
    forall x ensures x in a <==> x in b {
      assert x in a <==> x in multiset(a);
      assert x in b <==> x in multiset(b);
    }
  }

  // ---------- a sort as a function of its comparisons ----------

  /** An unstable sort sees a list only through the keys it compares. It is some function from the
      keys to the positions that the arranged elements are taken from. */
  type Sorter = seq<Key> -> seq<nat>

  function Keys<T>(s: seq<T>, key: T -> Key): (ks: seq<Key>)
    ensures |ks| == |s| && forall i :: 0 <= i < |s| ==> ks[i] == key(s[i])
  {
    seq(|s|, i requires 0 <= i < |s| => key(s[i]))
  }

  function Positions(n: nat): (r: seq<nat>)
    ensures |r| == n && forall i :: 0 <= i < n ==> r[i] == i
  {
    seq(n, (i: nat) => i)
  }

  predicate InRange(order: seq<nat>, n: nat) {
    forall i :: 0 <= i < |order| ==> order[i] < n
  }

  ghost predicate Arranges(order: seq<nat>, ks: seq<Key>) {
    && InRange(order, |ks|) && multiset(order) == multiset(Positions(|ks|))
    && forall i, j :: 0 <= i < j < |order| ==> !Less(ks[order[j]], ks[order[i]])
  }

  /** `slices.SortFunc`, of which nothing else is promised. */
  ghost predicate Sorts(sort: Sorter) {
    forall ks: seq<Key> :: Arranges(sort(ks), ks)
  }

  function Pick<T>(s: seq<T>, order: seq<nat>): (r: seq<T>)
    requires InRange(order, |s|)
    ensures |r| == |order| && forall i :: 0 <= i < |r| ==> r[i] == s[order[i]]
  {
    seq(|order|, i requires 0 <= i < |order| => s[order[i]])
  }

  function ArrangeBy<T>(sort: Sorter, s: seq<T>, key: T -> Key): seq<T>
    requires Sorts(sort)
  {
    assert Arranges(sort(Keys(s, key)), Keys(s, key));
    Pick(s, sort(Keys(s, key)))
  }

  lemma Without<T>(s: seq<T>, i: int)
    requires 0 <= i < |s|
    ensures multiset(s) == multiset(s[..i] + s[i + 1..]) + multiset([s[i]])
    ensures multiset(s[..i] + s[i + 1..]) == multiset(s) - multiset([s[i]])
  {
    assert s == s[..i] + [s[i]] + s[i + 1..];
  }

  lemma PickWithout<T>(s: seq<T>, order: seq<nat>, i: int)
    requires InRange(order, |s|) && 0 <= i < |order|
    ensures var rest := order[..i] + order[i + 1..];
      InRange(rest, |s|) && multiset(Pick(s, order)) == multiset(Pick(s, rest)) + multiset([s[order[i]]])
  {
    var rest, r := order[..i] + order[i + 1..], Pick(s, order);
    Without(r, i);
    assert Pick(s, rest) == r[..i] + r[i + 1..];
  }

  lemma {:induction false} PickPermuted<T>(s: seq<T>, a: seq<nat>, b: seq<nat>)
    requires InRange(a, |s|) && InRange(b, |s|) && multiset(a) == multiset(b)
    ensures multiset(Pick(s, a)) == multiset(Pick(s, b))
    decreases |a|
  {
    if a == [] {
      assert |multiset(b)| == 0;
      assert Pick(s, a) == Pick(s, b);
    } else {
      assert a[0] in multiset(b);
      var i :| 0 <= i < |b| && b[i] == a[0];
      PickStep(s, a, b, i);
      PickPermuted(s, a[..0] + a[1..], b[..i] + b[i + 1..]);
    }
  }

  lemma PickStep<T>(s: seq<T>, a: seq<nat>, b: seq<nat>, i: int)
    requires InRange(a, |s|) && InRange(b, |s|) && multiset(a) == multiset(b)
    requires a != [] && 0 <= i < |b| && b[i] == a[0]
    ensures var x, y := a[..0] + a[1..], b[..i] + b[i + 1..];
      && multiset(x) == multiset(y) && InRange(x, |s|) && InRange(y, |s|)
      && multiset(Pick(s, a)) == multiset(Pick(s, x)) + multiset([s[a[0]]])
      && multiset(Pick(s, b)) == multiset(Pick(s, y)) + multiset([s[a[0]]])
  {
    hide Pick, InRange;
    PickWithout(s, a, 0);
    PickWithout(s, b, i);
    SameWithout(a, b, i);
  }

  lemma SameWithout<T>(a: seq<T>, b: seq<T>, i: int)
    requires multiset(a) == multiset(b) && a != [] && 0 <= i < |b| && b[i] == a[0]
    ensures multiset(a[..0] + a[1..]) == multiset(b[..i] + b[i + 1..])
  {
    Without(a, 0);
    Without(b, i);
  }

  /** Whatever the sort is, it yields a sorted permutation. */
  lemma ArrangeBySorts<T>(sort: Sorter, s: seq<T>, key: T -> Key)
    requires Sorts(sort)
    ensures Sorted(ArrangeBy(sort, s, key), key) && multiset(ArrangeBy(sort, s, key)) == multiset(s)
  {
    var order := sort(Keys(s, key));
    assert Arranges(order, Keys(s, key));
    hide Sorts, Less;
    PickPermuted(s, order, Positions(|s|));
    assert Pick(s, Positions(|s|)) == s;
  }

  /** The positions that a stable sort takes its elements from. */
  function StableOrder(ks: seq<Key>): seq<nat> {
    StableSort(Positions(|ks|), (i: nat) => if i < |ks| then ks[i] else [])
  }

  /** There are such sorts: a stable one is. */
  lemma StableOrderSorts()
    ensures Sorts(StableOrder)
  {
    forall ks: seq<Key> ensures Arranges(StableOrder(ks), ks) {
      var key := (i: nat) => if i < |ks| then ks[i] else [];
      var order := StableOrder(ks);
      StableSortSorts(Positions(|ks|), key);
      SamePermutationElements(order, Positions(|ks|));
      hide StableOrder, Less;
      forall i | 0 <= i < |order| ensures order[i] < |ks| {
        assert order[i] in Positions(|ks|);
      }
      forall i, j | 0 <= i < j < |order| ensures !Less(ks[order[j]], ks[order[i]]) {
        assert key(order[i]) == ks[order[i]] && key(order[j]) == ks[order[j]];
      }
    }
  }

  /** Sorted permutations of one list have the same keys at the same positions. */
  lemma SameKeys<T>(a: seq<T>, b: seq<T>, key: T -> Key)
    requires Sorted(a, key) && Sorted(b, key) && multiset(a) == multiset(b)
    ensures |a| == |b| && forall i :: 0 <= i < |a| ==> key(a[i]) == key(b[i])
  {
    SamePermutationElements(a, b);
    KeysPermuted(a, b, key);
    var itself := (k: Key) => k;
    hide Less;
    SortedUnique(Keys(a, key), Keys(b, key), itself);
  }

  lemma {:induction false} KeysPermuted<T>(a: seq<T>, b: seq<T>, key: T -> Key)
    requires multiset(a) == multiset(b)
    ensures multiset(Keys(a, key)) == multiset(Keys(b, key))
    decreases |a|
  {
    if a == [] {
      assert |multiset(b)| == 0;
      assert Keys(a, key) == Keys(b, key);
    } else {
      assert a[0] in multiset(b);
      var i :| 0 <= i < |b| && b[i] == a[0];
      KeysStep(a, b, key, i);
      KeysPermuted(a[..0] + a[1..], b[..i] + b[i + 1..], key);
    }
  }

  lemma KeysWithout<T>(s: seq<T>, key: T -> Key, i: int)
    requires 0 <= i < |s|
    ensures multiset(Keys(s, key)) == multiset(Keys(s[..i] + s[i + 1..], key)) + multiset([key(s[i])])
  {
    var ks := Keys(s, key);
    Without(ks, i);
    assert Keys(s[..i] + s[i + 1..], key) == ks[..i] + ks[i + 1..];
  }

  lemma KeysStep<T>(a: seq<T>, b: seq<T>, key: T -> Key, i: int)
    requires multiset(a) == multiset(b) && a != [] && 0 <= i < |b| && b[i] == a[0]
    ensures var x, y := a[..0] + a[1..], b[..i] + b[i + 1..];
      && multiset(x) == multiset(y)
      && multiset(Keys(a, key)) == multiset(Keys(x, key)) + multiset([key(a[0])])
      && multiset(Keys(b, key)) == multiset(Keys(y, key)) + multiset([key(a[0])])
  {
    hide Keys;
    KeysWithout(a, key, 0);
    KeysWithout(b, key, i);
    SameWithout(a, b, i);
  }
}

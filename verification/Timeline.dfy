/** The in-memory incident timeline: append, range filter, canonical order, pages. */
module Timeline {
  import opened GoTime
  import opened Ordering
  import opened Telemetry

  const DEFAULT_PAGE_SIZE: int := 50
  const MAX_PAGE_SIZE: int := 200

  datatype Query = Query(start: Time, end: Time, page: int, pageSize: int)

  /** `Panicked` is the run-time error of slicing with a negative offset. */
  datatype Outcome =
    | Page(events: seq<Event>, page: int, pageSize: int, total: int)
    | Rejected
    | Panicked

  // ---------- what a query means ----------

  /** Newest first, then by id. */
  function EventKey(e: Event): Key {
    [Num(-e.timestamp), Text(e.id)]
  }

  predicate InRange(e: Event, q: Query) {
    && (q.start == ZERO_TIME || q.start <= e.timestamp)
    && (q.end == ZERO_TIME || e.timestamp <= q.end)
  }

  function Select(events: seq<Event>, q: Query): (r: seq<Event>)
    ensures forall e :: e in r <==> e in events && InRange(e, q)
  {
    if events == [] then []
    else
      var k := |events| - 1;
      assert events == events[..k] + [events[k]];
      Select(events[..k], q) + (if InRange(events[k], q) then [events[k]] else [])
  }

  function PageNumber(q: Query): int {
    if q.page <= 0 then 1 else q.page
  }

  function PageSize(q: Query): (n: int)
    ensures 1 <= n <= MAX_PAGE_SIZE
  {
    if q.pageSize <= 0 then DEFAULT_PAGE_SIZE else Min(q.pageSize, MAX_PAGE_SIZE)
  }

  ghost predicate Arrangement(a: seq<Event>, events: seq<Event>, q: Query) {
    Sorted(a, EventKey) && multiset(a) == multiset(Select(events, q))
  }

  /** One page cut from the arranged answer; the offset is an int64 product. */
  function PageOf(a: seq<Event>, page: int, size: int): Outcome
    requires size >= 0
  {
    var offset := Wrap64((page - 1) * size);
    if offset >= |a| then Page([], page, size, |a|)
    else if offset < 0 then Panicked
    else Page(a[offset..Min(offset + size, |a|)], page, size, |a|)
  }

  predicate Reversed(q: Query) {
    q.start != ZERO_TIME && q.end != ZERO_TIME && q.start > q.end
  }

  ghost predicate IsAnswer(events: seq<Event>, q: Query, r: Outcome) {
    if Reversed(q) then r == Rejected
    else exists a :: Arrangement(a, events, q) && r == PageOf(a, PageNumber(q), PageSize(q))
  }

  // ---------- the order of an answer ----------

  /** Newest first; at one instant, by id. */
  ghost predicate NewestFirst(es: seq<Event>) {
    forall i, j :: 0 <= i < j < |es| ==>
      es[i].timestamp > es[j].timestamp || (es[i].timestamp == es[j].timestamp && !StringLess(es[j].id, es[i].id))
  }

  lemma BeforeMeans(e: Event, f: Event)
    ensures Less(EventKey(e), EventKey(f)) <==> e.timestamp > f.timestamp || (e.timestamp == f.timestamp && StringLess(e.id, f.id))
  {
    var k, l := EventKey(e), EventKey(f);
    var x, y: Key := [Text(e.id)], [Text(f.id)];
    assert k[1..] == x && l[1..] == y && x[1..] == y[1..] == [];
    assert !Less([], []);
    hide StringLess;
    assert Less(x, y) <==> StringLess(e.id, f.id);
  }

  lemma ArrangedNewestFirst(a: seq<Event>)
    requires Sorted(a, EventKey)
    ensures NewestFirst(a)
  {
    hide EventKey, Less, StringLess;
    forall i, j | 0 <= i < j < |a|
      ensures a[i].timestamp > a[j].timestamp || (a[i].timestamp == a[j].timestamp && !StringLess(a[j].id, a[i].id))
    {
      BeforeMeans(a[j], a[i]);
    }
  }

  /** A page is a stretch of the arranged answer. */
  lemma PageIsStretch(a: seq<Event>, page: int, size: int)
    requires size >= 0 && NewestFirst(a) && PageOf(a, page, size).Page?
    ensures var r := PageOf(a, page, size);
      NewestFirst(r.events) && |r.events| <= size && r.page == page && r.pageSize == size && forall e :: e in r.events ==> e in a
  {
  }

  lemma PageShows(events: seq<Event>, q: Query, r: Outcome)
    requires IsAnswer(events, q, r) && r.Page?
    ensures NewestFirst(r.events) && |r.events| <= r.pageSize
    ensures r.page == (if q.page <= 0 then 1 else q.page) && r.pageSize == (if q.pageSize <= 0 then 50 else Min(q.pageSize, 200))
    ensures forall e :: e in r.events ==>
      (e in events && (q.start == ZERO_TIME || q.start <= e.timestamp) && (q.end == ZERO_TIME || e.timestamp <= q.end))
  {
    var number, size := PageNumber(q), PageSize(q);
    assert number == (if q.page <= 0 then 1 else q.page) && size == (if q.pageSize <= 0 then 50 else Min(q.pageSize, 200));
    assert forall e :: e in Select(events, q) ==>
      (e in events && (q.start == ZERO_TIME || q.start <= e.timestamp) && (q.end == ZERO_TIME || e.timestamp <= q.end));
    hide Sorted, Select, NewestFirst, PageOf, PageNumber, PageSize, EventKey;
    var a :| Arrangement(a, events, q) && r == PageOf(a, PageNumber(q), PageSize(q));
    ArrangedNewestFirst(a);
    PageIsStretch(a, PageNumber(q), PageSize(q));
    SamePermutationElements(a, Select(events, q));
  }

  // ---------- the service ----------

  class InMemoryService {
    var events: seq<Event>

    constructor (initial: seq<Event>)
      ensures events == initial
    {
      events := initial;
    }

    method AddEvents(added: seq<Event>)
      modifies this
      ensures events == old(events) + added
    {
      events := events + added;
    }

    /** The range filter, holding the read lock. */
    method Filter(q: Query) returns (filtered: seq<Event>)
      ensures filtered == Select(events, q)
    {
      filtered := [];
      for i := 0 to |events|
        invariant filtered == Select(events[..i], q)
      {
        var event := events[i];
        assert events[..i + 1][..i] == events[..i];
        if q.start != ZERO_TIME && event.timestamp < q.start { continue; }
        if q.end != ZERO_TIME && event.timestamp > q.end { continue; }
        filtered := filtered + [event];
      }
      assert events[..|events|] == events;
    }

    /** The offset arithmetic and the slice of the requested page. */
    static method Slice(filtered: seq<Event>, page: int, pageSize: int) returns (r: Outcome)
      requires pageSize >= 0
      ensures r == PageOf(filtered, page, pageSize)
    {
      var total := |filtered|;
      var startOffset := Wrap64((page - 1) * pageSize);
      if startOffset >= total {
        return Page([], page, pageSize, total);
      }
      if startOffset < 0 {
        return Panicked;
      }
      var endOffset := startOffset + pageSize;
      if endOffset > total {
        endOffset := total;
      }
      r := Page(filtered[startOffset..endOffset], page, pageSize, total);
    }

    method QueryTimeline(q: Query) returns (r: Outcome)
      ensures IsAnswer(events, q, r)
      ensures r == Rejected <==> q.start != ZERO_TIME && q.end != ZERO_TIME && q.start > q.end
      ensures r.Page? ==>
        && NewestFirst(r.events) && |r.events| <= r.pageSize
        && r.page == (if q.page <= 0 then 1 else q.page)
        && r.pageSize == (if q.pageSize <= 0 then 50 else Min(q.pageSize, 200))
        && forall e :: e in r.events ==>
             (e in events && (q.start == ZERO_TIME || q.start <= e.timestamp) && (q.end == ZERO_TIME || e.timestamp <= q.end))
    {
      hide NewestFirst, Sorted, Select, EventKey;
      if q.start != ZERO_TIME && q.end != ZERO_TIME && q.start > q.end {
        return Rejected;
      }
      var page := if q.page <= 0 then 1 else q.page;
      var pageSize := q.pageSize;
      if pageSize <= 0 {
        pageSize := DEFAULT_PAGE_SIZE;
      }
      if pageSize > MAX_PAGE_SIZE {
        pageSize := MAX_PAGE_SIZE;
      }

      var filtered := Filter(q);
      filtered := SortFunc(filtered, EventKey);
      r := Slice(filtered, page, pageSize);
      assert Arrangement(filtered, events, q) && r == PageOf(filtered, PageNumber(q), PageSize(q));
      hide PageOf, IsAnswer;
      if r.Page? { PageShows(events, q, r); }
    }
  }

  // ---------- independence of insertion order ----------

  lemma {:induction false} SelectConcat(a: seq<Event>, b: seq<Event>, q: Query)
    ensures Select(a + b, q) == Select(a, q) + Select(b, q)
    decreases |b|
  {
    if b == [] {
      assert a + b == a;
    } else {
      var k := |b| - 1;
      assert (a + b)[..|a + b| - 1] == a + b[..k];
      SelectConcat(a, b[..k], q);
    }
  }

  lemma {:induction false} SelectCounts(a: seq<Event>, q: Query, e: Event)
    ensures multiset(Select(a, q))[e] == if InRange(e, q) then multiset(a)[e] else 0
    decreases |a|
  {
    if a != [] {
      var k := |a| - 1;
      assert a == a[..k] + [a[k]];
      SelectCounts(a[..k], q, e);
    }
  }

  lemma SelectPermutes(first: seq<Event>, second: seq<Event>, q: Query)
    requires multiset(first) == multiset(second)
    ensures multiset(Select(first, q)) == multiset(Select(second, q))
  {
    hide Select, InRange;
    forall e ensures multiset(Select(first, q))[e] == multiset(Select(second, q))[e] {
      SelectCounts(first, q, e);
      SelectCounts(second, q, e);
    }
  }

  /** Only the stored events matter, not the order or the batches they arrived in. */
  lemma AnswerIgnoresInsertionOrder(first: seq<Event>, second: seq<Event>, q: Query, r1: Outcome, r2: Outcome)
    requires multiset(first) == multiset(second)
    requires KeyDistinguishes(Select(first, q), EventKey)
    requires IsAnswer(first, q, r1) && IsAnswer(second, q, r2)
    ensures r1 == r2
  {
    if !Reversed(q) {
      var a :| Arrangement(a, first, q) && r1 == PageOf(a, PageNumber(q), PageSize(q));
      var b :| Arrangement(b, second, q) && r2 == PageOf(b, PageNumber(q), PageSize(q));
      hide PageOf, PageNumber, PageSize, Select, EventKey, InRange, Sorted;
      SelectPermutes(first, second, q);
      SamePermutationElements(Select(first, q), a);
      SortedUnique(a, b, EventKey);
    }
  }

  // ---------- pages partition the answer ----------

  /** Pages 1 to `k` laid end to end. */
  function Pages(a: seq<Event>, size: int, k: nat): seq<Event>
    requires size >= 1
  {
    if k == 0 then []
    else Pages(a, size, k - 1) + (match PageOf(a, k, size) case Page(es, _, _, _) => es case _ => [])
  }

  lemma {:induction false} PagesArePrefix(a: seq<Event>, size: int, k: nat)
    requires size >= 1 && (k == 0 || (k - 1) * size <= MAX_INT64)
    ensures 0 <= k * size
    ensures Pages(a, size, k) == a[..Min(k * size, |a|)]
  {
    if k > 0 {
      PageOffset(k, size);
      PagesArePrefix(a, size, k - 1);
      hide PageOf;
      PageAt(a, k, size, (k - 1) * size);
    }
  }

  lemma PageOffset(k: nat, size: int)
    requires k >= 1 && size >= 1
    ensures 0 <= (k - 1) * size == k * size - size
    ensures k == 1 || (k - 2) * size <= (k - 1) * size
  {
    NonNegativeProduct(k - 1, size);
  }

  lemma PageAt(a: seq<Event>, k: nat, size: int, offset: int)
    requires k >= 1 && size >= 1 && offset == (k - 1) * size && 0 <= offset <= MAX_INT64
    ensures PageOf(a, k, size).Page? && PageOf(a, k, size).total == |a|
    ensures a[..Min(offset, |a|)] + PageOf(a, k, size).events == a[..Min(offset + size, |a|)]
  {
  }

  lemma NonNegativeProduct(k: int, size: int)
    requires k >= 0 && size >= 0
    ensures 0 <= k * size
  {
  }

  /** There is one arrangement of the answer when no two events share instant and id. */
  lemma OneArrangement(a: seq<Event>, b: seq<Event>, events: seq<Event>, q: Query)
    requires Arrangement(a, events, q) && Arrangement(b, events, q)
    requires KeyDistinguishes(Select(events, q), EventKey)
    ensures a == b
  {
    SamePermutationElements(Select(events, q), a);
    SortedUnique(a, b, EventKey);
  }

  /** Walking every page shows each in-range event exactly once, in the one canonical order, and
      every page reports how many there are. */
  lemma PagesPartition(a: seq<Event>, events: seq<Event>, q: Query, pages: nat)
    requires Arrangement(a, events, q)
    requires pages * PageSize(q) >= |a| && (pages == 0 || (pages - 1) * PageSize(q) <= MAX_INT64)
    ensures Pages(a, PageSize(q), pages) == a && NewestFirst(a)
    ensures forall e ::
      (multiset(Pages(a, PageSize(q), pages))[e]
       == if (q.start == ZERO_TIME || q.start <= e.timestamp) && (q.end == ZERO_TIME || e.timestamp <= q.end)
          then multiset(events)[e] else 0)
    ensures forall page :: 1 <= page <= pages ==>
      PageOf(a, page, PageSize(q)).Page? && PageOf(a, page, PageSize(q)).total == |Select(events, q)|
  {
    PagesArePrefix(a, PageSize(q), pages);
    ArrangedNewestFirst(a);
    forall e ensures multiset(a)[e] == if InRange(e, q) then multiset(events)[e] else 0 {
      SelectCounts(events, q, e);
    }
    SamePermutationElements(a, Select(events, q));
    PagesReportTotal(a, PageSize(q), pages);
  }

  /** No event of a later page is newer than one of an earlier page. */
  lemma LaterPagesAreOlder(a: seq<Event>, events: seq<Event>, q: Query, page: int, later: int)
    requires Arrangement(a, events, q) && 1 <= page < later && (later - 1) * PageSize(q) <= MAX_INT64
    ensures var r, s := PageOf(a, page, PageSize(q)), PageOf(a, later, PageSize(q));
      r.Page? && s.Page? && forall x, y :: x in r.events && y in s.events ==> x.timestamp >= y.timestamp
  {
    ArrangedNewestFirst(a);
    assert forall i, j :: 0 <= i < j < |a| ==> a[i].timestamp >= a[j].timestamp;
    EarlierOffset(page, later, PageSize(q));
    hide Select, Sorted, EventKey, PageOf, NewestFirst, Wrap64, PageSize;
    var size := PageSize(q);
    var from, to := (page - 1) * size, (later - 1) * size;
    assert from + size <= to by { NonNegativeProduct(later - 1 - page, size); assert to == from + size + (later - 1 - page) * size; }
    Stretch(a, page, size, from);
    Stretch(a, later, size, to);
    forall x, y | x in PageOf(a, page, size).events && y in PageOf(a, later, size).events ensures x.timestamp >= y.timestamp {
      var i :| from <= i < from + size && i < |a| && a[i] == x;
      var j :| to <= j < to + size && j < |a| && a[j] == y;
    }
  }

  lemma Stretch(a: seq<Event>, page: int, size: int, offset: int)
    requires page >= 1 && size >= 1 && offset == (page - 1) * size && 0 <= offset <= MAX_INT64
    ensures PageOf(a, page, size).Page?
    ensures forall x :: x in PageOf(a, page, size).events ==> exists i :: offset <= i < offset + size && i < |a| && a[i] == x
  {
    if offset < |a| {
      var es := a[offset..Min(offset + size, |a|)];
      forall x | x in es ensures exists i :: offset <= i < offset + size && i < |a| && a[i] == x {
        var k :| 0 <= k < |es| && es[k] == x;
        assert a[offset + k] == x;
      }
    }
  }

  lemma PagesReportTotal(a: seq<Event>, size: int, pages: nat)
    requires size >= 1 && (pages == 0 || (pages - 1) * size <= MAX_INT64)
    ensures forall page :: 1 <= page <= pages ==> PageOf(a, page, size).Page? && PageOf(a, page, size).total == |a|
  {
    hide PageOf;
    forall page | 1 <= page <= pages ensures PageOf(a, page, size).Page? && PageOf(a, page, size).total == |a| {
      EarlierOffset(page, pages, size);
      PageAt(a, page, size, (page - 1) * size);
    }
  }

  lemma EarlierOffset(page: int, pages: int, size: int)
    requires 1 <= page <= pages && size >= 1
    ensures 0 <= (page - 1) * size <= (pages - 1) * size
  {
    NonNegativeProduct(page - 1, size);
    NonNegativeProduct(pages - page, size);
    assert (pages - 1) * size == (page - 1) * size + (pages - page) * size;
  }

  /** The page that was asked for, with unbounded arithmetic. */
  function Intended(a: seq<Event>, page: int, size: int): Outcome
    requires page >= 1 && size >= 0
  {
    var offset := (page - 1) * size;
    NonNegativeProduct(page - 1, size);
    Page(if offset >= |a| then [] else a[offset..Min(offset + size, |a|)], page, size, |a|)
  }

  /** Exactly when the int64 offset still names the page that was asked for. */
  lemma PageExactIff(a: seq<Event>, page: int, size: int)
    requires page >= 1 && 1 <= size && |a| <= MAX_INT64
    ensures PageOf(a, page, size) == Intended(a, page, size)
      <==> (page - 1) * size <= MAX_INT64 || Wrap64((page - 1) * size) >= |a|
  {
    NonNegativeProduct(page - 1, size);
    var offset := Wrap64((page - 1) * size);
    if (page - 1) * size > MAX_INT64 && 0 <= offset < |a| {
      assert |a[offset..Min(offset + size, |a|)]| > 0;
    }
  }

  /** The overflowing request page = 2^62 + 1, page_size = 2 fails on every timeline. */
  lemma OverflowingPagePanics(a: seq<Event>)
    ensures PageOf(a, 0x4000_0000_0000_0001, 2) == Panicked
    ensures Intended(a, 0x4000_0000_0000_0001, 2) != Panicked
  {
  }

  /** Events that sort after the last event of page `k` leave pages 1 to `k` unchanged
      (`m` is the number of events on those full pages). */
  lemma LaterEventsKeepFullPages(a: seq<Event>, b: seq<Event>, events: seq<Event>, added: seq<Event>, q: Query, m: nat)
    requires Arrangement(a, events, q) && Arrangement(b, events + added, q)
    requires KeyDistinguishes(Select(events + added, q), EventKey)
    requires 1 <= m <= |a|
    requires forall e :: e in added && InRange(e, q) ==> Less(EventKey(a[m - 1]), EventKey(e))
    ensures m <= |b| && b[..m] == a[..m]
  {
    var tail := ArrangeLater(a, events, added, q, m);
    OneArrangement(b, a[..m] + tail, events + added, q);
  }

  lemma ArrangeLater(a: seq<Event>, events: seq<Event>, added: seq<Event>, q: Query, m: nat) returns (tail: seq<Event>)
    requires Arrangement(a, events, q) && 1 <= m <= |a|
    requires forall e :: e in added && InRange(e, q) ==> Less(EventKey(a[m - 1]), EventKey(e))
    ensures Arrangement(a[..m] + tail, events + added, q)
  {
    var rest := a[m..] + Select(added, q);
    tail := StableSort(rest, EventKey);
    StableSortSorts(rest, EventKey);
    SamePermutationElements(rest, tail);
    PrefixThenLaterSorted(a, m, tail);
    MultisetOfParts(a, m, Select(events, q), Select(added, q), tail);
    SelectConcat(events, added, q);
  }

  lemma MultisetOfParts(a: seq<Event>, m: nat, kept: seq<Event>, added: seq<Event>, tail: seq<Event>)
    requires m <= |a| && multiset(a) == multiset(kept) && multiset(tail) == multiset(a[m..] + added)
    ensures multiset(a[..m] + tail) == multiset(kept + added)
  {
    assert a == a[..m] + a[m..];
  }

  lemma PrefixThenLaterSorted(a: seq<Event>, m: nat, tail: seq<Event>)
    requires Sorted(a, EventKey) && Sorted(tail, EventKey) && 1 <= m <= |a|
    requires forall e :: e in tail ==> e in a[m..] || Less(EventKey(a[m - 1]), EventKey(e))
    ensures Sorted(a[..m] + tail, EventKey)
  {
    forall i, j | 0 <= i < m && 0 <= j < |tail| ensures !Less(EventKey(tail[j]), EventKey(a[i])) {
      AfterPrefix(a, m, i, tail[j]);
    }
  }

  lemma AfterPrefix(a: seq<Event>, m: nat, i: nat, e: Event)
    requires Sorted(a, EventKey) && i < m <= |a|
    requires e in a[m..] || Less(EventKey(a[m - 1]), EventKey(e))
    ensures !Less(EventKey(e), EventKey(a[i]))
  {
    if e !in a[m..] {
      Trichotomy(EventKey(a[m - 1]), EventKey(e));
      Trichotomy(EventKey(a[i]), EventKey(a[i]));
      if i < m - 1 { NotLessTransitive(EventKey(a[i]), EventKey(a[m - 1]), EventKey(e)); }
    }
  }
}

/** Which ties of metric points in the store's order a query can show. */
module GraphTies {
  import opened GoTime
  import opened Text
  import opened Ordering
  import opened Telemetry
  import opened Graph
  import opened Correlation
  import opened CorrelationFacts
  import opened GraphQuery

  // ---------- ties that look alike ----------

  /** Two points that, when they tie in the store's order, no node or edge tells apart. */
  predicate MetricsAlike(p: MetricPoint, p': MetricPoint, f: Format) {
    p.namespace == p'.namespace && f.value(p.value) == f.value(p'.value)
  }

  ghost predicate MetricTiesAlike(ms: seq<MetricPoint>, f: Format) {
    forall p, p' :: p in ms && p' in ms && SignalStore.MetricOrder(p) == SignalStore.MetricOrder(p') ==> MetricsAlike(p, p', f)
  }

  /** Position by position the two lists yield the same nodes and edges. */
  ghost predicate SameMetrics(a: seq<MetricPoint>, b: seq<MetricPoint>, f: Format) {
    && |a| == |b|
    && forall i :: 0 <= i < |a| ==> MetricNode(a[i], i, f) == MetricNode(b[i], i, f) && ResourceOf(a[i]) == ResourceOf(b[i]) && a[i].timestamp == b[i].timestamp
  }

  lemma TiedMetricsLookSame(p: MetricPoint, p': MetricPoint, i: nat, f: Format)
    requires SignalStore.MetricOrder(p) == SignalStore.MetricOrder(p')
    ensures ResourceOf(p) == ResourceOf(p') && p.timestamp == p'.timestamp && MetricNodeID(p, i) == MetricNodeID(p', i)
    ensures MetricNode(p, i, f) == MetricNode(p', i, f) <==> MetricsAlike(p, p', f)
  {
    var k, k' := SignalStore.MetricOrder(p), SignalStore.MetricOrder(p');
    assert k[0].n == k'[0].n && k[1].s == k'[1].s && k[2].s == k'[2].s;
    hide SignedDecimal, Decimal;
    var a, a' := MetricNode(p, i, f).attributes, MetricNode(p', i, f).attributes;
    assert a["namespace"] == p.namespace && a["value"] == f.value(p.value);
    assert a'["namespace"] == p'.namespace && a'["value"] == f.value(p'.value);
  }

  lemma AlikeMetricsLookSame(ms: seq<MetricPoint>, range: SignalStore.Query, f: Format, m1: seq<MetricPoint>, m2: seq<MetricPoint>)
    requires MetricTiesAlike(SignalStore.SelectMetrics(ms, range), f)
    requires SignalStore.IsMetricAnswer(ms, range, m1) && SignalStore.IsMetricAnswer(ms, range, m2)
    ensures SameMetrics(m1, m2, f)
  {
    SameKeys(m1, m2, SignalStore.MetricOrder);
    hide Sorted, SignalStore.SelectMetrics, SignalStore.MetricOrder, MetricNode, ResourceOf, MetricsAlike;
    SamePermutationElements(m1, SignalStore.SelectMetrics(ms, range));
    SamePermutationElements(m2, SignalStore.SelectMetrics(ms, range));
    forall i | 0 <= i < |m1|
      ensures MetricNode(m1[i], i, f) == MetricNode(m2[i], i, f) && ResourceOf(m1[i]) == ResourceOf(m2[i]) && m1[i].timestamp == m2[i].timestamp
    {
      assert m1[i] in m1 && m2[i] in m2;
      TiedMetricsLookSame(m1[i], m2[i], i, f);
    }
  }

  lemma {:induction false} SameMetricNodes(a: seq<MetricPoint>, b: seq<MetricPoint>, f: Format)
    requires SameMetrics(a, b, f)
    ensures MetricNodes(a, f) == MetricNodes(b, f)
    decreases |a|
  {
    hide MetricNode, ResourceOf, ResourceNode, WithNode;
    if a != [] {
      SameMetricNodes(a[..|a| - 1], b[..|a| - 1], f);
    }
  }

  lemma {:induction false} SameNodes(a: seq<MetricPoint>, b: seq<MetricPoint>, l: seq<LogRecord>, f: Format)
    requires SameMetrics(a, b, f)
    ensures AllNodes(a, l, f) == AllNodes(b, l, f)
    decreases |l|
  {
    hide LogNode, InferLogResourceID, ResourceNode, WithNode, MetricNodes, SameMetrics;
    if l == [] {
      SameMetricNodes(a, b, f);
    } else {
      SameNodes(a, b, l[..|l| - 1], f);
    }
  }

  lemma SameMetricEdge(a: seq<MetricPoint>, b: seq<MetricPoint>, l: seq<LogRecord>, f: Format, maxSkew: int, e: Edge)
    requires SameMetrics(a, b, f) && IsEdge(e, a, l, maxSkew)
    ensures IsEdge(e, b, l, maxSkew)
  {
    assert forall i :: 0 <= i < |a| ==> MetricNode(a[i], i, f).id == MetricNodeID(a[i], i) && MetricNode(b[i], i, f).id == MetricNodeID(b[i], i);
    hide MetricNode, LogNode, MetricNodeID, LogNodeID, ResourceOf, InferLogResourceID, ResourceNodeID, WithinSkew;
    if IsMetricEdge(e, a) {
      var i :| 0 <= i < |a| && e == MetricEdge(a[i], i);
      assert e == MetricEdge(b[i], i);
    } else if IsPairEdge(e, a, l, maxSkew) {
      var i, j :| 0 <= i < |a| && 0 <= j < |l| && Correlated(a[i], l[j], maxSkew) && e == PairEdge(a[i], i, l[j], j);
      assert Correlated(b[i], l[j], maxSkew) && e == PairEdge(b[i], i, l[j], j);
    }
  }

  /** Swapping two points that tie but do not look alike is another arrangement of the same
      points, and the unlimited, unfiltered answer shows the difference. */
  lemma UnlikeMetricTiesShow(ms: seq<MetricPoint>, q: Query, f: Format, m: seq<MetricPoint>, i: nat, j: nat,
                             l: seq<LogRecord>, l': seq<LogRecord>, r1: Result, r2: Result)
    requires SignalStore.IsMetricAnswer(ms, SignalStore.Query(q.start, q.end), m) && i < j < |m|
    requires SignalStore.MetricOrder(m[i]) == SignalStore.MetricOrder(m[j]) && !MetricsAlike(m[i], m[j], f)
    requires q.limitNodes <= 0 && TrimSpace(q.resourceID) == ""
    ensures var swapped := m[i := m[j]][j := m[i]];
      && SignalStore.IsMetricAnswer(ms, SignalStore.Query(q.start, q.end), swapped)
      && (IsAnswer(m, l, q, f, r1) && IsAnswer(swapped, l', q, f, r2) ==> r1.nodes != r2.nodes)
  {
    var swapped := m[i := m[j]][j := m[i]];
    SwapIsAnswer(ms, SignalStore.Query(q.start, q.end), m, i, j);
    TiedMetricsLookSame(m[i], m[j], i, f);
    if IsAnswer(m, l, q, f, r1) && IsAnswer(swapped, l', q, f, r2) {
      MetricNodeReturned(m, l, q, f, r1, i);
      MetricNodeReturned(swapped, l', q, f, r2, i);
      AnswerNodesKeyed(m, l, q, f, r1);
    }
  }

  lemma SwapIsAnswer(ms: seq<MetricPoint>, range: SignalStore.Query, m: seq<MetricPoint>, i: nat, j: nat)
    requires SignalStore.IsMetricAnswer(ms, range, m) && i < j < |m|
    requires SignalStore.MetricOrder(m[i]) == SignalStore.MetricOrder(m[j])
    ensures SignalStore.IsMetricAnswer(ms, range, m[i := m[j]][j := m[i]])
  {
    hide Less, SignalStore.SelectMetrics, SignalStore.MetricOrder;
    var swapped := m[i := m[j]][j := m[i]];
    assert forall k :: 0 <= k < |m| ==> SignalStore.MetricOrder(swapped[k]) == SignalStore.MetricOrder(m[k]);
    assert multiset(swapped) == multiset(m);
  }

  lemma NodeReturned(m: seq<MetricPoint>, l: seq<LogRecord>, q: Query, f: Format, r: Result, n: Node)
    requires IsAnswer(m, l, q, f, r) && q.limitNodes <= 0 && TrimSpace(q.resourceID) == ""
    requires n.id in AllNodes(m, l, f) && AllNodes(m, l, f)[n.id] == n
    ensures n in r.nodes
  {
    hide AllNodes, InducedEdges, IsEdge, StrictlySorted, TrimSpace;
    var ns :| FilteredNodes(ns, AllNodes(m, l, f), "") && r.nodes == Truncate(ns, q.limitNodes);
  }

  lemma MetricNodeReturned(m: seq<MetricPoint>, l: seq<LogRecord>, q: Query, f: Format, r: Result, i: nat)
    requires IsAnswer(m, l, q, f, r) && i < |m| && q.limitNodes <= 0 && TrimSpace(q.resourceID) == ""
    ensures MetricNode(m[i], i, f) in r.nodes && MetricNode(m[i], i, f).id == MetricNodeID(m[i], i)
  {
    MetricNodeAt(m, l, f, i);
    assert MetricNode(m[i], i, f).id == MetricNodeID(m[i], i);
    hide AllNodes, MetricNode, MetricNodeID, IsAnswer, TrimSpace;
    NodeReturned(m, l, q, f, r, MetricNode(m[i], i, f));
  }

  /** No two returned nodes share an id. */
  lemma AnswerNodesKeyed(m: seq<MetricPoint>, l: seq<LogRecord>, q: Query, f: Format, r: Result)
    requires IsAnswer(m, l, q, f, r)
    ensures forall n, n' :: n in r.nodes && n' in r.nodes && n.id == n'.id ==> n == n'
  {
    hide AllNodes, InducedEdges, IsEdge, StrictlySorted, KeepsNode;
    var ns :| FilteredNodes(ns, AllNodes(m, l, f), TrimSpace(q.resourceID)) && r.nodes == Truncate(ns, q.limitNodes);
    TruncateElements(ns, q.limitNodes);
  }

  /** For points the condition is exact: the nodes of a build are the same for every arrangement of
      the selected points if and only if tied points look alike. */
  lemma MetricTiesShowIff(ms: seq<MetricPoint>, range: SignalStore.Query, f: Format, l: seq<LogRecord>)
    ensures (forall m1, m2 :: SignalStore.IsMetricAnswer(ms, range, m1) && SignalStore.IsMetricAnswer(ms, range, m2)
                              ==> AllNodes(m1, l, f) == AllNodes(m2, l, f))
      <==> MetricTiesAlike(SignalStore.SelectMetrics(ms, range), f)
  {
    hide SignalStore.IsMetricAnswer, AllNodes, MetricsAlike, SignalStore.MetricOrder, SignalStore.SelectMetrics;
    var selected := SignalStore.SelectMetrics(ms, range);
    if MetricTiesAlike(selected, f) {
      forall m1, m2 | SignalStore.IsMetricAnswer(ms, range, m1) && SignalStore.IsMetricAnswer(ms, range, m2)
        ensures AllNodes(m1, l, f) == AllNodes(m2, l, f)
      {
        AlikeMetricsLookSame(ms, range, f, m1, m2);
        SameNodes(m1, m2, l, f);
      }
    } else {
      var p, p' :| p in selected && p' in selected && SignalStore.MetricOrder(p) == SignalStore.MetricOrder(p') && !MetricsAlike(p, p', f);
      UnlikeTieShows(ms, range, f, l, p, p');
    }
  }

  lemma SomeArrangement(ms: seq<MetricPoint>, range: SignalStore.Query) returns (m: seq<MetricPoint>)
    ensures SignalStore.IsMetricAnswer(ms, range, m)
    ensures forall p :: p in m <==> p in SignalStore.SelectMetrics(ms, range)
  {
    hide Sorted, StableOrder, Sorts, SignalStore.MetricAnswer, SignalStore.SelectMetrics;
    StableOrderSorts();
    m := SignalStore.MetricAnswer(StableOrder, ms, range);
    SignalStore.AnswersAreSorted(StableOrder, ms, [], range);
    SamePermutationElements(m, SignalStore.SelectMetrics(ms, range));
  }

  lemma UnlikeTieShows(ms: seq<MetricPoint>, range: SignalStore.Query, f: Format, l: seq<LogRecord>, p: MetricPoint, p': MetricPoint)
    requires p in SignalStore.SelectMetrics(ms, range) && p' in SignalStore.SelectMetrics(ms, range)
    requires SignalStore.MetricOrder(p) == SignalStore.MetricOrder(p') && !MetricsAlike(p, p', f)
    ensures exists m1, m2 :: SignalStore.IsMetricAnswer(ms, range, m1) && SignalStore.IsMetricAnswer(ms, range, m2)
                             && AllNodes(m1, l, f) != AllNodes(m2, l, f)
  {
    assert p != p';
    hide SignalStore.IsMetricAnswer, AllNodes, MetricsAlike, SignalStore.MetricOrder, SignalStore.SelectMetrics;
    var m := SomeArrangement(ms, range);
    var i :| 0 <= i < |m| && m[i] == p;
    var j :| 0 <= j < |m| && m[j] == p';
    SwapShows(ms, range, f, l, m, if i < j then i else j, if i < j then j else i);
  }

  lemma SwapShows(ms: seq<MetricPoint>, range: SignalStore.Query, f: Format, l: seq<LogRecord>, m: seq<MetricPoint>, i: nat, j: nat)
    requires SignalStore.IsMetricAnswer(ms, range, m) && i < j < |m|
    requires SignalStore.MetricOrder(m[i]) == SignalStore.MetricOrder(m[j])
    requires !MetricsAlike(m[i], m[j], f) || !MetricsAlike(m[j], m[i], f)
    ensures exists m' :: SignalStore.IsMetricAnswer(ms, range, m') && AllNodes(m, l, f) != AllNodes(m', l, f)
  {
    var swapped := m[i := m[j]][j := m[i]];
    SwapIsAnswer(ms, range, m, i, j);
    TiedMetricsLookSame(m[i], m[j], i, f);
    TiedMetricsLookSame(m[j], m[i], i, f);
    hide SignalStore.IsMetricAnswer, AllNodes, MetricsAlike, SignalStore.MetricOrder, MetricNode, MetricNodeID;
    MetricNodeAt(m, l, f, i);
    MetricNodeAt(swapped, l, f, i);
  }

  /** Two points of one metric and instant with values that render differently: the answer shows
      which one the sort put first. */
  lemma MetricTieExample(f: Format, q: Query, a: MetricPoint, b: MetricPoint, l: seq<LogRecord>, r1: Result, r2: Result)
    requires a == MetricPoint("r", "n", "m", 5, 1.0) && b == MetricPoint("r", "n", "m", 5, 2.0) && f.value(1.0) != f.value(2.0)
    requires q.start == q.end == ZERO_TIME && q.limitNodes <= 0 && TrimSpace(q.resourceID) == ""
    requires IsAnswer([a, b], l, q, f, r1) && IsAnswer([b, a], l, q, f, r2)
    ensures SignalStore.IsMetricAnswer([a, b], SignalStore.Query(q.start, q.end), [a, b])
    ensures SignalStore.IsMetricAnswer([a, b], SignalStore.Query(q.start, q.end), [b, a])
    ensures r1 != r2
  {
    hide IsAnswer, TrimSpace;
    assert SignalStore.MetricOrder(a) == SignalStore.MetricOrder(b);
    BothSelected(a, b);
    var m := [a, b];
    assert m[0 := m[1]][1 := m[0]] == [b, a];
    UnlikeMetricTiesShow(m, q, f, m, 0, 1, l, l, r1, r2);
  }

  lemma BothSelected(a: MetricPoint, b: MetricPoint)
    requires SignalStore.MetricOrder(a) == SignalStore.MetricOrder(b)
    ensures SignalStore.IsMetricAnswer([a, b], SignalStore.Query(ZERO_TIME, ZERO_TIME), [a, b])
  {
    hide SignalStore.MetricOrder, Less;
    Trichotomy(SignalStore.MetricOrder(a), SignalStore.MetricOrder(b));
    var range := SignalStore.Query(ZERO_TIME, ZERO_TIME);
    assert [a, b][..1] == [a] && [a][..0] == [];
    assert SignalStore.SelectMetrics([], range) == [];
    assert SignalStore.SelectMetrics([a], range) == [a];
    assert SignalStore.SelectMetrics([a, b], range) == [a, b];
  }
}

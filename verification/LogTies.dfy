/** Which ties of log records in the store's order a query can show, and when it shows none at all,
    whatever the library sort does with them. */
module LogTies {
  import opened GoTime
  import opened Text
  import opened Ordering
  import opened Telemetry
  import opened Graph
  import opened Correlation
  import opened CorrelationFacts
  import opened GraphQuery
  import opened GraphTies
  import S = SignalStore

  // ---------- ties that do not show ----------

  /** Two logs that, when they tie in the store's order, no node or edge tells apart. */
  predicate LogsAlike(r: LogRecord, r': LogRecord) {
    r.logGroupName == r'.logGroupName && r.logStreamName == r'.logStreamName && InferLogResourceID(r) == InferLogResourceID(r')
  }

  /** An earlier log has taken the node of `r`. */
  ghost predicate Taken(rs: seq<LogRecord>, r: LogRecord) {
    r.eventID != "" && exists q :: q in rs && q.eventID == r.eventID && q.timestamp < r.timestamp
  }

  /** Tied logs look alike or have lost their node to an earlier log. */
  ghost predicate LogTiesHidden(rs: seq<LogRecord>) {
    forall r, r' :: r in rs && r' in rs && S.LogOrder(r) == S.LogOrder(r') ==> LogsAlike(r, r') || Taken(rs, r)
  }

  ghost predicate EarlierID(l: seq<LogRecord>, j: int)
    requires 0 <= j < |l|
  {
    l[j].eventID != "" && exists h :: 0 <= h < j && l[h].eventID == l[j].eventID
  }

  /** Two arrangements of the same logs that differ only in hidden ties. */
  ghost predicate Matched(l1: seq<LogRecord>, l2: seq<LogRecord>) {
    && |l1| == |l2|
    && (forall r :: r in l1 <==> r in l2)
    && forall j :: 0 <= j < |l1| ==>
         && l1[j].timestamp == l2[j].timestamp && l1[j].eventID == l2[j].eventID
         && (LogsAlike(l1[j], l2[j]) || EarlierID(l1, j))
  }

  lemma OrderMeans(r: LogRecord, r': LogRecord)
    ensures S.LogOrder(r) == S.LogOrder(r') <==> r.timestamp == r'.timestamp && r.eventID == r'.eventID
    ensures r.timestamp < r'.timestamp ==> Less(S.LogOrder(r), S.LogOrder(r'))
  {
    var k, k' := S.LogOrder(r), S.LogOrder(r');
    assert k[0].n == r.timestamp && k'[0].n == r'.timestamp && k[1].s == r.eventID && k'[1].s == r'.eventID;
  }

  /** In an arrangement an earlier log stands before. */
  lemma EarlierStandsBefore(l: seq<LogRecord>, h: int, j: int)
    requires Sorted(l, S.LogOrder) && 0 <= h < |l| && 0 <= j < |l| && l[h].timestamp < l[j].timestamp
    ensures h < j
  {
    OrderMeans(l[h], l[j]);
    Trichotomy(S.LogOrder(l[h]), S.LogOrder(l[j]));
    hide S.LogOrder, Less;
  }

  lemma TakenIsEarlier(rs: seq<LogRecord>, l: seq<LogRecord>, j: int)
    requires Sorted(l, S.LogOrder) && 0 <= j < |l| && Taken(rs, l[j]) && forall r :: r in rs ==> r in l
    ensures EarlierID(l, j)
  {
    hide Sorted;
    var q :| q in rs && q.eventID == l[j].eventID && q.timestamp < l[j].timestamp;
    var h :| 0 <= h < |l| && l[h] == q;
    EarlierStandsBefore(l, h, j);
  }

  lemma ArrangementsMatch(rs: seq<LogRecord>, range: S.Query, l1: seq<LogRecord>, l2: seq<LogRecord>)
    requires LogTiesHidden(S.SelectLogs(rs, range)) && S.IsLogAnswer(rs, range, l1) && S.IsLogAnswer(rs, range, l2)
    ensures Matched(l1, l2)
  {
    SameKeys(l1, l2, S.LogOrder);
    var selected := S.SelectLogs(rs, range);
    hide Sorted, S.SelectLogs, LogsAlike, Taken, S.LogOrder, EarlierID;
    SamePermutationElements(l1, selected);
    SamePermutationElements(l2, selected);
    forall j | 0 <= j < |l1|
      ensures l1[j].timestamp == l2[j].timestamp && l1[j].eventID == l2[j].eventID && (LogsAlike(l1[j], l2[j]) || EarlierID(l1, j))
    {
      assert l1[j] in l1 && l2[j] in l2;
      OrderMeans(l1[j], l2[j]);
      if Taken(selected, l1[j]) { TakenIsEarlier(selected, l1, j); }
    }
  }

  lemma MatchedBack(l1: seq<LogRecord>, l2: seq<LogRecord>)
    requires Matched(l1, l2)
    ensures Matched(l2, l1)
  {
    hide InferLogResourceID;
    forall j | 0 <= j < |l2| ensures LogsAlike(l2[j], l1[j]) || EarlierID(l2, j) {
      if EarlierID(l1, j) {
        var h :| 0 <= h < j && l1[h].eventID == l1[j].eventID;
        assert l2[h].eventID == l2[j].eventID;
      }
    }
  }

  // ---------- the nodes ----------

  lemma SameLogID(r: LogRecord, r': LogRecord, j: nat, f: Format)
    requires r.timestamp == r'.timestamp && r.eventID == r'.eventID
    ensures r.eventID != "" || r.logStreamName == r'.logStreamName ==> LogNodeID(r, j) == LogNodeID(r', j)
    ensures LogNode(r, j, f) == LogNode(r', j, f) <==> LogsAlike(r, r')
  {
    hide SignedDecimal, Decimal, InferLogResourceID;
    var a, a' := LogNode(r, j, f).attributes, LogNode(r', j, f).attributes;
    assert a["resource_id"] == InferLogResourceID(r) && a["log_group_name"] == r.logGroupName && a["log_stream_name"] == r.logStreamName;
    assert a'["resource_id"] == InferLogResourceID(r') && a'["log_group_name"] == r'.logGroupName && a'["log_stream_name"] == r'.logStreamName;
  }

  lemma MatchedIDs(l1: seq<LogRecord>, l2: seq<LogRecord>, j: int, f: Format)
    requires Matched(l1, l2) && 0 <= j < |l1|
    ensures LogNodeID(l1[j], j) == LogNodeID(l2[j], j)
  {
    hide LogNodeID, LogNode, InferLogResourceID;
    SameLogID(l1[j], l2[j], j, f);
  }

  lemma EventIDIsNodeID(r: LogRecord, i: nat, q: LogRecord, j: nat)
    requires r.eventID != "" && q.eventID != ""
    ensures LogNodeID(r, i) == LogNodeID(q, j) <==> r.eventID == q.eventID
  {
    assert LogNodeID(r, i)[4..] == r.eventID && LogNodeID(q, j)[4..] == q.eventID;
  }

  /** The first log with an id is so in both arrangements, with the same node. */
  lemma MatchedFirst(l1: seq<LogRecord>, l2: seq<LogRecord>, j: int, f: Format)
    requires Matched(l1, l2) && FirstWithID(l1, j)
    ensures FirstWithID(l2, j) && LogNode(l1[j], j, f) == LogNode(l2[j], j, f)
  {
    hide LogNodeID, LogNode, InferLogResourceID, LogsAlike;
    forall h | 0 <= h <= j ensures LogNodeID(l1[h], h) == LogNodeID(l2[h], h) {
      MatchedIDs(l1, l2, h, f);
    }
    if EarlierID(l1, j) {
      var h :| 0 <= h < j && l1[h].eventID == l1[j].eventID;
      EventIDIsNodeID(l1[h], h, l1[j], j);
      assert false;
    }
    SameLogID(l1[j], l2[j], j, f);
  }

  lemma LogNodeCarries(m: seq<MetricPoint>, l1: seq<LogRecord>, l2: seq<LogRecord>, f: Format, j: int)
    requires Matched(l1, l2) && 0 <= j < |l1|
    ensures var id := LogNodeID(l1[j], j);
      id in AllNodes(m, l1, f) && id in AllNodes(m, l2, f) && AllNodes(m, l1, f)[id] == AllNodes(m, l2, f)[id]
  {
    hide AllNodes, LogNodeID, LogNode, Matched;
    var first := LogNodeAt(m, l1, f, j);
    MatchedFirst(l1, l2, first, f);
    MatchedIDs(l1, l2, first, f) by { assert first < |l1|; }
    var again := LogNodeAt(m, l2, f, first);
    assert again == first;
  }

  lemma NodeCarries(m: seq<MetricPoint>, l1: seq<LogRecord>, l2: seq<LogRecord>, f: Format, id: string)
    requires Matched(l1, l2) && id in AllNodes(m, l1, f)
    ensures id in AllNodes(m, l2, f) && AllNodes(m, l1, f)[id] == AllNodes(m, l2, f)[id]
  {
    assert forall r :: r in l1 ==> r in l2;
    hide AllNodes, MetricNodeID, LogNodeID, ResourceNodeID, LogNode, MetricNode, ResourceOf, InferLogResourceID, Matched;
    NodeKeys(m, l1, f);
    if IsMetricID(id, m) {
      var i :| 0 <= i < |m| && id == MetricNodeID(m[i], i);
      MetricNodeAt(m, l1, f, i);
      MetricNodeAt(m, l2, f, i);
    } else if IsLogID(id, l1) {
      var j :| 0 <= j < |l1| && id == LogNodeID(l1[j], j);
      LogNodeCarries(m, l1, l2, f, j);
    } else {
      var r := ResourceCarries(m, l1, l2, id);
      ResourceNodeAt(m, l1, f, r);
      ResourceNodeAt(m, l2, f, r);
    }
  }

  lemma ResourceCarries(m: seq<MetricPoint>, l1: seq<LogRecord>, l2: seq<LogRecord>, id: string) returns (r: string)
    requires (forall r :: r in l1 ==> r in l2) && (IsMetricResource(id, m) || IsLogResource(id, l1))
    ensures id == ResourceNodeID(r) && IsNodeID(id, m, l1) && IsNodeID(id, m, l2)
  {
    hide MetricNodeID, LogNodeID, ResourceNodeID, ResourceOf, InferLogResourceID;
    if IsMetricResource(id, m) {
      var i :| 0 <= i < |m| && id == ResourceNodeID(ResourceOf(m[i]));
      r := ResourceOf(m[i]);
    } else {
      var j :| 0 <= j < |l1| && id == ResourceNodeID(InferLogResourceID(l1[j]));
      r := InferLogResourceID(l1[j]);
      assert l1[j] in l1 && l1[j] in l2;
      var j' :| 0 <= j' < |l2| && l2[j'] == l1[j];
      assert IsLogResource(id, l2);
    }
  }

  lemma MatchedNodes(m: seq<MetricPoint>, l1: seq<LogRecord>, l2: seq<LogRecord>, f: Format)
    requires Matched(l1, l2)
    ensures AllNodes(m, l1, f) == AllNodes(m, l2, f)
  {
    MatchedBack(l1, l2);
    hide AllNodes, Matched;
    forall id | id in AllNodes(m, l1, f) ensures id in AllNodes(m, l2, f) && AllNodes(m, l1, f)[id] == AllNodes(m, l2, f)[id] {
      NodeCarries(m, l1, l2, f, id);
    }
    forall id | id in AllNodes(m, l2, f) ensures id in AllNodes(m, l1, f) {
      NodeCarries(m, l2, l1, f, id);
    }
  }

  // ---------- the edges ----------

  /** Every log has one in the other arrangement with its node id, resource and instant. */
  lemma Counterpart(l1: seq<LogRecord>, l2: seq<LogRecord>, j: int, f: Format) returns (j': int)
    requires Matched(l1, l2) && 0 <= j < |l1|
    ensures 0 <= j' < |l2| && LogNodeID(l2[j'], j') == LogNodeID(l1[j], j)
    ensures InferLogResourceID(l2[j']) == InferLogResourceID(l1[j]) && l2[j'].timestamp == l1[j].timestamp
  {
    hide LogNodeID, LogNode, InferLogResourceID;
    if LogsAlike(l1[j], l2[j]) {
      j' := j;
      SameLogID(l1[j], l2[j], j, f);
    } else {
      assert l1[j] in l1;
      j' :| 0 <= j' < |l2| && l2[j'] == l1[j];
      EventIDIsNodeID(l2[j'], j', l1[j], j);
    }
  }

  lemma MatchedEdge(m: seq<MetricPoint>, l1: seq<LogRecord>, l2: seq<LogRecord>, f: Format, maxSkew: int, e: Edge)
    requires Matched(l1, l2) && IsEdge(e, m, l1, maxSkew)
    ensures IsEdge(e, m, l2, maxSkew)
  {
    hide Matched, MetricNodeID, LogNodeID, ResourceOf, InferLogResourceID, ResourceNodeID, WithinSkew;
    if IsLogEdge(e, l1) {
      var j :| 0 <= j < |l1| && e == LogEdge(l1[j], j);
      var j' := Counterpart(l1, l2, j, f);
      assert e == LogEdge(l2[j'], j');
    } else if IsPairEdge(e, m, l1, maxSkew) {
      var i, j :| 0 <= i < |m| && 0 <= j < |l1| && Correlated(m[i], l1[j], maxSkew) && e == PairEdge(m[i], i, l1[j], j);
      var j' := Counterpart(l1, l2, j, f);
      assert Correlated(m[i], l2[j'], maxSkew) && e == PairEdge(m[i], i, l2[j'], j');
    }
  }

  // ---------- the whole answer ----------

  lemma EdgeCarries(m1: seq<MetricPoint>, l1: seq<LogRecord>, m2: seq<MetricPoint>, l2: seq<LogRecord>, f: Format, maxSkew: int, e: Edge)
    requires SameMetrics(m1, m2, f) && Matched(l1, l2) && IsEdge(e, m1, l1, maxSkew)
    ensures IsEdge(e, m2, l2, maxSkew)
  {
    hide SameMetrics, Matched, IsEdge;
    SameMetricEdge(m1, m2, l1, f, maxSkew, e);
    MatchedEdge(m2, l1, l2, f, maxSkew, e);
  }

  lemma SameMetricsBack(a: seq<MetricPoint>, b: seq<MetricPoint>, f: Format)
    requires SameMetrics(a, b, f)
    ensures SameMetrics(b, a, f)
  {
    hide MetricNode, ResourceOf;
  }

  lemma SameInduced(a: seq<MetricPoint>, l1: seq<LogRecord>, b: seq<MetricPoint>, l2: seq<LogRecord>, maxSkew: int, es: seq<Edge>, nodes: seq<Node>)
    requires forall e :: IsEdge(e, a, l1, maxSkew) <==> IsEdge(e, b, l2, maxSkew)
    requires InducedEdges(es, nodes, a, l1, maxSkew)
    ensures InducedEdges(es, nodes, b, l2, maxSkew)
  {
    hide IsEdge, HasNode, StrictlySorted;
  }

  lemma SameAnswer(m1: seq<MetricPoint>, l1: seq<LogRecord>, m2: seq<MetricPoint>, l2: seq<LogRecord>, q: Query, f: Format, r: Result)
    requires SameMetrics(m1, m2, f) && Matched(l1, l2) && IsAnswer(m1, l1, q, f, r)
    ensures IsAnswer(m2, l2, q, f, r)
  {
    assert |m1| == |m2| && |l1| == |l2|;
    hide AllNodes, FilteredNodes, InducedEdges, IsEdge, MaxSkew, Truncate, SameMetrics, Matched;
    SameNodes(m1, m2, l1, f);
    MatchedNodes(m2, l1, l2, f);
    SameMetricsBack(m1, m2, f);
    MatchedBack(l1, l2);
    var skew := MaxSkew(q.maxSkew);
    forall e ensures IsEdge(e, m1, l1, skew) <==> IsEdge(e, m2, l2, skew) {
      if IsEdge(e, m1, l1, skew) { EdgeCarries(m1, l1, m2, l2, f, skew, e); }
      if IsEdge(e, m2, l2, skew) { EdgeCarries(m2, l2, m1, l1, f, skew, e); }
    }
    var es :| InducedEdges(es, r.nodes, m1, l1, skew) && r.edges == Truncate(es, q.limitEdges);
    SameInduced(m1, l1, m2, l2, skew, es, r.nodes);
  }

  /** Whatever the library sort does with ties, the answer does not show it when tied points look
      alike, and tied logs look alike or have lost their node to an earlier log. */
  lemma HiddenTiesDoNotShow(ms: seq<MetricPoint>, rs: seq<LogRecord>, q: Query, f: Format,
                            m1: seq<MetricPoint>, l1: seq<LogRecord>, r1: Result, m2: seq<MetricPoint>, l2: seq<LogRecord>, r2: Result)
    requires var range := S.Query(q.start, q.end);
      && MetricTiesAlike(S.SelectMetrics(ms, range), f) && LogTiesHidden(S.SelectLogs(rs, range))
      && S.IsMetricAnswer(ms, range, m1) && S.IsMetricAnswer(ms, range, m2)
      && S.IsLogAnswer(rs, range, l1) && S.IsLogAnswer(rs, range, l2)
    requires IsAnswer(m1, l1, q, f, r1) && IsAnswer(m2, l2, q, f, r2)
    ensures r1 == r2
  {
    hide *;
    AlikeMetricsLookSame(ms, S.Query(q.start, q.end), f, m1, m2);
    ArrangementsMatch(rs, S.Query(q.start, q.end), l1, l2);
    SameAnswer(m1, l1, m2, l2, q, f, r1);
    AnswerUnique(m2, l2, q, f, r1, r2);
  }

  // ---------- ties that show ----------

  /** No event id of the logs spells the node id of one without an event id. */
  ghost predicate IDsApart(rs: seq<LogRecord>) {
    forall q, r, i: nat :: q in rs && r in rs && q.eventID != "" && r.eventID == "" ==> LogNodeID(r, i) != "log:" + q.eventID
  }

  lemma SomeLogArrangement(rs: seq<LogRecord>, range: S.Query) returns (l: seq<LogRecord>)
    ensures S.IsLogAnswer(rs, range, l)
    ensures forall r :: r in l <==> r in S.SelectLogs(rs, range)
  {
    hide Sorted, StableOrder, Sorts, S.LogAnswer, S.SelectLogs;
    StableOrderSorts();
    l := S.LogAnswer(StableOrder, rs, range);
    S.AnswersAreSorted(StableOrder, [], rs, range);
    SamePermutationElements(l, S.SelectLogs(rs, range));
  }

  lemma SwapIsLogAnswer(rs: seq<LogRecord>, range: S.Query, l: seq<LogRecord>, i: nat, j: nat)
    requires S.IsLogAnswer(rs, range, l) && i < |l| && j < |l| && i != j && S.LogOrder(l[i]) == S.LogOrder(l[j])
    ensures S.IsLogAnswer(rs, range, l[i := l[j]][j := l[i]])
  {
    hide Less, S.SelectLogs, S.LogOrder;
    var swapped := l[i := l[j]][j := l[i]];
    assert forall k :: 0 <= k < |l| ==> S.LogOrder(swapped[k]) == S.LogOrder(l[k]);
    assert multiset(swapped) == multiset(l);
  }

  /** A node id made up for want of an event id tells its position. */
  lemma MadeUpIDTellsPosition(r: LogRecord, i: nat, q: LogRecord, j: nat)
    requires r.eventID == "" && q.eventID == "" && LogNodeID(r, i) == LogNodeID(q, j)
    ensures i == j
  {
    var a, b := "log:" + r.logStreamName + ":" + SignedDecimal(UnixMilli(r.timestamp)), "log:" + q.logStreamName + ":" + SignedDecimal(UnixMilli(q.timestamp));
    assert a + [':'] + Decimal(i) == LogNodeID(r, i) == LogNodeID(q, j) == b + [':'] + Decimal(j);
    LastSeparator(a, Decimal(i), b, Decimal(j), ':');
    DecimalInjective(i, j);
  }

  lemma PlainNodeID(r: LogRecord, i: nat)
    ensures r.eventID != "" ==> LogNodeID(r, i) == "log:" + r.eventID
  {
  }

  /** A made-up node id at a position is nobody's but that of the log there. */
  lemma MadeUpIDIsItsOwn(l: seq<LogRecord>, r: LogRecord, a: int, h: int)
    requires IDsApart(l) && 0 <= a < |l| && 0 <= h < |l| && r in l && r.eventID == "" && LogNodeID(l[h], h) == LogNodeID(r, a)
    ensures h == a
  {
    PlainNodeID(l[h], h);
    assert l[h] in l;
    hide LogNodeID;
    assert l[h].eventID == "";
    MadeUpIDTellsPosition(l[h], h, r, a);
  }

  /** A log without an event id owns its node wherever it stands. */
  lemma MadeUpIDIsFirst(l: seq<LogRecord>, i: int)
    requires IDsApart(l) && 0 <= i < |l| && l[i].eventID == ""
    ensures FirstWithID(l, i)
  {
    hide LogNodeID, IDsApart;
    assert l[i] in l;
    forall h | 0 <= h < i ensures LogNodeID(l[h], h) != LogNodeID(l[i], i) {
      if LogNodeID(l[h], h) == LogNodeID(l[i], i) { MadeUpIDIsItsOwn(l, l[i], i, h); }
    }
  }

  /** So does the first log with an event id. */
  lemma FirstEventIDIsFirst(l: seq<LogRecord>, a: int)
    requires IDsApart(l) && 0 <= a < |l| && l[a].eventID != "" && !EarlierID(l, a)
    ensures FirstWithID(l, a)
  {
    forall h | 0 <= h < a ensures LogNodeID(l[h], h) != LogNodeID(l[a], a) {
      assert l[h] in l && l[a] in l;
      if l[h].eventID == "" {
        assert LogNodeID(l[a], a) == "log:" + l[a].eventID;
      } else {
        EventIDIsNodeID(l[h], h, l[a], a);
      }
    }
  }

  lemma FirstNodeAt(m: seq<MetricPoint>, l: seq<LogRecord>, f: Format, a: int)
    requires FirstWithID(l, a)
    ensures LogNodeID(l[a], a) in AllNodes(m, l, f) && AllNodes(m, l, f)[LogNodeID(l[a], a)] == LogNode(l[a], a, f)
  {
    hide AllNodes, LogNodeID, LogNode;
    var first := LogNodeAt(m, l, f, a);
    assert first == a;
  }

  lemma OnlyLogsHaveLogIDs(m: seq<MetricPoint>, l: seq<LogRecord>, f: Format, r: LogRecord, i: nat)
    requires LogNodeID(r, i) in AllNodes(m, l, f)
    ensures IsLogID(LogNodeID(r, i), l)
  {
    hide AllNodes, MetricNodeID, LogNodeID, ResourceNodeID, ResourceOf, InferLogResourceID;
    NodeKeys(m, l, f);
    var id := LogNodeID(r, i);
    if IsMetricID(id, m) {
      var k :| 0 <= k < |m| && id == MetricNodeID(m[k], k);
      FamiliesDisjoint("", m[k], k, r, i);
    } else if IsMetricResource(id, m) {
      var k :| 0 <= k < |m| && id == ResourceNodeID(ResourceOf(m[k]));
      FamiliesDisjoint(ResourceOf(m[k]), m[k], k, r, i);
    } else if IsLogResource(id, l) {
      var k :| 0 <= k < |l| && id == ResourceNodeID(InferLogResourceID(l[k]));
      NoPoint(InferLogResourceID(l[k]), r, i);
    }
  }

  lemma NoPoint(resource: string, r: LogRecord, i: nat)
    ensures ResourceNodeID(resource) != LogNodeID(r, i)
  {
    FamiliesDisjoint(resource, MetricPoint("", "", "", ZERO_TIME, 0.0), 0, r, i);
  }

  /** Putting an unlike log in the place of one that owns its node changes the nodes. */
  lemma OtherOwnerShows(m: seq<MetricPoint>, l: seq<LogRecord>, l': seq<LogRecord>, f: Format, a: int)
    requires FirstWithID(l, a) && FirstWithID(l', a) && !LogsAlike(l[a], l'[a]) && l'[a] in l
    requires l[a].timestamp == l'[a].timestamp && l[a].eventID == l'[a].eventID
    requires l[a].eventID == "" ==> IDsApart(l)
    ensures AllNodes(m, l, f) != AllNodes(m, l', f)
  {
    hide AllNodes, LogNodeID, LogNode, LogsAlike, IDsApart;
    FirstNodeAt(m, l, f, a);
    FirstNodeAt(m, l', f, a);
    SameLogID(l[a], l'[a], a, f);
    EventIDIsNodeIDToo(l[a], l'[a], a);
    if LogNodeID(l[a], a) != LogNodeID(l'[a], a) {
      StrangerIsNoNode(m, l, f, l'[a], a);
    }
  }

  lemma EventIDIsNodeIDToo(r: LogRecord, r': LogRecord, a: nat)
    requires r.eventID == r'.eventID
    ensures r.eventID != "" ==> LogNodeID(r, a) == LogNodeID(r', a)
  {
    PlainNodeID(r, a);
    PlainNodeID(r', a);
  }

  lemma StrangerIsNoNode(m: seq<MetricPoint>, l: seq<LogRecord>, f: Format, r: LogRecord, a: int)
    requires IDsApart(l) && 0 <= a < |l| && r in l && r.eventID == "" && LogNodeID(l[a], a) != LogNodeID(r, a)
    ensures LogNodeID(r, a) !in AllNodes(m, l, f)
  {
    hide AllNodes, LogNodeID, IDsApart;
    if LogNodeID(r, a) in AllNodes(m, l, f) {
      OnlyLogsHaveLogIDs(m, l, f, r, a);
      var h :| 0 <= h < |l| && LogNodeID(r, a) == LogNodeID(l[h], h);
      MadeUpIDIsItsOwn(l, r, a, h);
    }
  }

  // ---------- exactly which ties show ----------

  lemma AlikeThrough(x: LogRecord, r: LogRecord, r': LogRecord)
    requires LogsAlike(x, r) && LogsAlike(x, r')
    ensures LogsAlike(r, r')
  {
  }

  /** The first log of an arrangement with the event id. */
  lemma FirstOfID(l: seq<LogRecord>, i: int) returns (a: int)
    requires 0 <= i < |l| && l[i].eventID != ""
    ensures 0 <= a <= i && l[a].eventID == l[i].eventID && !EarlierID(l, a)
  {
    a := 0;
    while l[a].eventID != l[i].eventID
      invariant 0 <= a <= i && forall h :: 0 <= h < a ==> l[h].eventID != l[i].eventID
      decreases i - a
    {
      a := a + 1;
    }
  }

  /** An unlike tie that has not lost its node shows: two arrangements have different nodes. */
  lemma UnlikeLogTieShows(m: seq<MetricPoint>, rs: seq<LogRecord>, range: S.Query, f: Format, r: LogRecord, r': LogRecord)
    requires var selected := S.SelectLogs(rs, range);
      r in selected && r' in selected && !Taken(selected, r) && IDsApart(selected)
    requires S.LogOrder(r) == S.LogOrder(r') && !LogsAlike(r, r')
    ensures exists l1, l2 :: S.IsLogAnswer(rs, range, l1) && S.IsLogAnswer(rs, range, l2) && AllNodes(m, l1, f) != AllNodes(m, l2, f)
  {
    OrderMeans(r, r');
    hide S.SelectLogs, S.LogOrder, LogsAlike, IDsApart, AllNodes;
    var l := SomeLogArrangement(rs, range);
    SameIDsApart(S.SelectLogs(rs, range), l);
    var i :| 0 <= i < |l| && l[i] == r;
    var j :| 0 <= j < |l| && l[j] == r';
    if r.eventID == "" {
      MadeUpIDIsFirst(l, i);
      SwappedShows(m, rs, range, f, l, i, j);
    } else {
      var a := FirstOfID(l, i);
      FirstHasSameInstant(S.SelectLogs(rs, range), l, a, i);
      OrderMeans(l[a], r);
      FirstEventIDIsFirst(l, a);
      if LogsAlike(l[a], r) && LogsAlike(l[a], r') { AlikeThrough(l[a], r, r'); }
      SwappedShows(m, rs, range, f, l, a, if LogsAlike(l[a], r) then j else i);
    }
  }

  lemma SameIDsApart(rs: seq<LogRecord>, l: seq<LogRecord>)
    requires IDsApart(rs) && forall r :: r in l <==> r in rs
    ensures IDsApart(l)
  {
    hide LogNodeID;
  }

  lemma FirstHasSameInstant(rs: seq<LogRecord>, l: seq<LogRecord>, a: int, i: int)
    requires Sorted(l, S.LogOrder) && 0 <= a <= i < |l| && l[a].eventID == l[i].eventID != "" && !Taken(rs, l[i])
    requires forall r :: r in l ==> r in rs
    ensures l[a].timestamp == l[i].timestamp
  {
    hide Sorted;
    assert l[a] in rs;
    if l[i].timestamp < l[a].timestamp { EarlierStandsBefore(l, i, a); }
  }

  lemma SwappedShows(m: seq<MetricPoint>, rs: seq<LogRecord>, range: S.Query, f: Format, l: seq<LogRecord>, a: int, b: int)
    requires S.IsLogAnswer(rs, range, l) && IDsApart(l) && 0 <= a < |l| && FirstWithID(l, a) && 0 <= b < |l|
    requires S.LogOrder(l[a]) == S.LogOrder(l[b]) && !LogsAlike(l[a], l[b])
    requires l[a].eventID == "" || !EarlierID(l, a)
    ensures exists l' :: S.IsLogAnswer(rs, range, l') && AllNodes(m, l, f) != AllNodes(m, l', f)
  {
    hide S.LogOrder, S.IsLogAnswer, LogsAlike, IDsApart, AllNodes, FirstWithID;
    OrderMeans(l[a], l[b]);
    var swapped := l[a := l[b]][b := l[a]];
    SwapIsLogAnswer(rs, range, l, a, b) by { LogAlikeItself(l[a]); }
    assert forall r :: r in swapped ==> r in l;
    SwappedIDsApart(l, swapped);
    SwappedIsFirst(l, swapped, a, b);
    OtherOwnerShows(m, l, swapped, f, a);
  }

  lemma LogAlikeItself(r: LogRecord)
    ensures LogsAlike(r, r)
  {
  }

  lemma SwappedIDsApart(l: seq<LogRecord>, l': seq<LogRecord>)
    requires IDsApart(l) && forall r :: r in l' ==> r in l
    ensures IDsApart(l')
  {
    hide LogNodeID;
  }

  lemma SwappedIsFirst(l: seq<LogRecord>, l': seq<LogRecord>, a: int, b: int)
    requires IDsApart(l') && |l'| == |l| && 0 <= a < |l| && l'[a].eventID == l[a].eventID && (l[a].eventID == "" || !EarlierID(l, a))
    requires 0 <= b < |l| && l[b].eventID == l[a].eventID && forall h :: 0 <= h < |l| && h != a && h != b ==> l'[h] == l[h]
    ensures FirstWithID(l', a)
  {
    hide IDsApart, LogNodeID, FirstWithID;
    if l[a].eventID == "" {
      MadeUpIDIsFirst(l', a);
    } else {
      assert forall h :: 0 <= h < a ==> l[h].eventID != l[a].eventID;
      assert forall h :: 0 <= h < a ==> l'[h] == l[h];
      FirstEventIDIsFirst(l', a);
    }
  }

  /** The condition is exact: the nodes of a build are the same for every arrangement of the selected
      logs if and only if tied logs look alike or have lost their node to an earlier log. */
  lemma LogTiesShowIff(rs: seq<LogRecord>, range: S.Query, f: Format, m: seq<MetricPoint>)
    requires IDsApart(S.SelectLogs(rs, range))
    ensures (forall l1, l2 :: S.IsLogAnswer(rs, range, l1) && S.IsLogAnswer(rs, range, l2) ==> AllNodes(m, l1, f) == AllNodes(m, l2, f))
      <==> LogTiesHidden(S.SelectLogs(rs, range))
  {
    hide S.IsLogAnswer, AllNodes, LogsAlike, Taken, IDsApart, S.LogOrder, S.SelectLogs;
    var selected := S.SelectLogs(rs, range);
    if LogTiesHidden(selected) {
      forall l1, l2 | S.IsLogAnswer(rs, range, l1) && S.IsLogAnswer(rs, range, l2) ensures AllNodes(m, l1, f) == AllNodes(m, l2, f) {
        ArrangementsMatch(rs, range, l1, l2);
        MatchedNodes(m, l1, l2, f);
      }
    } else {
      var r, r' :| r in selected && r' in selected && S.LogOrder(r) == S.LogOrder(r') && !LogsAlike(r, r') && !Taken(selected, r);
      UnlikeLogTieShows(m, rs, range, f, r, r');
    }
  }
}

/** Building the correlation graph: a join of metrics and logs bucketed by resource,
    against the all-pairs join it stands for. */
module Correlation {
  import opened GoTime
  import opened Text
  import opened Telemetry
  import opened Graph

  const RESOURCE := "resource"
  const METRIC := "metric"
  const LOG := "log"
  const EMITS_METRIC := "emits_metric"
  const EMITS_LOG := "emits_log"
  const CORRELATED_WITH := "correlated_with"

  const DEFAULT_MAX_SKEW: int := 2 * MINUTE
  const UNKNOWN_RESOURCE := "unknown-resource"

  /** How instants and values are rendered into attributes; no property depends on it. */
  datatype Format = Format(time: Time -> string, value: real -> string)

  // ---------- identities ----------

  function ResourceOf(p: MetricPoint): (r: string)
    ensures r != ""
  {
    if p.resourceID == "" then UNKNOWN_RESOURCE else p.resourceID
  }

  function InferLogResourceID(r: LogRecord): (id: string)
    ensures id != ""
  {
    if "resource_id" in r.fields && r.fields["resource_id"] != "" then r.fields["resource_id"]
    else if "instance_id" in r.fields && r.fields["instance_id"] != "" then r.fields["instance_id"]
    else if r.logGroupName != "" || r.logStreamName != "" then r.logGroupName + "/" + r.logStreamName
    else UNKNOWN_RESOURCE
  }

  function ResourceNodeID(resource: string): string {
    "resource:" + resource
  }

  function MetricNodeID(p: MetricPoint, i: nat): string {
    "metric:" + ResourceOf(p) + ":" + p.metricName + ":" + SignedDecimal(UnixMilli(p.timestamp)) + ":" + Decimal(i)
  }

  function LogNodeID(r: LogRecord, i: nat): string {
    if r.eventID != "" then "log:" + r.eventID
    else "log:" + r.logStreamName + ":" + SignedDecimal(UnixMilli(r.timestamp)) + ":" + Decimal(i)
  }

  function ResourceNode(resource: string): Node {
    Node(ResourceNodeID(resource), RESOURCE, map["resource_id" := resource])
  }

  function MetricNode(p: MetricPoint, i: nat, f: Format): Node {
    Node(MetricNodeID(p, i), METRIC, map[
      "resource_id" := ResourceOf(p), "namespace" := p.namespace, "metric_name" := p.metricName,
      "timestamp" := f.time(p.timestamp), "value" := f.value(p.value)])
  }

  function LogNode(r: LogRecord, i: nat, f: Format): Node {
    Node(LogNodeID(r, i), LOG, map[
      "resource_id" := InferLogResourceID(r), "log_group_name" := r.logGroupName,
      "log_stream_name" := r.logStreamName, "event_id" := r.eventID, "timestamp" := f.time(r.timestamp)])
  }

  function Attribute(n: Node, name: string): string {
    if name in n.attributes then n.attributes[name] else ""
  }

  /** Metric node ids are distinct whatever the points hold: the index follows the last colon. */
  lemma MetricNodeIDInjective(p: MetricPoint, i: nat, q: MetricPoint, j: nat)
    requires MetricNodeID(p, i) == MetricNodeID(q, j)
    ensures i == j
  {
    var a := "metric:" + ResourceOf(p) + ":" + p.metricName + ":" + SignedDecimal(UnixMilli(p.timestamp));
    var b := "metric:" + ResourceOf(q) + ":" + q.metricName + ":" + SignedDecimal(UnixMilli(q.timestamp));
    assert a + [':'] + Decimal(i) == MetricNodeID(p, i) == MetricNodeID(q, j) == b + [':'] + Decimal(j);
    LastSeparator(a, Decimal(i), b, Decimal(j), ':');
    DecimalInjective(i, j);
  }

  /** The three id families never meet. */
  lemma FamiliesDisjoint(resource: string, p: MetricPoint, i: nat, r: LogRecord, j: nat)
    ensures ResourceNodeID(resource) != MetricNodeID(p, i)
    ensures ResourceNodeID(resource) != LogNodeID(r, j)
    ensures MetricNodeID(p, i) != LogNodeID(r, j)
    ensures ResourceNodeID(resource) != "" && MetricNodeID(p, i) != "" && LogNodeID(r, j) != ""
  {
    assert ResourceNodeID(resource)[0] == 'r' && MetricNodeID(p, i)[0] == 'm' && LogNodeID(r, j)[0] == 'l';
  }

  lemma ResourceNodeIDInjective(a: string, b: string)
    requires ResourceNodeID(a) == ResourceNodeID(b)
    ensures a == b
  {
    assert a == ResourceNodeID(a)[|"resource:"|..] && b == ResourceNodeID(b)[|"resource:"|..];
  }

  // ---------- the skew test ----------

  function AbsDuration(d: int): int {
    if d < 0 then Wrap64(-d) else d
  }

  predicate WithinSkew(t: Time, u: Time, maxSkew: int) {
    !(AbsDuration(Sub(t, u)) > maxSkew)
  }

  function MaxSkew(configured: int): (s: int)
    ensures s > 0
  {
    if configured <= 0 then DEFAULT_MAX_SKEW else configured
  }

  /** Exactly when saturating subtraction and wrapping negation test the true distance: the
      metric is less than 2^63 ns older, and less than 2^63 ns newer unless the skew is maximal
      (then every newer metric passes). */
  lemma SkewTestExactIff(t: Time, u: Time, maxSkew: int)
    requires 0 < maxSkew <= MAX_INT64
    ensures (WithinSkew(t, u, maxSkew) <==> Abs(t - u) <= maxSkew)
      <==> MIN_INT64 < t - u && (t - u <= MAX_INT64 || maxSkew < MAX_INT64)
  {
    assert Wrap64(-MIN_INT64) == MIN_INT64;
  }

  /** A metric 2^63 ns (292 years) older than a log correlates with it under every skew. */
  lemma DistantPairCorrelates(u: Time, maxSkew: int)
    requires 0 < maxSkew <= MAX_INT64
    ensures WithinSkew(u + MIN_INT64, u, maxSkew) && Abs(u + MIN_INT64 - u) > maxSkew
  {
    assert Wrap64(-MIN_INT64) == MIN_INT64;
  }

  // ---------- the all-pairs specification ----------

  predicate Correlated(p: MetricPoint, r: LogRecord, maxSkew: int) {
    ResourceOf(p) == InferLogResourceID(r) && WithinSkew(p.timestamp, r.timestamp, maxSkew)
  }

  function MetricEdge(p: MetricPoint, i: nat): Edge {
    Edge(ResourceNodeID(ResourceOf(p)), MetricNodeID(p, i), EMITS_METRIC)
  }

  function LogEdge(r: LogRecord, j: nat): Edge {
    Edge(ResourceNodeID(InferLogResourceID(r)), LogNodeID(r, j), EMITS_LOG)
  }

  function PairEdge(p: MetricPoint, i: nat, r: LogRecord, j: nat): Edge {
    Edge(MetricNodeID(p, i), LogNodeID(r, j), CORRELATED_WITH)
  }

  ghost predicate IsMetricEdge(e: Edge, metrics: seq<MetricPoint>) {
    exists i :: 0 <= i < |metrics| && e == MetricEdge(metrics[i], i)
  }

  ghost predicate IsLogEdge(e: Edge, logs: seq<LogRecord>) {
    exists j :: 0 <= j < |logs| && e == LogEdge(logs[j], j)
  }

  ghost predicate IsPairEdge(e: Edge, metrics: seq<MetricPoint>, logs: seq<LogRecord>, maxSkew: int) {
    exists i, j :: 0 <= i < |metrics| && 0 <= j < |logs|
      && Correlated(metrics[i], logs[j], maxSkew) && e == PairEdge(metrics[i], i, logs[j], j)
  }

  /** The edges the documentation promises, with no buckets. */
  ghost predicate IsEdge(e: Edge, metrics: seq<MetricPoint>, logs: seq<LogRecord>, maxSkew: int) {
    IsMetricEdge(e, metrics) || IsLogEdge(e, logs) || IsPairEdge(e, metrics, logs, maxSkew)
  }

  // ---------- what a correlation is, in instants ----------

  /** No metric and log are 2^63 ns (292 years) apart. */
  ghost predicate InReach(metrics: seq<MetricPoint>, logs: seq<LogRecord>) {
    forall i, j :: 0 <= i < |metrics| && 0 <= j < |logs| ==> Abs(metrics[i].timestamp - logs[j].timestamp) <= MAX_INT64
  }

  /** Some metric and log with these node ids have one resource and are at most `bound` apart. */
  ghost predicate NearPair(src: string, dst: string, metrics: seq<MetricPoint>, logs: seq<LogRecord>, bound: int) {
    exists i, j :: 0 <= i < |metrics| && 0 <= j < |logs| && src == MetricNodeID(metrics[i], i) && dst == LogNodeID(logs[j], j)
      && ResourceOf(metrics[i]) == InferLogResourceID(logs[j]) && Abs(metrics[i].timestamp - logs[j].timestamp) <= bound
  }

  lemma OnlyPairsCorrelate(src: string, dst: string, metrics: seq<MetricPoint>, logs: seq<LogRecord>, maxSkew: int)
    ensures IsEdge(Edge(src, dst, "correlated_with"), metrics, logs, maxSkew)
      <==> IsPairEdge(Edge(src, dst, "correlated_with"), metrics, logs, maxSkew)
  {
    assert |"correlated_with"| == 15 && |"emits_metric"| == 12 && |"emits_log"| == 9;
    hide MetricNodeID, LogNodeID, ResourceNodeID, ResourceOf, InferLogResourceID, WithinSkew;
  }

  /** A correlation is exactly a metric and a log of one resource at most the configured skew apart,
      two minutes when none is configured. */
  lemma CorrelatedIff(src: string, dst: string, metrics: seq<MetricPoint>, logs: seq<LogRecord>, configuredSkew: int)
    requires InReach(metrics, logs) && configuredSkew <= MAX_INT64
    ensures IsEdge(Edge(src, dst, "correlated_with"), metrics, logs, MaxSkew(configuredSkew))
      <==> NearPair(src, dst, metrics, logs, if configuredSkew > 0 then configuredSkew else 2 * MINUTE)
  {
    var bound := if configuredSkew > 0 then configuredSkew else 2 * MINUTE;
    assert MaxSkew(configuredSkew) == bound;
    hide IsEdge, IsPairEdge, MaxSkew, InReach, NearPair;
    OnlyPairsCorrelate(src, dst, metrics, logs, bound);
    PairIsNear(src, dst, metrics, logs, bound);
    NearIsPair(src, dst, metrics, logs, bound);
  }

  lemma PairIsNear(src: string, dst: string, metrics: seq<MetricPoint>, logs: seq<LogRecord>, bound: int)
    requires InReach(metrics, logs) && 0 < bound <= MAX_INT64
    ensures IsPairEdge(Edge(src, dst, "correlated_with"), metrics, logs, bound) ==> NearPair(src, dst, metrics, logs, bound)
  {
    var e := Edge(src, dst, "correlated_with");
    hide MetricNodeID, LogNodeID, ResourceOf, InferLogResourceID, WithinSkew, Abs;
    if IsPairEdge(e, metrics, logs, bound) {
      var i, j :| 0 <= i < |metrics| && 0 <= j < |logs| && Correlated(metrics[i], logs[j], bound) && e == PairEdge(metrics[i], i, logs[j], j);
      WithinReach(metrics[i].timestamp, logs[j].timestamp, bound);
    }
  }

  lemma NearIsPair(src: string, dst: string, metrics: seq<MetricPoint>, logs: seq<LogRecord>, bound: int)
    requires InReach(metrics, logs) && 0 < bound <= MAX_INT64
    ensures NearPair(src, dst, metrics, logs, bound) ==> IsPairEdge(Edge(src, dst, "correlated_with"), metrics, logs, bound)
  {
    var e := Edge(src, dst, "correlated_with");
    hide MetricNodeID, LogNodeID, ResourceOf, InferLogResourceID, WithinSkew, Abs;
    if NearPair(src, dst, metrics, logs, bound) {
      var i, j :| 0 <= i < |metrics| && 0 <= j < |logs| && src == MetricNodeID(metrics[i], i) && dst == LogNodeID(logs[j], j)
        && ResourceOf(metrics[i]) == InferLogResourceID(logs[j]) && Abs(metrics[i].timestamp - logs[j].timestamp) <= bound;
      WithinReach(metrics[i].timestamp, logs[j].timestamp, bound);
      assert Correlated(metrics[i], logs[j], bound) && e == PairEdge(metrics[i], i, logs[j], j);
    }
  }

  /** The correlations among the edges are those of one resource at most the configured skew apart,
      two minutes when none is configured. */
  ghost predicate CorrelatesNear(edges: seq<Edge>, metrics: seq<MetricPoint>, logs: seq<LogRecord>, configuredSkew: int) {
    InReach(metrics, logs) && configuredSkew <= MAX_INT64 ==> forall src, dst ::
      (Edge(src, dst, "correlated_with") in edges
       <==> NearPair(src, dst, metrics, logs, if configuredSkew > 0 then configuredSkew else 2 * MINUTE))
  }

  lemma EdgesCorrelateNear(edges: seq<Edge>, metrics: seq<MetricPoint>, logs: seq<LogRecord>, configuredSkew: int)
    requires forall e :: e in edges <==> IsEdge(e, metrics, logs, MaxSkew(configuredSkew))
    ensures CorrelatesNear(edges, metrics, logs, configuredSkew)
  {
    hide InReach, NearPair, IsEdge, MaxSkew;
    if InReach(metrics, logs) && configuredSkew <= MAX_INT64 {
      forall src, dst
        ensures Edge(src, dst, "correlated_with") in edges
          <==> NearPair(src, dst, metrics, logs, if configuredSkew > 0 then configuredSkew else 2 * MINUTE)
      {
        CorrelatedIff(src, dst, metrics, logs, configuredSkew);
      }
    }
  }

  lemma WithinReach(t: Time, u: Time, maxSkew: int)
    requires Abs(t - u) <= MAX_INT64 && 0 < maxSkew <= MAX_INT64
    ensures WithinSkew(t, u, maxSkew) <==> Abs(t - u) <= maxSkew
  {
    SkewTestExactIff(t, u, maxSkew);
  }

  // ---------- the nodes, in insertion order ----------

  function MetricNodes(metrics: seq<MetricPoint>, f: Format): map<string, Node> {
    if metrics == [] then map[]
    else
      var k := |metrics| - 1;
      WithNode(WithNode(MetricNodes(metrics[..k], f), ResourceNode(ResourceOf(metrics[k]))), MetricNode(metrics[k], k, f))
  }

  function AllNodes(metrics: seq<MetricPoint>, logs: seq<LogRecord>, f: Format): map<string, Node> {
    if logs == [] then MetricNodes(metrics, f)
    else
      var k := |logs| - 1;
      WithNode(WithNode(AllNodes(metrics, logs[..k], f), ResourceNode(InferLogResourceID(logs[k]))), LogNode(logs[k], k, f))
  }

  // ---------- the buckets ----------

  datatype Ref = Ref(nodeID: string, timestamp: Time)

  function MetricRefs(metrics: seq<MetricPoint>, resource: string): seq<Ref> {
    if metrics == [] then []
    else
      var k := |metrics| - 1;
      MetricRefs(metrics[..k], resource)
        + (if ResourceOf(metrics[k]) == resource then [Ref(MetricNodeID(metrics[k], k), metrics[k].timestamp)] else [])
  }

  function LogRefs(logs: seq<LogRecord>, resource: string): seq<Ref> {
    if logs == [] then []
    else
      var k := |logs| - 1;
      LogRefs(logs[..k], resource)
        + (if InferLogResourceID(logs[k]) == resource then [Ref(LogNodeID(logs[k], k), logs[k].timestamp)] else [])
  }

  type Buckets = map<string, seq<Ref>>

  function Bucket(b: Buckets, resource: string): seq<Ref> {
    if resource in b then b[resource] else []
  }

  lemma {:induction false} MetricRefsHold(metrics: seq<MetricPoint>, resource: string, ref: Ref)
    ensures ref in MetricRefs(metrics, resource) <==>
      exists i :: 0 <= i < |metrics| && ResourceOf(metrics[i]) == resource && ref == Ref(MetricNodeID(metrics[i], i), metrics[i].timestamp)
    decreases |metrics|
  {
    hide MetricNodeID, ResourceOf;
    if metrics != [] {
      var k := |metrics| - 1;
      MetricRefsHold(metrics[..k], resource, ref);
      assert forall i :: 0 <= i < k ==> metrics[..k][i] == metrics[i];
    }
  }

  lemma {:induction false} LogRefsHold(logs: seq<LogRecord>, resource: string, ref: Ref)
    ensures ref in LogRefs(logs, resource) <==>
      exists j :: 0 <= j < |logs| && InferLogResourceID(logs[j]) == resource && ref == Ref(LogNodeID(logs[j], j), logs[j].timestamp)
    decreases |logs|
  {
    hide LogNodeID, InferLogResourceID;
    if logs != [] {
      var k := |logs| - 1;
      LogRefsHold(logs[..k], resource, ref);
      assert forall i :: 0 <= i < k ==> logs[..k][i] == logs[i];
    }
  }

  // ---------- building ----------

  ghost predicate PairFrom(e: Edge, ms: seq<Ref>, ls: seq<Ref>, maxSkew: int) {
    exists i, j :: 0 <= i < |ms| && 0 <= j < |ls| && WithinSkew(ms[i].timestamp, ls[j].timestamp, maxSkew)
      && e == Edge(ms[i].nodeID, ls[j].nodeID, CORRELATED_WITH)
  }

  /** The two inner loops: one resource's metrics against its logs. */
  method JoinBucket(graph: Graph, ms: seq<Ref>, ls: seq<Ref>, maxSkew: int)
    requires graph.Valid()
    requires forall r :: r in ms || r in ls ==> r.nodeID != "" && r.nodeID in graph.nodes
    modifies graph
    ensures graph.Valid() && graph.nodes == old(graph.nodes)
    ensures forall e :: e in graph.edges <==> e in old(graph.edges) || PairFrom(e, ms, ls, maxSkew)
  {
    for i := 0 to |ms|
      invariant graph.Valid() && graph.nodes == old(graph.nodes)
      invariant forall e :: e in graph.edges <==> e in old(graph.edges) || PairFrom(e, ms[..i], ls, maxSkew)
    {
      label Row:
      for j := 0 to |ls|
        invariant graph.Valid() && graph.nodes == old(graph.nodes)
        invariant forall e :: e in graph.edges <==> e in old@Row(graph.edges) || PairFrom(e, [ms[i]], ls[..j], maxSkew)
      {
        label Cell:
        PairFromCell(ms[i], ls, j, maxSkew);
        if AbsDuration(Sub(ms[i].timestamp, ls[j].timestamp)) > maxSkew {
          continue;
        }
        assert ms[i] in ms && ls[j] in ls;
        graph.AddEdge(Edge(ms[i].nodeID, ls[j].nodeID, CORRELATED_WITH));
      }
      assert ls[..|ls|] == ls;
      PairFromRow(ms, i, ls, maxSkew);
    }
    assert ms[..|ms|] == ms;
  }

  lemma PairFromCell(m: Ref, ls: seq<Ref>, j: int, maxSkew: int)
    requires 0 <= j < |ls|
    ensures forall e :: PairFrom(e, [m], ls[..j + 1], maxSkew) <==>
      (PairFrom(e, [m], ls[..j], maxSkew)
       || (WithinSkew(m.timestamp, ls[j].timestamp, maxSkew) && e == Edge(m.nodeID, ls[j].nodeID, CORRELATED_WITH)))
  {
    hide WithinSkew;
    forall e ensures PairFrom(e, [m], ls[..j + 1], maxSkew) <==>
      (PairFrom(e, [m], ls[..j], maxSkew)
       || (WithinSkew(m.timestamp, ls[j].timestamp, maxSkew) && e == Edge(m.nodeID, ls[j].nodeID, CORRELATED_WITH)))
    {
      assert forall k :: 0 <= k < j ==> ls[..j][k] == ls[k] == ls[..j + 1][k];
      assert ls[..j + 1][j] == ls[j];
      if PairFrom(e, [m], ls[..j], maxSkew) {
        var a, b :| 0 <= a < 1 && 0 <= b < j && WithinSkew([m][a].timestamp, ls[..j][b].timestamp, maxSkew)
          && e == Edge([m][a].nodeID, ls[..j][b].nodeID, CORRELATED_WITH);
        assert ls[..j + 1][b] == ls[..j][b];
      }
      if WithinSkew(m.timestamp, ls[j].timestamp, maxSkew) && e == Edge(m.nodeID, ls[j].nodeID, CORRELATED_WITH) {
        assert [m][0] == m;
      }
    }
  }

  lemma PairFromRow(ms: seq<Ref>, i: int, ls: seq<Ref>, maxSkew: int)
    requires 0 <= i < |ms|
    ensures forall e :: PairFrom(e, ms[..i + 1], ls, maxSkew) <==> PairFrom(e, ms[..i], ls, maxSkew) || PairFrom(e, [ms[i]], ls, maxSkew)
  {
    hide WithinSkew;
    forall e ensures PairFrom(e, ms[..i + 1], ls, maxSkew) <==> PairFrom(e, ms[..i], ls, maxSkew) || PairFrom(e, [ms[i]], ls, maxSkew) {
      assert forall k :: 0 <= k < i ==> ms[..i][k] == ms[k] == ms[..i + 1][k];
      assert ms[..i + 1][i] == ms[i] == [ms[i]][0];
      if PairFrom(e, ms[..i], ls, maxSkew) {
        var a, b :| 0 <= a < i && 0 <= b < |ls| && WithinSkew(ms[..i][a].timestamp, ls[b].timestamp, maxSkew)
          && e == Edge(ms[..i][a].nodeID, ls[b].nodeID, CORRELATED_WITH);
        assert ms[..i + 1][a] == ms[..i][a];
      }
      if PairFrom(e, [ms[i]], ls, maxSkew) {
        var a, b :| 0 <= a < 1 && 0 <= b < |ls| && WithinSkew([ms[i]][a].timestamp, ls[b].timestamp, maxSkew)
          && e == Edge([ms[i]][a].nodeID, ls[b].nodeID, CORRELATED_WITH);
        assert ms[..i + 1][i] == [ms[i]][a];
      }
    }
  }

  /** The buckets hold, per resource, the references of its metrics in input order. */
  ghost predicate MetricBuckets(b: Buckets, metrics: seq<MetricPoint>) {
    forall r :: (r in b ==> b[r] == MetricRefs(metrics, r)) && (r !in b ==> MetricRefs(metrics, r) == [])
  }

  ghost predicate LogBuckets(b: Buckets, logs: seq<LogRecord>) {
    forall r :: (r in b ==> b[r] == LogRefs(logs, r)) && (r !in b ==> LogRefs(logs, r) == [])
  }

  /** A resource node, a signal node under it and the edge between them. */
  method AddSignal(graph: Graph, resourceID: string, node: Node, edgeKind: string)
    requires graph.Valid() && node.id != "" && edgeKind != ""
    modifies graph
    ensures graph.Valid() && graph.nodes == WithNode(WithNode(old(graph.nodes), ResourceNode(resourceID)), node)
    ensures forall e :: e in graph.edges <==> e in old(graph.edges) || e == Edge(ResourceNodeID(resourceID), node.id, edgeKind)
  {
    graph.AddNode(ResourceNode(resourceID));
    graph.AddNode(node);
    graph.AddEdge(Edge(ResourceNodeID(resourceID), node.id, edgeKind));
  }

  /** The first loop: resource and metric nodes, `emits_metric` edges, metric buckets. */
  method AddMetrics(graph: Graph, metrics: seq<MetricPoint>, f: Format) returns (byResource: Buckets)
    requires graph.Valid() && graph.nodes == map[] && graph.edges == []
    modifies graph
    ensures graph.Valid() && graph.nodes == MetricNodes(metrics, f)
    ensures forall e :: e in graph.edges <==> IsMetricEdge(e, metrics)
    ensures MetricBuckets(byResource, metrics)
  {
    hide MetricNodeID, IsMetricEdge, ResourceNode, MetricBuckets;
    byResource := map[];
    NothingYet();
    for i := 0 to |metrics|
      invariant graph.Valid() && graph.nodes == MetricNodes(metrics[..i], f)
      invariant forall e :: e in graph.edges <==> IsMetricEdge(e, metrics[..i])
      invariant MetricBuckets(byResource, metrics[..i])
    {
      var point := metrics[i];
      var resourceID := point.resourceID;
      if resourceID == "" {
        resourceID := UNKNOWN_RESOURCE;
      }
      assert resourceID == ResourceOf(point) && metrics[..i + 1][..i] == metrics[..i];
      NodeIDsNotEmpty(point, i);
      MetricEdgeStep(metrics, i);
      MetricBucketStep(byResource, metrics, i);
      ghost var before := graph.edges;
      AddSignal(graph, resourceID, MetricNode(point, i, f), EMITS_METRIC);
      assert MetricEdge(point, i) == Edge(ResourceNodeID(resourceID), MetricNode(point, i, f).id, EMITS_METRIC);
      assert forall e :: e in graph.edges <==> e in before || e == MetricEdge(point, i);
      assert forall e :: e in graph.edges <==> IsMetricEdge(e, metrics[..i]) || e == MetricEdge(point, i);
      byResource := byResource[resourceID := Bucket(byResource, resourceID) + [Ref(MetricNodeID(point, i), point.timestamp)]];
    }
    assert metrics[..|metrics|] == metrics;
  }

  lemma NothingYet()
    ensures MetricBuckets(map[], []) && LogBuckets(map[], [])
    ensures forall e :: !IsMetricEdge(e, []) && !IsLogEdge(e, [])
  {
  }

  lemma NodeIDsNotEmpty(p: MetricPoint, i: nat)
    ensures MetricNodeID(p, i) != ""
  {
    assert MetricNodeID(p, i)[0] == 'm';
  }

  lemma LogNodeIDNotEmpty(r: LogRecord, i: nat)
    ensures LogNodeID(r, i) != ""
  {
    assert LogNodeID(r, i)[0] == 'l';
  }

  lemma MetricBucketStep(b: Buckets, metrics: seq<MetricPoint>, i: int)
    requires 0 <= i < |metrics| && MetricBuckets(b, metrics[..i])
    ensures var r := ResourceOf(metrics[i]);
      MetricBuckets(b[r := Bucket(b, r) + [Ref(MetricNodeID(metrics[i], i), metrics[i].timestamp)]], metrics[..i + 1])
  {
    hide MetricNodeID, ResourceOf;
    assert metrics[..i + 1][..i] == metrics[..i];
  }

  lemma LogBucketStep(b: Buckets, logs: seq<LogRecord>, i: int)
    requires 0 <= i < |logs| && LogBuckets(b, logs[..i])
    ensures var r := InferLogResourceID(logs[i]);
      LogBuckets(b[r := Bucket(b, r) + [Ref(LogNodeID(logs[i], i), logs[i].timestamp)]], logs[..i + 1])
  {
    hide LogNodeID, InferLogResourceID;
    assert logs[..i + 1][..i] == logs[..i];
  }

  lemma MetricEdgeStep(metrics: seq<MetricPoint>, i: int)
    requires 0 <= i < |metrics|
    ensures forall e :: IsMetricEdge(e, metrics[..i + 1]) <==> IsMetricEdge(e, metrics[..i]) || e == MetricEdge(metrics[i], i)
  {
    hide MetricEdge;
    forall e ensures IsMetricEdge(e, metrics[..i + 1]) <==> IsMetricEdge(e, metrics[..i]) || e == MetricEdge(metrics[i], i) {
      assert forall k :: 0 <= k < i ==> metrics[..i][k] == metrics[k] == metrics[..i + 1][k];
      assert metrics[..i + 1][i] == metrics[i];
    }
  }

  /** The second loop: resource and log nodes, `emits_log` edges, log buckets. */
  method AddLogs(graph: Graph, ghost metrics: seq<MetricPoint>, logs: seq<LogRecord>, f: Format) returns (byResource: Buckets)
    requires graph.Valid() && graph.nodes == MetricNodes(metrics, f)
    modifies graph
    ensures graph.Valid() && graph.nodes == AllNodes(metrics, logs, f)
    ensures forall e :: e in graph.edges <==> e in old(graph.edges) || IsLogEdge(e, logs)
    ensures LogBuckets(byResource, logs)
  {
    hide LogNodeID, InferLogResourceID, IsLogEdge, ResourceNode, LogBuckets;
    byResource := map[];
    NothingYet();
    for i := 0 to |logs|
      invariant graph.Valid() && graph.nodes == AllNodes(metrics, logs[..i], f)
      invariant forall e :: e in graph.edges <==> e in old(graph.edges) || IsLogEdge(e, logs[..i])
      invariant LogBuckets(byResource, logs[..i])
    {
      var entry := logs[i];
      var resourceID := InferLogResourceID(entry);
      assert logs[..i + 1][..i] == logs[..i];
      LogNodeIDNotEmpty(entry, i);
      LogEdgeStep(logs, i);
      LogBucketStep(byResource, logs, i);
      AddSignal(graph, resourceID, LogNode(entry, i, f), EMITS_LOG);
      byResource := byResource[resourceID := Bucket(byResource, resourceID) + [Ref(LogNodeID(entry, i), entry.timestamp)]];
    }
    assert logs[..|logs|] == logs;
  }

  lemma LogEdgeStep(logs: seq<LogRecord>, i: int)
    requires 0 <= i < |logs|
    ensures forall e :: IsLogEdge(e, logs[..i + 1]) <==> IsLogEdge(e, logs[..i]) || e == LogEdge(logs[i], i)
  {
    hide LogEdge;
    forall e ensures IsLogEdge(e, logs[..i + 1]) <==> IsLogEdge(e, logs[..i]) || e == LogEdge(logs[i], i) {
      assert forall k :: 0 <= k < i ==> logs[..i][k] == logs[k] == logs[..i + 1][k];
      assert logs[..i + 1][i] == logs[i];
    }
  }

  // ---------- what the node map holds ----------

  ghost predicate IsMetricID(id: string, metrics: seq<MetricPoint>) {
    exists i :: 0 <= i < |metrics| && id == MetricNodeID(metrics[i], i)
  }

  ghost predicate IsLogID(id: string, logs: seq<LogRecord>) {
    exists j :: 0 <= j < |logs| && id == LogNodeID(logs[j], j)
  }

  ghost predicate IsMetricResource(id: string, metrics: seq<MetricPoint>) {
    exists i :: 0 <= i < |metrics| && id == ResourceNodeID(ResourceOf(metrics[i]))
  }

  ghost predicate IsLogResource(id: string, logs: seq<LogRecord>) {
    exists j :: 0 <= j < |logs| && id == ResourceNodeID(InferLogResourceID(logs[j]))
  }

  ghost predicate IsNodeID(id: string, metrics: seq<MetricPoint>, logs: seq<LogRecord>) {
    IsMetricID(id, metrics) || IsMetricResource(id, metrics) || IsLogID(id, logs) || IsLogResource(id, logs)
  }

  lemma MetricIDStep(metrics: seq<MetricPoint>, k: int)
    requires 0 <= k < |metrics| && k == |metrics| - 1
    ensures forall id :: IsMetricID(id, metrics) <==> IsMetricID(id, metrics[..k]) || id == MetricNodeID(metrics[k], k)
    ensures forall id :: IsMetricResource(id, metrics) <==> IsMetricResource(id, metrics[..k]) || id == ResourceNodeID(ResourceOf(metrics[k]))
  {
    hide MetricNodeID, ResourceNodeID, ResourceOf;
    assert forall i :: 0 <= i < k ==> metrics[..k][i] == metrics[i];
  }

  lemma LogIDStep(logs: seq<LogRecord>, k: int)
    requires 0 <= k < |logs| && k == |logs| - 1
    ensures forall id :: IsLogID(id, logs) <==> IsLogID(id, logs[..k]) || id == LogNodeID(logs[k], k)
    ensures forall id :: IsLogResource(id, logs) <==> IsLogResource(id, logs[..k]) || id == ResourceNodeID(InferLogResourceID(logs[k]))
  {
    hide LogNodeID, ResourceNodeID, InferLogResourceID;
    assert forall i :: 0 <= i < k ==> logs[..k][i] == logs[i];
  }

  lemma {:induction false} MetricNodeKeys(metrics: seq<MetricPoint>, f: Format)
    ensures forall id :: id in MetricNodes(metrics, f) <==> IsMetricID(id, metrics) || IsMetricResource(id, metrics)
    decreases |metrics|
  {
    hide MetricNodeID, ResourceNodeID, ResourceOf, IsMetricID, IsMetricResource;
    if metrics == [] {
      NoIDs();
    } else {
      var k := |metrics| - 1;
      MetricNodeKeys(metrics[..k], f);
      MetricIDStep(metrics, k);
      NodeIDsNotEmpty(metrics[k], k);
      ResourceNodeIDNotEmpty(ResourceOf(metrics[k]));
    }
  }

  lemma NoIDs()
    ensures forall id :: !IsMetricID(id, []) && !IsMetricResource(id, []) && !IsLogID(id, []) && !IsLogResource(id, [])
  {
  }

  lemma ResourceNodeIDNotEmpty(r: string)
    ensures ResourceNodeID(r) != ""
  {
    assert ResourceNodeID(r)[0] == 'r';
  }

  /** The nodes are the metric points, the logs by id, and the resources either resolves to. */
  lemma {:induction false} NodeKeys(metrics: seq<MetricPoint>, logs: seq<LogRecord>, f: Format)
    ensures forall id :: id in AllNodes(metrics, logs, f) <==> IsNodeID(id, metrics, logs)
    decreases |logs|
  {
    hide LogNodeID, ResourceNodeID, InferLogResourceID, MetricNodes, IsLogID, IsLogResource, IsMetricID, IsMetricResource;
    if logs == [] {
      NoIDs();
      MetricNodeKeys(metrics, f);
    } else {
      var k := |logs| - 1;
      NodeKeys(metrics, logs[..k], f);
      LogIDStep(logs, k);
      LogNodeIDNotEmpty(logs[k], k);
      ResourceNodeIDNotEmpty(InferLogResourceID(logs[k]));
    }
  }

  // ---------- the whole build ----------

  /** `e` comes out of one of the buckets of `resources`. */
  ghost predicate FromBuckets(e: Edge, metrics: seq<MetricPoint>, logs: seq<LogRecord>, maxSkew: int, resources: set<string>) {
    exists r :: r in resources && PairFrom(e, MetricRefs(metrics, r), LogRefs(logs, r), maxSkew)
  }

  /** The bucketed join yields exactly the all-pairs join. */
  lemma BucketsAreAllPairs(e: Edge, metrics: seq<MetricPoint>, logs: seq<LogRecord>, maxSkew: int, resources: set<string>)
    requires forall r :: r !in resources ==> MetricRefs(metrics, r) == []
    ensures FromBuckets(e, metrics, logs, maxSkew, resources) <==> IsPairEdge(e, metrics, logs, maxSkew)
  {
    hide MetricNodeID, LogNodeID, ResourceOf, InferLogResourceID, WithinSkew, MetricRefs, LogRefs;
    if FromBuckets(e, metrics, logs, maxSkew, resources) {
      var r :| r in resources && PairFrom(e, MetricRefs(metrics, r), LogRefs(logs, r), maxSkew);
      var ms, ls := MetricRefs(metrics, r), LogRefs(logs, r);
      var a, b :| 0 <= a < |ms| && 0 <= b < |ls| && WithinSkew(ms[a].timestamp, ls[b].timestamp, maxSkew)
        && e == Edge(ms[a].nodeID, ls[b].nodeID, CORRELATED_WITH);
      MetricRefsHold(metrics, r, ms[a]);
      LogRefsHold(logs, r, ls[b]);
      var i :| 0 <= i < |metrics| && ResourceOf(metrics[i]) == r && ms[a] == Ref(MetricNodeID(metrics[i], i), metrics[i].timestamp);
      var j :| 0 <= j < |logs| && InferLogResourceID(logs[j]) == r && ls[b] == Ref(LogNodeID(logs[j], j), logs[j].timestamp);
      assert Correlated(metrics[i], logs[j], maxSkew) && e == PairEdge(metrics[i], i, logs[j], j);
    }
    if IsPairEdge(e, metrics, logs, maxSkew) {
      var i, j :| 0 <= i < |metrics| && 0 <= j < |logs|
        && Correlated(metrics[i], logs[j], maxSkew) && e == PairEdge(metrics[i], i, logs[j], j);
      PairInBucket(e, metrics, i, logs, j, maxSkew);
    }
  }

  lemma PairInBucket(e: Edge, metrics: seq<MetricPoint>, i: int, logs: seq<LogRecord>, j: int, maxSkew: int)
    requires 0 <= i < |metrics| && 0 <= j < |logs|
    requires Correlated(metrics[i], logs[j], maxSkew) && e == PairEdge(metrics[i], i, logs[j], j)
    ensures PairFrom(e, MetricRefs(metrics, ResourceOf(metrics[i])), LogRefs(logs, ResourceOf(metrics[i])), maxSkew)
  {
    hide MetricNodeID, LogNodeID, ResourceOf, InferLogResourceID, WithinSkew, MetricRefs, LogRefs;
    var r := ResourceOf(metrics[i]);
    var ms, ls := MetricRefs(metrics, r), LogRefs(logs, r);
    var m, l := Ref(MetricNodeID(metrics[i], i), metrics[i].timestamp), Ref(LogNodeID(logs[j], j), logs[j].timestamp);
    MetricRefsHold(metrics, r, m);
    LogRefsHold(logs, r, l);
    var a :| 0 <= a < |ms| && ms[a] == m;
    var b :| 0 <= b < |ls| && ls[b] == l;
  }

  lemma RefsAreNodes(metrics: seq<MetricPoint>, logs: seq<LogRecord>, f: Format, resource: string)
    ensures forall ref :: ref in MetricRefs(metrics, resource) || ref in LogRefs(logs, resource) ==>
      ref.nodeID != "" && ref.nodeID in AllNodes(metrics, logs, f)
  {
    hide MetricNodeID, LogNodeID, ResourceOf, InferLogResourceID, MetricRefs, LogRefs, AllNodes;
    forall ref | ref in MetricRefs(metrics, resource) || ref in LogRefs(logs, resource)
      ensures ref.nodeID != "" && ref.nodeID in AllNodes(metrics, logs, f)
    {
      NodeKeys(metrics, logs, f);
      if ref in MetricRefs(metrics, resource) {
        MetricRefsHold(metrics, resource, ref);
        var i :| 0 <= i < |metrics| && ResourceOf(metrics[i]) == resource && ref == Ref(MetricNodeID(metrics[i], i), metrics[i].timestamp);
        NodeIDsNotEmpty(metrics[i], i);
        assert IsMetricID(ref.nodeID, metrics);
      } else {
        LogRefsHold(logs, resource, ref);
        var j :| 0 <= j < |logs| && InferLogResourceID(logs[j]) == resource && ref == Ref(LogNodeID(logs[j], j), logs[j].timestamp);
        LogNodeIDNotEmpty(logs[j], j);
        assert IsLogID(ref.nodeID, logs);
      }
    }
  }

  /** For every order in which the bucket map may be ranged over, the edge list is duplicate-free
      and holds exactly the all-pairs edges; the nodes do not depend on that order at all. */
  method BuildCorrelationGraph(metrics: seq<MetricPoint>, logs: seq<LogRecord>, configuredSkew: int, f: Format) returns (graph: Graph)
    ensures fresh(graph) && graph.Valid()
    ensures graph.nodes == AllNodes(metrics, logs, f)
    ensures forall e :: e in graph.edges <==> IsEdge(e, metrics, logs, MaxSkew(configuredSkew))
    ensures CorrelatesNear(graph.edges, metrics, logs, configuredSkew)
  {
    hide CorrelatesNear, MetricRefs, LogRefs, AllNodes, IsMetricEdge, IsLogEdge, IsPairEdge, PairFrom, WellFormed;
    var maxSkew := configuredSkew;
    if maxSkew <= 0 {
      maxSkew := DEFAULT_MAX_SKEW;
    }
    graph := new Graph();
    var metricsByResource := AddMetrics(graph, metrics, f);
    var logsByResource := AddLogs(graph, metrics, logs, f);
    ghost var base := graph.edges;
    var unvisited := metricsByResource.Keys;
    while unvisited != {}
      invariant unvisited <= metricsByResource.Keys
      invariant graph.Valid() && graph.nodes == AllNodes(metrics, logs, f)
      invariant forall e :: e in graph.edges <==>
        e in base || FromBuckets(e, metrics, logs, maxSkew, metricsByResource.Keys - unvisited)
      decreases unvisited
    {
      var resourceID :| resourceID in unvisited;
      unvisited := unvisited - {resourceID};
      RefsAreNodes(metrics, logs, f, resourceID);
      JoinBucket(graph, metricsByResource[resourceID], Bucket(logsByResource, resourceID), maxSkew);
    }
    forall e ensures FromBuckets(e, metrics, logs, maxSkew, metricsByResource.Keys) <==> IsPairEdge(e, metrics, logs, maxSkew) {
      BucketsAreAllPairs(e, metrics, logs, maxSkew, metricsByResource.Keys);
    }
    EdgesCorrelateNear(graph.edges, metrics, logs, configuredSkew);
  }
}

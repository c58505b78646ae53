/** What every built correlation graph looks like: node identity, typing, counts, and when the
    resource filter cuts no edge. */
module CorrelationFacts {
  import opened GoTime
  import opened Text
  import opened Ordering
  import opened Telemetry
  import opened Graph
  import opened Correlation

  // ---------- the node behind every id ----------

  /** Log `j` is the first with its node id. */
  ghost predicate FirstWithID(logs: seq<LogRecord>, j: int) {
    0 <= j < |logs| && forall k :: 0 <= k < j ==> LogNodeID(logs[k], k) != LogNodeID(logs[j], j)
  }

  ghost predicate IsMetricNode(n: Node, metrics: seq<MetricPoint>, f: Format) {
    exists i :: 0 <= i < |metrics| && n == MetricNode(metrics[i], i, f)
  }

  ghost predicate IsLogNode(n: Node, logs: seq<LogRecord>, f: Format) {
    exists j :: FirstWithID(logs, j) && n == LogNode(logs[j], j, f)
  }

  ghost predicate IsResourceNode(n: Node) {
    exists r :: n == ResourceNode(r)
  }

  ghost predicate Described(nodes: map<string, Node>, metrics: seq<MetricPoint>, logs: seq<LogRecord>, f: Format) {
    forall id :: id in nodes ==>
      nodes[id].id == id && (IsMetricNode(nodes[id], metrics, f) || IsLogNode(nodes[id], logs, f) || IsResourceNode(nodes[id]))
  }

  lemma MetricNodeGrows(n: Node, metrics: seq<MetricPoint>, f: Format)
    requires metrics != []
    ensures IsMetricNode(n, metrics[..|metrics| - 1], f) ==> IsMetricNode(n, metrics, f)
  {
    hide MetricNode;
    var k := |metrics| - 1;
    if i :| 0 <= i < k && n == MetricNode(metrics[..k][i], i, f) {
      assert metrics[..k][i] == metrics[i];
    }
  }

  lemma LogNodeGrows(n: Node, logs: seq<LogRecord>, f: Format)
    requires logs != []
    ensures IsLogNode(n, logs[..|logs| - 1], f) ==> IsLogNode(n, logs, f)
  {
    hide LogNode, LogNodeID;
    var k := |logs| - 1;
    if j :| FirstWithID(logs[..k], j) && n == LogNode(logs[..k][j], j, f) {
      assert forall i :: 0 <= i <= j ==> logs[..k][i] == logs[i];
      assert FirstWithID(logs, j);
    }
  }

  lemma {:induction false} MetricNodesDescribed(metrics: seq<MetricPoint>, f: Format)
    ensures Described(MetricNodes(metrics, f), metrics, [], f)
    decreases |metrics|
  {
    hide MetricNode, ResourceNode, IsMetricNode, IsLogNode, MetricNodeID, ResourceOf;
    if metrics != [] {
      var k := |metrics| - 1;
      MetricNodesDescribed(metrics[..k], f);
      forall n { MetricNodeGrows(n, metrics, f); }
      NewMetricNode(metrics, k, f);
      assert IsResourceNode(ResourceNode(ResourceOf(metrics[k])));
    }
  }

  lemma NewMetricNode(metrics: seq<MetricPoint>, i: int, f: Format)
    requires 0 <= i < |metrics|
    ensures IsMetricNode(MetricNode(metrics[i], i, f), metrics, f)
  {
  }

  lemma NewLogNode(logs: seq<LogRecord>, nodes: map<string, Node>, f: Format)
    requires logs != [] && LogNodeID(logs[|logs| - 1], |logs| - 1) !in nodes
    requires forall id :: IsLogID(id, logs[..|logs| - 1]) ==> id in nodes
    ensures IsLogNode(LogNode(logs[|logs| - 1], |logs| - 1, f), logs, f)
  {
    hide LogNodeID;
    var k := |logs| - 1;
    forall i | 0 <= i < k ensures LogNodeID(logs[i], i) != LogNodeID(logs[k], k) {
      assert logs[..k][i] == logs[i];
      assert IsLogID(LogNodeID(logs[i], i), logs[..k]);
    }
    assert FirstWithID(logs, k);
  }

  lemma DescribedWithNode(nodes: map<string, Node>, n: Node, metrics: seq<MetricPoint>, logs: seq<LogRecord>, f: Format)
    requires Described(nodes, metrics, logs, f)
    requires n.id in nodes || IsLogNode(n, logs, f) || IsResourceNode(n)
    ensures Described(WithNode(nodes, n), metrics, logs, f)
  {
    hide IsMetricNode, IsLogNode, IsResourceNode;
  }

  lemma DescribedGrows(nodes: map<string, Node>, metrics: seq<MetricPoint>, logs: seq<LogRecord>, f: Format)
    requires logs != [] && Described(nodes, metrics, logs[..|logs| - 1], f)
    ensures Described(nodes, metrics, logs, f)
  {
    hide IsMetricNode, IsLogNode, IsResourceNode;
    forall n { LogNodeGrows(n, logs, f); }
  }

  /** Every node is a resource, the metric of one index, or the first log with its id. */
  lemma {:induction false} NodesDescribed(metrics: seq<MetricPoint>, logs: seq<LogRecord>, f: Format)
    ensures Described(AllNodes(metrics, logs, f), metrics, logs, f)
    decreases |logs|
  {
    if logs == [] {
      MetricNodesDescribed(metrics, f);
    } else {
      hide ResourceNode, LogNodeID, InferLogResourceID, Described, WithNode;
      var k := |logs| - 1;
      var before, resource := AllNodes(metrics, logs[..k], f), ResourceNode(InferLogResourceID(logs[k]));
      NodesDescribed(metrics, logs[..k], f);
      DescribedGrows(before, metrics, logs, f);
      DescribedWithNode(before, resource, metrics, logs, f);
      if LogNodeID(logs[k], k) !in WithNode(before, resource) {
        LogIDsPresent(metrics, logs[..k], f);
        WithNodeKeeps(before, resource);
        NewLogNode(logs, WithNode(before, resource), f);
      }
      DescribedWithNode(WithNode(before, resource), LogNode(logs[k], k, f), metrics, logs, f);
    }
  }

  lemma WithNodeKeeps(nodes: map<string, Node>, n: Node)
    ensures forall id :: id in nodes ==> id in WithNode(nodes, n)
  {
  }

  lemma LogIDsPresent(metrics: seq<MetricPoint>, logs: seq<LogRecord>, f: Format)
    ensures forall id :: IsLogID(id, logs) ==> id in AllNodes(metrics, logs, f)
  {
    NodeKeys(metrics, logs, f);
  }

  lemma MetricNodeAt(metrics: seq<MetricPoint>, logs: seq<LogRecord>, f: Format, i: int)
    requires 0 <= i < |metrics|
    ensures MetricNodeID(metrics[i], i) in AllNodes(metrics, logs, f)
    ensures AllNodes(metrics, logs, f)[MetricNodeID(metrics[i], i)] == MetricNode(metrics[i], i, f)
  {
    hide AllNodes, MetricNodeID, LogNodeID, ResourceNodeID;
    var nodes, id := AllNodes(metrics, logs, f), MetricNodeID(metrics[i], i);
    NodeKeys(metrics, logs, f);
    NodesDescribed(metrics, logs, f);
    assert IsMetricID(id, metrics);
    var n := nodes[id];
    if k :| 0 <= k < |metrics| && n == MetricNode(metrics[k], k, f) {
      MetricNodeIDInjective(metrics[i], i, metrics[k], k);
    } else if j :| FirstWithID(logs, j) && n == LogNode(logs[j], j, f) {
      FamiliesDisjoint("", metrics[i], i, logs[j], j);
    } else {
      var r :| n == ResourceNode(r);
      FamiliesDisjoint(r, metrics[i], i, LogRecord("", "", "", 0, 0, "", "", "", map[]), 0);
    }
  }

  lemma LogNodeAt(metrics: seq<MetricPoint>, logs: seq<LogRecord>, f: Format, j: int) returns (first: int)
    requires 0 <= j < |logs|
    ensures LogNodeID(logs[j], j) in AllNodes(metrics, logs, f)
    ensures FirstWithID(logs, first) && LogNodeID(logs[first], first) == LogNodeID(logs[j], j)
    ensures AllNodes(metrics, logs, f)[LogNodeID(logs[j], j)] == LogNode(logs[first], first, f)
  {
    hide AllNodes, MetricNodeID, LogNodeID, ResourceNodeID;
    var nodes, id := AllNodes(metrics, logs, f), LogNodeID(logs[j], j);
    NodeKeys(metrics, logs, f);
    NodesDescribed(metrics, logs, f);
    assert IsLogID(id, logs);
    var n := nodes[id];
    if k :| 0 <= k < |metrics| && n == MetricNode(metrics[k], k, f) {
      FamiliesDisjoint("", metrics[k], k, logs[j], j);
    } else if r :| n == ResourceNode(r) {
      FamiliesDisjoint(r, MetricPoint("", "", "", 0, 0.0), 0, logs[j], j);
    }
    assert IsLogNode(n, logs, f);
    first :| FirstWithID(logs, first) && n == LogNode(logs[first], first, f);
  }

  lemma ResourceNodeAt(metrics: seq<MetricPoint>, logs: seq<LogRecord>, f: Format, r: string)
    requires IsNodeID(ResourceNodeID(r), metrics, logs)
    ensures ResourceNodeID(r) in AllNodes(metrics, logs, f)
    ensures AllNodes(metrics, logs, f)[ResourceNodeID(r)] == ResourceNode(r)
  {
    hide AllNodes, MetricNodeID, LogNodeID, ResourceNodeID;
    var nodes, id := AllNodes(metrics, logs, f), ResourceNodeID(r);
    NodeKeys(metrics, logs, f);
    NodesDescribed(metrics, logs, f);
    var n := nodes[id];
    if k :| 0 <= k < |metrics| && n == MetricNode(metrics[k], k, f) {
      FamiliesDisjoint(r, metrics[k], k, LogRecord("", "", "", 0, 0, "", "", "", map[]), 0);
    } else if j :| FirstWithID(logs, j) && n == LogNode(logs[j], j, f) {
      FamiliesDisjoint(r, MetricPoint("", "", "", 0, 0.0), 0, logs[j], j);
    } else {
      var q :| n == ResourceNode(q);
      ResourceNodeIDInjective(r, q);
    }
  }

  // ---------- typing ----------

  ghost predicate Joins(nodes: map<string, Node>, e: Edge, srcKind: string, dstKind: string) {
    e.src in nodes && e.dst in nodes && nodes[e.src].kind == srcKind && nodes[e.dst].kind == dstKind
  }

  /** Every edge kind joins exactly its documented node kinds, whatever log ids collide. */
  lemma EdgesAreTyped(metrics: seq<MetricPoint>, logs: seq<LogRecord>, f: Format, maxSkew: int, e: Edge)
    requires IsEdge(e, metrics, logs, maxSkew)
    ensures e.kind == EMITS_METRIC <==> Joins(AllNodes(metrics, logs, f), e, RESOURCE, METRIC)
    ensures e.kind == EMITS_LOG <==> Joins(AllNodes(metrics, logs, f), e, RESOURCE, LOG)
    ensures e.kind == CORRELATED_WITH <==> Joins(AllNodes(metrics, logs, f), e, METRIC, LOG)
  {
    hide AllNodes, MetricNodeID, LogNodeID, ResourceNodeID, Correlated;
    var nodes := AllNodes(metrics, logs, f);
    if IsMetricEdge(e, metrics) {
      var i :| 0 <= i < |metrics| && e == MetricEdge(metrics[i], i);
      MetricNodeAt(metrics, logs, f, i);
      assert IsMetricResource(e.src, metrics);
      ResourceNodeAt(metrics, logs, f, ResourceOf(metrics[i]));
    } else if IsLogEdge(e, logs) {
      var j :| 0 <= j < |logs| && e == LogEdge(logs[j], j);
      var _ := LogNodeAt(metrics, logs, f, j);
      assert IsLogResource(e.src, logs);
      ResourceNodeAt(metrics, logs, f, InferLogResourceID(logs[j]));
    } else {
      var i, j :| 0 <= i < |metrics| && 0 <= j < |logs|
        && Correlated(metrics[i], logs[j], maxSkew) && e == PairEdge(metrics[i], i, logs[j], j);
      MetricNodeAt(metrics, logs, f, i);
      var _ := LogNodeAt(metrics, logs, f, j);
    }
  }

  // ---------- the resource filter ----------

  ghost predicate SameResource(nodes: map<string, Node>, e: Edge) {
    e.src in nodes && e.dst in nodes && Attribute(nodes[e.src], "resource_id") == Attribute(nodes[e.dst], "resource_id")
  }

  /** Logs that share a node id resolve to the same resource. */
  ghost predicate LogsConsistent(logs: seq<LogRecord>) {
    forall i, j :: 0 <= i < |logs| && 0 <= j < |logs| && LogNodeID(logs[i], i) == LogNodeID(logs[j], j)
      ==> InferLogResourceID(logs[i]) == InferLogResourceID(logs[j])
  }

  lemma EdgeWithinResource(metrics: seq<MetricPoint>, logs: seq<LogRecord>, f: Format, maxSkew: int, e: Edge)
    requires LogsConsistent(logs) && IsEdge(e, metrics, logs, maxSkew)
    ensures SameResource(AllNodes(metrics, logs, f), e)
  {
    hide AllNodes, MetricNodeID, LogNodeID, ResourceNodeID, ResourceOf, InferLogResourceID, WithinSkew;
    if IsMetricEdge(e, metrics) {
      var i :| 0 <= i < |metrics| && e == MetricEdge(metrics[i], i);
      MetricNodeAt(metrics, logs, f, i);
      assert IsMetricResource(e.src, metrics);
      ResourceNodeAt(metrics, logs, f, ResourceOf(metrics[i]));
    } else if IsLogEdge(e, logs) {
      var j :| 0 <= j < |logs| && e == LogEdge(logs[j], j);
      var first := LogNodeAt(metrics, logs, f, j);
      assert IsLogResource(e.src, logs);
      ResourceNodeAt(metrics, logs, f, InferLogResourceID(logs[j]));
    } else {
      var i, j :| 0 <= i < |metrics| && 0 <= j < |logs|
        && Correlated(metrics[i], logs[j], maxSkew) && e == PairEdge(metrics[i], i, logs[j], j);
      MetricNodeAt(metrics, logs, f, i);
      var first := LogNodeAt(metrics, logs, f, j);
    }
  }

  lemma LogEdgeResource(metrics: seq<MetricPoint>, logs: seq<LogRecord>, f: Format, j: int)
    requires 0 <= j < |logs| && SameResource(AllNodes(metrics, logs, f), LogEdge(logs[j], j))
    ensures Attribute(AllNodes(metrics, logs, f)[LogNodeID(logs[j], j)], "resource_id") == InferLogResourceID(logs[j])
  {
    hide AllNodes, LogNodeID, ResourceNodeID, InferLogResourceID;
    assert IsLogResource(LogEdge(logs[j], j).src, logs);
    ResourceNodeAt(metrics, logs, f, InferLogResourceID(logs[j]));
  }

  /** Both ends of every edge carry the same resource id, so that the resource filter keeps
      whole connected components, exactly when colliding logs agree on their resource. */
  lemma FilterCutsNoEdgeIff(metrics: seq<MetricPoint>, logs: seq<LogRecord>, f: Format, maxSkew: int)
    ensures (forall e :: IsEdge(e, metrics, logs, maxSkew) ==> SameResource(AllNodes(metrics, logs, f), e))
      <==> LogsConsistent(logs)
  {
    hide AllNodes, LogNodeID, InferLogResourceID, SameResource, IsMetricEdge, IsPairEdge, LogEdge;
    if LogsConsistent(logs) {
      forall e | IsEdge(e, metrics, logs, maxSkew) ensures SameResource(AllNodes(metrics, logs, f), e) {
        EdgeWithinResource(metrics, logs, f, maxSkew, e);
      }
    } else {
      var i, j :| 0 <= i < |logs| && 0 <= j < |logs| && LogNodeID(logs[i], i) == LogNodeID(logs[j], j)
        && InferLogResourceID(logs[i]) != InferLogResourceID(logs[j]);
      assert IsLogEdge(LogEdge(logs[i], i), logs) && IsLogEdge(LogEdge(logs[j], j), logs);
      assert IsEdge(LogEdge(logs[i], i), metrics, logs, maxSkew) && IsEdge(LogEdge(logs[j], j), metrics, logs, maxSkew);
      if SameResource(AllNodes(metrics, logs, f), LogEdge(logs[i], i)) {
        LogEdgeResource(metrics, logs, f, i);
        if SameResource(AllNodes(metrics, logs, f), LogEdge(logs[j], j)) {
          LogEdgeResource(metrics, logs, f, j);
        }
      }
    }
  }

  /** Two logs of different hosts with one event id: an edge joins two resources. */
  lemma CollidingLogsCutAnEdge(f: Format, maxSkew: int) returns (logs: seq<LogRecord>, e: Edge)
    ensures |logs| == 2 && logs[0].eventID == logs[1].eventID
    ensures IsEdge(e, [], logs, maxSkew) && !SameResource(AllNodes([], logs, f), e)
  {
    logs := [LogRecord("g", "s", "x", 1, 0, "", "", "", map["resource_id" := "a"]),
             LogRecord("g", "s", "x", 1, 0, "", "", "", map["resource_id" := "b"])];
    assert LogNodeID(logs[0], 0) == LogNodeID(logs[1], 1);
    assert InferLogResourceID(logs[0])[0] == 'a' && InferLogResourceID(logs[1])[0] == 'b';
    hide *;
    assert !LogsConsistent(logs) by {
      ConsistentPair(logs, 0, 1);
    }
    FilterCutsNoEdgeIff([], logs, f, maxSkew);
    e :| IsEdge(e, [], logs, maxSkew) && !SameResource(AllNodes([], logs, f), e);
  }

  lemma ConsistentPair(logs: seq<LogRecord>, i: int, j: int)
    requires 0 <= i < |logs| && 0 <= j < |logs| && LogNodeID(logs[i], i) == LogNodeID(logs[j], j)
    ensures LogsConsistent(logs) ==> InferLogResourceID(logs[i]) == InferLogResourceID(logs[j])
  {
    hide LogNodeID, InferLogResourceID;
  }

  // ---------- counting ----------

  // ---------- what hangs where, on the fields ----------

  lemma EmitsLogIsLogEdge(e: Edge, metrics: seq<MetricPoint>, logs: seq<LogRecord>, maxSkew: int)
    requires IsEdge(e, metrics, logs, maxSkew)
    ensures e.kind == "emits_log" ==> IsLogEdge(e, logs)
    ensures e.kind == "emits_metric" ==> IsMetricEdge(e, metrics)
  {
    assert |"correlated_with"| == 15 && |"emits_metric"| == 12 && |"emits_log"| == 9;
    hide MetricNodeID, LogNodeID, ResourceNodeID, ResourceOf, InferLogResourceID, WithinSkew;
  }

  /** A log hangs under the resource its fields name, else the instance, else its group and stream,
      else the unknown resource; and, when no other log has its node id, under no other. */
  lemma LogHangsUnder(metrics: seq<MetricPoint>, logs: seq<LogRecord>, maxSkew: int, j: nat) returns (name: string)
    requires j < |logs|
    ensures var r, id := logs[j], LogNodeID(logs[j], j);
      && IsEdge(Edge("resource:" + name, id, "emits_log"), metrics, logs, maxSkew)
      && ("resource_id" in r.fields && r.fields["resource_id"] != "" ==> name == r.fields["resource_id"])
      && (!("resource_id" in r.fields && r.fields["resource_id"] != "") ==>
            && ("instance_id" in r.fields && r.fields["instance_id"] != "" ==> name == r.fields["instance_id"])
            && (!("instance_id" in r.fields && r.fields["instance_id"] != "") ==>
                  && (r.logGroupName + r.logStreamName != "" ==> name == r.logGroupName + "/" + r.logStreamName)
                  && (r.logGroupName + r.logStreamName == "" ==> name == "unknown-resource")))
      && ((forall k :: 0 <= k < |logs| && k != j ==> LogNodeID(logs[k], k) != id) ==>
            forall src :: IsEdge(Edge(src, id, "emits_log"), metrics, logs, maxSkew) ==> src == "resource:" + name)
  {
    name := InferLogResourceID(logs[j]);
    var id := LogNodeID(logs[j], j);
    assert Edge("resource:" + name, id, "emits_log") == LogEdge(logs[j], j);
    if forall k :: 0 <= k < |logs| && k != j ==> LogNodeID(logs[k], k) != id {
      forall src | IsEdge(Edge(src, id, "emits_log"), metrics, logs, maxSkew) ensures src == "resource:" + name {
        EmitsLogIsLogEdge(Edge(src, id, "emits_log"), metrics, logs, maxSkew);
        hide IsEdge, InferLogResourceID, LogNodeID;
        var k :| 0 <= k < |logs| && Edge(src, id, "emits_log") == LogEdge(logs[k], k);
      }
    }
  }

  /** A metric hangs under its resource, the unknown one when it names none, and under no other. */
  lemma MetricHangsUnder(metrics: seq<MetricPoint>, logs: seq<LogRecord>, maxSkew: int, i: nat, src: string)
    requires i < |metrics|
    ensures IsEdge(Edge(src, MetricNodeID(metrics[i], i), "emits_metric"), metrics, logs, maxSkew)
      <==> src == "resource:" + (if metrics[i].resourceID != "" then metrics[i].resourceID else "unknown-resource")
  {
    var id := MetricNodeID(metrics[i], i);
    var e := Edge(src, id, "emits_metric");
    assert MetricEdge(metrics[i], i).src == "resource:" + (if metrics[i].resourceID != "" then metrics[i].resourceID else "unknown-resource");
    if IsEdge(e, metrics, logs, maxSkew) {
      EmitsLogIsLogEdge(e, metrics, logs, maxSkew);
      hide IsEdge, ResourceOf, MetricNodeID, ResourceNodeID;
      var k :| 0 <= k < |metrics| && e == MetricEdge(metrics[k], k);
      MetricNodeIDInjective(metrics[k], k, metrics[i], i);
    }
  }

  /** What the node of a metric says of it. */
  lemma MetricNodeShows(metrics: seq<MetricPoint>, logs: seq<LogRecord>, f: Format, i: nat)
    requires i < |metrics|
    ensures var id, p := MetricNodeID(metrics[i], i), metrics[i];
      && id in AllNodes(metrics, logs, f)
      && id == "metric:" + (if p.resourceID != "" then p.resourceID else "unknown-resource") + ":" + p.metricName + ":"
               + SignedDecimal(UnixMilli(p.timestamp)) + ":" + Decimal(i)
      && var n := AllNodes(metrics, logs, f)[id];
         n.kind == "metric" && n.attributes == map[
           "resource_id" := if p.resourceID != "" then p.resourceID else "unknown-resource",
           "namespace" := p.namespace, "metric_name" := p.metricName,
           "timestamp" := f.time(p.timestamp), "value" := f.value(p.value)]
  {
    MetricNodeAt(metrics, logs, f, i);
    hide AllNodes, MetricNodeID;
  }

  /** What the node of the first log with an id says of it. */
  lemma LogNodeShows(metrics: seq<MetricPoint>, logs: seq<LogRecord>, f: Format, j: nat)
    requires FirstWithID(logs, j)
    ensures var id, r := LogNodeID(logs[j], j), logs[j];
      && id in AllNodes(metrics, logs, f)
      && (r.eventID != "" ==> id == "log:" + r.eventID)
      && (r.eventID == "" ==> id == "log:" + r.logStreamName + ":" + SignedDecimal(UnixMilli(r.timestamp)) + ":" + Decimal(j))
      && var n := AllNodes(metrics, logs, f)[id];
         n.kind == "log" && n.attributes == map[
           "resource_id" := InferLogResourceID(r), "log_group_name" := r.logGroupName, "log_stream_name" := r.logStreamName,
           "event_id" := r.eventID, "timestamp" := f.time(r.timestamp)]
  {
    var first := LogNodeAt(metrics, logs, f, j);
    assert first == j by { hide LogNodeID; }
    hide AllNodes, InferLogResourceID;
  }

  ghost function MetricIDs(metrics: seq<MetricPoint>): (ids: seq<string>)
    ensures |ids| == |metrics| && forall i :: 0 <= i < |ids| ==> ids[i] == MetricNodeID(metrics[i], i)
  {
    seq(|metrics|, i requires 0 <= i < |metrics| => MetricNodeID(metrics[i], i))
  }

  ghost function LogIDs(logs: seq<LogRecord>): (ids: seq<string>)
    ensures |ids| == |logs| && forall j :: 0 <= j < |ids| ==> ids[j] == LogNodeID(logs[j], j)
  {
    seq(|logs|, j requires 0 <= j < |logs| => LogNodeID(logs[j], j))
  }

  ghost function ResourceIDs(metrics: seq<MetricPoint>, logs: seq<LogRecord>): (ids: seq<string>)
    ensures |ids| == |metrics| + |logs|
    ensures forall i :: 0 <= i < |metrics| ==> ids[i] == ResourceNodeID(ResourceOf(metrics[i]))
    ensures forall j :: 0 <= j < |logs| ==> ids[|metrics| + j] == ResourceNodeID(InferLogResourceID(logs[j]))
  {
    seq(|metrics|, i requires 0 <= i < |metrics| => ResourceNodeID(ResourceOf(metrics[i])))
      + seq(|logs|, j requires 0 <= j < |logs| => ResourceNodeID(InferLogResourceID(logs[j])))
  }

  lemma {:induction false} ElementsCount<T>(s: seq<T>)
    ensures |Elements(s)| <= |s|
    ensures NoDuplicates(s) ==> |Elements(s)| == |s|
    decreases |s|
  {
    if s == [] {
      assert Elements(s) == {};
    } else {
      var k := |s| - 1;
      ElementsCount(s[..k]);
      assert s == s[..k] + [s[k]];
      assert Elements(s) == Elements(s[..k]) + {s[k]};
      assert NoDuplicates(s) ==> s[k] !in s[..k];
    }
  }

  lemma IDsAsSets(metrics: seq<MetricPoint>, logs: seq<LogRecord>, f: Format)
    ensures AllNodes(metrics, logs, f).Keys
      == Elements(ResourceIDs(metrics, logs)) + Elements(MetricIDs(metrics)) + Elements(LogIDs(logs))
  {
    hide AllNodes, MetricNodeID, LogNodeID, ResourceNodeID, ResourceOf, InferLogResourceID, MetricIDs, LogIDs, ResourceIDs;
    NodeKeys(metrics, logs, f);
    var rs, ms, ls := ResourceIDs(metrics, logs), MetricIDs(metrics), LogIDs(logs);
    forall id ensures id in AllNodes(metrics, logs, f) <==> id in rs || id in ms || id in ls {
      if IsMetricID(id, metrics) { var i :| 0 <= i < |metrics| && id == MetricNodeID(metrics[i], i); assert ms[i] == id; }
      if IsLogID(id, logs) { var j :| 0 <= j < |logs| && id == LogNodeID(logs[j], j); assert ls[j] == id; }
      if IsMetricResource(id, metrics) { var i :| 0 <= i < |metrics| && id == ResourceNodeID(ResourceOf(metrics[i])); assert rs[i] == id; }
      if IsLogResource(id, logs) { var j :| 0 <= j < |logs| && id == ResourceNodeID(InferLogResourceID(logs[j])); assert rs[|metrics| + j] == id; }
      if id in rs { var i :| 0 <= i < |rs| && rs[i] == id; assert i < |metrics| || id == ResourceNodeID(InferLogResourceID(logs[i - |metrics|])); }
    }
  }

  lemma FamiliesAreDisjointSets(metrics: seq<MetricPoint>, logs: seq<LogRecord>)
    ensures Elements(ResourceIDs(metrics, logs)) !! Elements(MetricIDs(metrics))
    ensures (Elements(ResourceIDs(metrics, logs)) + Elements(MetricIDs(metrics))) !! Elements(LogIDs(logs))
    ensures NoDuplicates(MetricIDs(metrics))
  {
    hide ResourceOf, InferLogResourceID, MetricIDs, LogIDs, ResourceIDs, SignedDecimal;
    var rs, ms, ls := ResourceIDs(metrics, logs), MetricIDs(metrics), LogIDs(logs);
    forall i | 0 <= i < |rs| ensures rs[i] != "" && rs[i][0] == 'r' {
      if i >= |metrics| { assert rs[i] == ResourceNodeID(InferLogResourceID(logs[i - |metrics|])); }
    }
    assert forall i :: 0 <= i < |ms| ==> ms[i] != "" && ms[i][0] == 'm';
    assert forall i :: 0 <= i < |ls| ==> ls[i] != "" && ls[i][0] == 'l';
    forall i, j | 0 <= i < j < |ms| ensures ms[i] != ms[j] {
      if ms[i] == ms[j] { MetricNodeIDInjective(metrics[i], i, metrics[j], j); }
    }
  }

  /** One node per resource, per metric point and per distinct log id: at most two per signal. */
  lemma NodeCount(metrics: seq<MetricPoint>, logs: seq<LogRecord>, f: Format)
    ensures |AllNodes(metrics, logs, f)| == |Elements(ResourceIDs(metrics, logs))| + |metrics| + |Elements(LogIDs(logs))|
    ensures |AllNodes(metrics, logs, f)| <= 2 * (|metrics| + |logs|)
  {
    hide AllNodes, ResourceIDs, MetricIDs, LogIDs;
    IDsAsSets(metrics, logs, f);
    FamiliesAreDisjointSets(metrics, logs);
    ElementsCount(ResourceIDs(metrics, logs));
    ElementsCount(MetricIDs(metrics));
    ElementsCount(LogIDs(logs));
    assert |AllNodes(metrics, logs, f)| == |AllNodes(metrics, logs, f).Keys|;
  }
}

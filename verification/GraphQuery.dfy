/** The correlation query: build, filter by resource, truncate, induce, sort, truncate. */
module GraphQuery {
  import opened GoTime
  import opened Text
  import opened Ordering
  import opened Telemetry
  import opened Graph
  import opened Correlation
  import opened CorrelationFacts
  import SignalStore

  datatype Query = Query(start: Time, end: Time, maxSkew: int, resourceID: string, limitNodes: int, limitEdges: int)

  datatype Result =
    | Found(nodes: seq<Node>, edges: seq<Edge>, metricCount: int, logCount: int)
    | Rejected

  // ---------- what a query means ----------

  /** `s[:limit]` when a positive limit is exceeded. */
  function Truncate<T>(s: seq<T>, limit: int): seq<T> {
    if limit > 0 && |s| > limit then s[..limit] else s
  }

  predicate KeepsNode(n: Node, resource: string) {
    resource == "" || Attribute(n, "resource_id") == resource
  }

  ghost predicate HasNode(ns: seq<Node>, id: string) {
    exists n :: n in ns && n.id == id
  }

  /** All filtered nodes, by id. */
  ghost predicate FilteredNodes(ns: seq<Node>, all: map<string, Node>, resource: string) {
    StrictlySorted(ns, NodeKey) && forall n :: n in ns <==> n.id in all && all[n.id] == n && KeepsNode(n, resource)
  }

  /** The whole subgraph induced on the returned nodes, by (from, to, kind). */
  ghost predicate InducedEdges(es: seq<Edge>, nodes: seq<Node>, metrics: seq<MetricPoint>, logs: seq<LogRecord>, maxSkew: int) {
    StrictlySorted(es, EdgeKey)
    && forall e :: e in es <==> IsEdge(e, metrics, logs, maxSkew) && HasNode(nodes, e.src) && HasNode(nodes, e.dst)
  }

  ghost predicate IsAnswer(metrics: seq<MetricPoint>, logs: seq<LogRecord>, q: Query, f: Format, r: Result) {
    && r.Found? && r.metricCount == |metrics| && r.logCount == |logs|
    && (exists ns :: FilteredNodes(ns, AllNodes(metrics, logs, f), TrimSpace(q.resourceID)) && r.nodes == Truncate(ns, q.limitNodes))
    && (exists es :: InducedEdges(es, r.nodes, metrics, logs, MaxSkew(q.maxSkew)) && r.edges == Truncate(es, q.limitEdges))
  }

  // ---------- the steps ----------

  method FilterByResource(nodes: seq<Node>, resourceID: string) returns (filtered: seq<Node>)
    requires StrictlySorted(nodes, NodeKey)
    ensures StrictlySorted(filtered, NodeKey)
    ensures forall n :: n in filtered <==> n in nodes && KeepsNode(n, resourceID)
  {
    if resourceID == "" {
      return nodes;
    }
    filtered := [];
    for i := 0 to |nodes|
      invariant StrictlySorted(filtered, NodeKey)
      invariant forall k :: 0 <= k < |filtered| ==> filtered[k] in nodes[..i]
      invariant forall n :: n in filtered <==> n in nodes[..i] && KeepsNode(n, resourceID)
    {
      if Attribute(nodes[i], "resource_id") != resourceID { continue; }
      filtered := filtered + [nodes[i]];
    }
    assert nodes[..|nodes|] == nodes;
  }

  method InducedOn(nodes: seq<Node>, edges: seq<Edge>) returns (kept: seq<Edge>)
    requires NoDuplicates(edges)
    ensures StrictlySorted(kept, EdgeKey)
    ensures forall e :: e in kept <==> e in edges && HasNode(nodes, e.src) && HasNode(nodes, e.dst)
  {
    var allowed := set n | n in nodes :: n.id;
    assert forall id :: id in allowed <==> HasNode(nodes, id);
    kept := [];
    for i := 0 to |edges|
      invariant NoDuplicates(kept)
      invariant forall e :: e in kept <==> e in edges[..i] && HasNode(nodes, e.src) && HasNode(nodes, e.dst)
    {
      if edges[i].src !in allowed { continue; }
      if edges[i].dst !in allowed { continue; }
      kept := kept + [edges[i]];
    }
    assert edges[..|edges|] == edges;
    kept := SortEdges(kept);
  }

  method SortEdges(edges: seq<Edge>) returns (r: seq<Edge>)
    requires NoDuplicates(edges)
    ensures StrictlySorted(r, EdgeKey)
    ensures forall e :: e in r <==> e in edges
  {
    r := StableSort(edges, EdgeKey);
    StableSortSorts(edges, EdgeKey);
    SamePermutationElements(edges, r);
    PermutationNoDuplicates(edges, r);
    EdgeKeyDistinguishes(r);
    SortedIsStrict(r, EdgeKey);
  }

  lemma EdgeKeyDistinguishes(edges: seq<Edge>)
    ensures KeyDistinguishes(edges, EdgeKey)
  {
    forall x, y | x in edges && y in edges && EdgeKey(x) == EdgeKey(y) ensures x == y {
      assert EdgeKey(x)[0] == Text(x.src) && EdgeKey(x)[1] == Text(x.dst) && EdgeKey(x)[2] == Text(x.kind);
      assert EdgeKey(y)[0] == Text(y.src) && EdgeKey(y)[1] == Text(y.dst) && EdgeKey(y)[2] == Text(y.kind);
    }
  }

  /** The filtered and truncated node list. */
  method SelectNodes(graph: Graph, resourceID: string, limit: int) returns (nodes: seq<Node>)
    requires graph.Valid()
    ensures exists ns :: FilteredNodes(ns, graph.nodes, resourceID) && nodes == Truncate(ns, limit)
  {
    hide WellFormed, StrictlySorted, KeepsNode;
    var listed := graph.Nodes();
    nodes := FilterByResource(listed, resourceID);
    ghost var ns := nodes;
    assert FilteredNodes(ns, graph.nodes, resourceID);
    hide FilteredNodes;
    if limit > 0 && |nodes| > limit {
      nodes := nodes[..limit];
    }
    assert nodes == Truncate(ns, limit);
  }

  /** The induced, sorted and truncated edge list. */
  method SelectEdges(graph: Graph, nodes: seq<Node>, limit: int,
                     ghost metrics: seq<MetricPoint>, ghost logs: seq<LogRecord>, ghost maxSkew: int) returns (edges: seq<Edge>)
    requires graph.Valid() && forall e :: e in graph.edges <==> IsEdge(e, metrics, logs, maxSkew)
    ensures exists es :: InducedEdges(es, nodes, metrics, logs, maxSkew) && edges == Truncate(es, limit)
  {
    WellFormedEdges(graph.nodes, graph.edges);
    hide WellFormed, StrictlySorted, IsEdge, HasNode, NoDuplicates;
    edges := InducedOn(nodes, graph.edges);
    ghost var es := edges;
    assert InducedEdges(es, nodes, metrics, logs, maxSkew);
    hide InducedEdges;
    if limit > 0 && |edges| > limit {
      edges := edges[..limit];
    }
    assert edges == Truncate(es, limit);
  }

  /** The query over the signals the store returned. */
  method AnswerQuery(metrics: seq<MetricPoint>, logs: seq<LogRecord>, q: Query, f: Format) returns (r: Result)
    ensures r.Found? && IsAnswer(metrics, logs, q, f, r)
  {
    hide AllNodes, IsEdge, WellFormed, MaxSkew, FilteredNodes, InducedEdges, Truncate;
    var graph := BuildCorrelationGraph(metrics, logs, q.maxSkew, f);
    var nodes := SelectNodes(graph, TrimSpace(q.resourceID), q.limitNodes);
    var edges := SelectEdges(graph, nodes, q.limitEdges, metrics, logs, MaxSkew(q.maxSkew));
    r := Found(nodes, edges, |metrics|, |logs|);
  }

  lemma WellFormedEdges(nodes: map<string, Node>, edges: seq<Edge>)
    requires WellFormed(nodes, edges)
    ensures NoDuplicates(edges)
  {
  }

  // ---------- the service ----------

  method ReadRecords(entries: seq<SignalStore.Entry>, ghost values: seq<LogRecord>) returns (records: seq<LogRecord>)
    requires SignalStore.Shows(entries, values)
    ensures records == values
  {
    records := [];
    for i := 0 to |entries|
      invariant records == values[..i]
    {
      var e := entries[i];
      var fields := map[];
      if e.fields != null {
        fields := e.fields.entries;
      }
      records := records + [e.base.(fields := fields)];
    }
  }

  class Service {
    const store: SignalStore.InMemoryStore?
    const format: Format

    constructor (store: SignalStore.InMemoryStore?, format: Format)
      ensures this.store == store && this.format == format
    {
      this.store, this.format := store, format;
    }

    method QueryGraph(q: Query) returns (r: Result)
      requires store != null ==> store.Valid()
      ensures r == Rejected <==>
        (q.start != ZERO_TIME && q.end != ZERO_TIME && q.start > q.end) || q.limitNodes < 0 || q.limitEdges < 0
      ensures r != Rejected && store == null ==> r == Found([], [], 0, 0)
      ensures r != Rejected && store != null ==> IsAnswer(
        SignalStore.MetricAnswer(store.sort, SignalStore.Last(store.maxMetrics, store.metricHistory), SignalStore.Query(q.start, q.end)),
        SignalStore.LogAnswer(store.sort, SignalStore.Last(store.maxLogs, store.logHistory), SignalStore.Query(q.start, q.end)),
        q, format, r)
    {
      hide IsAnswer, SignalStore.MetricAnswer, SignalStore.LogAnswer, Sorts;
      if q.start != ZERO_TIME && q.end != ZERO_TIME && q.start > q.end {
        return Rejected;
      }
      if q.limitNodes < 0 {
        return Rejected;
      }
      if q.limitEdges < 0 {
        return Rejected;
      }
      if store == null {
        return Found([], [], 0, 0);
      }
      var metrics := store.QueryMetricPoints(SignalStore.Query(q.start, q.end));
      var entries, values := store.QueryLogRecords(SignalStore.Query(q.start, q.end));
      var logs := ReadRecords(entries, values);
      r := AnswerQuery(metrics, logs, q, format);
    }
  }

  // ---------- the answer is canonical ----------

  lemma NodesUnique(a: seq<Node>, b: seq<Node>, all: map<string, Node>, resource: string)
    requires FilteredNodes(a, all, resource) && FilteredNodes(b, all, resource)
    ensures a == b
  {
    hide KeepsNode;
    StrictlySortedUnique(a, b, NodeKey);
  }

  lemma EdgesUnique(a: seq<Edge>, b: seq<Edge>, nodes: seq<Node>, metrics: seq<MetricPoint>, logs: seq<LogRecord>, maxSkew: int)
    requires InducedEdges(a, nodes, metrics, logs, maxSkew) && InducedEdges(b, nodes, metrics, logs, maxSkew)
    ensures a == b
  {
    hide IsEdge, HasNode;
    StrictlySortedUnique(a, b, EdgeKey);
  }

  /** One answer per signal lists and query, for every map iteration order of the build and of
      the node listing, under any limits. */
  lemma AnswerUnique(metrics: seq<MetricPoint>, logs: seq<LogRecord>, q: Query, f: Format, r1: Result, r2: Result)
    requires IsAnswer(metrics, logs, q, f, r1) && IsAnswer(metrics, logs, q, f, r2)
    ensures r1 == r2
  {
    hide AllNodes, FilteredNodes, InducedEdges, MaxSkew;
    var resource := TrimSpace(q.resourceID);
    var a :| FilteredNodes(a, AllNodes(metrics, logs, f), resource) && r1.nodes == Truncate(a, q.limitNodes);
    var b :| FilteredNodes(b, AllNodes(metrics, logs, f), resource) && r2.nodes == Truncate(b, q.limitNodes);
    NodesUnique(a, b, AllNodes(metrics, logs, f), resource);
    var c :| InducedEdges(c, r1.nodes, metrics, logs, MaxSkew(q.maxSkew)) && r1.edges == Truncate(c, q.limitEdges);
    var d :| InducedEdges(d, r2.nodes, metrics, logs, MaxSkew(q.maxSkew)) && r2.edges == Truncate(d, q.limitEdges);
    EdgesUnique(c, d, r1.nodes, metrics, logs, MaxSkew(q.maxSkew));
  }

  /** Asking twice over the same stored signals gets the same answer: no order in which a map is
      ranged over shows, and the library sort sees the same keys. */
  lemma StoredSignalsDetermineAnswer(sort: Sorter, ms: seq<MetricPoint>, rs: seq<LogRecord>, q: Query, f: Format, r1: Result, r2: Result)
    requires Sorts(sort)
    requires var range := SignalStore.Query(q.start, q.end);
      var metrics, logs := SignalStore.MetricAnswer(sort, ms, range), SignalStore.LogAnswer(sort, rs, range);
      IsAnswer(metrics, logs, q, f, r1) && IsAnswer(metrics, logs, q, f, r2)
    ensures r1 == r2
  {
    hide *;
    var range := SignalStore.Query(q.start, q.end);
    AnswerUnique(SignalStore.MetricAnswer(sort, ms, range), SignalStore.LogAnswer(sort, rs, range), q, f, r1, r2);
  }

  // ---------- the answer is closed ----------

  lemma TruncateElements<T>(s: seq<T>, limit: int)
    ensures Truncate(s, limit) <= s
    ensures forall x :: x in Truncate(s, limit) ==> x in s
  {
  }

  /** No returned edge dangles and none is invented, under any limits; without limits on the
      edges every edge between returned nodes is there. */
  lemma AnswerIsClosed(metrics: seq<MetricPoint>, logs: seq<LogRecord>, q: Query, f: Format, r: Result)
    requires IsAnswer(metrics, logs, q, f, r)
    ensures forall e :: e in r.edges ==>
      HasNode(r.nodes, e.src) && HasNode(r.nodes, e.dst) && IsEdge(e, metrics, logs, MaxSkew(q.maxSkew))
    ensures q.limitEdges <= 0 ==> forall e ::
      IsEdge(e, metrics, logs, MaxSkew(q.maxSkew)) && HasNode(r.nodes, e.src) && HasNode(r.nodes, e.dst) ==> e in r.edges
  {
    hide AllNodes, FilteredNodes, HasNode, IsEdge, MaxSkew;
    var es :| InducedEdges(es, r.nodes, metrics, logs, MaxSkew(q.maxSkew)) && r.edges == Truncate(es, q.limitEdges);
    TruncateElements(es, q.limitEdges);
  }

  /** A node of the graph that has the asked resource, or any when none is asked. */
  ghost predicate Passes(n: Node, metrics: seq<MetricPoint>, logs: seq<LogRecord>, q: Query, f: Format) {
    && n.id in AllNodes(metrics, logs, f) && AllNodes(metrics, logs, f)[n.id] == n
    && (TrimSpace(q.resourceID) == "" || ("resource_id" in n.attributes && n.attributes["resource_id"] == TrimSpace(q.resourceID)))
  }

  /** By source, then target, then kind. */
  predicate EdgeBefore(e: Edge, g: Edge) {
    StringLess(e.src, g.src) || (e.src == g.src && (StringLess(e.dst, g.dst) || (e.dst == g.dst && StringLess(e.kind, g.kind))))
  }

  lemma NodeKeyMeans(n: Node, m: Node)
    ensures Less(NodeKey(n), NodeKey(m)) <==> StringLess(n.id, m.id)
  {
    NothingLess();
    hide Less, StringLess;
    TextLess(n.id, [], m.id, []);
    assert NodeKey(n) == [Text(n.id)] + [] && NodeKey(m) == [Text(m.id)] + [];
  }

  lemma EdgeKeyMeans(e: Edge, g: Edge)
    ensures Less(EdgeKey(e), EdgeKey(g)) <==> EdgeBefore(e, g)
  {
    NothingLess();
    hide Less, StringLess;
    var x, y: Ordering.Key := [Text(e.kind)], [Text(g.kind)];
    assert x == [Text(e.kind)] + [] && y == [Text(g.kind)] + [];
    TextLess(e.kind, [], g.kind, []);
    TextLess(e.dst, x, g.dst, y);
    TextLess(e.src, [Text(e.dst)] + x, g.src, [Text(g.dst)] + y);
    assert EdgeKey(e) == [Text(e.src)] + ([Text(e.dst)] + x) && EdgeKey(g) == [Text(g.src)] + ([Text(g.dst)] + y);
  }

  /** The answer's nodes are the first of those that pass the filter, by id: all of them, or as many
      as a positive limit allows. */
  lemma FirstNodesReturned(metrics: seq<MetricPoint>, logs: seq<LogRecord>, q: Query, f: Format, r: Result)
    requires IsAnswer(metrics, logs, q, f, r)
    ensures forall i, j :: 0 <= i < j < |r.nodes| ==> StringLess(r.nodes[i].id, r.nodes[j].id)
    ensures forall n :: n in r.nodes ==> Passes(n, metrics, logs, q, f)
    ensures r.metricCount == |metrics| && r.logCount == |logs|
    ensures q.limitNodes > 0 ==> |r.nodes| <= q.limitNodes
    ensures forall n :: Passes(n, metrics, logs, q, f) && n !in r.nodes ==>
      q.limitNodes > 0 && |r.nodes| == q.limitNodes && forall m :: m in r.nodes ==> StringLess(m.id, n.id)
  {
    var all, resource := AllNodes(metrics, logs, f), TrimSpace(q.resourceID);
    hide AllNodes, InducedEdges, IsEdge, MaxSkew, Less, StringLess, NodeKey, TrimSpace;
    var ns :| FilteredNodes(ns, all, resource) && r.nodes == Truncate(ns, q.limitNodes);
    forall n, m ensures Less(NodeKey(n), NodeKey(m)) <==> StringLess(n.id, m.id) { NodeKeyMeans(n, m); }
    TruncateElements(ns, q.limitNodes);
  }

  /** Likewise the edges: the first by source, target and kind of those between returned nodes. */
  lemma FirstEdgesReturned(metrics: seq<MetricPoint>, logs: seq<LogRecord>, q: Query, f: Format, r: Result)
    requires IsAnswer(metrics, logs, q, f, r)
    ensures forall i, j :: 0 <= i < j < |r.edges| ==> EdgeBefore(r.edges[i], r.edges[j])
    ensures q.limitEdges > 0 ==> |r.edges| <= q.limitEdges
    ensures forall e :: IsEdge(e, metrics, logs, MaxSkew(q.maxSkew)) && HasNode(r.nodes, e.src) && HasNode(r.nodes, e.dst) && e !in r.edges ==>
      q.limitEdges > 0 && |r.edges| == q.limitEdges && forall g :: g in r.edges ==> EdgeBefore(g, e)
  {
    hide AllNodes, FilteredNodes, HasNode, IsEdge, MaxSkew, Less, EdgeBefore, EdgeKey;
    var es :| InducedEdges(es, r.nodes, metrics, logs, MaxSkew(q.maxSkew)) && r.edges == Truncate(es, q.limitEdges);
    forall e, g ensures Less(EdgeKey(e), EdgeKey(g)) <==> EdgeBefore(e, g) { EdgeKeyMeans(e, g); }
    TruncateElements(es, q.limitEdges);
  }

  /** Between returned nodes an answer without an edge limit has exactly the correlations of one
      resource within the asked skew, two minutes when none is asked. */
  lemma AnswerCorrelatesIff(metrics: seq<MetricPoint>, logs: seq<LogRecord>, q: Query, f: Format, r: Result, src: string, dst: string)
    requires IsAnswer(metrics, logs, q, f, r) && q.limitEdges <= 0 && HasNode(r.nodes, src) && HasNode(r.nodes, dst)
    requires InReach(metrics, logs) && q.maxSkew <= MAX_INT64
    ensures Edge(src, dst, "correlated_with") in r.edges
      <==> NearPair(src, dst, metrics, logs, if q.maxSkew > 0 then q.maxSkew else 2 * MINUTE)
  {
    AnswerIsClosed(metrics, logs, q, f, r);
    CorrelatedIff(src, dst, metrics, logs, q.maxSkew);
    hide IsAnswer, HasNode, IsEdge, MaxSkew, NearPair, InReach;
  }

  lemma NodeReturnedIff(metrics: seq<MetricPoint>, logs: seq<LogRecord>, q: Query, f: Format, r: Result, id: string)
    requires IsAnswer(metrics, logs, q, f, r) && q.limitNodes <= 0
    ensures HasNode(r.nodes, id)
      <==> id in AllNodes(metrics, logs, f) && KeepsNode(AllNodes(metrics, logs, f)[id], TrimSpace(q.resourceID))
  {
    hide AllNodes, InducedEdges, KeepsNode, IsEdge, MaxSkew, StrictlySorted;
    var all, resource := AllNodes(metrics, logs, f), TrimSpace(q.resourceID);
    var ns :| FilteredNodes(ns, all, resource) && r.nodes == Truncate(ns, q.limitNodes);
    AllNodesKeyed(metrics, logs, f);
    if id in all && KeepsNode(all[id], resource) {
      assert all[id] in ns;
    }
  }

  lemma AllNodesKeyed(metrics: seq<MetricPoint>, logs: seq<LogRecord>, f: Format)
    ensures forall id :: id in AllNodes(metrics, logs, f) ==> AllNodes(metrics, logs, f)[id].id == id
  {
    NodesDescribed(metrics, logs, f);
  }

  /** Without limits the filtered answer is a union of whole connected components: an edge of the
      graph has either both ends returned or neither, and is returned in the first case. */
  lemma FilteredAnswerIsWholeComponents(metrics: seq<MetricPoint>, logs: seq<LogRecord>, q: Query, f: Format, r: Result, e: Edge)
    requires IsAnswer(metrics, logs, q, f, r) && q.limitNodes <= 0 && q.limitEdges <= 0
    requires LogsConsistent(logs) && IsEdge(e, metrics, logs, MaxSkew(q.maxSkew))
    ensures HasNode(r.nodes, e.src) <==> HasNode(r.nodes, e.dst)
    ensures HasNode(r.nodes, e.src) <==> e in r.edges
  {
    hide AllNodes, IsAnswer, HasNode, IsEdge, MaxSkew, LogsConsistent;
    EdgeWithinResource(metrics, logs, f, MaxSkew(q.maxSkew), e);
    NodeReturnedIff(metrics, logs, q, f, r, e.src);
    NodeReturnedIff(metrics, logs, q, f, r, e.dst);
    AnswerIsClosed(metrics, logs, q, f, r);
  }
}

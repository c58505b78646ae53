/** The metric collector: query ids, their attribution to targets, and the points of an output. */
module MetricsCollector {
  import opened GoTime
  import opened Text
  import opened Telemetry
  import opened Retry

  const KIND_EC2 := "ec2"
  const KIND_ECS_SERVICE := "ecs_service"
  const DEFAULT_WINDOW: int := 5 * MINUTE

  datatype ResourceTarget = ResourceTarget(kind: string, instanceID: string, clusterName: string, serviceName: string)

  datatype MetricSpec = MetricSpec(namespace: string, name: string, dimensions: seq<(string, string)>)

  datatype Query = Query(id: string, spec: MetricSpec)

  datatype Descriptor = Descriptor(resourceID: string, namespace: string, metricName: string)

  /** One series of the backend's output. */
  datatype MetricResult = MetricResult(id: Option<string>, values: seq<real>, timestamps: seq<Time>)

  // ---------- which metrics a target has ----------

  function MetricSpecsForTarget(t: ResourceTarget): (seq<MetricSpec>, string) {
    if t.kind == KIND_EC2 then
      if t.instanceID == "" then ([], "")
      else
        var d := [("InstanceId", t.instanceID)];
        ([MetricSpec("AWS/EC2", "CPUUtilization", d), MetricSpec("AWS/EC2", "NetworkIn", d), MetricSpec("AWS/EC2", "NetworkOut", d)],
         t.instanceID)
    else if t.kind == KIND_ECS_SERVICE then
      if t.clusterName == "" || t.serviceName == "" then ([], "")
      else
        var d := [("ClusterName", t.clusterName), ("ServiceName", t.serviceName)];
        ([MetricSpec("AWS/ECS", "CPUUtilization", d), MetricSpec("AWS/ECS", "MemoryUtilization", d)],
         t.clusterName + "/" + t.serviceName)
    else ([], "")
  }

  /** A target with one of its metrics. */
  datatype Wanted = Wanted(target: ResourceTarget, spec: MetricSpec)

  function WantedOf(t: ResourceTarget): (ws: seq<Wanted>)
    ensures |ws| == |MetricSpecsForTarget(t).0|
    ensures forall i :: 0 <= i < |ws| ==> ws[i] == Wanted(t, MetricSpecsForTarget(t).0[i])
  {
    var specs := MetricSpecsForTarget(t).0;
    seq(|specs|, i requires 0 <= i < |specs| => Wanted(t, specs[i]))
  }

  /** Every (target, metric) pair, in query order. */
  function AllWanted(targets: seq<ResourceTarget>): seq<Wanted> {
    if targets == [] then [] else AllWanted(targets[..|targets| - 1]) + WantedOf(targets[|targets| - 1])
  }

  function QueryID(k: nat): string {
    "m" + Decimal(k + 1)
  }

  function DescriptorOf(w: Wanted): Descriptor {
    Descriptor(MetricSpecsForTarget(w.target).1, w.spec.namespace, w.spec.name)
  }

  lemma QueryIDInjective(i: nat, j: nat)
    requires QueryID(i) == QueryID(j)
    ensures i == j
  {
    assert QueryID(i)[1..] == Decimal(i + 1) && QueryID(j)[1..] == Decimal(j + 1);
    DecimalInjective(i + 1, j + 1);
  }

  // ---------- building queries ----------

  /** The queries and descriptors are in one-to-one correspondence with the wanted pairs. */
  ghost predicate Corresponds(queries: seq<Query>, descriptors: map<string, Descriptor>, wanted: seq<Wanted>) {
    && |queries| == |wanted| == |descriptors|
    && (forall k :: 0 <= k < |wanted| ==> queries[k] == Query(QueryID(k), wanted[k].spec))
    && (forall k :: 0 <= k < |wanted| ==> QueryID(k) in descriptors && descriptors[QueryID(k)] == DescriptorOf(wanted[k]))
    && IDsOf(descriptors, wanted)
  }

  lemma CorrespondsStep(queries: seq<Query>, descriptors: map<string, Descriptor>, wanted: seq<Wanted>, w: Wanted)
    requires Corresponds(queries, descriptors, wanted)
    ensures var id := QueryID(|queries|);
      Corresponds(queries + [Query(id, w.spec)], descriptors[id := DescriptorOf(w)], wanted + [w])
  {
    hide DescriptorOf, QueryID, IDsOf;
    var id := QueryID(|queries|);
    assert id !in descriptors by { NewIDIsNew(queries, descriptors, wanted); }
    forall k | 0 <= k < |wanted| ensures QueryID(k) != id {
      if QueryID(k) == id { QueryIDInjective(k, |queries|); }
    }
    IDsStep(descriptors, wanted, w);
  }

  lemma NewIDIsNew(queries: seq<Query>, descriptors: map<string, Descriptor>, wanted: seq<Wanted>)
    requires Corresponds(queries, descriptors, wanted)
    ensures QueryID(|queries|) !in descriptors
  {
    hide DescriptorOf, QueryID;
    if QueryID(|queries|) in descriptors {
      var k :| 0 <= k < |wanted| && QueryID(|queries|) == QueryID(k);
      QueryIDInjective(k, |queries|);
    }
  }

  /** The ids of the descriptors are those of the first `|wanted|` queries. */
  ghost predicate IDsOf(descriptors: map<string, Descriptor>, wanted: seq<Wanted>) {
    forall id :: id in descriptors ==> exists k :: 0 <= k < |wanted| && id == QueryID(k)
  }

  lemma IDsStep(descriptors: map<string, Descriptor>, wanted: seq<Wanted>, w: Wanted)
    requires IDsOf(descriptors, wanted)
    ensures IDsOf(descriptors[QueryID(|wanted|) := DescriptorOf(w)], wanted + [w])
  {
    hide DescriptorOf, QueryID;
    var all := wanted + [w];
    forall id | id in descriptors ensures exists k :: 0 <= k < |all| && id == QueryID(k) {
      var k :| 0 <= k < |wanted| && id == QueryID(k);
      assert k < |all|;
    }
    assert |wanted| < |all|;
  }

  /** The queries so far: those of the earlier targets and of the first `i` metrics of this one. */
  ghost predicate Partial(qs: seq<Query>, ds: map<string, Descriptor>, before: seq<Wanted>, target: ResourceTarget, i: nat) {
    i <= |WantedOf(target)| && |qs| == |before| + i && Corresponds(qs, ds, before + WantedOf(target)[..i])
  }

  lemma PartialStep(qs: seq<Query>, ds: map<string, Descriptor>, before: seq<Wanted>, target: ResourceTarget, i: nat)
    requires Partial(qs, ds, before, target, i) && i < |WantedOf(target)|
    ensures var (specs, resourceID) := MetricSpecsForTarget(target);
      var id := "m" + Decimal(|qs| + 1);
      Partial(qs + [Query(id, specs[i])], ds[id := Descriptor(resourceID, specs[i].namespace, specs[i].name)], before, target, i + 1)
  {
    hide MetricSpecsForTarget, Corresponds;
    var mine := WantedOf(target);
    CorrespondsStep(qs, ds, before + mine[..i], mine[i]);
    assert before + mine[..i] + [mine[i]] == before + mine[..i + 1];
  }

  lemma PartialEnds(qs: seq<Query>, ds: map<string, Descriptor>, before: seq<Wanted>, target: ResourceTarget)
    ensures Corresponds(qs, ds, before) ==> Partial(qs, ds, before, target, 0)
    ensures Partial(qs, ds, before, target, |MetricSpecsForTarget(target).0|) ==> Corresponds(qs, ds, before + WantedOf(target))
  {
    assert Corresponds(qs, ds, before) ==> |qs| == |before|;
    hide MetricSpecsForTarget, Corresponds;
    var mine := WantedOf(target);
    assert before + mine[..0] == before && mine[..|mine|] == mine;
  }

  /** The inner loop: the queries of one target. */
  method AddQueries(target: ResourceTarget, queries: seq<Query>, descriptors: map<string, Descriptor>, ghost before: seq<Wanted>)
      returns (qs: seq<Query>, ds: map<string, Descriptor>)
    requires Corresponds(queries, descriptors, before)
    ensures Corresponds(qs, ds, before + WantedOf(target))
  {
    hide MetricSpecsForTarget, Corresponds, Partial, WantedOf;
    qs, ds := queries, descriptors;
    var metrics, resourceID := MetricSpecsForTarget(target).0, MetricSpecsForTarget(target).1;
    var queryIndex := |queries|;
    PartialEnds(qs, ds, before, target);
    for i := 0 to |metrics|
      invariant queryIndex == |qs|
      invariant Partial(qs, ds, before, target, i)
    {
      var metric := metrics[i];
      PartialStep(qs, ds, before, target, i);
      queryIndex := queryIndex + 1;
      var queryID := "m" + Decimal(queryIndex);
      qs := qs + [Query(queryID, metric)];
      ds := ds[queryID := Descriptor(resourceID, metric.namespace, metric.name)];
    }
    PartialEnds(qs, ds, before, target);
  }

  method BuildMetricQueries(targets: seq<ResourceTarget>) returns (queries: seq<Query>, descriptors: map<string, Descriptor>)
    ensures Corresponds(queries, descriptors, AllWanted(targets))
  {
    queries, descriptors := [], map[];
    for t := 0 to |targets|
      invariant Corresponds(queries, descriptors, AllWanted(targets[..t]))
    {
      hide Corresponds, WantedOf;
      assert targets[..t + 1][..t] == targets[..t];
      queries, descriptors := AddQueries(targets[t], queries, descriptors, AllWanted(targets[..t]));
    }
    assert targets[..|targets|] == targets;
  }

  // ---------- attributing points ----------

  function Pairs(r: MetricResult): nat {
    Min(|r.values|, |r.timestamps|)
  }

  /** The points of one series: the common prefix of its values and instants, under its label. */
  function Labelled(d: Descriptor, r: MetricResult): (ps: seq<MetricPoint>)
    ensures |ps| == Pairs(r)
  {
    seq(Pairs(r), i requires 0 <= i < Pairs(r) =>
      MetricPoint(d.resourceID, d.namespace, d.metricName, r.timestamps[i], r.values[i]))
  }

  function PointsOfResult(r: MetricResult, descriptors: map<string, Descriptor>): seq<MetricPoint> {
    if r.id.None? || r.id.value !in descriptors then [] else Labelled(descriptors[r.id.value], r)
  }

  function PointsOf(results: seq<MetricResult>, descriptors: map<string, Descriptor>): seq<MetricPoint> {
    if results == [] then []
    else PointsOf(results[..|results| - 1], descriptors) + PointsOfResult(results[|results| - 1], descriptors)
  }

  /** The inner loop: the points of one series under its label. */
  method AppendPoints(before: seq<MetricPoint>, descriptor: Descriptor, result: MetricResult) returns (points: seq<MetricPoint>)
    ensures points == before + Labelled(descriptor, result)
  {
    var limit := |result.values|;
    if |result.timestamps| < limit {
      limit := |result.timestamps|;
    }
    points := before;
    ghost var mine := Labelled(descriptor, result);
    for i := 0 to limit
      invariant points == before + mine[..i]
    {
      assert mine[..i + 1] == mine[..i] + [mine[i]];
      points := points + [MetricPoint(descriptor.resourceID, descriptor.namespace, descriptor.metricName,
                                      result.timestamps[i], result.values[i])];
    }
    assert mine[..limit] == mine;
  }

  method MetricPointsFromOutput(results: seq<MetricResult>, descriptors: map<string, Descriptor>) returns (points: seq<MetricPoint>)
    ensures points == PointsOf(results, descriptors)
  {
    hide Labelled;
    points := [];
    for k := 0 to |results|
      invariant points == PointsOf(results[..k], descriptors)
    {
      var result := results[k];
      assert results[..k + 1][..k] == results[..k];
      if result.id.None? { continue; }
      if result.id.value !in descriptors { continue; }
      points := AppendPoints(points, descriptors[result.id.value], result);
    }
    assert results[..|results|] == results;
  }

  /** What a series contributes under the labels of `wanted`: its own target and metric when its
      id is the id of a query, nothing otherwise. */
  ghost function Contribution(r: MetricResult, wanted: seq<Wanted>): seq<MetricPoint> {
    if k :| 0 <= k < |wanted| && r.id == Some(QueryID(k)) then Labelled(DescriptorOf(wanted[k]), r) else []
  }

  ghost function Contributions(results: seq<MetricResult>, wanted: seq<Wanted>): seq<MetricPoint> {
    if results == [] then []
    else Contributions(results[..|results| - 1], wanted) + Contribution(results[|results| - 1], wanted)
  }

  /** A series is attributed to the one query whose id it carries. */
  lemma ResultAttribution(r: MetricResult, queries: seq<Query>, descriptors: map<string, Descriptor>, wanted: seq<Wanted>)
    requires Corresponds(queries, descriptors, wanted)
    ensures PointsOfResult(r, descriptors) == Contribution(r, wanted)
    ensures forall k :: 0 <= k < |wanted| && r.id == Some(QueryID(k)) ==>
      Contribution(r, wanted) == Labelled(DescriptorOf(wanted[k]), r)
  {
    hide DescriptorOf, QueryID, Labelled;
    forall k | 0 <= k < |wanted| && r.id == Some(QueryID(k))
      ensures Contribution(r, wanted) == Labelled(DescriptorOf(wanted[k]), r)
    {
      var j :| 0 <= j < |wanted| && r.id == Some(QueryID(j)) && Contribution(r, wanted) == Labelled(DescriptorOf(wanted[j]), r);
      QueryIDInjective(j, k);
    }
  }

  /** For any backend output, the points are in order the labelled series of the known queries,
      each under its own target and metric; unknown ids contribute nothing. */
  lemma {:induction false} OutputAttribution(results: seq<MetricResult>, queries: seq<Query>, descriptors: map<string, Descriptor>, targets: seq<ResourceTarget>)
    requires Corresponds(queries, descriptors, AllWanted(targets))
    ensures PointsOf(results, descriptors) == Contributions(results, AllWanted(targets))
    decreases |results|
  {
    hide Corresponds, AllWanted, Contribution, PointsOfResult;
    if results != [] {
      OutputAttribution(results[..|results| - 1], queries, descriptors, targets);
      ResultAttribution(results[|results| - 1], queries, descriptors, AllWanted(targets));
    }
  }

  function CountOf(results: seq<MetricResult>, descriptors: map<string, Descriptor>): nat {
    if results == [] then 0
    else
      var r := results[|results| - 1];
      CountOf(results[..|results| - 1], descriptors) + (if r.id.Some? && r.id.value in descriptors then Pairs(r) else 0)
  }

  /** The number of points is the sum of the common prefixes of the known series. */
  lemma {:induction false} PointCount(results: seq<MetricResult>, descriptors: map<string, Descriptor>)
    ensures |PointsOf(results, descriptors)| == CountOf(results, descriptors)
    decreases |results|
  {
    if results != [] {
      PointCount(results[..|results| - 1], descriptors);
    }
  }

  // ---------- collecting ----------

  /** Every point of an answer is the i-th instant and value of a series that carries a query's id,
      under that query's metric and its target's name. */
  lemma {:induction false} PointsComeFromSeries(results: seq<MetricResult>, wanted: seq<Wanted>, p: MetricPoint)
    requires p in Contributions(results, wanted)
    ensures exists n, k, i: nat ::
      && 0 <= n < |results| && 0 <= k < |wanted| && results[n].id == Some("m" + Decimal(k + 1))
      && i < |results[n].values| && i < |results[n].timestamps|
      && p.timestamp == results[n].timestamps[i] && p.value == results[n].values[i]
      && p.namespace == wanted[k].spec.namespace && p.metricName == wanted[k].spec.name
      && p.resourceID == NameOf(wanted[k].target)
    decreases |results|
  {
    var last := |results| - 1;
    hide Contribution, NameOf, Decimal;
    if p in Contribution(results[last], wanted) {
      var k, i := SeriesPoint(results[last], wanted, p);
    } else {
      PointsComeFromSeries(results[..last], wanted, p);
      var n, k, i: nat :| 0 <= n < last && 0 <= k < |wanted| && results[..last][n].id == Some("m" + Decimal(k + 1))
        && i < |results[..last][n].values| && i < |results[..last][n].timestamps|
        && p.timestamp == results[..last][n].timestamps[i] && p.value == results[..last][n].values[i]
        && p.namespace == wanted[k].spec.namespace && p.metricName == wanted[k].spec.name
        && p.resourceID == NameOf(wanted[k].target);
      assert results[..last][n] == results[n];
    }
  }

  lemma SeriesPoint(r: MetricResult, wanted: seq<Wanted>, p: MetricPoint) returns (k: nat, i: nat)
    requires p in Contribution(r, wanted)
    ensures k < |wanted| && r.id == Some("m" + Decimal(k + 1)) && i < |r.values| && i < |r.timestamps|
    ensures p.timestamp == r.timestamps[i] && p.value == r.values[i]
    ensures p.namespace == wanted[k].spec.namespace && p.metricName == wanted[k].spec.name && p.resourceID == NameOf(wanted[k].target)
  {
    assert exists j :: 0 <= j < |wanted| && r.id == Some(QueryID(j));
    var j :| 0 <= j < |wanted| && r.id == Some(QueryID(j)) && Contribution(r, wanted) == Labelled(DescriptorOf(wanted[j]), r);
    k := j;
    NameIsLabel(wanted[k]);
    hide MetricSpecsForTarget, NameOf, Decimal;
    var points := Labelled(DescriptorOf(wanted[k]), r);
    i :| i < |points| && points[i] == p;
  }

  /** What points of a target are filed under: the instance, or the cluster and service. */
  function NameOf(t: ResourceTarget): string {
    if t.kind == "ec2" then t.instanceID
    else if t.kind == "ecs_service" && t.clusterName != "" && t.serviceName != "" then t.clusterName + "/" + t.serviceName
    else ""
  }

  lemma NameIsLabel(w: Wanted)
    ensures DescriptorOf(w).resourceID == NameOf(w.target)
  {
  }

  /** An instance is asked for three metrics by its id, a service for two by its cluster and name,
      and nothing else is asked for. */
  lemma TargetsAreAskedFor(t: ResourceTarget)
    ensures t.kind == "ec2" && t.instanceID != "" ==>
      var d := [("InstanceId", t.instanceID)];
      QueriesOf(AllWanted([t])) == [Query("m1", MetricSpec("AWS/EC2", "CPUUtilization", d)),
                                    Query("m2", MetricSpec("AWS/EC2", "NetworkIn", d)), Query("m3", MetricSpec("AWS/EC2", "NetworkOut", d))]
    ensures t.kind == "ecs_service" && t.clusterName != "" && t.serviceName != "" ==>
      var d := [("ClusterName", t.clusterName), ("ServiceName", t.serviceName)];
      QueriesOf(AllWanted([t])) == [Query("m1", MetricSpec("AWS/ECS", "CPUUtilization", d)), Query("m2", MetricSpec("AWS/ECS", "MemoryUtilization", d))]
    ensures !(t.kind == "ec2" && t.instanceID != "") && !(t.kind == "ecs_service" && t.clusterName != "" && t.serviceName != "") ==>
      QueriesOf(AllWanted([t])) == []
  {
    assert "ec2" != "ecs_service" by { assert |"ec2"| == 3; }
    assert Digit(1) == '1' && Digit(2) == '2' && Digit(3) == '3';
    assert Decimal(1) == "1" && Decimal(2) == "2" && Decimal(3) == "3";
    assert QueryID(0) == "m1" && QueryID(1) == "m2" && QueryID(2) == "m3";
    assert [t][..0] == [] && AllWanted([t][..0]) == [];
    assert AllWanted([t]) == WantedOf(t);
    hide Decimal;
  }

  /** The request of a collection. */
  datatype Input = Input(start: Time, end: Time, queries: seq<Query>)

  datatype Answer = Points(points: seq<MetricPoint>) | Error(reason: Failure)

  /** The queries of the wanted pairs, numbered in order. */
  function QueriesOf(wanted: seq<Wanted>): (qs: seq<Query>)
    ensures |qs| == |wanted| && forall k :: 0 <= k < |qs| ==> qs[k] == Query(QueryID(k), wanted[k].spec)
  {
    seq(|wanted|, k requires 0 <= k < |wanted| => Query(QueryID(k), wanted[k].spec))
  }

  function InputFor(wanted: seq<Wanted>, window: int, now: Time): Input {
    Input(now - (if window <= 0 then DEFAULT_WINDOW else window), now, QueriesOf(wanted))
  }

  ghost function AnswerOf(result: Result<seq<MetricResult>>, wanted: seq<Wanted>): Answer {
    match result
    case Failed(reason) => Error(reason)
    case Success(results) => Points(Contributions(results, wanted))
  }

  class Client {
    const world: World<seq<MetricResult>>
    var requests: seq<Input>

    constructor (world: World<seq<MetricResult>>)
      ensures this.world == world && requests == []
    {
      this.world := world;
      requests := [];
    }

    method GetMetricData(input: Input) returns (r: Response<seq<MetricResult>>)
      modifies this
      ensures requests == old(requests) + [input] && r == world.script(|old(requests)|)
    {
      r := world.script(|requests|);
      requests := requests + [input];
    }
  }

  class RetryState {
    var remainingBudget: int

    constructor (budget: int)
      ensures remainingBudget == budget
    {
      remainingBudget := budget;
    }
  }

  class Collector {
    const client: Client
    const cfg: Settings
    var throttledResponses: nat
    var retryAttempts: nat
    var retryBudgetExceeded: nat
    var throttleDrops: nat
    ghost var slept: seq<int>

    constructor (client: Client, cfg: Config)
      requires InInt64(cfg.initialBackoff) && InInt64(cfg.maxBackoff)
      ensures this.client == client && this.cfg == Clamp(cfg)
      ensures throttledResponses == retryAttempts == retryBudgetExceeded == throttleDrops == 0 && slept == []
    {
      this.client := client;
      this.cfg := Clamp(cfg);
      throttledResponses, retryAttempts, retryBudgetExceeded, throttleDrops, slept := 0, 0, 0, 0, [];
    }

    /** Everything counted so far. */
    ghost function Account(): Tally
      reads this, client
    {
      Tally(|client.requests|, throttledResponses, retryAttempts, retryBudgetExceeded, throttleDrops, slept)
    }

    /** One turn of the retry loop: a final result, or a consumed retry and a finished wait. */
    method Attempt(input: Input, state: RetryState, attempt: int, backoff: int)
        returns (finished: bool, result: Result<seq<MetricResult>>)
      requires 1 <= attempt <= cfg.maxAttempts
      modifies this, client, state
      ensures client.requests == old(client.requests) + [input]
      ensures var run := Attempts(cfg, client.world, |old(client.requests)|, attempt, backoff, old(state.remainingBudget));
        if finished then
          && result == run.result && run.calls == 1 && Account() == Plus(old(Account()), Of(run))
          && state.remainingBudget == old(state.remainingBudget) - run.retried
        else
          var delay := Delay(cfg, client.world, |old(client.requests)|, backoff);
          && attempt < cfg.maxAttempts
          && run == AfterRetry(delay, Attempts(cfg, client.world, |client.requests|, attempt + 1,
                                               NextBackoff(backoff, cfg.maxBackoff), state.remainingBudget))
          && Account() == Plus(old(Account()), Tally(1, 1, 1, 0, 0, [delay]))
          && state.remainingBudget == old(state.remainingBudget) - 1
    {
      hide Jittered, NextBackoff, AfterRetry, Attempts;
      ghost var n := |client.requests|;
      AttemptsOnce(cfg, client.world, n, attempt, backoff, state.remainingBudget);
      result := Failed(ClientError);
      var response := client.GetMetricData(input);
      assert |client.requests| - 1 == n;
      if response.Ok? {
        return true, Success(response.value);
      }
      if !response.Throttled? {
        return true, Failed(ClientError);
      }
      throttledResponses := throttledResponses + 1;
      if attempt == cfg.maxAttempts {
        throttleDrops := throttleDrops + 1;
        return true, Failed(ThrottledOut);
      }
      if state.remainingBudget <= 0 {
        retryBudgetExceeded := retryBudgetExceeded + 1;
        throttleDrops := throttleDrops + 1;
        return true, Failed(BudgetExhausted);
      }
      state.remainingBudget := state.remainingBudget - 1;
      retryAttempts := retryAttempts + 1;
      var delay := Jittered(backoff, cfg.jitterFraction, client.world.rand(|client.requests| - 1));
      if client.world.doneBefore(|client.requests| - 1) {
        return true, Failed(Cancelled);
      }
      slept := slept + [delay];
      if client.world.doneAfter(|client.requests| - 1) {
        return true, Failed(Cancelled);
      }
      finished := false;
    }

    /** The whole retried call; the loop never falls through. */
    method GetMetricDataWithRetry(input: Input, state: RetryState)
        returns (result: Result<seq<MetricResult>>, ghost run: Run<seq<MetricResult>>)
      modifies this, client, state
      ensures run == Call(cfg, client.world, |old(client.requests)|, old(state.remainingBudget)) && result == run.result
      ensures client.requests == old(client.requests) + Repeat(input, run.calls)
      ensures state.remainingBudget == old(state.remainingBudget) - run.retried
      ensures Account() == Plus(old(Account()), Of(run))
    {
      run := Call(cfg, client.world, |client.requests|, state.remainingBudget);
      var backoff := cfg.initialBackoff;
      var attempt := 1;
      result := Failed(ClientError);
      ghost var rest := run;
      hide Attempts, NextBackoff, Jittered, Delay;
      while attempt <= cfg.maxAttempts
        invariant 1 <= attempt <= cfg.maxAttempts
        invariant rest == Attempts(cfg, client.world, |client.requests|, attempt, backoff, state.remainingBudget)
        invariant run.result == rest.result && run.calls == attempt - 1 + rest.calls
        invariant client.requests == old(client.requests) + Repeat(input, attempt - 1)
        invariant state.remainingBudget - rest.retried == old(state.remainingBudget) - run.retried
        invariant Plus(Account(), Of(rest)) == Plus(old(Account()), Of(run))
        decreases cfg.maxAttempts - attempt
      {
        ghost var before := Account();
        var finished, r := Attempt(input, state, attempt, backoff);
        if finished {
          return r, run;
        }
        backoff := NextBackoff(backoff, cfg.maxBackoff);
        attempt := attempt + 1;
        rest := Attempts(cfg, client.world, |client.requests|, attempt, backoff, state.remainingBudget);
        RetryAssociates(before, Account(), rest);
      }
      assert false;  // the "unreachable retry state" return
    }

    /** Targets without metrics send nothing. Any other collection is one retried call for all
        wanted pairs, and its answer attributes what came back. */
    method Collect(targets: seq<ResourceTarget>, window: int, now: Time) returns (answer: Answer)
      modifies this, client
      ensures AllWanted(targets) == [] ==>
        answer == Points([]) && client.requests == old(client.requests) && Account() == old(Account())
      ensures AllWanted(targets) != [] ==>
        var run := Call(cfg, client.world, |old(client.requests)|, cfg.maxRetryBudget);
        && answer == AnswerOf(run.result, AllWanted(targets))
        && client.requests == old(client.requests) + Repeat(InputFor(AllWanted(targets), window, now), run.calls)
        && Account() == Plus(old(Account()), Of(run))
      ensures forall k :: |old(client.requests)| <= k < |client.requests| ==>
        client.requests[k] == Input(now - (if window <= 0 then 5 * MINUTE else window), now, QueriesOf(AllWanted(targets)))
    {
      hide Call, Corresponds;
      if |targets| == 0 {
        return Points([]);
      }
      var length := window;
      if length <= 0 {
        length := DEFAULT_WINDOW;
      }
      var queries, descriptors := BuildMetricQueries(targets);
      QueriesAre(queries, descriptors, AllWanted(targets));
      if |queries| == 0 {
        return Points([]);
      }
      var state := new RetryState(cfg.maxRetryBudget);
      var result, run := GetMetricDataWithRetry(Input(now - length, now, queries), state);
      if result.Failed? {
        return Error(result.reason);
      }
      var points := MetricPointsFromOutput(result.value, descriptors);
      OutputAttribution(result.value, queries, descriptors, targets);
      answer := Points(points);
    }
  }

  lemma QueriesAre(queries: seq<Query>, descriptors: map<string, Descriptor>, wanted: seq<Wanted>)
    requires Corresponds(queries, descriptors, wanted)
    ensures queries == QueriesOf(wanted)
  {
    hide QueryID;
  }

  /** With a budget for every retry the attempt limit allows, a poll never ends in an exhausted
      budget; the default budget is such a budget. */
  lemma BudgetNeverExhausted(cfg: Settings, world: World<seq<MetricResult>>, calls: nat)
    requires cfg.maxRetryBudget >= cfg.maxAttempts - 1
    ensures Call(cfg, world, calls, cfg.maxRetryBudget).result != Failed(BudgetExhausted)
  {
    BudgetMattersIff<seq<MetricResult>>(cfg, calls, cfg.maxRetryBudget);
  }
}

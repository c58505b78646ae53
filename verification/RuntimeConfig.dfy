/** The ingestion settings: defaults for unset values, and what validation promises the ingestors. */
module RuntimeConfig {
  import opened GoTime
  import opened Text
  import MetricTargets
  import MetricsCollector

  const DEFAULT_COLLECT_WINDOW: int := 5 * MINUTE
  const DEFAULT_WARN: real := 70.0
  const DEFAULT_ERROR: real := 90.0

  /** `Window`: how far back a first poll reaches. */
  function Window(configured: int): (w: int)
    ensures w > 0 && (configured > 0 ==> w == configured) && (configured <= 0 ==> w == 5 * MINUTE)
  {
    if configured <= 0 then DEFAULT_COLLECT_WINDOW else configured
  }

  function WarnThreshold(configured: real): (t: real)
    ensures t > 0.0 && (configured > 0.0 ==> t == configured) && (configured <= 0.0 ==> t == 70.0)
  {
    if configured <= 0.0 then DEFAULT_WARN else configured
  }

  function ErrorThreshold(configured: real): (t: real)
    ensures t > 0.0 && (configured > 0.0 ==> t == configured) && (configured <= 0.0 ==> t == 90.0)
  {
    if configured <= 0.0 then DEFAULT_ERROR else configured
  }

  datatype Settings = Settings(mode: string, logGroupName: string, metricTargets: string, utilizationWarn: real, utilizationError: real)

  datatype Verdict =
    | Valid
    | NoLogGroup
    | BadTargets(error: MetricTargets.TargetError)
    | NoTargets
    | ThresholdsCross
    | UnsupportedMode(mode: string)

  function Mode(s: Settings): string {
    var mode := ToLower(TrimSpace(s.mode));
    if mode == "" then "disabled" else mode
  }

  function CheckThresholds(s: Settings): Verdict {
    if WarnThreshold(s.utilizationWarn) >= ErrorThreshold(s.utilizationError) then ThresholdsCross else Valid
  }

  function CheckTargets(s: Settings): Verdict {
    match MetricTargets.Parse(s.metricTargets)
    case Err(e) => BadTargets(e)
    case Ok(targets) => if targets == [] then NoTargets else CheckThresholds(s)
  }

  /** `Validate`. */
  function Validate(s: Settings): Verdict {
    var mode := Mode(s);
    if mode == "disabled" then Valid
    else if mode == "cloudwatch_logs" then
      if TrimSpace(s.logGroupName) == "" then NoLogGroup else CheckThresholds(s)
    else if mode == "cloudwatch_metrics" then CheckTargets(s)
    else if mode == "cloudwatch_all" then
      if TrimSpace(s.logGroupName) == "" then NoLogGroup else CheckTargets(s)
    else UnsupportedMode(s.mode)
  }

  /** The first fault decides: an unknown mode, a missing log group where logs are read, malformed or
      missing targets where metrics are, and then thresholds out of order. */
  lemma FirstFaultDecides(s: Settings)
    ensures var mode, targets := ToLower(TrimSpace(s.mode)), MetricTargets.Parse(s.metricTargets);
      var logs, metrics := mode in {"cloudwatch_logs", "cloudwatch_all"}, mode in {"cloudwatch_metrics", "cloudwatch_all"};
      Validate(s)
      == if mode !in {"", "disabled"} && !logs && !metrics then UnsupportedMode(s.mode)
         else if logs && TrimSpace(s.logGroupName) == "" then NoLogGroup
         else if metrics && targets.Err? then BadTargets(targets.error)
         else if metrics && targets.value == [] then NoTargets
         else if (logs || metrics) && WarnThreshold(s.utilizationWarn) >= ErrorThreshold(s.utilizationError) then ThresholdsCross
         else Valid
  {
    hide ToLower, TrimSpace, MetricTargets.Parse, WarnThreshold, ErrorThreshold;
    assert |"cloudwatch_logs"| == 15 && |"cloudwatch_metrics"| == 18 && |"cloudwatch_all"| == 14 && |"disabled"| == 8 && |""| == 0;
  }

  lemma MetricModesCheckTargets(s: Settings)
    requires Validate(s) == Valid && (Mode(s) == "cloudwatch_metrics" || Mode(s) == "cloudwatch_all")
    ensures CheckTargets(s) == Valid
  {
    hide Mode, CheckTargets, CheckThresholds, TrimSpace;
    assert |"cloudwatch_logs"| == 15 && |"cloudwatch_metrics"| == 18 && |"cloudwatch_all"| == 14 && |"disabled"| == 8;
  }

  /** Validated settings that collect metrics parse to targets for which every collection asks the
      back end, and order the thresholds so that every severity has its band. */
  lemma ValidatedMetricsAreCollected(s: Settings)
    requires Validate(s) == Valid && (Mode(s) == "cloudwatch_metrics" || Mode(s) == "cloudwatch_all")
    ensures MetricTargets.Parse(s.metricTargets).Ok?
    ensures MetricsCollector.AllWanted(MetricTargets.Parse(s.metricTargets).value) != []
    ensures WarnThreshold(s.utilizationWarn) < ErrorThreshold(s.utilizationError)
  {
    MetricModesCheckTargets(s);
    hide Validate, Mode, MetricTargets.Parse, MetricTargets.WellFormed, MetricsCollector.MetricSpecsForTarget;
    var targets := MetricTargets.Parse(s.metricTargets).value;
    var last := targets[|targets| - 1];
    MetricTargets.AcceptedTargetsHaveMetrics(s.metricTargets, last);
    assert |MetricsCollector.WantedOf(last)| >= 1;
  }
}

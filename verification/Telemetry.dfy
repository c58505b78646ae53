/** The records that flow through the pipeline. */
module Telemetry {
  import opened GoTime

  /** A normalized log event. `fields` is the parsed key/value payload; a nil map reads as empty. */
  datatype LogRecord = LogRecord(
    logGroupName: string,
    logStreamName: string,
    eventID: string,
    timestamp: Time,
    ingestionTime: Time,
    message: string,
    level: string,
    correlationID: string,
    fields: map<string, string>)

  datatype MetricPoint = MetricPoint(
    resourceID: string,
    namespace: string,
    metricName: string,
    timestamp: Time,
    value: real)

  /** A timeline entry. `detail` stands for its severity, source, message and correlation id. */
  datatype Event = Event(id: string, timestamp: Time, detail: string)
}

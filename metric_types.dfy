/**
 * The static table that maps a raw haproxy field name to the metric name
 * the plugin reports and the collectd value kind it is reported as.
 */
module MetricTypes {
  import opened Wrappers
  import opened Text

  /** The collectd data-set a value is dispatched under. */
  datatype Kind = Gauge | Counter | Derive

  /** A table entry: the canonical short name and the value kind. */
  datatype MetricType = MetricType(name: String, kind: Kind)

  /** The delimiter of composite metric keys. */
  const Delim: char := '.'

  /** Raw field name to canonical name and kind; 28 entries, fixed at load time. */
  const Table: map<String, MetricType> := map[
    "bin" := MetricType("bytes_in", Derive),
    "bout" := MetricType("bytes_out", Derive),
    "chkfail" := MetricType("failed_checks", Counter),
    "CurrConns" := MetricType("connections", Gauge),
    "downtime" := MetricType("downtime", Counter),
    "dresp" := MetricType("denied_response", Derive),
    "dreq" := MetricType("denied_request", Derive),
    "econ" := MetricType("error_connection", Derive),
    "ereq" := MetricType("error_request", Derive),
    "eresp" := MetricType("error_response", Derive),
    "hrsp_1xx" := MetricType("response_1xx", Derive),
    "hrsp_2xx" := MetricType("response_2xx", Derive),
    "hrsp_3xx" := MetricType("response_3xx", Derive),
    "hrsp_4xx" := MetricType("response_4xx", Derive),
    "hrsp_5xx" := MetricType("response_5xx", Derive),
    "hrsp_other" := MetricType("response_other", Derive),
    "PipesUsed" := MetricType("pipes_used", Gauge),
    "PipesFree" := MetricType("pipes_free", Gauge),
    "qcur" := MetricType("queue_current", Gauge),
    "Tasks" := MetricType("tasks", Gauge),
    "Run_queue" := MetricType("run_queue", Gauge),
    "rate" := MetricType("session_rate", Gauge),
    "req_rate" := MetricType("request_rate", Gauge),
    "stot" := MetricType("session_total", Counter),
    "scur" := MetricType("session_current", Gauge),
    "wredis" := MetricType("redistributed", Derive),
    "wretr" := MetricType("retries", Counter),
    "Uptime_sec" := MetricType("uptime_seconds", Counter)
  ]

  /** `METRIC_TYPES.get(root)`: the entry of a raw field name, if any. */
  function Lookup(root: String): (r: Option<MetricType>)
    ensures r.Some? <==> root in Table
    ensures r.Some? ==> r.value == Table[root]
  {
    if root in Table then Some(Table[root]) else None
  }

  /** No raw field name of the table holds the delimiter. */
  lemma TableKeysDotFree(root: String)
    requires root in Table
    ensures Delim !in root
  {
  }
}

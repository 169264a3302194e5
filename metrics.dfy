/**
 * The latency metrics record `LatencyMetrics` of the latency-testing package, and its
 * all-zero constructor `create_empty`. The stand-alone latency checker declares the same
 * eleven fields but no `create_empty`. The `datetime.now().isoformat()` timestamp is an input.
 */
module Metrics {
  import opened PyDict
  import opened Json

  /** The eleven fields of one test session's metrics. */
  datatype LatencyMetrics = LatencyMetrics(
    average: real,
    minimum: real,
    maximum: real,
    p50: real,
    p90: real,
    p95: real,
    p99: real,
    totalRequests: int,
    failedRequests: int,
    timestamp: string,
    modelInfo: Dict<Value>)

  /**
   * What a consistent record satisfies: the percentiles climb from the minimum to the
   * maximum, the average lies between those two, and the counters are not negative.
   */
  predicate Consistent(m: LatencyMetrics)
  {
    && m.minimum <= m.p50 <= m.p90 <= m.p95 <= m.p99 <= m.maximum
    && m.minimum <= m.average <= m.maximum
    && m.totalRequests >= 0 && m.failedRequests >= 0
  }

  /** `LatencyMetrics.create_empty()`: every figure zero, no model information. */
  function CreateEmpty(timestamp: string): (m: LatencyMetrics)
    ensures m.average == 0.0 && m.minimum == 0.0 && m.maximum == 0.0
    ensures m.p50 == 0.0 && m.p90 == 0.0 && m.p95 == 0.0 && m.p99 == 0.0
    ensures m.totalRequests == 0 && m.failedRequests == 0
    ensures m.modelInfo == [] && m.timestamp == timestamp
    ensures Consistent(m)
  {
    LatencyMetrics(0.0, 0.0, 0.0, 0.0, 0.0, 0.0, 0.0, 0, 0, timestamp, [])
  }
}

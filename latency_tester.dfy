/**
 * The latency tester (`LatencyTester`, in the latency-testing package and again, unchanged,
 * in the stand-alone latency checker): two append-only histories, latencies and errors,
 * one request at a time, a batch loop that survives failed requests, and the statistics
 * snapshot. The provider is the outcome of each call (a latency or an error message with
 * its timestamp); the clock, `time.sleep` and the printed progress lines are not modelled,
 * except that the batch reports after which requests it would sleep.
 */
module LatencyTesting {
  import opened Wrappers
  import opened PyDict
  import opened Json
  import opened Metrics
  import opened LatencyStats

  /** `{"timestamp": ..., "error": str(e), "prompt": prompt}` */
  datatype ErrorRecord = ErrorRecord(timestamp: string, error: string, prompt: string)

  /** What one `provider.generate_response` call does, as the tester sees it. */
  datatype CallOutcome =
    | Succeeded(latency: real)
    | Failed(message: string, timestamp: string)

  /** `calculate_metrics` on an empty history: ValueError("Nenhum dado de latência disponível"). */
  datatype MetricsError = NoLatencyData

  /** The content `export_results` writes. */
  datatype ExportContent = ExportContent(metrics: LatencyMetrics, rawLatencies: seq<real>, errors: seq<ErrorRecord>)

  /** `calculate_metrics` over the given histories. */
  function ComputeMetrics(latencies: seq<real>, failed: nat, timestamp: string, modelInfo: Dict<Value>)
    : Result<LatencyMetrics, MetricsError>
  {
    if latencies == [] then Err(NoLatencyData)
    else Ok(LatencyMetrics(
      Mean(latencies), Min(latencies), Max(latencies),
      Percentile(latencies, 50), Percentile(latencies, 90), Percentile(latencies, 95), Percentile(latencies, 99),
      |latencies|, failed, timestamp, modelInfo))
  }

  /** The latencies the first `k` calls of a batch record, in call order. */
  function Successes(outcomes: nat -> CallOutcome, k: nat): seq<real>
  {
    if k == 0 then []
    else Successes(outcomes, k - 1) + (if outcomes(k - 1).Succeeded? then [outcomes(k - 1).latency] else [])
  }

  /** The error records the first `k` calls of a batch append, in call order. */
  function Failures(outcomes: nat -> CallOutcome, k: nat, prompt: string): seq<ErrorRecord>
  {
    if k == 0 then []
    else
      var o := outcomes(k - 1);
      Failures(outcomes, k - 1, prompt) + (if o.Failed? then [ErrorRecord(o.timestamp, o.message, prompt)] else [])
  }

  /** The calls among the first `k` after which a batch of `numRequests` sleeps. */
  function Pauses(outcomes: nat -> CallOutcome, k: nat, numRequests: int): seq<nat>
  {
    if k == 0 then []
    else
      var i := k - 1;
      Pauses(outcomes, i, numRequests) + (if outcomes(i).Succeeded? && i < numRequests - 1 then [i] else [])
  }

  /** `range(num_requests)` has this many iterations. */
  function Iterations(numRequests: int): nat
  {
    if numRequests > 0 then numRequests else 0
  }

  class LatencyTester {
    /** `provider.get_model_info()` */
    const modelInfo: Dict<Value>
    var latencies: seq<real>
    var errors: seq<ErrorRecord>

    constructor (modelInfo: Dict<Value>)
      ensures this.modelInfo == modelInfo
      ensures latencies == [] && errors == []
    {
      this.modelInfo := modelInfo;
      latencies := [];
      errors := [];
    }

    /**
     * `make_test_request`: a success records and returns its latency; a failure records the
     * error with the prompt and raises it again.
     */
    method MakeTestRequest(prompt: string, outcome: CallOutcome) returns (r: Result<real, string>)
      modifies this
      ensures outcome.Succeeded? ==>
        r == Ok(outcome.latency) && latencies == old(latencies) + [outcome.latency] && errors == old(errors)
      ensures outcome.Failed? ==>
        && r == Err(outcome.message)
        && errors == old(errors) + [ErrorRecord(outcome.timestamp, outcome.message, prompt)]
        && latencies == old(latencies)
    {
      match outcome {
        case Succeeded(latency) =>
          latencies := latencies + [latency];
          return Ok(latency);
        case Failed(message, timestamp) =>
          errors := errors + [ErrorRecord(timestamp, message, prompt)];
          return Err(message);
      }
    }

    /**
     * `run_batch_test`: `numRequests` requests whose failures are caught, then the metrics of
     * the whole history. `pauses` lists the requests after which the batch sleeps.
     */
    method RunBatchTest(prompt: string, outcomes: nat -> CallOutcome, now: string, numRequests: int := 10)
      returns (r: Result<LatencyMetrics, MetricsError>, pauses: seq<nat>)
      modifies this
      ensures latencies == old(latencies) + Successes(outcomes, Iterations(numRequests))
      ensures errors == old(errors) + Failures(outcomes, Iterations(numRequests), prompt)
      ensures pauses == Pauses(outcomes, Iterations(numRequests), numRequests)
      ensures r == ComputeMetrics(latencies, |errors|, now, modelInfo)
    {
      pauses := [];
      var n := Iterations(numRequests);
      for i := 0 to n
        invariant latencies == old(latencies) + Successes(outcomes, i)
        invariant errors == old(errors) + Failures(outcomes, i, prompt)
        invariant pauses == Pauses(outcomes, i, numRequests)
      {
        var result := MakeTestRequest(prompt, outcomes(i));
        if result.Ok? && i < numRequests - 1 {
          pauses := pauses + [i];
        }
      }
      r := CalculateMetrics(now);
    }

    /** `calculate_metrics`, stamped with `timestamp`. */
    function CalculateMetrics(timestamp: string): Result<LatencyMetrics, MetricsError>
      reads this
    {
      ComputeMetrics(latencies, |errors|, timestamp, modelInfo)
    }

    /** The content of `export_results`: the metrics, the raw latencies and the errors. */
    function ExportResults(timestamp: string): (r: Result<ExportContent, MetricsError>)
      reads this
      ensures r.Err? <==> CalculateMetrics(timestamp).Err?
      ensures r.Ok? ==> r.value.metrics == CalculateMetrics(timestamp).value
      ensures r.Ok? ==> r.value.rawLatencies == latencies && r.value.errors == errors
    {
      match CalculateMetrics(timestamp)
      case Err(e) => Err(e)
      case Ok(m) => Ok(ExportContent(m, latencies, errors))
    }

    /** `clear_history` */
    method ClearHistory()
      modifies this
      ensures latencies == [] && errors == []
    {
      latencies := [];
      errors := [];
    }
  }
}

/** What the tester promises, stated over `LatencyTesting`'s definitions. */
module LatencyTestingProperties {
  import opened Wrappers
  import opened PyDict
  import opened Json
  import opened Metrics
  import opened LatencyStats
  import opened LatencyTesting

  /**
   * The metrics exist exactly when some latency was recorded; they then count the
   * successes and the failures, and are consistent: minimum <= p50 <= p90 <= p95 <= p99 <=
   * maximum and minimum <= average <= maximum.
   */
  lemma MetricsAreConsistent(latencies: seq<real>, failed: nat, timestamp: string, modelInfo: Dict<Value>)
    ensures ComputeMetrics(latencies, failed, timestamp, modelInfo).Err? <==> latencies == []
    ensures ComputeMetrics(latencies, failed, timestamp, modelInfo).Ok? ==>
      var m := ComputeMetrics(latencies, failed, timestamp, modelInfo).value;
      && Consistent(m)
      && m.totalRequests == |latencies| && m.failedRequests == failed
      && m.minimum == Min(latencies) && m.maximum == Max(latencies)
      && m.modelInfo == modelInfo && m.timestamp == timestamp
  {
    if latencies != [] {
      PercentileBounds(latencies, 50);
      PercentileBounds(latencies, 99);
      PercentileMonotone(latencies, 50, 90);
      PercentileMonotone(latencies, 90, 95);
      PercentileMonotone(latencies, 95, 99);
      MeanBounds(latencies);
    }
  }

  /** Every call of a batch is recorded exactly once, as a latency or as an error. */
  lemma {:induction false} EveryCallRecordedOnce(outcomes: nat -> CallOutcome, k: nat, prompt: string)
    ensures |Successes(outcomes, k)| + |Failures(outcomes, k, prompt)| == k
  {
    if k > 0 {
      EveryCallRecordedOnce(outcomes, k - 1, prompt);
    }
  }

  /** The batch sleeps after call `i` exactly when that call succeeded and was not the last. */
  lemma {:induction false} PausesFollowSuccesses(outcomes: nat -> CallOutcome, k: nat, numRequests: int)
    ensures forall i: nat :: i in Pauses(outcomes, k, numRequests) <==>
      i < k && outcomes(i).Succeeded? && i < numRequests - 1
  {
    if k > 0 {
      PausesFollowSuccesses(outcomes, k - 1, numRequests);
    }
  }

  /** A batch in which every call fails records no latency. */
  lemma {:induction false} AllFailedRecordsNoLatency(outcomes: nat -> CallOutcome, k: nat)
    requires forall i :: 0 <= i < k ==> outcomes(i).Failed?
    ensures Successes(outcomes, k) == []
  {
    if k > 0 {
      AllFailedRecordsNoLatency(outcomes, k - 1);
    }
  }

  /** A batch that records a success has metrics, whatever the history before it. */
  lemma {:induction false} AnySuccessGivesMetrics(outcomes: nat -> CallOutcome, k: nat, i: nat)
    requires i < k && outcomes(i).Succeeded?
    ensures Successes(outcomes, k) != []
  {
    if i < k - 1 {
      AnySuccessGivesMetrics(outcomes, k - 1, i);
    }
  }

  /**
   * On an empty history, a batch whose calls all fail raises instead of returning metrics,
   * and so does a batch of no requests at all.
   */
  lemma AllFailedBatchRaises(outcomes: nat -> CallOutcome, numRequests: int, failures: seq<ErrorRecord>,
                             now: string, modelInfo: Dict<Value>)
    requires forall i :: 0 <= i < Iterations(numRequests) ==> outcomes(i).Failed?
    ensures ComputeMetrics(Successes(outcomes, Iterations(numRequests)), |failures|, now, modelInfo)
      == Err(NoLatencyData)
  {
    AllFailedRecordsNoLatency(outcomes, Iterations(numRequests));
  }
}

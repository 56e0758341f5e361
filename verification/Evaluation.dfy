/**
 Benchmark gates and canonical results: metric definitions, the values of the allowlisted metrics,
 the recomputed result, and the receipt validator that must accept it.
 */
module Evaluation {
  import opened Calibration
  import opened Decimals
  import opened F1Score
  import opened Gain
  import opened MetricInputs
  import opened Outcomes
  import opened Pairs
  import opened Ranks

  datatype Metric = MaeMetric | SpearmanMetric | PairwiseMetric | Ndcg10 | Ndcg50 | F1Metric | CalibrationMetric

  /** The fixed order in which metrics are parsed, recomputed and validated. */
  const METRICS: seq<Metric> :=
    [MaeMetric, SpearmanMetric, PairwiseMetric, Ndcg10, Ndcg50, F1Metric, CalibrationMetric]

  predicate HigherIsBetter(m: Metric) {
    m != MaeMetric && m != CalibrationMetric
  }

  /** One metric of a benchmark as written. */
  datatype Spec = Spec(
    higher: bool, absoluteThreshold: real, minimumDelta: real,
    threshold: Option<real>, bins: Option<int>, maxPairs: Option<int>)

  datatype Definition = Definition(
    metric: Metric, absoluteThreshold: real, minimumDelta: real, threshold: real, bins: int, maxPairs: int)

  datatype BenchmarkRefusal =
    | MetricCount | DirectionMismatch(metric: Metric) | ParameterMismatch(metric: Metric) | GateOutOfRange(metric: Metric)
    | ParameterOutOfRange(metric: Metric) | MetricSetMismatch | ValueOutOfRange | MetricRefused(refusal: MetricInputs.Refusal)

  function Smallest(m: Metric): real {
    if m == SpearmanMetric then -1.0 else 0.0
  }

  function Largest(m: Metric): real {
    if m == MaeMetric then 100.0 else 1.0
  }

  function LargestDelta(m: Metric): real {
    if m == MaeMetric then 100.0 else if m == SpearmanMetric then 2.0 else 1.0
  }

  predicate ParametersAllowed(m: Metric, s: Spec) {
    && (s.threshold.Some? ==> m == F1Metric)
    && (s.bins.Some? ==> m == CalibrationMetric)
    && (s.maxPairs.Some? ==> m == PairwiseMetric)
  }

  predicate ParametersInRange(s: Spec) {
    && (s.threshold.Some? ==> 0.0 <= s.threshold.value <= 100.0)
    && (s.bins.Some? ==> 2 <= s.bins.value <= 50)
    && (s.maxPairs.Some? ==> 1 <= s.maxPairs.value <= MAX_PAIRWISE_PAIRS)
  }

  function ParseSpec(m: Metric, s: Spec): Result<Definition, BenchmarkRefusal> {
    if s.higher != HigherIsBetter(m) then Err(DirectionMismatch(m))
    else if !ParametersAllowed(m, s) then Err(ParameterMismatch(m))
    else if !(Smallest(m) <= s.absoluteThreshold <= Largest(m)) then Err(GateOutOfRange(m))
    else if !(0.0 <= s.minimumDelta <= LargestDelta(m)) then Err(GateOutOfRange(m))
    else if !ParametersInRange(s) then Err(ParameterOutOfRange(m))
    else Ok(Definition(m, s.absoluteThreshold, s.minimumDelta,
      if s.threshold.Some? then s.threshold.value else 50.0,
      if s.bins.Some? then s.bins.value else 10,
      if s.maxPairs.Some? then s.maxPairs.value else MAX_PAIRWISE_PAIRS))
  }

  function ParsedUpTo(specs: map<Metric, Spec>, k: nat): Result<seq<Definition>, BenchmarkRefusal>
    requires k <= |METRICS|
  {
    if k == 0 then Ok([])
    else
      var defs :- ParsedUpTo(specs, k - 1);
      if METRICS[k - 1] !in specs then Ok(defs)
      else
        var d :- ParseSpec(METRICS[k - 1], specs[METRICS[k - 1]]);
        Ok(defs + [d])
  }

  /** `parse_metric_specs` */
  function ParseOutcome(specs: map<Metric, Spec>): Result<seq<Definition>, BenchmarkRefusal> {
    if !(2 <= |specs| <= |METRICS|) then Err(MetricCount) else ParsedUpTo(specs, |METRICS|)
  }

  lemma {:induction false} ParseSticks(specs: map<Metric, Spec>, k: nat)
    requires k <= |METRICS| && ParsedUpTo(specs, k).Err?
    ensures ParsedUpTo(specs, |METRICS|) == Err(ParsedUpTo(specs, k).error)
    decreases |METRICS| - k
  {
    if k < |METRICS| {
      ParseSticks(specs, k + 1);
    }
  }

  method ParseMetricSpecs(specs: map<Metric, Spec>) returns (out: Result<seq<Definition>, BenchmarkRefusal>)
    ensures out == ParseOutcome(specs)
  {
    hide ParseSpec;
    if |specs| < 2 || |specs| > |METRICS| {
      return Err(MetricCount);
    }
    var parsed: seq<Definition> := [];
    for k := 0 to |METRICS|
      invariant ParsedUpTo(specs, k) == Ok(parsed)
    {
      var name := METRICS[k];
      if name in specs {
        var one := ParseSpec(name, specs[name]);
        if one.Err? {
          ParseSticks(specs, k + 1);
          return Err(one.error);
        }
        parsed := parsed + [one.value];
      }
    }
    return Ok(parsed);
  }

  // ----- metric values

  /** What the decimal context computes numerically: the variance root and the log discounts. */
  datatype Numerics = Numerics(root: real, discounts: seq<real>)

  ghost predicate LawfulNumerics(labels: seq<real>, predictions: seq<real>, n: Numerics)
    requires |labels| == |predictions|
  {
    IsRoot(labels, predictions, n.root) && Discounts(n.discounts) && |labels| <= |n.discounts|
  }

  /** The exact value of a metric on vectors that passed its checks. */
  ghost function ExactValue(d: Definition, labels: seq<real>, predictions: seq<real>, n: Numerics): real
    requires |labels| == |predictions| > 0 && LawfulNumerics(labels, predictions, n)
    requires d.bins > 0 && d.maxPairs > 0 && InScoreRange(predictions)
  {
    match d.metric
    case MaeMetric => Mae(labels, predictions)
    case SpearmanMetric => Spearman(labels, predictions, n.root)
    case PairwiseMetric => Accuracy(labels, predictions, d.maxPairs)
    case Ndcg10 => Ndcg(labels, predictions, 10, n.discounts)
    case Ndcg50 => Ndcg(labels, predictions, 50, n.discounts)
    case F1Metric => F1(labels, predictions, d.threshold)
    case CalibrationMetric => ErrorBelow(labels, predictions, d.bins, d.bins)
  }

  /** A parsed definition's parameters lie in their ranges. */
  predicate ValidDefinition(d: Definition) {
    && Smallest(d.metric) <= d.absoluteThreshold <= Largest(d.metric)
    && 0.0 <= d.minimumDelta <= LargestDelta(d.metric)
    && 0.0 <= d.threshold <= 100.0 && 2 <= d.bins <= 50 && 1 <= d.maxPairs <= MAX_PAIRWISE_PAIRS
  }

  /** `_metric_value` on scores in [0, 100], where no metric refuses. */
  ghost function MetricUnits(d: Definition, labels: seq<real>, predictions: seq<real>, n: Numerics): int
    requires |labels| == |predictions| > 0 && LawfulNumerics(labels, predictions, n)
    requires ValidDefinition(d) && InScoreRange(predictions)
  {
    Quantize(ExactValue(d, labels, predictions, n))
  }

  /** The value of each metric, by name. */
  lemma MetricsByName(d: Definition, labels: seq<real>, predictions: seq<real>, n: Numerics)
    requires |labels| == |predictions| > 0 && LawfulNumerics(labels, predictions, n)
    requires ValidDefinition(d) && InScoreRange(predictions)
    ensures var units := MetricUnits(d, labels, predictions, n);
      && (d.metric == MaeMetric ==> units == Quantize(AbsoluteErrors(labels, predictions) / |labels| as real))
      && (d.metric == SpearmanMetric ==> units == Quantize(Spearman(labels, predictions, n.root)))
      && (d.metric == PairwiseMetric ==> units == Quantize(Accuracy(labels, predictions, d.maxPairs)))
      && (d.metric == Ndcg10 ==> units == Quantize(Ndcg(labels, predictions, 10, n.discounts)))
      && (d.metric == Ndcg50 ==> units == Quantize(Ndcg(labels, predictions, 50, n.discounts)))
      && (d.metric == F1Metric ==> units == Quantize(F1(labels, predictions, d.threshold)))
      && (d.metric == CalibrationMetric ==> units == Quantize(ErrorBelow(labels, predictions, d.bins, d.bins)))
  {
    hide Quantize, Spearman, Accuracy, Ndcg, F1, ErrorBelow, IsRoot, Discounts;
  }

  /** Every metric stays in its own range on labels and scores in [0, 100]. */
  lemma MetricInRange(d: Definition, labels: seq<real>, predictions: seq<real>, n: Numerics)
    requires |labels| == |predictions| > 0 && LawfulNumerics(labels, predictions, n)
    requires ValidDefinition(d) && InScoreRange(labels) && InScoreRange(predictions)
    ensures Smallest(d.metric) <= ExactValue(d, labels, predictions, n) <= Largest(d.metric)
    ensures Smallest(d.metric) <= ValueOf(MetricUnits(d, labels, predictions, n)) <= Largest(d.metric)
  {
    hide Mae, Spearman, Accuracy, Ndcg, F1, ErrorBelow, IsRoot, Discounts, Quantize;
    match d.metric {
      case MaeMetric => MaeBounds(labels, predictions);
      case SpearmanMetric => SpearmanClampIsIdle(labels, predictions, n.root);
      case PairwiseMetric => AccuracyBounds(labels, predictions, d.maxPairs);
      case Ndcg10 => NdcgClampIsIdle(labels, predictions, 10, n.discounts);
      case Ndcg50 => NdcgClampIsIdle(labels, predictions, 50, n.discounts);
      case F1Metric => F1Bounds(labels, predictions, d.threshold);
      case CalibrationMetric => CalibrationWithinMae(labels, predictions, d.bins);
    }
    QuantizedWithin(ExactValue(d, labels, predictions, n), d.metric);
  }

  lemma QuantizedWithin(x: real, m: Metric)
    requires Smallest(m) <= x <= Largest(m)
    ensures Smallest(m) <= ValueOf(Quantize(x)) <= Largest(m)
  {
  }

  // ----- gates

  datatype MetricResult = MetricResult(baseline: string, candidate: string, delta: string, passed: bool)

  datatype Decision = Keep | Discard | Error

  datatype Reason = AllGatesPassed | GateFailed(metric: Metric) | Code(text: string)

  datatype CanonicalResult = CanonicalResult(
    metrics: map<Metric, MetricResult>, allGatesPassed: bool, decision: Decision, reasons: seq<Reason>,
    error: Option<(string, string)>)

  predicate GatePasses(d: Definition, baseline: int, candidate: int) {
    var delta := candidate - baseline;
    var improvement := if HigherIsBetter(d.metric) then delta else -delta;
    && (if HigherIsBetter(d.metric) then ValueOf(candidate) >= d.absoluteThreshold else ValueOf(candidate) <= d.absoluteThreshold)
    && ValueOf(improvement) >= d.minimumDelta
  }

  /** The reported result of one metric with quantized values. */
  function Gate(d: Definition, baseline: int, candidate: int): MetricResult {
    MetricResult(DecimalString(baseline), DecimalString(candidate), DecimalString(candidate - baseline),
      GatePasses(d, baseline, candidate))
  }

  /** A better candidate value passes every gate a worse one passes. */
  lemma BetterCandidateStillPasses(d: Definition, baseline: int, worse: int, better: int)
    requires if HigherIsBetter(d.metric) then worse <= better else better <= worse
    requires GatePasses(d, baseline, worse)
    ensures GatePasses(d, baseline, better)
  {
  }

  function Names(defs: seq<Definition>): set<Metric> {
    set d | d in defs :: d.metric
  }

  datatype Gates = Gates(metrics: map<Metric, MetricResult>, failed: seq<Reason>)

  function AddGate(g: Gates, m: Metric, result: MetricResult): Gates {
    Gates(g.metrics[m := result], g.failed + (if result.passed then [] else [GateFailed(m)]))
  }

  function GateOutcome(d: Definition, baseline: real, candidate: real): Result<MetricResult, BenchmarkRefusal> {
    var b, c := QuantizeChecked(baseline), QuantizeChecked(candidate);
    if b.None? || c.None? then Err(ValueOutOfRange)
    else
      var delta := QuantizeChecked(ValueOf(c.value) - ValueOf(b.value));
      if delta.None? then Err(ValueOutOfRange)
      else
        var improvement := if HigherIsBetter(d.metric) then delta.value else -delta.value;
        var absolute := if HigherIsBetter(d.metric) then ValueOf(c.value) >= d.absoluteThreshold else ValueOf(c.value) <= d.absoluteThreshold;
        Ok(MetricResult(DecimalString(b.value), DecimalString(c.value), DecimalString(delta.value),
          absolute && ValueOf(improvement) >= d.minimumDelta))
  }

  function GatesUpTo(defs: seq<Definition>, baseline: map<Metric, real>, candidate: map<Metric, real>, k: nat)
    : Result<Gates, BenchmarkRefusal>
    requires k <= |defs| && baseline.Keys == candidate.Keys == Names(defs)
  {
    if k == 0 then Ok(Gates(map[], []))
    else
      var before :- GatesUpTo(defs, baseline, candidate, k - 1);
      assert defs[k - 1] in defs && defs[k - 1].metric in Names(defs);
      var m := defs[k - 1].metric;
      var result :- GateOutcome(defs[k - 1], baseline[m], candidate[m]);
      Ok(AddGate(before, m, result))
  }

  function Concluded(g: Gates): CanonicalResult {
    CanonicalResult(g.metrics, g.failed == [], if g.failed == [] then Keep else Discard,
      if g.failed == [] then [AllGatesPassed] else g.failed, None)
  }

  /** `recompute_canonical_result` over parsed definitions */
  function RecomputeOutcome(defs: seq<Definition>, baseline: map<Metric, real>, candidate: map<Metric, real>)
    : Result<CanonicalResult, BenchmarkRefusal>
  {
    if baseline.Keys != Names(defs) || candidate.Keys != Names(defs) then Err(MetricSetMismatch)
    else
      var g :- GatesUpTo(defs, baseline, candidate, |defs|);
      Ok(Concluded(g))
  }

  lemma {:induction false} GatesStick(defs: seq<Definition>, baseline: map<Metric, real>, candidate: map<Metric, real>, k: nat)
    requires k <= |defs| && baseline.Keys == candidate.Keys == Names(defs)
    requires GatesUpTo(defs, baseline, candidate, k).Err?
    ensures GatesUpTo(defs, baseline, candidate, |defs|) == Err(GatesUpTo(defs, baseline, candidate, k).error)
    decreases |defs| - k
  {
    hide GateOutcome, Names;
    if k < |defs| {
      GatesStick(defs, baseline, candidate, k + 1);
    }
  }

  method RecomputeCanonicalResult(defs: seq<Definition>, baseline: map<Metric, real>, candidate: map<Metric, real>)
    returns (out: Result<CanonicalResult, BenchmarkRefusal>)
    ensures out == RecomputeOutcome(defs, baseline, candidate)
  {
    hide GateOutcome;
    if baseline.Keys != Names(defs) || candidate.Keys != Names(defs) {
      return Err(MetricSetMismatch);
    }
    var results: map<Metric, MetricResult> := map[];
    var failed: seq<Reason> := [];
    for k := 0 to |defs|
      invariant GatesUpTo(defs, baseline, candidate, k) == Ok(Gates(results, failed))
    {
      assert defs[k] in defs && defs[k].metric in Names(defs);
      var m := defs[k].metric;
      var gate := GateOutcome(defs[k], baseline[m], candidate[m]);
      if gate.Err? {
        GatesStick(defs, baseline, candidate, k + 1);
        return Err(gate.error);
      }
      results := results[m := gate.value];
      assert failed + [] == failed;
      if !gate.value.passed {
        failed := failed + [GateFailed(m)];
      }
    }
    return Ok(Concluded(Gates(results, failed)));
  }

  // ----- the receipt validator

  predicate CodeGrammar(s: string) {
    && 1 <= |s| <= 64 && 'A' <= s[0] <= 'Z'
    && forall i :: 0 <= i < |s| ==> 'A' <= s[i] <= 'Z' || '0' <= s[i] <= '9' || s[i] == '_'
  }

  predicate ValidReason(r: Reason) {
    r.Code? ==> CodeGrammar(r.text)
  }

  predicate ShortDecimal(s: string) {
    |s| <= 32 && DecimalGrammar(s)
  }

  predicate MetricAccepted(m: MetricResult) {
    && ShortDecimal(m.baseline) && ShortDecimal(m.candidate) && ShortDecimal(m.delta)
    && UnitsOf(m.candidate) - UnitsOf(m.baseline) == UnitsOf(m.delta)
  }

  /** The failed gates among the first k metrics, in the fixed order. */
  function FailedUpTo(metrics: map<Metric, MetricResult>, k: nat): seq<Reason>
    requires k <= |METRICS|
  {
    if k == 0 then []
    else
      var m := METRICS[k - 1];
      FailedUpTo(metrics, k - 1) + (if m in metrics && !metrics[m].passed then [GateFailed(m)] else [])
  }

  predicate Unrepeated(reasons: seq<Reason>) {
    forall i, j :: 0 <= i < j < |reasons| ==> reasons[i] != reasons[j]
  }

  predicate DecisionAccepted(r: CanonicalResult, failed: seq<Reason>) {
    match r.decision
    case Keep => |r.metrics| >= 2 && failed == [] && r.allGatesPassed && r.reasons == [AllGatesPassed] && r.error.None?
    case Discard => |r.metrics| >= 2 && failed != [] && !r.allGatesPassed && r.reasons == failed && r.error.None?
    case Error =>
      && r.error.Some? && |r.metrics| == 0 && !r.allGatesPassed
      && CodeGrammar(r.error.value.0) && 1 <= |r.error.value.1| <= 512 && r.reasons == [Code(r.error.value.0)]
  }

  /** `_validate_canonical_result` */
  predicate ResultAccepted(r: CanonicalResult) {
    && (forall m :: m in r.metrics ==> MetricAccepted(r.metrics[m]))
    && 1 <= |r.reasons| <= 32 && (forall i :: 0 <= i < |r.reasons| ==> ValidReason(r.reasons[i])) && Unrepeated(r.reasons)
    && DecisionAccepted(r, FailedUpTo(r.metrics, |METRICS|))
  }

  lemma EveryMetricListed(m: Metric)
    ensures exists k :: 0 <= k < |METRICS| && METRICS[k] == m
  {
    assert METRICS[0] == MaeMetric && METRICS[1] == SpearmanMetric && METRICS[2] == PairwiseMetric;
    assert METRICS[3] == Ndcg10 && METRICS[4] == Ndcg50 && METRICS[5] == F1Metric && METRICS[6] == CalibrationMetric;
  }

  method ValidateCanonicalResult(r: CanonicalResult) returns (ok: bool)
    ensures ok <==> ResultAccepted(r)
  {
    hide MetricAccepted, ValidReason;
    var failed: seq<Reason> := [];
    for k := 0 to |METRICS|
      invariant failed == FailedUpTo(r.metrics, k)
      invariant forall i :: 0 <= i < k && METRICS[i] in r.metrics ==> MetricAccepted(r.metrics[METRICS[i]])
    {
      var name := METRICS[k];
      if name in r.metrics {
        if !MetricAccepted(r.metrics[name]) {
          return false;
        }
        if !r.metrics[name].passed {
          failed := failed + [GateFailed(name)];
        }
      }
    }
    forall m | m in r.metrics
      ensures MetricAccepted(r.metrics[m])
    {
      EveryMetricListed(m);
    }
    if |r.reasons| < 1 || |r.reasons| > 32 {
      return false;
    }
    if (exists i :: 0 <= i < |r.reasons| && !ValidReason(r.reasons[i])) || !Unrepeated(r.reasons) {
      return false;
    }
    return DecisionAccepted(r, failed);
  }
}

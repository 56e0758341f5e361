/**
 A whole experiment: records put in ID order, both payloads scored and measured, the gates
 recomputed. Its result passes the receipt validator and ignores the order of the records.
 */
module Experiment {
  import opened Calibration
  import opened Decimals
  import opened Digits
  import opened Evaluation
  import opened EvaluationLaws
  import opened Identifiers
  import opened Ordering
  import opened Outcomes
  import Candidate

  datatype Record = Record(id: string, features: map<string, real>, relevance: real)

  datatype Refusal = RecordCount | IdInvalid | DuplicateId | Scoring(cause: Candidate.Refusal)

  const MAX_RECORDS: nat := 1_000_000

  predicate ById(a: Record, b: Record) {
    StringLess(a.id, b.id)
  }

  function CheckedUpTo(records: seq<Record>, k: nat): Option<Refusal>
    requires k <= |records|
  {
    if k == 0 then None
    else
      var fault := CheckedUpTo(records, k - 1);
      if fault.Some? then fault
      else if !RecordId(records[k - 1].id) then Some(IdInvalid)
      else if exists i :: 0 <= i < k - 1 && records[i].id == records[k - 1].id then Some(DuplicateId)
      else None
  }

  /** `_ordered_records` */
  function OrderOutcome(records: seq<Record>): Result<seq<Record>, Refusal> {
    if !(1 <= |records| <= MAX_RECORDS) then Err(RecordCount)
    else match CheckedUpTo(records, |records|) {
      case Some(fault) => Err(fault)
      case None => Ok(Sort(ById, records))
    }
  }

  lemma {:induction false} CheckSticks(records: seq<Record>, k: nat)
    requires k <= |records| && CheckedUpTo(records, k).Some?
    ensures CheckedUpTo(records, |records|) == CheckedUpTo(records, k)
    decreases |records| - k
  {
    if k < |records| {
      CheckSticks(records, k + 1);
    }
  }

  method OrderRecords(records: seq<Record>) returns (out: Result<seq<Record>, Refusal>)
    ensures out == OrderOutcome(records)
  {
    hide RecordId;
    if |records| < 1 || |records| > MAX_RECORDS {
      return Err(RecordCount);
    }
    var seen: set<string> := {};
    for k := 0 to |records|
      invariant CheckedUpTo(records, k) == None
      invariant forall id :: id in seen <==> exists i :: 0 <= i < k && records[i].id == id
    {
      if CheckedUpTo(records, k + 1).Some? {
        CheckSticks(records, k + 1);
      }
      if !RecordId(records[k].id) {
        return Err(IdInvalid);
      }
      if records[k].id in seen {
        return Err(DuplicateId);
      }
      seen := seen + {records[k].id};
    }
    return Ok(Sort(ById, records));
  }

  lemma {:induction false} CheckedExactly(records: seq<Record>, k: nat)
    requires k <= |records|
    ensures CheckedUpTo(records, k) == None <==>
      && (forall i :: 0 <= i < k ==> RecordId(records[i].id))
      && (forall i, j :: 0 <= i < j < k ==> records[i].id != records[j].id)
  {
    hide RecordId;
    if k > 0 {
      CheckedExactly(records, k - 1);
    }
  }

  /** Records are ordered exactly when there are one to a million, with distinct and proper IDs. */
  lemma OrderedExactly(records: seq<Record>)
    ensures OrderOutcome(records).Ok? <==>
      && 1 <= |records| <= 1_000_000
      && (forall i :: 0 <= i < |records| ==> RecordId(records[i].id))
      && (forall i, j :: 0 <= i < j < |records| ==> records[i].id != records[j].id)
    ensures OrderOutcome(records) == Err(RecordCount) <==> |records| < 1 || |records| > 1_000_000
    ensures OrderOutcome(records).Ok? ==>
      var ordered := OrderOutcome(records).value;
      && multiset(ordered) == multiset(records)
      && forall i, j :: 0 <= i < j < |ordered| ==> StringLess(ordered[i].id, ordered[j].id)
  {
    hide RecordId, Sort, StringLess;
    CheckedExactly(records, |records|);
    CheckNeverCounts(records, |records|);
    if OrderOutcome(records).Ok? {
      ByIdOrder();
      DistinctIdsCompare(records);
      ComparableSortAscends(ById, records);
      var ordered := OrderOutcome(records).value;
      forall i, j | 0 <= i < j < |ordered|
        ensures StringLess(ordered[i].id, ordered[j].id)
      {
        assert ById(ordered[i], ordered[j]);
      }
    }
  }

  lemma {:induction false} CheckNeverCounts(records: seq<Record>, k: nat)
    requires k <= |records|
    ensures CheckedUpTo(records, k) != Some(RecordCount)
  {
    hide RecordId;
    if k > 0 {
      CheckNeverCounts(records, k - 1);
    }
  }

  /** The first record with a bad or repeated ID decides the refusal. */
  lemma FirstBadIdDecides(records: seq<Record>, k: nat)
    requires k < |records| <= 1_000_000 && CheckedUpTo(records, k).None?
    ensures !RecordId(records[k].id) ==> OrderOutcome(records) == Err(IdInvalid)
    ensures RecordId(records[k].id) && (exists i :: 0 <= i < k && records[i].id == records[k].id) ==>
      OrderOutcome(records) == Err(DuplicateId)
  {
    hide RecordId, Sort;
    if CheckedUpTo(records, k + 1).Some? {
      CheckSticks(records, k + 1);
    }
  }

  lemma ByIdOrder()
    ensures StrictWeak(ById)
  {
    hide LexLess;
    LexKeyOrder(ById, (r: Record) => Codes(r.id));
  }

  lemma DistinctIdsCompare(records: seq<Record>)
    requires forall i, j :: 0 <= i < j < |records| ==> records[i].id != records[j].id
    ensures forall i, j :: 0 <= i < j < |records| ==> ById(records[i], records[j]) || ById(records[j], records[i])
  {
    hide LexLess;
    StringOrder();
    forall i, j | 0 <= i < j < |records|
      ensures ById(records[i], records[j]) || ById(records[j], records[i])
    {
      assert records[i].id != records[j].id;
    }
  }

  /** Evaluation sees the records in ID order, whatever order they came in. */
  lemma RecordOrderDoesNotMatter(a: seq<Record>, b: seq<Record>)
    requires multiset(a) == multiset(b) && OrderOutcome(a).Ok?
    ensures OrderOutcome(b) == OrderOutcome(a)
  {
    hide RecordId, Sort, StringLess;
    CheckedExactly(a, |a|);
    CheckedExactly(b, |b|);
    ByIdOrder();
    DistinctIdsCompare(a);
    PermutedSortsAlike(ById, a, b);
    assert |multiset(a)| == |a| && |multiset(b)| == |b|;
    forall i | 0 <= i < |b|
      ensures RecordId(b[i].id)
    {
      assert b[i] in multiset(b);
      assert b[i] in multiset(a);
    }
    forall i, j | 0 <= i < j < |b|
      ensures b[i].id != b[j].id
    {
      assert ById(b[i], b[j]) || ById(b[j], b[i]);
      NoSelfLess(b[i].id, b[j].id);
    }
  }

  lemma NoSelfLess(a: string, b: string)
    requires StringLess(a, b) || StringLess(b, a)
    ensures a != b
  {
    StringOrder();
  }

  // ----- scoring every record

  function LabelsOf(records: seq<Record>): (r: seq<real>)
    ensures |r| == |records|
  {
    seq(|records|, i requires 0 <= i < |records| => records[i].relevance)
  }

  ghost function PredictionsOf(p: Candidate.Payload, records: seq<Record>, k: nat): Result<seq<real>, Refusal>
    requires k <= |records|
  {
    if k == 0 then Ok([])
    else
      var before :- PredictionsOf(p, records, k - 1);
      match Candidate.ScoreOutcome(p, records[k - 1].features)
      case Err(cause) => Err(Scoring(cause))
      case Ok(units) => Ok(before + [ValueOf(units)])
  }

  /** The prediction for each record is the score of its own features, and the first refusal decides. */
  lemma {:induction false} PredictionsAreScores(p: Candidate.Payload, records: seq<Record>, k: nat)
    requires k <= |records|
    ensures PredictionsOf(p, records, k).Ok? <==> forall i :: 0 <= i < k ==> Candidate.ScoreOutcome(p, records[i].features).Ok?
    ensures PredictionsOf(p, records, k).Ok? ==>
      |PredictionsOf(p, records, k).value| == k
      && forall i :: 0 <= i < k ==>
        PredictionsOf(p, records, k).value[i] == ValueOf(Candidate.ScoreOutcome(p, records[i].features).value)
  {
    hide Candidate.ScoreOutcome, ValueOf;
    if k > 0 {
      PredictionsAreScores(p, records, k - 1);
    }
  }

  lemma {:induction false} PredictionsStick(p: Candidate.Payload, records: seq<Record>, k: nat)
    requires k <= |records| && PredictionsOf(p, records, k).Err?
    ensures PredictionsOf(p, records, |records|) == Err(PredictionsOf(p, records, k).error)
    decreases |records| - k
  {
    if k < |records| {
      PredictionsStick(p, records, k + 1);
    }
  }

  /** The loop of `evaluate_payload` over the ordered records. */
  method ScoreRecords(p: Candidate.Payload, records: seq<Record>) returns (out: Result<(seq<real>, seq<real>), Refusal>)
    ensures PredictionsOf(p, records, |records|).Err? ==> out == Err(PredictionsOf(p, records, |records|).error)
    ensures PredictionsOf(p, records, |records|).Ok? ==>
      out == Ok((LabelsOf(records), PredictionsOf(p, records, |records|).value))
  {
    hide Candidate.ScoreOutcome, ValueOf;
    var labels: seq<real> := [];
    var predictions: seq<real> := [];
    for k := 0 to |records|
      invariant labels == LabelsOf(records)[..k]
      invariant PredictionsOf(p, records, k) == Ok(predictions)
    {
      labels := labels + [records[k].relevance];
      var score := Candidate.ScoreLinearEvaluator(p, records[k].features);
      if score.Err? {
        PredictionsStick(p, records, k + 1);
        return Err(Scoring(score.error));
      }
      predictions := predictions + [ValueOf(score.value)];
    }
    assert LabelsOf(records)[..|records|] == LabelsOf(records);
    return Ok((labels, predictions));
  }

  lemma ScoreIsValue(x: real)
    requires 0.0 <= x <= 100.0
    ensures 0.0 <= ValueOf(Quantize(x)) <= 100.0
  {
  }

  /** Valid payloads score every record with valid features, always within [0, 100]. */
  lemma {:induction false} ScoresInRange(p: Candidate.Payload, records: seq<Record>, k: nat)
    requires k <= |records| && Candidate.ValidPayload(p)
    requires forall i :: 0 <= i < |records| ==> Candidate.ValidFeatures(records[i].features)
    ensures var scores := PredictionsOf(p, records, k);
      scores.Ok? && |scores.value| == k && InScoreRange(scores.value)
  {
    hide Candidate.ValidPayload, Candidate.ValidFeatures, Quantize, ValueOf;
    if k > 0 {
      ScoresInRange(p, records, k - 1);
      ScoreIsValue(Candidate.ExactScore(p, records[k - 1].features));
    }
  }

  // ----- the experiment

  /** The quantized value of every defined metric. */
  ghost function Measured(defs: seq<Definition>, labels: seq<real>, predictions: seq<real>, n: Numerics): (r: map<Metric, real>)
    requires |labels| == |predictions| > 0 && LawfulNumerics(labels, predictions, n) && InScoreRange(predictions)
    requires InOrder(defs) && forall i :: 0 <= i < |defs| ==> ValidDefinition(defs[i])
    ensures r.Keys == Names(defs)
    ensures forall d :: d in defs ==> d.metric in r && r[d.metric] == ValueOf(MetricUnits(d, labels, predictions, n))
  {
    forall d | d in defs
      ensures d.metric in Names(defs) && DefinitionFor(defs, d.metric) == d
    {
      SameMetricSameDefinition(defs, d, DefinitionFor(defs, d.metric));
    }
    map m | m in Names(defs) :: ValueOf(MetricUnits(DefinitionFor(defs, m), labels, predictions, n))
  }

  ghost function DefinitionFor(defs: seq<Definition>, m: Metric): (d: Definition)
    requires m in Names(defs)
    ensures d in defs && d.metric == m
  {
    var d :| d in defs && d.metric == m;
    d
  }

  lemma SameMetricSameDefinition(defs: seq<Definition>, d: Definition, e: Definition)
    requires InOrder(defs) && d in defs && e in defs && d.metric == e.metric
    ensures d == e
  {
  }

  lemma InRangeIsModest(x: real)
    requires -1.0 <= x <= 100.0
    ensures Modest(x)
  {
    hide Power10, Quantize;
    UnitPower();
    PowerMonotone(15, 29);
    assert Power10(15) == 1000 * Power10(12) by { ThousandFold(); }
    assert ValueOf(-(UNIT as int)) == -1.0 && ValueOf(100 * UNIT) == 100.0;
    QuantizeExact(-(UNIT as int));
    QuantizeExact(100 * UNIT);
    QuantizeMonotone(-1.0, x);
    QuantizeMonotone(x, 100.0);
  }

  lemma ThousandFold()
    ensures Power10(15) == 1000 * Power10(12)
  {
  }

  lemma MeasuredIsModest(defs: seq<Definition>, labels: seq<real>, predictions: seq<real>, n: Numerics)
    requires |labels| == |predictions| > 0 && LawfulNumerics(labels, predictions, n)
    requires InScoreRange(labels) && InScoreRange(predictions)
    requires InOrder(defs) && forall i :: 0 <= i < |defs| ==> ValidDefinition(defs[i])
    ensures AllModest(Names(defs), Measured(defs, labels, predictions, n))
  {
    hide LawfulNumerics, InOrder, ValueOf, MetricUnits, Modest;
    var values := Measured(defs, labels, predictions, n);
    forall m | m in Names(defs)
      ensures Modest(values[m])
    {
      var i := DefinitionOf(defs, m);
      assert defs[i] in defs;
      MetricInRange(defs[i], labels, predictions, n);
      InRangeIsModest(values[m]);
    }
  }

  /** Records an experiment accepts: in the ID grammar, without repetition, labels in [0, 100]. */
  ghost predicate Scorable(records: seq<Record>) {
    && OrderOutcome(records).Ok?
    && forall i :: 0 <= i < |records| ==> Candidate.ValidFeatures(records[i].features) && 0.0 <= records[i].relevance <= 100.0
  }

  lemma OrderedScorable(records: seq<Record>)
    requires Scorable(records)
    ensures var ordered := OrderOutcome(records).value;
      |ordered| == |records| > 0 && InScoreRange(LabelsOf(ordered))
      && forall i :: 0 <= i < |ordered| ==> Candidate.ValidFeatures(ordered[i].features)
  {
    hide Candidate.ValidFeatures, Sort, CheckedUpTo;
    ByIdOrder();
    SortSorts(ById, records);
    var ordered := OrderOutcome(records).value;
    forall i | 0 <= i < |ordered|
      ensures ordered[i] in records
    {
      assert ordered[i] in multiset(ordered);
      assert ordered[i] in multiset(records);
    }
  }

  /** The vectors of an experiment, and the numerics lawful for each of the two payloads. */
  ghost predicate LawfulExperiment(parent: Candidate.Payload, proposed: Candidate.Payload, records: seq<Record>, a: Numerics, b: Numerics) {
    && Candidate.ValidPayload(parent) && Candidate.ValidPayload(proposed) && Scorable(records)
    && var ordered := OrderOutcome(records).value;
      var x, y := PredictionsOf(parent, ordered, |ordered|), PredictionsOf(proposed, ordered, |ordered|);
      && x.Ok? && |x.value| == |ordered| && LawfulNumerics(LabelsOf(ordered), x.value, a)
      && y.Ok? && |y.value| == |ordered| && LawfulNumerics(LabelsOf(ordered), y.value, b)
  }

  /** `evaluate_experiment` on an accepted benchmark and scorable records */
  ghost function ExperimentOutcome(
    parent: Candidate.Payload, proposed: Candidate.Payload, records: seq<Record>, specs: map<Metric, Spec>,
    a: Numerics, b: Numerics): Result<CanonicalResult, BenchmarkRefusal>
    requires LawfulExperiment(parent, proposed, records, a, b)
  {
    OrderedScorable(records);
    var ordered := OrderOutcome(records).value;
    ScoresInRange(parent, ordered, |ordered|);
    ScoresInRange(proposed, ordered, |ordered|);
    var defs :- ParseOutcome(specs);
    ParsedBenchmark(specs);
    RecomputeOutcome(defs,
      Measured(defs, LabelsOf(ordered), PredictionsOf(parent, ordered, |ordered|).value, a),
      Measured(defs, LabelsOf(ordered), PredictionsOf(proposed, ordered, |ordered|).value, b))
  }

  /**
   For every valid benchmark, every pair of valid payloads and all scorable records, the experiment
   ends in a canonical result that the receipt validator accepts.
   */
  lemma ExperimentPassesValidator(
    parent: Candidate.Payload, proposed: Candidate.Payload, records: seq<Record>, specs: map<Metric, Spec>, a: Numerics, b: Numerics)
    requires LawfulExperiment(parent, proposed, records, a, b) && ParseOutcome(specs).Ok?
    ensures var out := ExperimentOutcome(parent, proposed, records, specs, a, b);
      out.Ok? && ResultAccepted(out.value) && out.value.metrics.Keys == specs.Keys && out.value.decision != Error
  {
    hide LawfulNumerics, Candidate.ValidPayload, RecomputeOutcome, Measured, InOrder, ResultAccepted, ParseOutcome, OrderOutcome;
    OrderedScorable(records);
    var ordered := OrderOutcome(records).value;
    ScoresInRange(parent, ordered, |ordered|);
    ScoresInRange(proposed, ordered, |ordered|);
    ParsedBenchmark(specs);
    var defs := ParseOutcome(specs).value;
    var x, y := PredictionsOf(parent, ordered, |ordered|).value, PredictionsOf(proposed, ordered, |ordered|).value;
    MeasuredIsModest(defs, LabelsOf(ordered), x, a);
    MeasuredIsModest(defs, LabelsOf(ordered), y, b);
    var before, after := Measured(defs, LabelsOf(ordered), x, a), Measured(defs, LabelsOf(ordered), y, b);
    RecomputedResultAccepted(defs, before, after);
    ResultNames(defs, before, after);
  }

  lemma ResultNames(defs: seq<Definition>, baseline: map<Metric, real>, candidate: map<Metric, real>)
    requires InOrder(defs) && AllModest(Names(defs), baseline) && AllModest(Names(defs), candidate)
    ensures var out := RecomputeOutcome(defs, baseline, candidate);
      out.Ok? ==> out.value.metrics.Keys == Names(defs) && out.value.decision != Error
  {
    hide GatesUpTo, Modest, InOrder, Reported, Names, ListsFailures;
    GatesReport(defs, baseline, candidate, |defs|);
    assert defs[..|defs|] == defs;
  }

  /** Each reported metric is the parent's value as the baseline and the candidate's own, on the labels in ID order. */
  lemma ExperimentReportsBoth(
    parent: Candidate.Payload, proposed: Candidate.Payload, records: seq<Record>, specs: map<Metric, Spec>, a: Numerics, b: Numerics, d: Definition)
    requires LawfulExperiment(parent, proposed, records, a, b) && ParseOutcome(specs).Ok? && d in ParseOutcome(specs).value
    ensures ValidDefinition(d)
    ensures var ordered := OrderOutcome(records).value;
      && PredictionsOf(parent, ordered, |ordered|).Ok? && PredictionsOf(proposed, ordered, |ordered|).Ok?
      && var (x, y) := (PredictionsOf(parent, ordered, |ordered|).value, PredictionsOf(proposed, ordered, |ordered|).value);
         && |x| == |y| == |ordered| > 0 && InScoreRange(x) && InScoreRange(y)
         && LawfulNumerics(LabelsOf(ordered), x, a) && LawfulNumerics(LabelsOf(ordered), y, b)
         && var out := ExperimentOutcome(parent, proposed, records, specs, a, b);
            && out.Ok? && d.metric in out.value.metrics
            && DecimalGrammar(out.value.metrics[d.metric].baseline) && DecimalGrammar(out.value.metrics[d.metric].candidate)
            && UnitsOf(out.value.metrics[d.metric].baseline) == MetricUnits(d, LabelsOf(ordered), x, a)
            && UnitsOf(out.value.metrics[d.metric].candidate) == MetricUnits(d, LabelsOf(ordered), y, b)
  {
    hide LawfulNumerics, Candidate.ValidPayload, RecomputeOutcome, Measured, InOrder, ParseOutcome, OrderOutcome, MetricUnits;
    hide UnitsOf, DecimalGrammar, GoodEnough, Quantize, ValueOf;
    OrderedScorable(records);
    var ordered := OrderOutcome(records).value;
    ScoresInRange(parent, ordered, |ordered|);
    ScoresInRange(proposed, ordered, |ordered|);
    ParsedBenchmark(specs);
    var defs := ParseOutcome(specs).value;
    var x, y := PredictionsOf(parent, ordered, |ordered|).value, PredictionsOf(proposed, ordered, |ordered|).value;
    MeasuredIsModest(defs, LabelsOf(ordered), x, a);
    MeasuredIsModest(defs, LabelsOf(ordered), y, b);
    KeptExactlyWhenGoodEnough(defs, Measured(defs, LabelsOf(ordered), x, a), Measured(defs, LabelsOf(ordered), y, b));
    QuantizeExact(MetricUnits(d, LabelsOf(ordered), x, a));
    QuantizeExact(MetricUnits(d, LabelsOf(ordered), y, b));
  }
}

/**
 Every recomputed result passes the receipt validator, and the validator pins a result down to its
 values and gates.
 */
module EvaluationLaws {
  import opened Decimals
  import opened Digits
  import opened Evaluation
  import opened Ordering
  import opened Outcomes

  function Position(m: Metric): nat {
    match m
    case MaeMetric => 0
    case SpearmanMetric => 1
    case PairwiseMetric => 2
    case Ndcg10 => 3
    case Ndcg50 => 4
    case F1Metric => 5
    case CalibrationMetric => 6
  }

  lemma Positions()
    ensures |METRICS| == 7 && forall k :: 0 <= k < |METRICS| ==> Position(METRICS[k]) == k
    ensures forall m: Metric :: Position(m) < 7 && METRICS[Position(m)] == m
  {
  }

  /** Definitions in the fixed metric order, each metric at most once. */
  ghost predicate InOrder(defs: seq<Definition>) {
    forall i, j :: 0 <= i < j < |defs| ==> Position(defs[i].metric) < Position(defs[j].metric)
  }

  // ----- parsed benchmarks

  lemma {:induction false} ParsedFacts(specs: map<Metric, Spec>, k: nat)
    requires k <= |METRICS| && ParsedUpTo(specs, k).Ok?
    ensures var defs := ParsedUpTo(specs, k).value;
      && InOrder(defs)
      && (forall i :: 0 <= i < |defs| ==> ValidDefinition(defs[i]) && Position(defs[i].metric) < k)
      && (forall m: Metric :: m in Names(defs) <==> m in specs && Position(m) < k)
  {
    hide ParseSpec, ValidDefinition, Names, Position;
    Positions();
    if k > 0 {
      ParsedFacts(specs, k - 1);
      var before, m := ParsedUpTo(specs, k - 1).value, METRICS[k - 1];
      assert Position(m) == k - 1;
      if m in specs {
        SpecFacts(m, specs[m]);
        NamesAppend(before, ParseSpec(m, specs[m]).value);
      }
      forall other: Metric
        ensures Position(other) < k <==> Position(other) < k - 1 || other == m
      {
        assert METRICS[Position(other)] == other;
      }
    } else {
      NoNames();
    }
  }

  lemma SpecFacts(m: Metric, s: Spec)
    requires ParseSpec(m, s).Ok?
    ensures ParseSpec(m, s).value.metric == m && ValidDefinition(ParseSpec(m, s).value)
  {
  }

  lemma NamesAppend(defs: seq<Definition>, d: Definition)
    ensures Names(defs + [d]) == Names(defs) + {d.metric}
  {
  }

  /** A parsed benchmark defines exactly the metrics asked for, validly and in the fixed order. */
  lemma ParsedBenchmark(specs: map<Metric, Spec>)
    requires ParseOutcome(specs).Ok?
    ensures var defs := ParseOutcome(specs).value;
      && InOrder(defs) && Names(defs) == specs.Keys && |Names(defs)| >= 2
      && forall i :: 0 <= i < |defs| ==> ValidDefinition(defs[i])
  {
    ParsedFacts(specs, |METRICS|);
    Positions();
    var defs := ParseOutcome(specs).value;
    assert Names(defs) == specs.Keys;
    assert |specs.Keys| == |specs|;
  }

  // ----- the recomputed gates

  function Rank(r: Reason): int {
    if r.GateFailed? then Position(r.metric) else -1
  }

  predicate Earlier(a: Reason, b: Reason) {
    Rank(a) < Rank(b)
  }

  /** Quantized values small enough that neither they nor their difference can be refused. */
  ghost predicate Modest(x: real) {
    -(Power10(29) as int) < Quantize(x) < Power10(29)
  }

  lemma SmallDifference(b: int, c: int)
    requires -(Power10(29) as int) < b < Power10(29) && -(Power10(29) as int) < c < Power10(29)
    ensures -(Power10(30) as int) < c - b < Power10(30) && -(Power10(30) as int) < b < Power10(30)
    ensures -(Power10(30) as int) < c < Power10(30)
    ensures -(Power10(50) as int) < c - b < Power10(50)
    ensures -(Power10(50) as int) < b < Power10(50) && -(Power10(50) as int) < c < Power10(50)
  {
    assert Power10(30) == 10 * Power10(29);
    PowerMonotone(30, 50);
  }

  lemma ModestGate(d: Definition, baseline: real, candidate: real)
    requires Modest(baseline) && Modest(candidate)
    ensures GateOutcome(d, baseline, candidate) == Ok(Gate(d, Quantize(baseline), Quantize(candidate)))
  {
    hide Quantize, DecimalString, Power10;
    var b, c := Quantize(baseline), Quantize(candidate);
    SmallDifference(b, c);
    assert ValueOf(c) - ValueOf(b) == ValueOf(c - b);
    QuantizeExact(c - b);
  }

  /** A gate's decimals satisfy the receipt grammar and their difference is exact. */
  lemma GateAccepted(d: Definition, baseline: real, candidate: real)
    requires Modest(baseline) && Modest(candidate)
    ensures MetricAccepted(Gate(d, Quantize(baseline), Quantize(candidate)))
    ensures var g := Gate(d, Quantize(baseline), Quantize(candidate));
      DecimalGrammar(g.baseline) && UnitsOf(g.baseline) == Quantize(baseline) &&
      DecimalGrammar(g.candidate) && UnitsOf(g.candidate) == Quantize(candidate)
  {
    hide Quantize, DecimalString, Power10, DecimalGrammar, UnitsOf, GatePasses;
    var b, c := Quantize(baseline), Quantize(candidate);
    SmallDifference(b, c);
    SpellingReadsBack(b);
    SpellingReadsBack(c);
    SpellingReadsBack(c - b);
    SpellingIsShort(b);
    SpellingIsShort(c);
    SpellingIsShort(c - b);
  }

  ghost predicate AllModest(names: set<Metric>, values: map<Metric, real>) {
    names == values.Keys && forall m :: m in names ==> Modest(values[m])
  }

  /** The table holds this definition's gate on the quantized values. */
  ghost predicate Reported(d: Definition, baseline: map<Metric, real>, candidate: map<Metric, real>, metrics: map<Metric, MetricResult>) {
    d.metric in baseline && d.metric in candidate && d.metric in metrics &&
    metrics[d.metric] == Gate(d, Quantize(baseline[d.metric]), Quantize(candidate[d.metric]))
  }

  ghost predicate PassesIn(d: Definition, baseline: map<Metric, real>, candidate: map<Metric, real>) {
    d.metric in baseline && d.metric in candidate &&
    GatePasses(d, Quantize(baseline[d.metric]), Quantize(candidate[d.metric]))
  }

  lemma LaterMetric(defs: seq<Definition>, i: nat, k: nat)
    requires InOrder(defs) && i < k < |defs|
    ensures defs[i].metric != defs[k].metric
  {
  }

  lemma AddedReports(defs: seq<Definition>, baseline: map<Metric, real>, candidate: map<Metric, real>, k: nat, g: Gates)
    requires 0 < k <= |defs| && InOrder(defs)
    requires forall i :: 0 <= i < k - 1 ==> Reported(defs[i], baseline, candidate, g.metrics)
    requires defs[k - 1].metric in baseline && defs[k - 1].metric in candidate
    ensures var d := defs[k - 1];
      forall i :: 0 <= i < k ==> Reported(defs[i], baseline, candidate,
        AddGate(g, d.metric, Gate(d, Quantize(baseline[d.metric]), Quantize(candidate[d.metric]))).metrics)
  {
    hide Gate, Quantize, InOrder;
    forall i | 0 <= i < k - 1
      ensures defs[i].metric != defs[k - 1].metric
    {
      LaterMetric(defs, i, k - 1);
    }
  }

  /** The failed gates are listed in metric order, and are those of the table. */
  ghost predicate ListsFailures(g: Gates) {
    Ascending(Earlier, g.failed) &&
    forall r :: r in g.failed <==> r.GateFailed? && r.metric in g.metrics && !g.metrics[r.metric].passed
  }

  lemma AddedFailure(g: Gates, m: Metric, result: MetricResult)
    requires ListsFailures(g) && m !in g.metrics
    requires forall other :: other in g.metrics ==> Position(other) < Position(m)
    ensures ListsFailures(AddGate(g, m, result))
  {
  }

  lemma EarlierMetrics(defs: seq<Definition>, k: nat)
    requires 0 < k <= |defs| && InOrder(defs)
    ensures defs[k - 1].metric !in Names(defs[..k - 1])
    ensures forall m :: m in Names(defs[..k - 1]) ==> Position(m) < Position(defs[k - 1].metric)
  {
  }

  lemma NoFailures()
    ensures ListsFailures(Gates(map[], []))
  {
  }

  lemma InNames(defs: seq<Definition>, i: nat)
    requires i < |defs|
    ensures defs[i].metric in Names(defs)
  {
  }

  /** The loop reports every gate and lists the failures in order. */
  lemma {:induction false} GatesReport(defs: seq<Definition>, baseline: map<Metric, real>, candidate: map<Metric, real>, k: nat)
    requires k <= |defs| && InOrder(defs)
    requires AllModest(Names(defs), baseline) && AllModest(Names(defs), candidate)
    ensures var g := GatesUpTo(defs, baseline, candidate, k);
      && g.Ok? && g.value.metrics.Keys == Names(defs[..k])
      && (forall i :: 0 <= i < k ==> Reported(defs[i], baseline, candidate, g.value.metrics))
      && ListsFailures(g.value)
  {
    hide Gate, GateOutcome, Modest, Quantize, InOrder, Reported, ListsFailures, Names;
    if k > 0 {
      GatesReport(defs, baseline, candidate, k - 1);
      var before, d := GatesUpTo(defs, baseline, candidate, k - 1).value, defs[k - 1];
      InNames(defs, k - 1);
      ModestGate(d, baseline[d.metric], candidate[d.metric]);
      AddedReports(defs, baseline, candidate, k, before);
      assert defs[..k] == defs[..k - 1] + [d];
      NamesAppend(defs[..k - 1], d);
      EarlierMetrics(defs, k);
      AddedFailure(before, d.metric, Gate(d, Quantize(baseline[d.metric]), Quantize(candidate[d.metric])));
    } else {
      NoFailures();
      NoNames();
      assert defs[..0] == [];
    }
  }

  lemma NoNames()
    ensures Names([]) == {}
  {
  }

  lemma {:induction false} ListedFailures(metrics: map<Metric, MetricResult>, k: nat)
    requires k <= |METRICS|
    ensures Ascending(Earlier, FailedUpTo(metrics, k))
    ensures forall r :: r in FailedUpTo(metrics, k) <==>
      r.GateFailed? && r.metric in metrics && !metrics[r.metric].passed && Position(r.metric) < k
    ensures forall i :: 0 <= i < |FailedUpTo(metrics, k)| ==> Rank(FailedUpTo(metrics, k)[i]) < k
  {
    Positions();
    if k > 0 {
      ListedFailures(metrics, k - 1);
      forall m: Metric
        ensures Position(m) < k <==> Position(m) < k - 1 || m == METRICS[k - 1]
      {
      }
    }
  }

  lemma EarlierIsOrder()
    ensures StrictWeak(Earlier)
  {
  }

  lemma AscendingUnrepeated(reasons: seq<Reason>)
    requires Ascending(Earlier, reasons)
    ensures Unrepeated(reasons)
  {
  }

  lemma {:induction false} FewFailures(metrics: map<Metric, MetricResult>, k: nat)
    requires k <= |METRICS|
    ensures |FailedUpTo(metrics, k)| <= k
  {
    if k > 0 {
      FewFailures(metrics, k - 1);
    }
  }

  /**
   The recomputed result always exists and always passes the receipt validator; it keeps the
   candidate exactly when every gate passes on the quantized values.
   */
  lemma RecomputedResultAccepted(defs: seq<Definition>, baseline: map<Metric, real>, candidate: map<Metric, real>)
    requires InOrder(defs) && |Names(defs)| >= 2
    requires AllModest(Names(defs), baseline) && AllModest(Names(defs), candidate)
    ensures RecomputeOutcome(defs, baseline, candidate).Ok?
    ensures ResultAccepted(RecomputeOutcome(defs, baseline, candidate).value)
    ensures RecomputeOutcome(defs, baseline, candidate).value.decision == Keep <==>
      forall d :: d in defs ==> PassesIn(d, baseline, candidate)
  {
    hide GatesUpTo, Modest, MetricAccepted, PassesIn, Reported, InOrder, FailedUpTo, Rank, Names, ListsFailures;
    GatesReport(defs, baseline, candidate, |defs|);
    assert defs[..|defs|] == defs;
    var g := GatesUpTo(defs, baseline, candidate, |defs|).value;
    assert |g.metrics| == |g.metrics.Keys|;
    FailuresAgree(g);
    forall m | m in g.metrics
      ensures MetricAccepted(g.metrics[m])
    {
      ReportedAccepted(defs, baseline, candidate, g.metrics, m);
    }
    KeepsExactly(defs, baseline, candidate, g);
  }

  lemma FailuresAgree(g: Gates)
    requires ListsFailures(g)
    ensures g.failed == FailedUpTo(g.metrics, |METRICS|) && |g.failed| <= 7 && Unrepeated(g.failed)
    ensures forall i :: 0 <= i < |g.failed| ==> ValidReason(g.failed[i])
  {
    hide Rank, FailedUpTo;
    Positions();
    ListedFailures(g.metrics, |METRICS|);
    FewFailures(g.metrics, |METRICS|);
    EarlierIsOrder();
    AscendingUnique(Earlier, g.failed, FailedUpTo(g.metrics, |METRICS|));
    AscendingUnrepeated(g.failed);
    forall i | 0 <= i < |g.failed|
      ensures g.failed[i].GateFailed?
    {
      assert g.failed[i] in g.failed;
    }
  }

  lemma ReportedAccepted(defs: seq<Definition>, baseline: map<Metric, real>, candidate: map<Metric, real>, metrics: map<Metric, MetricResult>, m: Metric)
    requires AllModest(Names(defs), baseline) && AllModest(Names(defs), candidate) && m in Names(defs)
    requires forall i :: 0 <= i < |defs| ==> Reported(defs[i], baseline, candidate, metrics)
    ensures m in metrics && MetricAccepted(metrics[m])
  {
    hide Modest, MetricAccepted, Gate, Quantize;
    var i := DefinitionOf(defs, m);
    GateAccepted(defs[i], baseline[m], candidate[m]);
  }

  lemma DefinitionOf(defs: seq<Definition>, m: Metric) returns (i: nat)
    requires m in Names(defs)
    ensures i < |defs| && defs[i].metric == m
  {
    var d :| d in defs && d.metric == m;
    i :| 0 <= i < |defs| && defs[i] == d;
  }

  lemma KeepsExactly(defs: seq<Definition>, baseline: map<Metric, real>, candidate: map<Metric, real>, g: Gates)
    requires g.metrics.Keys == Names(defs) && ListsFailures(g)
    requires forall i :: 0 <= i < |defs| ==> Reported(defs[i], baseline, candidate, g.metrics)
    ensures g.failed == [] <==> forall d :: d in defs ==> PassesIn(d, baseline, candidate)
  {
    hide GatePasses, Quantize, DecimalString, Ascending;
    if g.failed == [] {
      forall d | d in defs
        ensures PassesIn(d, baseline, candidate)
      {
        assert Reported(d, baseline, candidate, g.metrics);
        assert GateFailed(d.metric) !in g.failed;
      }
    } else {
      var r := g.failed[0];
      assert r in g.failed;
      var i := DefinitionOf(defs, r.metric);
      assert Reported(defs[i], baseline, candidate, g.metrics);
      assert defs[i] in defs && !PassesIn(defs[i], baseline, candidate);
    }
  }

  // ----- the decision in numbers

  /** A candidate good enough for a metric's gate, on quantized values: lower for the two errors, higher for the rest. */
  ghost predicate GoodEnough(d: Definition, baseline: real, candidate: real) {
    var b, c := ValueOf(Quantize(baseline)), ValueOf(Quantize(candidate));
    match d.metric
    case MaeMetric => c <= d.absoluteThreshold && b - c >= d.minimumDelta
    case CalibrationMetric => c <= d.absoluteThreshold && b - c >= d.minimumDelta
    case SpearmanMetric => c >= d.absoluteThreshold && c - b >= d.minimumDelta
    case PairwiseMetric => c >= d.absoluteThreshold && c - b >= d.minimumDelta
    case Ndcg10 => c >= d.absoluteThreshold && c - b >= d.minimumDelta
    case Ndcg50 => c >= d.absoluteThreshold && c - b >= d.minimumDelta
    case F1Metric => c >= d.absoluteThreshold && c - b >= d.minimumDelta
  }

  lemma PassesWhenGoodEnough(d: Definition, baseline: real, candidate: real)
    ensures Gate(d, Quantize(baseline), Quantize(candidate)).passed <==> GoodEnough(d, baseline, candidate)
  {
    hide Quantize, DecimalString;
    var b, c := Quantize(baseline), Quantize(candidate);
    assert ValueOf(c - b) == ValueOf(c) - ValueOf(b) && ValueOf(-(c - b)) == ValueOf(b) - ValueOf(c);
  }

  ghost predicate GoodIn(d: Definition, baseline: map<Metric, real>, candidate: map<Metric, real>) {
    d.metric in baseline && d.metric in candidate && GoodEnough(d, baseline[d.metric], candidate[d.metric])
  }

  /** A report of a metric: its two quantized values, their difference, and whether they are good enough. */
  ghost predicate ReportsTruly(d: Definition, baseline: real, candidate: real, r: MetricResult) {
    && DecimalGrammar(r.baseline) && UnitsOf(r.baseline) == Quantize(baseline)
    && DecimalGrammar(r.candidate) && UnitsOf(r.candidate) == Quantize(candidate)
    && DecimalGrammar(r.delta) && UnitsOf(r.delta) == Quantize(candidate) - Quantize(baseline)
    && (r.passed <==> GoodEnough(d, baseline, candidate))
  }

  ghost predicate ReportedTruly(d: Definition, baseline: map<Metric, real>, candidate: map<Metric, real>, r: CanonicalResult) {
    && d.metric in baseline && d.metric in candidate && d.metric in r.metrics
    && ReportsTruly(d, baseline[d.metric], candidate[d.metric], r.metrics[d.metric])
    && (GateFailed(d.metric) in r.reasons <==> !r.metrics[d.metric].passed)
  }

  lemma GateReportsTruly(d: Definition, baseline: real, candidate: real)
    requires Modest(baseline) && Modest(candidate)
    ensures ReportsTruly(d, baseline, candidate, Gate(d, Quantize(baseline), Quantize(candidate)))
  {
    hide Quantize, DecimalString, DecimalGrammar, UnitsOf, GatePasses, GoodEnough;
    GateAccepted(d, baseline, candidate);
    PassesWhenGoodEnough(d, baseline, candidate);
  }

  /** The candidate is kept exactly when it is good enough for every metric, and every report is true. */
  lemma KeptExactlyWhenGoodEnough(defs: seq<Definition>, baseline: map<Metric, real>, candidate: map<Metric, real>)
    requires InOrder(defs) && |Names(defs)| >= 2
    requires AllModest(Names(defs), baseline) && AllModest(Names(defs), candidate)
    ensures RecomputeOutcome(defs, baseline, candidate).Ok?
    ensures var r := RecomputeOutcome(defs, baseline, candidate).value;
      && r.metrics.Keys == Names(defs) && r.error.None?
      && r.decision == (if forall d :: d in defs ==> GoodIn(d, baseline, candidate) then Keep else Discard)
      && forall d :: d in defs ==> ReportedTruly(d, baseline, candidate, r)
  {
    hide GatesUpTo, Modest, InOrder, Rank, Names, Gate, GatePasses, Quantize, GoodEnough, ReportsTruly, Ascending;
    GatesReport(defs, baseline, candidate, |defs|);
    assert defs[..|defs|] == defs;
    var g := GatesUpTo(defs, baseline, candidate, |defs|).value;
    KeepsExactly(defs, baseline, candidate, g);
    forall d | d in defs
      ensures ReportedTruly(d, baseline, candidate, Concluded(g))
      ensures PassesIn(d, baseline, candidate) <==> GoodIn(d, baseline, candidate)
    {
      var i :| 0 <= i < |defs| && defs[i] == d;
      assert Reported(defs[i], baseline, candidate, g.metrics);
      InNames(defs, i);
      GateReportsTruly(d, baseline[d.metric], candidate[d.metric]);
      PassesWhenGoodEnough(d, baseline[d.metric], candidate[d.metric]);
      GateSaysPassed(d, Quantize(baseline[d.metric]), Quantize(candidate[d.metric]));
    }
  }

  lemma GateSaysPassed(d: Definition, b: int, c: int)
    ensures Gate(d, b, c).passed == GatePasses(d, b, c)
  {
  }

  /** The specification of a metric that the parser takes, with the parameters it fills in. */
  lemma SpecTakenExactly(m: Metric, s: Spec)
    ensures ParseSpec(m, s).Ok? <==>
      && (s.higher <==> m in {SpearmanMetric, PairwiseMetric, Ndcg10, Ndcg50, F1Metric})
      && (m == MaeMetric ==> 0.0 <= s.absoluteThreshold <= 100.0 && 0.0 <= s.minimumDelta <= 100.0)
      && (m == SpearmanMetric ==> -1.0 <= s.absoluteThreshold <= 1.0 && 0.0 <= s.minimumDelta <= 2.0)
      && (m != MaeMetric && m != SpearmanMetric ==> 0.0 <= s.absoluteThreshold <= 1.0 && 0.0 <= s.minimumDelta <= 1.0)
      && (s.threshold.Some? ==> m == F1Metric && 0.0 <= s.threshold.value <= 100.0)
      && (s.bins.Some? ==> m == CalibrationMetric && 2 <= s.bins.value <= 50)
      && (s.maxPairs.Some? ==> m == PairwiseMetric && 1 <= s.maxPairs.value <= 50_000)
    ensures ParseSpec(m, s).Ok? ==>
      var d := ParseSpec(m, s).value;
      && d.metric == m && d.absoluteThreshold == s.absoluteThreshold && d.minimumDelta == s.minimumDelta
      && d.threshold == (match s.threshold case Some(x) => x case None => 50.0)
      && d.bins == (match s.bins case Some(x) => x case None => 10)
      && d.maxPairs == (match s.maxPairs case Some(x) => x case None => 50_000)
  {
  }

  // ----- what the validator leaves open

  lemma SpelledAlike(a: string, b: string)
    requires DecimalGrammar(a) && DecimalGrammar(b) && UnitsOf(a) == UnitsOf(b)
    ensures a == b
  {
    hide DecimalGrammar, UnitsOf, DecimalString;
    SpellingUnique(a);
    SpellingUnique(b);
  }

  /**
   Two accepted results without an error that agree on every metric's two values and gate are the
   same result: delta, decision, flag and reasons are all determined.
   */
  lemma ValidatorDeterminesTheRest(r: CanonicalResult, s: CanonicalResult)
    requires ResultAccepted(r) && ResultAccepted(s) && r.decision != Error && s.decision != Error
    requires r.metrics.Keys == s.metrics.Keys
    requires forall m :: m in r.metrics ==>
      r.metrics[m].baseline == s.metrics[m].baseline && r.metrics[m].candidate == s.metrics[m].candidate
      && r.metrics[m].passed == s.metrics[m].passed
    ensures r == s
  {
    hide DecimalGrammar, UnitsOf;
    forall m | m in r.metrics
      ensures r.metrics[m] == s.metrics[m]
    {
      SpelledAlike(r.metrics[m].delta, s.metrics[m].delta);
    }
    assert r.metrics == s.metrics;
  }

  /** An accepted result keeps the candidate exactly when it reports metrics and all of them passed. */
  lemma AcceptedKeepsExactly(r: CanonicalResult)
    requires ResultAccepted(r)
    ensures r.decision == Keep <==> |r.metrics| >= 2 && forall m :: m in r.metrics ==> r.metrics[m].passed
    ensures r.decision == Keep <==> r.allGatesPassed
  {
    hide MetricAccepted;
    Positions();
    ListedFailures(r.metrics, |METRICS|);
    var failed := FailedUpTo(r.metrics, |METRICS|);
    if failed != [] {
      assert failed[0] in failed;
    }
    forall m | m in r.metrics && !r.metrics[m].passed
      ensures failed != []
    {
      assert GateFailed(m) in failed;
    }
  }

  /** An error result is accepted exactly with a short upper-case code, a bounded message and nothing else. */
  lemma ErrorAcceptedExactly(r: CanonicalResult)
    requires r.decision == Error
    ensures ResultAccepted(r) <==>
      && r.metrics == map[] && !r.allGatesPassed && r.error.Some?
      && var (code, message) := r.error.value;
         && r.reasons == [Code(code)] && 1 <= |code| <= 64 && 1 <= |message| <= 512
         && 'A' <= code[0] <= 'Z'
         && forall i :: 0 <= i < |code| ==> 'A' <= code[i] <= 'Z' || '0' <= code[i] <= '9' || code[i] == '_'
  {
    hide FailedUpTo, MetricAccepted;
    if |r.metrics| == 0 {
      assert r.metrics == map[];
    }
  }

  /** What an accepted result without an error says of each metric and of the whole. */
  lemma AcceptedResultIsBounded(r: CanonicalResult, m: Metric)
    requires ResultAccepted(r) && r.decision != Error
    ensures r.error.None? && 2 <= |r.metrics| <= 7 && 1 <= |r.reasons| <= 7
    ensures m in r.metrics ==>
      var report := r.metrics[m];
      && |report.baseline| <= 32 && |report.candidate| <= 32 && |report.delta| <= 32
      && DecimalGrammar(report.baseline) && DecimalGrammar(report.candidate) && DecimalGrammar(report.delta)
      && UnitsOf(report.delta) == UnitsOf(report.candidate) - UnitsOf(report.baseline)
    ensures r.decision == Discard ==> forall reason :: reason in r.reasons <==>
      reason.GateFailed? && reason.metric in r.metrics && !r.metrics[reason.metric].passed
  {
    hide DecimalGrammar, UnitsOf, FailedUpTo;
    Positions();
    ListedFailures(r.metrics, |METRICS|);
    FewFailures(r.metrics, |METRICS|);
    SevenMetrics(r.metrics.Keys);
    assert |r.metrics| == |r.metrics.Keys|;
  }

  lemma SevenMetrics(names: set<Metric>)
    ensures |names| <= 7
  {
    var all := {MaeMetric, SpearmanMetric, PairwiseMetric, Ndcg10, Ndcg50, F1Metric, CalibrationMetric};
    forall m | m in names
      ensures m in all
    {
      match m {
        case MaeMetric =>
        case SpearmanMetric =>
        case PairwiseMetric =>
        case Ndcg10 =>
        case Ndcg50 =>
        case F1Metric =>
        case CalibrationMetric =>
      }
    }
    SubsetSize(names, all);
  }

  lemma {:induction false} SubsetSize<T>(a: set<T>, b: set<T>)
    requires a <= b
    ensures |a| <= |b|
  {
    if x :| x in a {
      SubsetSize(a - {x}, b - {x});
    }
  }

  /** A benchmark names two to seven metrics. */
  lemma BenchmarkCount(specs: map<Metric, Spec>)
    ensures ParseOutcome(specs) == Err(MetricCount) <==> |specs| < 2
  {
    SevenMetrics(specs.Keys);
    assert |specs| == |specs.Keys|;
    if |specs| >= 2 {
      ParseNeverCounts(specs, |METRICS|);
    }
  }

  lemma {:induction false} ParseNeverCounts(specs: map<Metric, Spec>, k: nat)
    requires k <= |METRICS|
    ensures ParsedUpTo(specs, k) != Err(MetricCount)
  {
    if k > 0 {
      ParseNeverCounts(specs, k - 1);
    }
  }

  /** Which refusal a metric's specification meets, in order. */
  lemma SpecRefusals(m: Metric, s: Spec)
    ensures var out := ParseSpec(m, s);
      && (out == Err(DirectionMismatch(m)) <==> s.higher == (m == MaeMetric || m == CalibrationMetric))
      && (out == Err(ParameterMismatch(m)) ==>
          (s.threshold.Some? && m != F1Metric) || (s.bins.Some? && m != CalibrationMetric) || (s.maxPairs.Some? && m != PairwiseMetric))
      && (out == Err(GateOutOfRange(m)) ==>
          s.absoluteThreshold < -1.0 || (s.absoluteThreshold < 0.0 && m != SpearmanMetric) || s.absoluteThreshold > 1.0
          || s.minimumDelta < 0.0 || s.minimumDelta > 1.0)
      && (out == Err(ParameterOutOfRange(m)) ==> s.threshold.Some? || s.bins.Some? || s.maxPairs.Some?)
      && (out.Err? ==> out.error in {DirectionMismatch(m), ParameterMismatch(m), GateOutOfRange(m), ParameterOutOfRange(m)})
  {
  }
}

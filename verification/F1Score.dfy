/** Binary F1 at one score threshold: the counting loop and the harmonic mean it computes. */
module F1Score {
  import opened MetricInputs
  import opened Outcomes
  import opened Reals

  predicate Hit(labels: seq<real>, predictions: seq<real>, cut: real, i: nat, labelled: bool, predicted: bool)
    requires i < |labels| == |predictions|
  {
    (labels[i] >= cut) == labelled && (predictions[i] >= cut) == predicted
  }

  /** How many of the first n records are labelled and predicted as given. */
  function Hits(labels: seq<real>, predictions: seq<real>, cut: real, labelled: bool, predicted: bool, n: nat): (r: nat)
    requires n <= |labels| == |predictions|
    ensures r <= n
  {
    if n == 0 then 0
    else
      Hits(labels, predictions, cut, labelled, predicted, n - 1)
      + (if Hit(labels, predictions, cut, n - 1, labelled, predicted) then 1 else 0)
  }

  function Harmonic(truePositive: nat, falsePositive: nat, falseNegative: nat): real {
    var denominator := 2 * truePositive + falsePositive + falseNegative;
    if denominator == 0 then 0.0 else (2 * truePositive) as real / denominator as real
  }

  /** `f1` before quantization */
  function F1(labels: seq<real>, predictions: seq<real>, cut: real): real
    requires |labels| == |predictions|
  {
    var n := |labels|;
    Harmonic(Hits(labels, predictions, cut, true, true, n),
      Hits(labels, predictions, cut, false, true, n), Hits(labels, predictions, cut, true, false, n))
  }

  function F1Refusal(labels: seq<real>, predictions: seq<real>, cut: real): Option<Refusal> {
    if Paired(labels, predictions).Some? then Paired(labels, predictions)
    else if !(0.0 <= cut <= 100.0) then Some(InvalidThreshold)
    else None
  }

  /** Which refusal the two vectors and the threshold meet, in order. */
  lemma F1Refusals(labels: seq<real>, predictions: seq<real>, cut: real)
    ensures F1Refusal(labels, predictions, cut)
      == if |labels| != |predictions| then Some(LengthMismatch)
         else if |labels| == 0 then Some(EmptyInput)
         else if cut < 0.0 || cut > 100.0 then Some(InvalidThreshold)
         else None
  {
  }

  method BinaryF1(labels: seq<real>, predictions: seq<real>, cut: real) returns (out: Result<real, Refusal>)
    ensures F1Refusal(labels, predictions, cut).Some? ==> out == Err(F1Refusal(labels, predictions, cut).value)
    ensures F1Refusal(labels, predictions, cut).None? ==> out == Ok(F1(labels, predictions, cut))
  {
    var refusal := F1Refusal(labels, predictions, cut);
    if refusal.Some? {
      return Err(refusal.value);
    }
    var truePositive, falsePositive, falseNegative := 0, 0, 0;
    for i := 0 to |labels|
      invariant truePositive == Hits(labels, predictions, cut, true, true, i)
      invariant falsePositive == Hits(labels, predictions, cut, false, true, i)
      invariant falseNegative == Hits(labels, predictions, cut, true, false, i)
    {
      var expected, observed := labels[i] >= cut, predictions[i] >= cut;
      if expected && observed {
        truePositive := truePositive + 1;
      } else if observed {
        falsePositive := falsePositive + 1;
      } else if expected {
        falseNegative := falseNegative + 1;
      }
    }
    return Ok(Harmonic(truePositive, falsePositive, falseNegative));
  }

  /** A single record at the threshold counts as positive, one below it as negative, on either side. */
  lemma ThresholdIsPositive(cut: real, expected: real, observed: real)
    ensures F1([expected], [observed], cut) == if expected >= cut && observed >= cut then 1.0 else 0.0
  {
    assert Hits([expected], [observed], cut, true, true, 0) == 0;
  }

  /** The records below n that the two vectors put on the given sides of the threshold. */
  function OnSides(labels: seq<real>, predictions: seq<real>, cut: real, labelled: bool, predicted: bool, n: nat): set<nat>
    requires n <= |labels| == |predictions|
  {
    set i: nat | i < n && (labels[i] >= cut <==> labelled) && (predictions[i] >= cut <==> predicted)
  }

  lemma {:induction false} HitsCountRecords(labels: seq<real>, predictions: seq<real>, cut: real, labelled: bool, predicted: bool, n: nat)
    requires n <= |labels| == |predictions|
    ensures Hits(labels, predictions, cut, labelled, predicted, n) == |OnSides(labels, predictions, cut, labelled, predicted, n)|
  {
    if n > 0 {
      HitsCountRecords(labels, predictions, cut, labelled, predicted, n - 1);
      OneMoreRecord(labels, predictions, cut, labelled, predicted, n);
      hide OnSides;
    }
  }

  lemma OneMoreRecord(labels: seq<real>, predictions: seq<real>, cut: real, labelled: bool, predicted: bool, n: nat)
    requires 0 < n <= |labels| == |predictions|
    ensures var before := OnSides(labels, predictions, cut, labelled, predicted, n - 1);
      && n - 1 !in before
      && OnSides(labels, predictions, cut, labelled, predicted, n)
         == before + (if (labels[n - 1] >= cut <==> labelled) && (predictions[n - 1] >= cut <==> predicted) then {n - 1} else {})
  {
  }

  lemma F1Bounds(labels: seq<real>, predictions: seq<real>, cut: real)
    requires |labels| == |predictions|
    ensures 0.0 <= F1(labels, predictions, cut) <= 1.0
  {
    HarmonicBounds(Hits(labels, predictions, cut, true, true, |labels|),
      Hits(labels, predictions, cut, false, true, |labels|), Hits(labels, predictions, cut, true, false, |labels|));
  }

  lemma HarmonicBounds(tp: nat, fp: nat, fn: nat)
    ensures 0.0 <= Harmonic(tp, fp, fn) <= 1.0
  {
    var d := 2 * tp + fp + fn;
    if d > 0 {
      QuotientWithinUnit((2 * tp) as real, d as real);
      QuotientNonNegative((2 * tp) as real, d as real);
    }
  }

  /** Swapping labels and predictions swaps the two kinds of error and keeps F1. */
  lemma {:induction false} HitsSwap(labels: seq<real>, predictions: seq<real>, cut: real, labelled: bool, predicted: bool, n: nat)
    requires n <= |labels| == |predictions|
    ensures Hits(labels, predictions, cut, labelled, predicted, n) == Hits(predictions, labels, cut, predicted, labelled, n)
  {
    if n > 0 {
      HitsSwap(labels, predictions, cut, labelled, predicted, n - 1);
    }
  }

  lemma F1Symmetric(labels: seq<real>, predictions: seq<real>, cut: real)
    requires |labels| == |predictions|
    ensures F1(labels, predictions, cut) == F1(predictions, labels, cut)
  {
    hide Hits;
    HitsSwap(labels, predictions, cut, true, true, |labels|);
    HitsSwap(labels, predictions, cut, false, true, |labels|);
    HitsSwap(labels, predictions, cut, true, false, |labels|);
  }

  /** F1 is the harmonic mean of precision and recall. */
  lemma F1IsHarmonicMean(tp: nat, fp: nat, fn: nat, precision: real, recall: real)
    requires tp > 0
    requires precision * (tp + fp) as real == tp as real && recall * (tp + fn) as real == tp as real
    ensures precision + recall > 0.0
    ensures Harmonic(tp, fp, fn) == 2.0 * precision * recall / (precision + recall)
  {
  }
}

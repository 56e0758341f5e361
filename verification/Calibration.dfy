/** Mean absolute error and equal-width expected calibration error, before quantization. */
module Calibration {
  import opened MetricInputs
  import opened Outcomes
  import opened Reals

  predicate InScoreRange(s: seq<real>) {
    forall i :: 0 <= i < |s| ==> 0.0 <= s[i] <= 100.0
  }

  function AbsoluteErrors(labels: seq<real>, predictions: seq<real>): (r: real)
    requires |labels| == |predictions|
    ensures r >= 0.0
  {
    if labels == [] then 0.0
    else AbsoluteErrors(labels[..|labels| - 1], predictions[..|labels| - 1]) + Abs(labels[|labels| - 1] - predictions[|labels| - 1])
  }

  function Mae(labels: seq<real>, predictions: seq<real>): real
    requires |labels| == |predictions| > 0
  {
    AbsoluteErrors(labels, predictions) / |labels| as real
  }

  // ----- bins

  function BinOf(observed: real, bins: nat): (b: nat)
    requires bins > 0 && observed >= 0.0
    ensures b < bins
  {
    var index := (observed * bins as real / 100.0).Floor;
    NonNegativeShare(observed, bins as real);
    if index < bins - 1 then index else bins - 1
  }

  lemma NonNegativeShare(x: real, n: real)
    requires x >= 0.0 && n >= 0.0
    ensures x * n / 100.0 >= 0.0
  {
  }

  /** The interval of scores each of the equal-width bins holds; the last one holds its upper end too. */
  lemma BinHolds(observed: real, bins: nat, b: nat)
    requires bins > 0 && 0.0 <= observed <= 100.0 && b < bins
    ensures BinOf(observed, bins) == b <==>
      100.0 * b as real <= observed * bins as real && (b < bins - 1 ==> observed * bins as real < 100.0 * (b + 1) as real)
  {
    var share := observed * bins as real;
    NonNegativeShare(observed, bins as real);
    var index := (share / 100.0).Floor;
    assert index as real <= share / 100.0 < (index + 1) as real;
    assert 100.0 * index as real <= share < 100.0 * (index + 1) as real;
  }

  function CountIn(predictions: seq<real>, b: nat, bins: nat): (c: nat)
    requires bins > 0 && InScoreRange(predictions)
  {
    if predictions == [] then 0
    else
      var last := |predictions| - 1;
      CountIn(predictions[..last], b, bins) + (if BinOf(predictions[last], bins) == b then 1 else 0)
  }

  /** The values, as shares of one hundred, of the records whose prediction falls in the bin. */
  function ShareIn(values: seq<real>, predictions: seq<real>, b: nat, bins: nat): real
    requires bins > 0 && InScoreRange(predictions) && |values| == |predictions|
  {
    if values == [] then 0.0
    else
      var last := |values| - 1;
      ShareIn(values[..last], predictions[..last], b, bins) + (if BinOf(predictions[last], bins) == b then values[last] / 100.0 else 0.0)
  }

  function BinError(labels: seq<real>, predictions: seq<real>, b: nat, bins: nat): real
    requires bins > 0 && InScoreRange(predictions) && |labels| == |predictions| > 0
  {
    var count := CountIn(predictions, b, bins);
    if count == 0 then 0.0
    else
      var size := count as real;
      size / |labels| as real * Abs(ShareIn(predictions, predictions, b, bins) / size - ShareIn(labels, predictions, b, bins) / size)
  }

  function ErrorBelow(labels: seq<real>, predictions: seq<real>, upto: nat, bins: nat): real
    requires bins > 0 && InScoreRange(predictions) && |labels| == |predictions| > 0
  {
    if upto == 0 then 0.0
    else ErrorBelow(labels, predictions, upto - 1, bins) + BinError(labels, predictions, upto - 1, bins)
  }

  function CalibrationRefusal(labels: seq<real>, predictions: seq<real>, bins: int): Option<Refusal> {
    if Paired(labels, predictions).Some? then Paired(labels, predictions)
    else if !(2 <= bins <= 50) then Some(InvalidBins)
    else if !InScoreRange(labels) || !InScoreRange(predictions) then Some(InvalidScore)
    else None
  }

  /** Which refusal the two vectors and the number of bins meet, in order. */
  lemma CalibrationRefusals(labels: seq<real>, predictions: seq<real>, bins: int)
    ensures CalibrationRefusal(labels, predictions, bins)
      == if |labels| != |predictions| then Some(LengthMismatch)
         else if |labels| == 0 then Some(EmptyInput)
         else if bins < 2 || bins > 50 then Some(InvalidBins)
         else if exists i :: 0 <= i < |labels| && (labels[i] < 0.0 || labels[i] > 100.0 || predictions[i] < 0.0 || predictions[i] > 100.0)
         then Some(InvalidScore)
         else None
  {
  }

  /** The first pass: three arrays of bins, one record at a time. */
  method FillBins(labels: seq<real>, predictions: seq<real>, bins: nat)
    returns (counts: array<nat>, expectedSums: array<real>, observedSums: array<real>)
    requires bins > 0 && |labels| == |predictions| && InScoreRange(predictions)
    ensures counts.Length == expectedSums.Length == observedSums.Length == bins
    ensures forall b :: 0 <= b < bins ==> counts[b] == CountIn(predictions, b, bins)
    ensures forall b :: 0 <= b < bins ==> expectedSums[b] == ShareIn(labels, predictions, b, bins)
    ensures forall b :: 0 <= b < bins ==> observedSums[b] == ShareIn(predictions, predictions, b, bins)
  {
    hide BinOf;
    counts := new nat[bins](_ => 0);
    expectedSums := new real[bins](_ => 0.0);
    observedSums := new real[bins](_ => 0.0);
    for k := 0 to |labels|
      invariant forall b :: 0 <= b < bins ==> counts[b] == CountIn(predictions[..k], b, bins)
      invariant forall b :: 0 <= b < bins ==> expectedSums[b] == ShareIn(labels[..k], predictions[..k], b, bins)
      invariant forall b :: 0 <= b < bins ==> observedSums[b] == ShareIn(predictions[..k], predictions[..k], b, bins)
    {
      var index := BinOf(predictions[k], bins);
      assert predictions[..k + 1][..k] == predictions[..k] && labels[..k + 1][..k] == labels[..k];
      counts[index] := counts[index] + 1;
      expectedSums[index] := expectedSums[index] + labels[k] / 100.0;
      observedSums[index] := observedSums[index] + predictions[k] / 100.0;
    }
    assert predictions[..|labels|] == predictions && labels[..|labels|] == labels;
  }

  /** `calibration_error`, up to its final quantization. */
  method CalibrationError(labels: seq<real>, predictions: seq<real>, bins: int) returns (out: Result<real, Refusal>)
    ensures var refusal := CalibrationRefusal(labels, predictions, bins);
      if refusal.Some? then out == Err(refusal.value) else out == Ok(ErrorBelow(labels, predictions, bins, bins))
  {
    hide BinOf, CountIn, ShareIn;
    var refusal := CalibrationRefusal(labels, predictions, bins);
    if refusal.Some? {
      return Err(refusal.value);
    }
    var counts, expectedSums, observedSums := FillBins(labels, predictions, bins);
    var error := 0.0;
    for b := 0 to bins
      invariant error == ErrorBelow(labels, predictions, b, bins)
    {
      if counts[b] != 0 {
        var size := counts[b] as real;
        error := error + size / |labels| as real * Abs(observedSums[b] / size - expectedSums[b] / size);
      }
    }
    out := Ok(error);
  }

  // ----- properties

  function CountBelow(predictions: seq<real>, upto: nat, bins: nat): nat
    requires bins > 0 && InScoreRange(predictions)
  {
    if upto == 0 then 0 else CountBelow(predictions, upto - 1, bins) + CountIn(predictions, upto - 1, bins)
  }

  lemma {:induction false} OneMoreRecord(predictions: seq<real>, upto: nat, bins: nat)
    requires bins > 0 && InScoreRange(predictions) && predictions != []
    ensures var last := |predictions| - 1;
      CountBelow(predictions, upto, bins)
      == CountBelow(predictions[..last], upto, bins) + (if BinOf(predictions[last], bins) < upto then 1 else 0)
  {
    hide BinOf;
    if upto > 0 {
      OneMoreRecord(predictions, upto - 1, bins);
    }
  }

  lemma {:induction false} NothingBelow(upto: nat, bins: nat)
    requires bins > 0
    ensures CountBelow([], upto, bins) == 0
  {
    if upto > 0 {
      NothingBelow(upto - 1, bins);
    }
  }

  /** The bins partition the records: their counts add up to the number of records. */
  lemma {:induction false} BinsPartition(predictions: seq<real>, bins: nat)
    requires bins > 0 && InScoreRange(predictions)
    ensures CountBelow(predictions, bins, bins) == |predictions|
  {
    if predictions == [] {
      NothingBelow(bins, bins);
    } else {
      BinsPartition(predictions[..|predictions| - 1], bins);
      OneMoreRecord(predictions, bins, bins);
    }
  }

  /** The net error of a bin: observed minus expected share. */
  function Net(labels: seq<real>, predictions: seq<real>, b: nat, bins: nat): real
    requires bins > 0 && InScoreRange(predictions) && |labels| == |predictions|
  {
    ShareIn(predictions, predictions, b, bins) - ShareIn(labels, predictions, b, bins)
  }

  function NetsBelow(labels: seq<real>, predictions: seq<real>, upto: nat, bins: nat): real
    requires bins > 0 && InScoreRange(predictions) && |labels| == |predictions|
  {
    if upto == 0 then 0.0 else NetsBelow(labels, predictions, upto - 1, bins) + Abs(Net(labels, predictions, upto - 1, bins))
  }

  lemma {:induction false} EmptyBinHasNoShare(values: seq<real>, predictions: seq<real>, b: nat, bins: nat)
    requires bins > 0 && InScoreRange(predictions) && |values| == |predictions|
    requires CountIn(predictions, b, bins) == 0
    ensures ShareIn(values, predictions, b, bins) == 0.0
  {
    hide BinOf;
    if values != [] {
      EmptyBinHasNoShare(values[..|values| - 1], predictions[..|values| - 1], b, bins);
    }
  }

  lemma WeightedMean(size: real, total: real, x: real, y: real)
    requires size > 0.0 && total > 0.0
    ensures size / total * Abs(x / size - y / size) == Abs(x - y) / total
  {
  }

  lemma SumOfShares(x: real, y: real, n: real)
    requires n > 0.0
    ensures (x + y) / n == x / n + y / n
  {
  }

  lemma NoShare(n: real)
    requires n > 0.0
    ensures Abs(0.0) / n == 0.0 && 0.0 / n == 0.0
  {
  }

  /** The weighted bin errors are the absolute net errors over the number of records. */
  lemma {:induction false} ErrorIsNetSum(labels: seq<real>, predictions: seq<real>, upto: nat, bins: nat)
    requires bins > 0 && InScoreRange(predictions) && |labels| == |predictions| > 0
    ensures ErrorBelow(labels, predictions, upto, bins) == NetsBelow(labels, predictions, upto, bins) / |labels| as real
  {
    hide BinOf, ShareIn, CountIn, Abs;
    if upto > 0 {
      var b := upto - 1;
      SumOfShares(NetsBelow(labels, predictions, b, bins), Abs(Net(labels, predictions, b, bins)), |labels| as real);
      ErrorIsNetSum(labels, predictions, b, bins);
      if CountIn(predictions, b, bins) == 0 {
        EmptyBinHasNoShare(predictions, predictions, b, bins);
        EmptyBinHasNoShare(labels, predictions, b, bins);
        NoShare(|labels| as real);
      } else {
        WeightedMean(CountIn(predictions, b, bins) as real, |labels| as real,
                     ShareIn(predictions, predictions, b, bins), ShareIn(labels, predictions, b, bins));
      }
    }
  }

  lemma {:induction false} OneMoreNet(labels: seq<real>, predictions: seq<real>, upto: nat, bins: nat)
    requires bins > 0 && InScoreRange(predictions) && |labels| == |predictions| > 0
    ensures var last := |labels| - 1;
      NetsBelow(labels, predictions, upto, bins)
      <= NetsBelow(labels[..last], predictions[..last], upto, bins)
         + (if BinOf(predictions[last], bins) < upto then Abs(labels[last] - predictions[last]) / 100.0 else 0.0)
  {
    hide BinOf;
    if upto > 0 {
      OneMoreNet(labels, predictions, upto - 1, bins);
    }
  }

  lemma {:induction false} NoNets(upto: nat, bins: nat)
    requires bins > 0
    ensures NetsBelow([], [], upto, bins) == 0.0
  {
    if upto > 0 {
      NoNets(upto - 1, bins);
    }
  }

  lemma {:induction false} NetsWithinErrors(labels: seq<real>, predictions: seq<real>, bins: nat)
    requires bins > 0 && InScoreRange(predictions) && |labels| == |predictions|
    ensures 0.0 <= NetsBelow(labels, predictions, bins, bins) <= AbsoluteErrors(labels, predictions) / 100.0
  {
    NetsNonNegative(labels, predictions, bins, bins);
    if labels == [] {
      NoNets(bins, bins);
    } else {
      NetsWithinErrors(labels[..|labels| - 1], predictions[..|labels| - 1], bins);
      OneMoreNet(labels, predictions, bins, bins);
    }
  }

  lemma {:induction false} NetsNonNegative(labels: seq<real>, predictions: seq<real>, upto: nat, bins: nat)
    requires bins > 0 && InScoreRange(predictions) && |labels| == |predictions|
    ensures NetsBelow(labels, predictions, upto, bins) >= 0.0
  {
    if upto > 0 {
      NetsNonNegative(labels, predictions, upto - 1, bins);
    }
  }

  lemma {:induction false} ErrorsAtMostHundredEach(labels: seq<real>, predictions: seq<real>)
    requires |labels| == |predictions| && InScoreRange(labels) && InScoreRange(predictions)
    ensures AbsoluteErrors(labels, predictions) <= 100.0 * |labels| as real
  {
    if labels != [] {
      ErrorsAtMostHundredEach(labels[..|labels| - 1], predictions[..|labels| - 1]);
    }
  }

  lemma MaeBounds(labels: seq<real>, predictions: seq<real>)
    requires |labels| == |predictions| > 0 && InScoreRange(labels) && InScoreRange(predictions)
    ensures 0.0 <= Mae(labels, predictions) <= 100.0
  {
    ErrorsAtMostHundredEach(labels, predictions);
    ShareWithin(AbsoluteErrors(labels, predictions), 100.0, |labels| as real);
  }

  lemma ShareWithin(x: real, bound: real, n: real)
    requires n > 0.0 && 0.0 <= x <= bound * n
    ensures 0.0 <= x / n <= bound
  {
  }

  /** In exact arithmetic calibration error lies in [0, 1] and is at most a hundredth of the MAE. */
  lemma CalibrationWithinMae(labels: seq<real>, predictions: seq<real>, bins: nat)
    requires bins > 0 && |labels| == |predictions| > 0 && InScoreRange(labels) && InScoreRange(predictions)
    ensures 0.0 <= ErrorBelow(labels, predictions, bins, bins) <= Mae(labels, predictions) / 100.0 <= 1.0
  {
    hide ErrorBelow, NetsBelow, AbsoluteErrors;
    ErrorIsNetSum(labels, predictions, bins, bins);
    NetsWithinErrors(labels, predictions, bins);
    MaeBounds(labels, predictions);
    var nets, all, n := NetsBelow(labels, predictions, bins, bins), AbsoluteErrors(labels, predictions), |labels| as real;
    var mean := all / n;
    assert mean * n == all;
    assert mean / 100.0 * n == all / 100.0;
    ShareWithin(nets, mean / 100.0, n);
  }

  // ----- records of one bin

  lemma {:induction false} SharesInOneBin(values: seq<real>, predictions: seq<real>, mine: nat, b: nat, bins: nat)
    requires bins > 0 && InScoreRange(predictions) && |values| == |predictions|
    requires forall i :: 0 <= i < |predictions| ==> BinOf(predictions[i], bins) == mine
    ensures ShareIn(values, predictions, b, bins) == if b == mine then Sum(values) / 100.0 else 0.0
  {
    hide BinOf;
    if values != [] {
      SharesInOneBin(values[..|values| - 1], predictions[..|values| - 1], mine, b, bins);
    }
  }

  lemma {:induction false} NetsOfOneBin(labels: seq<real>, predictions: seq<real>, mine: nat, upto: nat, bins: nat)
    requires bins > 0 && InScoreRange(predictions) && |labels| == |predictions|
    requires forall i :: 0 <= i < |predictions| ==> BinOf(predictions[i], bins) == mine
    ensures NetsBelow(labels, predictions, upto, bins)
      == if mine < upto then Abs(Sum(predictions) / 100.0 - Sum(labels) / 100.0) else 0.0
  {
    hide BinOf, Sum, ShareIn;
    if upto > 0 {
      NetsOfOneBin(labels, predictions, mine, upto - 1, bins);
      SharesInOneBin(labels, predictions, mine, upto - 1, bins);
      SharesInOneBin(predictions, predictions, mine, upto - 1, bins);
    }
  }

  /** When all scores share one bin, calibration error is the distance of the two mean shares. */
  lemma CalibrationOfOneBin(labels: seq<real>, predictions: seq<real>, mine: nat, bins: nat)
    requires mine < bins && InScoreRange(predictions) && |labels| == |predictions| > 0
    requires forall i :: 0 <= i < |predictions| ==> BinOf(predictions[i], bins) == mine
    ensures ErrorBelow(labels, predictions, bins, bins)
      == Abs(Sum(predictions) / 100.0 - Sum(labels) / 100.0) / |labels| as real
  {
    hide BinOf, ErrorBelow, NetsBelow, Sum, Abs;
    ErrorIsNetSum(labels, predictions, bins, bins);
    NetsOfOneBin(labels, predictions, mine, bins, bins);
  }

  /** One more record adds its own distance to the sum of errors. */
  lemma OneMoreError(labels: seq<real>, predictions: seq<real>, expected: real, observed: real)
    requires |labels| == |predictions|
    ensures AbsoluteErrors(labels + [expected], predictions + [observed])
      == AbsoluteErrors(labels, predictions) + (if expected < observed then observed - expected else expected - observed)
    ensures Mae([expected], [observed]) == if expected < observed then observed - expected else expected - observed
  {
    assert (labels + [expected])[..|labels|] == labels && (predictions + [observed])[..|labels|] == predictions;
    assert [expected][..0] == [] && [observed][..0] == [];
  }
}

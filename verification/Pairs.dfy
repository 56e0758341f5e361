/**
 Pairwise ranking accuracy: record pairs are numbered in lexicographic order, a bounded sample of the
 numbers is drawn without randomness, and each number is turned back into its pair by binary search.
 */
module Pairs {
  import opened Division
  import opened MetricInputs
  import opened Outcomes
  import Reals

  // ----- numbering the pairs

  /** Pairs whose left member comes before `index`. */
  function PairsBefore(index: nat, count: nat): int {
    index * (2 * count - index - 1) / 2
  }

  function PairCount(count: nat): nat {
    count * (count - 1) / 2
  }

  lemma RowLength(index: nat, count: nat)
    ensures PairsBefore(index + 1, count) == PairsBefore(index, count) + count - 1 - index
    ensures PairsBefore(0, count) == 0
  {
  }

  lemma {:induction false} PairsBeforeMonotone(a: nat, b: nat, count: nat)
    requires a <= b <= count
    ensures PairsBefore(a, count) <= PairsBefore(b, count)
    decreases b - a
  {
    if a < b {
      RowLength(a, count);
      PairsBeforeMonotone(a + 1, b, count);
    }
  }

  lemma AllPairs(count: nat)
    ensures PairsBefore(count, count) == PairCount(count)
  {
  }

  /** The position of a pair in lexicographic order. */
  function RankPair(left: nat, right: nat, count: nat): int {
    PairsBefore(left, count) + right - left - 1
  }

  /** The independent reference: walk along the rows, one left member after the other. */
  function PairAt(k: nat, left: nat, count: nat): (nat, nat)
    requires left <= count
    decreases count - left
  {
    if left == count then (left, left + 1)
    else if k < count - 1 - left then (left, left + 1 + k)
    else PairAt(k - (count - 1 - left), left + 1, count)
  }

  lemma {:induction false} PairAtRanks(k: nat, left: nat, count: nat)
    requires left <= count && PairsBefore(left, count) + k < PairCount(count)
    ensures var (i, j) := PairAt(k, left, count);
      left <= i < j < count && RankPair(i, j, count) == PairsBefore(left, count) + k
    decreases count - left
  {
    AllPairs(count);
    if left < count {
      RowLength(left, count);
      if k >= count - 1 - left {
        PairAtRanks(k - (count - 1 - left), left + 1, count);
      }
    }
  }

  /** Ranks are lexicographic: order-preserving and hence injective on pairs. */
  lemma RanksFollowLexicographicOrder(i: nat, j: nat, a: nat, b: nat, count: nat)
    requires i < j < count && a < b < count
    requires i < a || (i == a && j < b)
    ensures RankPair(i, j, count) < RankPair(a, b, count)
  {
    if i < a {
      RowLength(i, count);
      PairsBeforeMonotone(i + 1, a, count);
    }
  }

  lemma RanksInRange(i: nat, j: nat, count: nat)
    requires i < j < count
    ensures 0 <= RankPair(i, j, count) < PairCount(count)
  {
    RowLength(0, count);
    PairsBeforeMonotone(0, i, count);
    RowLength(i, count);
    PairsBeforeMonotone(i + 1, count, count);
    AllPairs(count);
  }

  /** Numbers below n(n-1)/2 and pairs i < j < n correspond one to one, in order. */
  lemma PairNumberingIsBijective(k: nat, i: nat, j: nat, count: nat)
    requires k < PairCount(count) && i < j < count
    ensures PairAt(k, 0, count) == (i, j) <==> RankPair(i, j, count) == k
    ensures 0 <= RankPair(i, j, count) < PairCount(count)
  {
    RanksInRange(i, j, count);
    RowLength(0, count);
    PairAtRanks(k, 0, count);
    var (a, b) := PairAt(k, 0, count);
    if (a, b) != (i, j) {
      if a < i || (a == i && b < j) {
        RanksFollowLexicographicOrder(a, b, i, j, count);
      } else {
        RanksFollowLexicographicOrder(i, j, a, b, count);
      }
    }
  }

  /** `_unrank_pair`: binary search for the row of a pair number. */
  method UnrankPair(pairIndex: nat, count: nat) returns (left: nat, right: nat)
    requires pairIndex < PairCount(count)
    ensures left < right < count
    ensures (left, right) == PairAt(pairIndex, 0, count)
  {
    AllPairs(count);
    RowLength(0, count);
    var low, high := 0, count - 1;
    while low < high
      invariant 0 <= low <= high < count
      invariant PairsBefore(low, count) <= pairIndex < PairsBefore(high + 1, count)
    {
      var middle := (low + high + 1) / 2;
      if PairsBefore(middle, count) <= pairIndex {
        low := middle;
      } else {
        high := middle - 1;
      }
    }
    left := low;
    RowLength(left, count);
    right := left + 1 + pairIndex - PairsBefore(left, count);
    PairNumberingIsBijective(pairIndex, left, right, count);
  }

  // ----- the sample

  function SampleAt(slot: nat, total: nat, maxPairs: nat): nat
    requires maxPairs > 0
  {
    FloorDiv((2 * slot + 1) * total, 2 * maxPairs)
  }

  function SampledPairIndices(count: nat, maxPairs: nat): (s: seq<nat>)
    requires maxPairs > 0
  {
    var total := PairCount(count);
    if total <= maxPairs then seq(total, k => k) else seq(maxPairs, slot requires 0 <= slot < maxPairs => SampleAt(slot, total, maxPairs))
  }

  /** Each sampled index is the one that holds the middle of its share of all the pairs. */
  lemma SampleHoldsTheMiddle(slot: nat, total: nat, maxPairs: nat)
    requires maxPairs > 0
    ensures var index := SampleAt(slot, total, maxPairs);
      index * (2 * maxPairs) <= (2 * slot + 1) * total < (index + 1) * (2 * maxPairs)
  {
    var x, d := (2 * slot + 1) * total, 2 * maxPairs;
    assert FloorDiv(x, d) * d <= x;
  }

  /** Neighbouring sample positions differ by the floor or the ceiling of the mean gap. */
  lemma SampleGap(slot: nat, total: nat, maxPairs: nat)
    requires maxPairs > 0
    ensures var gap, mean := SampleAt(slot + 1, total, maxPairs) - SampleAt(slot, total, maxPairs), FloorDiv(total, maxPairs);
      gap == mean || (total > mean * maxPairs && gap == mean + 1)
  {
    hide FloorDiv;
    var q, d := FloorDiv(total, maxPairs), 2 * maxPairs;
    var r := total - q * maxPairs;
    assert (q + 1) * maxPairs == q * maxPairs + maxPairs;
    var x := (2 * slot + 1) * total;
    assert (2 * (slot + 1) + 1) * total == x + 2 * total;
    assert q * d == 2 * (q * maxPairs);
    QuotientShift(x, q, 2 * r, d);
  }

  lemma {:induction false} SampleAscends(a: nat, b: nat, total: nat, maxPairs: nat)
    requires 0 < maxPairs < total && a < b
    ensures SampleAt(a, total, maxPairs) < SampleAt(b, total, maxPairs)
    decreases b - a
  {
    hide SampleAt;
    SampleGap(b - 1, total, maxPairs);
    QuotientAtLeast(total, maxPairs, 1);
    if a < b - 1 {
      SampleAscends(a, b - 1, total, maxPairs);
    }
  }

  lemma SampleBelowTotal(slot: nat, total: nat, maxPairs: nat)
    requires slot < maxPairs && total > 0
    ensures SampleAt(slot, total, maxPairs) < total
  {
    hide FloorDiv;
    var d := 2 * maxPairs;
    MulMonotone(2 * slot + 1, d - 1, total);
    assert d * total == (d - 1) * total + total;
    assert d * total == total * d;
    QuotientBelow((2 * slot + 1) * total, d, total);
  }

  /** The sample is within range, strictly ascending, and evenly spread; it is complete when it can be. */
  lemma SampleIsSpread(count: nat, maxPairs: nat)
    requires maxPairs > 0
    ensures var s := SampledPairIndices(count, maxPairs); var total := PairCount(count);
      && |s| == (if total <= maxPairs then total else maxPairs)
      && (forall k :: 0 <= k < |s| ==> s[k] < total)
      && (forall j, k :: 0 <= j < k < |s| ==> s[j] < s[k])
      && (total > maxPairs ==> forall k :: 0 <= k < |s| - 1 ==>
            var mean := FloorDiv(total, maxPairs);
            s[k + 1] - s[k] == mean || (total > mean * maxPairs && s[k + 1] - s[k] == mean + 1))
  {
    hide SampleAt, FloorDiv;
    var s, total := SampledPairIndices(count, maxPairs), PairCount(count);
    if total > maxPairs {
      forall k | 0 <= k < |s|
        ensures s[k] < total
      {
        SampleBelowTotal(k, total, maxPairs);
      }
      forall j, k | 0 <= j < k < |s|
        ensures s[j] < s[k]
      {
        SampleAscends(j, k, total, maxPairs);
      }
      forall k | 0 <= k < |s| - 1
        ensures var mean := FloorDiv(total, maxPairs);
          s[k + 1] - s[k] == mean || (total > mean * maxPairs && s[k + 1] - s[k] == mean + 1)
      {
        SampleGap(k, total, maxPairs);
      }
    }
  }

  // ----- accuracy

  function Compare(a: real, b: real): int {
    if a < b then -1 else if a > b then 1 else 0
  }

  /** Twice the credit of one pair: a pair with equal labels counts nothing and earns nothing. */
  function Credit(labels: seq<real>, predictions: seq<real>, i: nat, j: nat): int
    requires i < |labels| == |predictions| && j < |labels|
  {
    var expected, observed := Compare(labels[i], labels[j]), Compare(predictions[i], predictions[j]);
    if expected == 0 then 0 else if observed == expected then 2 else if observed == 0 then 1 else 0
  }

  function Comparable(labels: seq<real>, i: nat, j: nat): int
    requires i < |labels| && j < |labels|
  {
    if Compare(labels[i], labels[j]) == 0 then 0 else 1
  }

  predicate InRange(indices: seq<nat>, count: nat) {
    forall k :: 0 <= k < |indices| ==> indices[k] < PairCount(count)
  }

  /** Twice the credit and the number of comparable pairs over the first pairs of a sample. */
  ghost function Tally(labels: seq<real>, predictions: seq<real>, indices: seq<nat>): (int, int)
    requires |labels| == |predictions| && InRange(indices, |labels|)
  {
    if indices == [] then (0, 0)
    else
      var (credit, comparable) := Tally(labels, predictions, indices[..|indices| - 1]);
      var last := indices[|indices| - 1];
      var (i, j) := PairAt(last, 0, |labels|);
      PairAtIsPair(last, |labels|);
      (credit + Credit(labels, predictions, i, j), comparable + Comparable(labels, i, j))
  }

  /** One more sampled pair adds its credit and its comparability. */
  lemma TallyStep(labels: seq<real>, predictions: seq<real>, indices: seq<nat>, i: nat, j: nat)
    requires |labels| == |predictions| && InRange(indices, |labels|) && indices != []
    requires i < j < |labels| && PairAt(indices[|indices| - 1], 0, |labels|) == (i, j)
    ensures var before := Tally(labels, predictions, indices[..|indices| - 1]);
      Tally(labels, predictions, indices)
      == (before.0 + Credit(labels, predictions, i, j), before.1 + Comparable(labels, i, j))
  {
  }

  lemma PairAtIsPair(k: nat, count: nat)
    requires k < PairCount(count)
    ensures var (i, j) := PairAt(k, 0, count); i < j < count
  {
    RowLength(0, count);
    PairAtRanks(k, 0, count);
  }

  lemma SampleInRange(count: nat, maxPairs: nat)
    requires maxPairs > 0
    ensures InRange(SampledPairIndices(count, maxPairs), count)
  {
    SampleIsSpread(count, maxPairs);
  }

  function HalfCredit(credit: int): real {
    credit as real / 2.0
  }

  lemma HalfSteps(credit: int)
    ensures HalfCredit(credit + 2) == HalfCredit(credit) + 1.0 && HalfCredit(credit + 1) == HalfCredit(credit) + 0.5
    ensures HalfCredit(0) == 0.0
  {
  }

  function Share(correct: real, comparable: int): real {
    if comparable == 0 then 0.0 else correct / comparable as real
  }

  /** Exact accuracy, before quantization; zero when nothing is comparable. */
  ghost function Accuracy(labels: seq<real>, predictions: seq<real>, maxPairs: nat): real
    requires |labels| == |predictions| && maxPairs > 0
  {
    SampleInRange(|labels|, maxPairs);
    var (credit, comparable) := Tally(labels, predictions, SampledPairIndices(|labels|, maxPairs));
    Share(HalfCredit(credit), comparable)
  }

  function AccuracyRefusal(labels: seq<real>, predictions: seq<real>, maxPairs: int): Option<Refusal> {
    if Paired(labels, predictions).Some? then Paired(labels, predictions)
    else if !(1 <= maxPairs <= MAX_PAIRWISE_PAIRS) then Some(InvalidMaxPairs)
    else None
  }

  /** Which refusal the two vectors and the pair bound meet, in order. */
  lemma AccuracyRefusals(labels: seq<real>, predictions: seq<real>, maxPairs: int)
    ensures AccuracyRefusal(labels, predictions, maxPairs)
      == if |labels| != |predictions| then Some(LengthMismatch)
         else if |labels| == 0 then Some(EmptyInput)
         else if maxPairs < 1 || maxPairs > 50_000 then Some(InvalidMaxPairs)
         else None
  {
  }

  lemma AccuracyIs(labels: seq<real>, predictions: seq<real>, maxPairs: nat)
    requires |labels| == |predictions| && maxPairs > 0 && InRange(SampledPairIndices(|labels|, maxPairs), |labels|)
    ensures var tally := Tally(labels, predictions, SampledPairIndices(|labels|, maxPairs));
      Accuracy(labels, predictions, maxPairs) == Share(HalfCredit(tally.0), tally.1)
  {
  }

  /** The body of the pair loop: an equal-label pair is skipped, a prediction tie earns one half. */
  method ScorePair(labels: seq<real>, predictions: seq<real>, left: nat, right: nat, before: real, counted: int, ghost credit: int)
    returns (correct: real, comparable: int)
    requires |labels| == |predictions| && left < |labels| && right < |labels| && before == HalfCredit(credit)
    ensures correct == HalfCredit(credit + Credit(labels, predictions, left, right))
    ensures comparable == counted + Comparable(labels, left, right)
  {
    HalfSteps(credit);
    correct, comparable := before, counted;
    var expected := Compare(labels[left], labels[right]);
    if expected != 0 {
      var observed := Compare(predictions[left], predictions[right]);
      comparable := comparable + 1;
      if observed == expected {
        correct := correct + 1.0;
      } else if observed == 0 {
        correct := correct + 0.5;
      }
    }
  }

  /** `pairwise_accuracy`, up to its final quantization. */
  method PairwiseAccuracy(labels: seq<real>, predictions: seq<real>, maxPairs: int) returns (out: Result<real, Refusal>)
    ensures var refusal := AccuracyRefusal(labels, predictions, maxPairs);
      if refusal.Some? then out == Err(refusal.value) else out == Ok(Accuracy(labels, predictions, maxPairs))
  {
    var refusal := AccuracyRefusal(labels, predictions, maxPairs);
    if refusal.Some? {
      return Err(refusal.value);
    }
    if |labels| < 2 {
      NothingToCompare(labels, predictions, maxPairs);
      return Ok(0.0);
    }
    hide SampledPairIndices, PairAt, FloorDiv, Tally, PairCount, PairsBefore, HalfCredit, Share, Credit, Comparable, Accuracy;
    HalfSteps(0);
    var indices := SampledPairIndices(|labels|, maxPairs);
    SampleInRange(|labels|, maxPairs);
    var correct, comparable := 0.0, 0;
    ghost var credit := 0;
    var k := 0;
    NothingTallied(labels, predictions);
    assert indices[..0] == [];
    while k < |indices|
      invariant 0 <= k <= |indices|
      invariant InRange(indices[..k], |labels|)
      invariant Tally(labels, predictions, indices[..k]) == (credit, comparable)
      invariant correct == HalfCredit(credit)
    {
      var left, right := UnrankPair(indices[k], |labels|);
      assert indices[..k + 1] == indices[..k] + [indices[k]];
      assert indices[..k + 1][..k] == indices[..k];
      TallyStep(labels, predictions, indices[..k + 1], left, right);
      correct, comparable := ScorePair(labels, predictions, left, right, correct, comparable, credit);
      credit := credit + Credit(labels, predictions, left, right);
      k := k + 1;
    }
    assert indices[..k] == indices;
    AccuracyIs(labels, predictions, maxPairs);
    out := Ok(Share(correct, comparable));
  }

  lemma NothingTallied(labels: seq<real>, predictions: seq<real>)
    requires |labels| == |predictions|
    ensures Tally(labels, predictions, []) == (0, 0)
  {
  }

  lemma NothingToCompare(labels: seq<real>, predictions: seq<real>, maxPairs: nat)
    requires |labels| == |predictions| < 2 && maxPairs > 0
    ensures Accuracy(labels, predictions, maxPairs) == 0.0
  {
    assert PairCount(|labels|) == 0;
    assert SampledPairIndices(|labels|, maxPairs) == [];
  }

  // ----- properties

  lemma {:induction false} TallyBounds(labels: seq<real>, predictions: seq<real>, indices: seq<nat>)
    requires |labels| == |predictions| && InRange(indices, |labels|)
    ensures var (credit, comparable) := Tally(labels, predictions, indices);
      0 <= credit <= 2 * comparable
  {
    if indices != [] {
      TallyBounds(labels, predictions, indices[..|indices| - 1]);
    }
  }

  lemma AccuracyBounds(labels: seq<real>, predictions: seq<real>, maxPairs: nat)
    requires |labels| == |predictions| && maxPairs > 0
    ensures 0.0 <= Accuracy(labels, predictions, maxPairs) <= 1.0
  {
    hide Tally, SampledPairIndices, Share, HalfCredit, Accuracy;
    SampleInRange(|labels|, maxPairs);
    AccuracyIs(labels, predictions, maxPairs);
    TallyBounds(labels, predictions, SampledPairIndices(|labels|, maxPairs));
    var tally := Tally(labels, predictions, SampledPairIndices(|labels|, maxPairs));
    ShareBounds(tally.0, tally.1);
  }

  lemma ShareBounds(credit: int, comparable: int)
    requires 0 <= credit <= 2 * comparable
    ensures 0.0 <= Share(HalfCredit(credit), comparable) <= 1.0
  {
    if comparable > 0 {
      var x, n := HalfCredit(credit), comparable as real;
      assert 0.0 <= x <= n;
      Reals.QuotientWithinUnit(x, n);
      Reals.QuotientNonNegative(x, n);
    }
  }

  function Negated(s: seq<real>): (r: seq<real>)
    ensures |r| == |s|
  {
    seq(|s|, i requires 0 <= i < |s| => -s[i])
  }

  lemma {:induction false} NegatedTally(labels: seq<real>, predictions: seq<real>, indices: seq<nat>)
    requires |labels| == |predictions| && InRange(indices, |labels|)
    ensures var (credit, comparable) := Tally(labels, predictions, indices);
      Tally(labels, Negated(predictions), indices) == (2 * comparable - credit, comparable)
  {
    hide PairAt;
    if indices != [] {
      var last := indices[|indices| - 1];
      NegatedTally(labels, predictions, indices[..|indices| - 1]);
      PairAtIsPair(last, |labels|);
      var (i, j) := PairAt(last, 0, |labels|);
      assert Credit(labels, Negated(predictions), i, j) == 2 * Comparable(labels, i, j) - Credit(labels, predictions, i, j);
    }
  }

  lemma ComplementOfShare(credit: int, comparable: int)
    requires comparable > 0
    ensures (2 * comparable - credit) as real / 2.0 / comparable as real == 1.0 - credit as real / 2.0 / comparable as real
  {
    var n, half := comparable as real, credit as real / 2.0;
    assert (2 * comparable - credit) as real / 2.0 == n - half;
    var share := half / n;
    assert share * n == half;
    assert (1.0 - share) * n == n - half;
    Reals.QuotientIs(n - half, n, 1.0 - share);
  }

  /** Reversing every prediction turns accuracy a into 1 - a, when some sampled pair is comparable. */
  lemma NegatingPredictionsComplements(labels: seq<real>, predictions: seq<real>, maxPairs: nat)
    requires |labels| == |predictions| && maxPairs > 0
    ensures InRange(SampledPairIndices(|labels|, maxPairs), |labels|)
    ensures Accuracy(labels, Negated(predictions), maxPairs)
         == if Tally(labels, predictions, SampledPairIndices(|labels|, maxPairs)).1 == 0 then 0.0
            else 1.0 - Accuracy(labels, predictions, maxPairs)
  {
    hide SampledPairIndices, Tally, FloorDiv;
    SampleIsSpread(|labels|, maxPairs);
    var indices := SampledPairIndices(|labels|, maxPairs);
    NegatedTally(labels, predictions, indices);
    var (credit, comparable) := Tally(labels, predictions, indices);
    if comparable != 0 {
      TallyBounds(labels, predictions, indices);
      ComplementOfShare(credit, comparable);
    }
  }

  /** Row i of the plain double loop, over right members below `right`. */
  ghost function RowTally(labels: seq<real>, predictions: seq<real>, i: nat, right: nat): (int, int)
    requires i < right <= |labels| == |predictions|
  {
    if right == i + 1 then (0, 0)
    else
      var (credit, comparable) := RowTally(labels, predictions, i, right - 1);
      (credit + Credit(labels, predictions, i, right - 1), comparable + Comparable(labels, i, right - 1))
  }

  /** The plain double loop over all pairs whose left member is below `rows`. */
  ghost function DoubleLoop(labels: seq<real>, predictions: seq<real>, rows: nat): (int, int)
    requires rows <= |labels| == |predictions|
  {
    if rows == 0 then (0, 0)
    else
      var (a, b) := DoubleLoop(labels, predictions, rows - 1);
      var (c, d) := RowTally(labels, predictions, rows - 1, |labels|);
      (a + c, b + d)
  }

  function Upto(n: nat): (s: seq<nat>)
    ensures |s| == n && forall k :: 0 <= k < n ==> s[k] == k
  {
    seq(n, k => k)
  }

  // ----- what agreement, opposition and indifference earn

  /** Every pair of different labels is predicted in the order of the labels. */
  ghost predicate Agrees(labels: seq<real>, predictions: seq<real>)
    requires |labels| == |predictions|
  {
    forall i, j :: 0 <= i < |labels| && 0 <= j < |labels| && labels[i] < labels[j] ==> predictions[i] < predictions[j]
  }

  ghost predicate Opposes(labels: seq<real>, predictions: seq<real>)
    requires |labels| == |predictions|
  {
    forall i, j :: 0 <= i < |labels| && 0 <= j < |labels| && labels[i] < labels[j] ==> predictions[i] > predictions[j]
  }

  ghost predicate Indifferent(predictions: seq<real>) {
    forall i, j :: 0 <= i < |predictions| && 0 <= j < |predictions| ==> predictions[i] == predictions[j]
  }

  ghost predicate Different(labels: seq<real>) {
    forall i, j :: 0 <= i < j < |labels| ==> labels[i] != labels[j]
  }

  lemma {:induction false} TallyOfAttitude(labels: seq<real>, predictions: seq<real>, indices: seq<nat>)
    requires |labels| == |predictions| && InRange(indices, |labels|)
    ensures var (credit, comparable) := Tally(labels, predictions, indices);
      && (Agrees(labels, predictions) ==> credit == 2 * comparable)
      && (Opposes(labels, predictions) ==> credit == 0)
      && (Indifferent(predictions) ==> credit == comparable)
      && (Different(labels) ==> comparable == |indices|)
  {
    if indices != [] {
      var front, last := indices[..|indices| - 1], indices[|indices| - 1];
      TallyOfAttitude(labels, predictions, front);
      PairAtIsPair(last, |labels|);
      var (i, j) := PairAt(last, 0, |labels|);
      TallyStep(labels, predictions, indices, i, j);
      hide Tally, PairAt;
    }
  }

  lemma SharesOfAttitude(comparable: nat)
    requires comparable > 0
    ensures Share(HalfCredit(2 * comparable), comparable) == 1.0
    ensures Share(HalfCredit(0), comparable) == 0.0
    ensures Share(HalfCredit(comparable), comparable) == 0.5
  {
    var n := comparable as real;
    assert HalfCredit(2 * comparable) == n && HalfCredit(comparable) == 0.5 * n;
    Reals.QuotientIs(n, n, 1.0);
    Reals.QuotientIs(0.0, n, 0.0);
    Reals.QuotientIs(0.5 * n, n, 0.5);
  }

  /** On different labels, predictions in their order score 1, in the opposite order 0, all alike 1/2. */
  lemma AccuracyOfAttitude(labels: seq<real>, predictions: seq<real>, maxPairs: nat)
    requires |labels| == |predictions| >= 2 && maxPairs > 0 && Different(labels)
    ensures Agrees(labels, predictions) ==> Accuracy(labels, predictions, maxPairs) == 1.0
    ensures Opposes(labels, predictions) ==> Accuracy(labels, predictions, maxPairs) == 0.0
    ensures Indifferent(predictions) ==> Accuracy(labels, predictions, maxPairs) == 0.5
  {
    hide SampledPairIndices, Tally, Share, HalfCredit, Accuracy, Agrees, Opposes, Indifferent, Different;
    var indices := SampledPairIndices(|labels|, maxPairs);
    SampleInRange(|labels|, maxPairs);
    SampleNotEmpty(|labels|, maxPairs);
    AccuracyIs(labels, predictions, maxPairs);
    TallyOfAttitude(labels, predictions, indices);
    SharesOfAttitude(|indices|);
  }

  lemma SampleNotEmpty(count: nat, maxPairs: nat)
    requires count >= 2 && maxPairs > 0
    ensures SampledPairIndices(count, maxPairs) != []
  {
    RowLength(0, count);
    AllPairs(count);
    PairsBeforeMonotone(1, count, count);
  }

  lemma {:induction false} RowOfTally(labels: seq<real>, predictions: seq<real>, i: nat, right: nat)
    requires i < right <= |labels| == |predictions|
    ensures 0 <= PairsBefore(i, |labels|) && PairsBefore(i, |labels|) + right - i - 1 <= PairCount(|labels|)
    ensures var start := Tally(labels, predictions, Upto(PairsBefore(i, |labels|)));
      var row := RowTally(labels, predictions, i, right);
      Tally(labels, predictions, Upto(PairsBefore(i, |labels|) + right - i - 1)) == (start.0 + row.0, start.1 + row.1)
    decreases right
  {
    hide PairsBefore, PairCount, PairAt, FloorDiv, Tally, Credit, Comparable;
    var n := |labels|;
    RowLength(0, n);
    PairsBeforeMonotone(0, i, n);
    RowLength(i, n);
    PairsBeforeMonotone(i + 1, n, n);
    AllPairs(n);
    if right > i + 1 {
      RowOfTally(labels, predictions, i, right - 1);
      var k := PairsBefore(i, n) + right - i - 2;
      assert Upto(k + 1)[..k] == Upto(k);
      PairNumberingIsBijective(k, i, right - 1, n);
      TallyStep(labels, predictions, Upto(k + 1), i, right - 1);
    }
  }

  lemma {:induction false} LoopIsTally(labels: seq<real>, predictions: seq<real>, rows: nat)
    requires rows <= |labels| == |predictions|
    ensures 0 <= PairsBefore(rows, |labels|) <= PairCount(|labels|)
    ensures Tally(labels, predictions, Upto(PairsBefore(rows, |labels|))) == DoubleLoop(labels, predictions, rows)
  {
    hide PairsBefore, PairCount, PairAt, FloorDiv, Credit, Comparable, RowTally;
    var n := |labels|;
    RowLength(0, n);
    PairsBeforeMonotone(0, rows, n);
    PairsBeforeMonotone(rows, n, n);
    AllPairs(n);
    if rows > 0 {
      LoopIsTally(labels, predictions, rows - 1);
      RowOfTally(labels, predictions, rows - 1, n);
      RowLength(rows - 1, n);
    }
  }

  /** When every pair fits the bound, the sampled accuracy is the plain double loop's. */
  lemma CompleteSampleIsDoubleLoop(labels: seq<real>, predictions: seq<real>, maxPairs: nat)
    requires |labels| == |predictions| && 0 < maxPairs && PairCount(|labels|) <= maxPairs
    ensures var (credit, comparable) := DoubleLoop(labels, predictions, |labels|);
      Accuracy(labels, predictions, maxPairs)
      == if comparable == 0 then 0.0 else credit as real / 2.0 / comparable as real
  {
    LoopIsTally(labels, predictions, |labels|);
    AllPairs(|labels|);
    assert SampledPairIndices(|labels|, maxPairs) == Upto(PairCount(|labels|));
  }
}

/**
 Normalized discounted cumulative gain. Logarithmic discounts stand for any positive sequence that
 never rises. The ideal order is optimal: no choice of k records gains more.
 */
module Gain {
  import opened Ordering
  import opened Reals
  import opened Ranks

  ghost predicate Discounts(d: seq<real>) {
    && (forall i :: 0 <= i < |d| ==> d[i] > 0.0)
    && (forall i, j :: 0 <= i < j < |d| ==> d[i] >= d[j])
  }

  /** `_dcg`, with the discount of each rank given. */
  function Dcg(relevances: seq<real>, d: seq<real>): real
    requires |relevances| <= |d|
  {
    if relevances == [] then 0.0
    else Dcg(relevances[..|relevances| - 1], d) + Product(relevances[|relevances| - 1], d[|relevances| - 1])
  }

  /** The sort key `(-scores[index], index)`. */
  function ByFalling(scores: seq<real>): (nat, nat) -> bool {
    (i: nat, j: nat) => At(scores, i) > At(scores, j) || (At(scores, i) == At(scores, j) && i < j)
  }

  function FallingIndices(scores: seq<real>): (s: seq<nat>)
    ensures |s| == |scores|
  {
    Sort(ByFalling(scores), Indices(|scores|))
  }

  function Limit(k: nat, n: nat): (r: nat)
    ensures r <= n && r <= k && (r == k || r == n)
  {
    if k < n then k else n
  }

  /** The gain of the first records in the order of falling scores. */
  function GainBy(labels: seq<real>, scores: seq<real>, k: nat, d: seq<real>): real
    requires |labels| == |scores| <= |d|
  {
    Dcg(Pick(labels, FallingIndices(scores)[..Limit(k, |labels|)]), d)
  }

  function ClampUnit(x: real): real {
    if x > 1.0 then 1.0 else if x < 0.0 then 0.0 else x
  }

  /** `ndcg`, before quantization. */
  function Ndcg(labels: seq<real>, predictions: seq<real>, k: nat, d: seq<real>): real
    requires |labels| == |predictions| <= |d|
  {
    var observed, ideal := GainBy(labels, predictions, k, d), GainBy(labels, labels, k, d);
    if ideal == 0.0 then 0.0 else ClampUnit(observed / ideal)
  }

  // ----- the sorted prefix has the largest sums

  ghost predicate Falling(s: seq<real>) {
    forall i, j :: 0 <= i < j < |s| ==> s[i] >= s[j]
  }

  /** Any r of the values sum to at most the r largest. */
  lemma {:induction false} TopSumIsLargest(chosen: seq<real>, sorted: seq<real>)
    requires Falling(sorted) && |chosen| <= |sorted|
    requires multiset(chosen) <= multiset(sorted)
    ensures Sum(chosen) <= Sum(sorted[..|chosen|])
    decreases |chosen|
  {
    if chosen != [] {
      var top, rest, r := sorted[0], sorted[1..], |chosen|;
      var j := if top in chosen then Position(chosen, top) else 0;
      RestHoldsOthers(chosen, sorted, j);
      TopSumIsLargest(chosen[..j] + chosen[j + 1..], rest);
      assert chosen[j] in multiset(sorted);
      assert chosen[j] in sorted;
      SumRemoved(chosen, j);
      assert sorted[..r] == [top] + rest[..r - 1];
      SumConcat([top], rest[..r - 1]);
      assert [top][..0] == [];
    }
  }

  lemma RestHoldsOthers(chosen: seq<real>, sorted: seq<real>, j: nat)
    requires j < |chosen| && sorted != [] && multiset(chosen) <= multiset(sorted)
    requires chosen[j] == sorted[0] || sorted[0] !in chosen
    ensures multiset(chosen[..j] + chosen[j + 1..]) <= multiset(sorted[1..])
  {
    Removed(chosen, j);
    Removed(sorted, 0);
    assert sorted[..0] + sorted[1..] == sorted[1..];
    assert sorted[0] in chosen <==> sorted[0] in multiset(chosen);
  }

  ghost function Position(s: seq<real>, x: real): (j: nat)
    requires x in s
    ensures j < |s| && s[j] == x
  {
    var j :| 0 <= j < |s| && s[j] == x;
    j
  }

  lemma SingleSum(x: real)
    ensures Sum([x]) == x
  {
  }

  lemma SumRemoved(s: seq<real>, j: nat)
    requires j < |s|
    ensures Sum(s) == Sum(s[..j] + s[j + 1..]) + s[j]
  {
    hide Sum;
    assert s == s[..j] + ([s[j]] + s[j + 1..]);
    SumConcat(s[..j], [s[j]] + s[j + 1..]);
    SumConcat([s[j]], s[j + 1..]);
    SumConcat(s[..j], s[j + 1..]);
    SingleSum(s[j]);
  }

  // ----- summation by parts

  /** Larger prefix sums under positive never-rising discounts give a larger discounted sum. */
  lemma {:induction false} DominatedGain(x: seq<real>, y: seq<real>, d: seq<real>)
    requires |x| == |y| <= |d| && Discounts(d)
    requires forall r :: 0 <= r <= |x| ==> Sum(x[..r]) <= Sum(y[..r])
    ensures Dcg(x, d) <= Dcg(y, d)
    ensures x != [] ==> Dcg(y, d) - Dcg(x, d) >= Product(Sum(y) - Sum(x), d[|x| - 1])
  {
    hide Product, Discounts, Dcg, Sum;
    if x == [] {
      LastTerm(x, d);
      LastTerm(y, d);
    } else {
      var n := |x| - 1;
      forall r | 0 <= r <= n
        ensures Sum(x[..n][..r]) <= Sum(y[..n][..r])
      {
        assert x[..n][..r] == x[..r] && y[..n][..r] == y[..r];
      }
      DominatedGain(x[..n], y[..n], d);
      LastTerm(x, d);
      LastTerm(y, d);
      DiscountsAt(d, n);
      var before := Sum(y[..n]) - Sum(x[..n]);
      assert before >= 0.0 by {
        assert x[..n] == x[..n][..n] && y[..n] == y[..n][..n];
      }
      if n == 0 {
        LastTerm(x[..n], d);
        LastTerm(y[..n], d);
        NothingBefore(d[0]);
        PartsStep(0.0, 0.0, d[0], d[0], x[0], y[0]);
      } else {
        PartsStep(Dcg(y[..n], d) - Dcg(x[..n], d), before, d[n - 1], d[n], x[n], y[n]);
      }
      assert x == x[..|x|] && y == y[..|y|];
      NonNegativeProduct(Sum(y) - Sum(x), d[n]);
    }
  }

  /** The sums of a sequence end in the terms of its last element. */
  lemma LastTerm(s: seq<real>, d: seq<real>)
    requires |s| <= |d|
    ensures s == [] ==> Dcg(s, d) == 0.0 && Sum(s) == 0.0
    ensures s != [] ==>
      var n := |s| - 1;
      Dcg(s, d) == Dcg(s[..n], d) + Product(s[n], d[n]) && Sum(s) == Sum(s[..n]) + s[n]
  {
    hide Product;
    if s != [] {
      SumRemoved(s, |s| - 1);
      assert s[..|s| - 1] + s[|s|..] == s[..|s| - 1];
    }
  }

  lemma NothingBefore(b: real)
    ensures Product(0.0, b) == 0.0
  {
  }

  lemma NonNegativeProduct(a: real, b: real)
    requires a >= 0.0 && b >= 0.0
    ensures Product(a, b) >= 0.0
  {
  }

  lemma DiscountsAt(d: seq<real>, n: nat)
    requires Discounts(d) && n < |d|
    ensures d[n] > 0.0 && (n > 0 ==> d[n - 1] >= d[n])
  {
  }

  lemma PartsStep(gap: real, before: real, upper: real, lower: real, x: real, y: real)
    requires before >= 0.0 && upper >= lower && gap >= Product(before, upper)
    ensures gap + Product(y, lower) - Product(x, lower) >= Product(before + y - x, lower)
  {
    ProductMonotone(lower, upper, before);
    assert (before + y - x) * lower == before * lower + y * lower - x * lower;
  }

  // ----- the ideal order is ideal

  lemma FallingIndicesFacts(scores: seq<real>)
    ensures multiset(Pick(scores, FallingIndices(scores))) == multiset(scores)
    ensures Falling(Pick(scores, FallingIndices(scores)))
    ensures multiset(FallingIndices(scores)) == multiset(Indices(|scores|))
    ensures forall k :: 0 <= k < |scores| ==> FallingIndices(scores)[k] < |scores|
  {
    var n, order := |scores|, FallingIndices(scores);
    ComparableSortAscends(ByFalling(scores), Indices(n));
    PickPermuted(scores, order, Indices(n));
    assert Pick(scores, Indices(n)) == scores;
    forall k | 0 <= k < n
      ensures order[k] < n
    {
      assert order[k] in multiset(order);
      assert order[k] in Indices(n);
    }
    forall i, j | 0 <= i < j < n
      ensures Pick(scores, order)[i] >= Pick(scores, order)[j]
    {
      assert ByFalling(scores)(order[i], order[j]);
    }
  }

  lemma PrefixMembers<T>(s: seq<T>, r: nat)
    requires r <= |s|
    ensures multiset(s[..r]) <= multiset(s)
  {
    assert s == s[..r] + s[r..];
  }

  /** The observed gain never exceeds the ideal gain, for any predictions, labels, k and discounts. */
  lemma IdealGainIsLargest(labels: seq<real>, predictions: seq<real>, k: nat, d: seq<real>)
    requires |labels| == |predictions| <= |d| && Discounts(d)
    ensures GainBy(labels, predictions, k, d) <= GainBy(labels, labels, k, d)
  {
    hide FallingIndices, Dcg, Discounts;
    var n := Limit(k, |labels|);
    var observed, ideal := FallingIndices(predictions), FallingIndices(labels);
    FallingIndicesFacts(predictions);
    FallingIndicesFacts(labels);
    PickPermuted(labels, observed, Indices(|labels|));
    assert Pick(labels, Indices(|labels|)) == labels;
    var chosen, sorted := Pick(labels, observed), Pick(labels, ideal);
    assert Pick(labels, observed[..n]) == chosen[..n] && Pick(labels, ideal[..n]) == sorted[..n];
    forall r | 0 <= r <= n
      ensures Sum(chosen[..n][..r]) <= Sum(sorted[..n][..r])
    {
      assert chosen[..n][..r] == chosen[..r] && sorted[..n][..r] == sorted[..r];
      PrefixMembers(chosen, r);
      TopSumIsLargest(chosen[..r], sorted);
    }
    DominatedGain(chosen[..n], sorted[..n], d);
  }

  lemma {:induction false} GainNonNegative(relevances: seq<real>, d: seq<real>)
    requires |relevances| <= |d| && Discounts(d)
    requires forall i :: 0 <= i < |relevances| ==> relevances[i] >= 0.0
    ensures Dcg(relevances, d) >= 0.0
  {
    if relevances != [] {
      GainNonNegative(relevances[..|relevances| - 1], d);
      NonNegativeProduct(relevances[|relevances| - 1], d[|relevances| - 1]);
    }
  }

  /** For any labels, whatever their signs, the measure is the number of [0, 1] closest to the exact ratio. */
  lemma NdcgIsClosest(labels: seq<real>, predictions: seq<real>, k: nat, d: seq<real>, t: real)
    requires |labels| == |predictions| <= |d| && 0.0 <= t <= 1.0
    requires GainBy(labels, labels, k, d) != 0.0
    ensures 0.0 <= Ndcg(labels, predictions, k, d) <= 1.0
    ensures var ratio := GainBy(labels, predictions, k, d) / GainBy(labels, labels, k, d);
      Abs(Ndcg(labels, predictions, k, d) - ratio) <= Abs(t - ratio)
  {
    hide GainBy;
  }

  /** For non-negative labels the clamp changes nothing: the exact ratio already lies in [0, 1]. */
  lemma NdcgClampIsIdle(labels: seq<real>, predictions: seq<real>, k: nat, d: seq<real>)
    requires |labels| == |predictions| <= |d| && Discounts(d)
    requires forall i :: 0 <= i < |labels| ==> labels[i] >= 0.0
    ensures 0.0 <= Ndcg(labels, predictions, k, d) <= 1.0
    ensures GainBy(labels, labels, k, d) > 0.0 ==>
      Ndcg(labels, predictions, k, d) == GainBy(labels, predictions, k, d) / GainBy(labels, labels, k, d)
    ensures GainBy(labels, labels, k, d) >= 0.0
  {
    hide FallingIndices, Dcg, Discounts;
    var n := Limit(k, |labels|);
    FallingIndicesFacts(predictions);
    FallingIndicesFacts(labels);
    GainNonNegative(Pick(labels, FallingIndices(predictions)[..n]), d);
    GainNonNegative(Pick(labels, FallingIndices(labels)[..n]), d);
    IdealGainIsLargest(labels, predictions, k, d);
    var observed, ideal := GainBy(labels, predictions, k, d), GainBy(labels, labels, k, d);
    if ideal > 0.0 {
      QuotientWithinUnit(observed, ideal);
      var q := observed / ideal;
      assert q * ideal == observed;
      if q < 0.0 {
        ProductPositive(-q, ideal);
      }
    }
  }

  /** One more record adds its label times the discount of its rank. */
  lemma OneMoreRelevance(relevances: seq<real>, x: real, d: seq<real>)
    requires |relevances| < |d|
    ensures Dcg([], d) == 0.0
    ensures Dcg(relevances + [x], d) == Dcg(relevances, d) + x * d[|relevances|]
  {
    assert (relevances + [x])[..|relevances|] == relevances;
  }

  /** Records are taken by falling score, and equal scores in the order of the records. */
  lemma RecordsTakenByScore(scores: seq<real>, i: nat, j: nat)
    requires i < j < |scores|
    ensures var a, b := FallingIndices(scores)[i], FallingIndices(scores)[j];
      a < |scores| && b < |scores| && (scores[a] > scores[b] || (scores[a] == scores[b] && a < b))
  {
    FallingIndicesFacts(scores);
    var n, order := |scores|, FallingIndices(scores);
    ComparableSortAscends(ByFalling(scores), Indices(n));
    assert ByFalling(scores)(order[i], order[j]);
  }
}

/**
 Average tie ranks and Spearman correlation. Ranks are assigned group by group along the sorted
 indices; what a group receives is the mid-rank of its value among all values.
 */
module Ranks {
  import opened Ordering
  import opened Reals

  // ----- mid-ranks

  function Smaller(s: seq<real>, v: real): int {
    if s == [] then 0 else Smaller(s[..|s| - 1], v) + (if s[|s| - 1] < v then 1 else 0)
  }

  function Equal(s: seq<real>, v: real): int {
    if s == [] then 0 else Equal(s[..|s| - 1], v) + (if s[|s| - 1] == v then 1 else 0)
  }

  /** One more than the values below, plus half of the other values that tie. */
  function MidRank(s: seq<real>, v: real): real {
    Smaller(s, v) as real + (Equal(s, v) + 1) as real / 2.0
  }

  function RanksOf(s: seq<real>): (r: seq<real>)
    ensures |r| == |s|
  {
    seq(|s|, i requires 0 <= i < |s| => MidRank(s, s[i]))
  }

  lemma {:induction false} CountsConcat(a: seq<real>, b: seq<real>, v: real)
    ensures Smaller(a + b, v) == Smaller(a, v) + Smaller(b, v)
    ensures Equal(a + b, v) == Equal(a, v) + Equal(b, v)
  {
    if b == [] {
      assert a + b == a;
    } else {
      CountsConcat(a, b[..|b| - 1], v);
      assert (a + b)[..|a + b| - 1] == a + b[..|b| - 1];
    }
  }

  lemma {:induction false} CountsUniform(s: seq<real>, v: real, below: bool, tied: bool)
    requires forall i :: 0 <= i < |s| ==> (s[i] < v <==> below) && (s[i] == v <==> tied)
    ensures Smaller(s, v) == (if below then |s| else 0)
    ensures Equal(s, v) == (if tied then |s| else 0)
  {
    if s != [] {
      CountsUniform(s[..|s| - 1], v, below, tied);
    }
  }

  /** The counts depend on the values only, not on their order. */
  lemma {:induction false} CountsPermuted(a: seq<real>, b: seq<real>, v: real)
    requires multiset(a) == multiset(b)
    ensures Smaller(a, v) == Smaller(b, v) && Equal(a, v) == Equal(b, v)
    decreases |a|
  {
    if a == [] {
      assert |multiset(b)| == 0;
    } else {
      hide Smaller, Equal;
      var x, front := a[|a| - 1], a[..|a| - 1];
      var j := LastElsewhere(a, b);
      CountsPermuted(front, b[..j] + b[j + 1..], v);
      CountsConcat(b[..j], [x] + b[j + 1..], v);
      CountsConcat([x], b[j + 1..], v);
      CountsConcat(b[..j], b[j + 1..], v);
      CountsConcat(front, [x], v);
    }
  }

  // ----- the ranking loop

  function At(values: seq<real>, i: nat): real {
    if i < |values| then values[i] else 0.0
  }

  /** The sort key `(values[index], index)`. */
  function ByValue(values: seq<real>): (nat, nat) -> bool {
    (i: nat, j: nat) => At(values, i) < At(values, j) || (At(values, i) == At(values, j) && i < j)
  }

  function Indices(n: nat): (s: seq<nat>)
    ensures |s| == n && forall k :: 0 <= k < n ==> s[k] == k
  {
    seq(n, k => k)
  }

  function SortedIndices(values: seq<real>): (s: seq<nat>)
    ensures |s| == |values|
  {
    Sort(ByValue(values), Indices(|values|))
  }

  function Pick(values: seq<real>, order: seq<nat>): (s: seq<real>)
    ensures |s| == |order| && forall k :: 0 <= k < |order| ==> s[k] == At(values, order[k])
  {
    seq(|order|, k requires 0 <= k < |order| => At(values, order[k]))
  }

  lemma PickConcat(values: seq<real>, a: seq<nat>, b: seq<nat>)
    ensures Pick(values, a + b) == Pick(values, a) + Pick(values, b)
  {
  }

  lemma {:induction false} PickPermuted(values: seq<real>, a: seq<nat>, b: seq<nat>)
    requires multiset(a) == multiset(b)
    ensures multiset(Pick(values, a)) == multiset(Pick(values, b))
    decreases |a|
  {
    hide Pick;
    if a == [] {
      assert |multiset(b)| == 0;
    } else {
      var x, front := a[|a| - 1], a[..|a| - 1];
      var j := LastElsewhere(a, b);
      PickPermuted(values, front, b[..j] + b[j + 1..]);
      PickConcat(values, front, [x]);
      PickConcat(values, b[..j], [x] + b[j + 1..]);
      PickConcat(values, [x], b[j + 1..]);
      PickConcat(values, b[..j], b[j + 1..]);
    }
  }

  /** The sorted indices are a permutation of the positions along which the values never fall. */
  lemma SortedIndicesFacts(values: seq<real>)
    ensures var order := SortedIndices(values);
      && (forall k :: 0 <= k < |order| ==> order[k] < |values|)
      && (forall j, k :: 0 <= j < k < |order| ==> order[j] != order[k] && values[order[j]] <= values[order[k]])
      && (forall i :: 0 <= i < |values| ==> i in order)
      && multiset(Pick(values, order)) == multiset(values)
  {
    var n, order := |values|, SortedIndices(values);
    ComparableSortAscends(ByValue(values), Indices(n));
    forall k | 0 <= k < |order|
      ensures order[k] < n
    {
      assert order[k] in multiset(order);
      assert order[k] in Indices(n);
    }
    forall i | 0 <= i < n
      ensures i in order
    {
      assert Indices(n)[i] == i;
      assert i in multiset(Indices(n));
    }
    forall j, k | 0 <= j < k < |order|
      ensures order[j] != order[k] && values[order[j]] <= values[order[k]]
    {
      assert ByValue(values)(order[j], order[k]);
    }
    PickPermuted(values, order, Indices(n));
    assert Pick(values, Indices(n)) == values;
  }

  /** A maximal run of equal sorted values at positions [start, end) has mid-rank (start+1+end)/2. */
  lemma GroupMidRank(values: seq<real>, start: nat, end: nat)
    requires var order := SortedIndices(values);
      && start < end <= |order| && (forall k :: 0 <= k < |order| ==> order[k] < |values|)
      && (forall k :: start <= k < end ==> values[order[k]] == values[order[start]])
      && (forall k :: 0 <= k < start ==> values[order[k]] < values[order[start]])
      && (forall k :: end <= k < |order| ==> values[order[start]] < values[order[k]])
    ensures var order := SortedIndices(values);
      MidRank(values, values[order[start]]) == ((start + 1) as real + end as real) / 2.0
  {
    hide SortedIndices, Smaller, Equal;
    SortedIndicesFacts(values);
    var sorted := Pick(values, SortedIndices(values));
    CountsPermuted(sorted, values, sorted[start]);
    GroupCounts(sorted, start, end);
  }

  lemma GroupCounts(sorted: seq<real>, start: nat, end: nat)
    requires start < end <= |sorted|
    requires forall k :: start <= k < end ==> sorted[k] == sorted[start]
    requires forall k :: 0 <= k < start ==> sorted[k] < sorted[start]
    requires forall k :: end <= k < |sorted| ==> sorted[start] < sorted[k]
    ensures Smaller(sorted, sorted[start]) == start && Equal(sorted, sorted[start]) == end - start
  {
    hide Smaller, Equal;
    var v := sorted[start];
    assert sorted == sorted[..start] + (sorted[start..end] + sorted[end..]);
    CountsConcat(sorted[..start], sorted[start..end] + sorted[end..], v);
    CountsConcat(sorted[start..end], sorted[end..], v);
    CountsUniform(sorted[..start], v, true, false);
    CountsUniform(sorted[start..end], v, false, true);
    CountsUniform(sorted[end..], v, false, false);
  }

  /** The innermost loop: one rank for every position of a tie group. */
  method AssignGroup(ranks: array<real>, order: seq<nat>, start: nat, end: nat, rank: real)
    requires start <= end <= |order| && Distinct(order) && forall k :: 0 <= k < |order| ==> order[k] < ranks.Length
    modifies ranks
    ensures forall k :: start <= k < end ==> ranks[order[k]] == rank
    ensures forall k :: 0 <= k < start || end <= k < |order| ==> ranks[order[k]] == old(ranks[order[k]])
  {
    for position := start to end
      invariant forall k :: start <= k < position ==> ranks[order[k]] == rank
      invariant forall k :: 0 <= k < start || position <= k < |order| ==> ranks[order[k]] == old(ranks[order[k]])
    {
      ranks[order[position]] := rank;
    }
  }

  /** `_average_ranks`: every value receives its mid-rank, whatever the ties. */
  method AverageRanks(values: seq<real>) returns (out: seq<real>)
    ensures out == RanksOf(values)
  {
    hide SortedIndices, MidRank, Pick;
    var n, order := |values|, SortedIndices(values);
    SortedIndicesFacts(values);
    var ranks := new real[n];
    var start := 0;
    while start < n
      invariant 0 <= start <= n
      invariant forall j, k :: 0 <= j < start <= k < n ==> values[order[j]] < values[order[k]]
      invariant forall k :: 0 <= k < start ==> ranks[order[k]] == MidRank(values, values[order[k]])
    {
      var end := start + 1;
      while end < n && values[order[end]] == values[order[start]]
        invariant start < end <= n
        invariant forall k :: start <= k < end ==> values[order[k]] == values[order[start]]
      {
        end := end + 1;
      }
      var rank := ((start + 1) as real + end as real) / 2.0;
      GroupMidRank(values, start, end);
      AssignGroup(ranks, order, start, end, rank);
      start := end;
    }
    out := ranks[..];
    forall i | 0 <= i < n
      ensures out[i] == RanksOf(values)[i]
    {
      assert i in order;
      var k :| 0 <= k < n && order[k] == i;
    }
  }

  // ----- the ranks sum to n(n+1)/2

  /** Each value of t weighed against s: one for every smaller member, a half for every equal one. */
  function Weight(s: seq<real>, t: seq<real>): real {
    if t == [] then 0.0
    else Weight(s, t[..|t| - 1]) + Smaller(s, t[|t| - 1]) as real + Equal(s, t[|t| - 1]) as real / 2.0
  }

  lemma {:induction false} WeightOfOneMore(s: seq<real>, y: real, t: seq<real>)
    ensures Weight(s + [y], t) == Weight(s, t) + |t| as real - Smaller(t, y) as real - Equal(t, y) as real / 2.0
  {
    if t != [] {
      var x := t[|t| - 1];
      WeightOfOneMore(s, y, t[..|t| - 1]);
      CountsConcat(s, [y], x);
      assert [y][..0] == [];
    }
  }

  lemma {:induction false} SelfWeight(s: seq<real>)
    ensures Weight(s, s) == |s| as real * |s| as real / 2.0
  {
    if s != [] {
      var front, y := s[..|s| - 1], s[|s| - 1];
      assert s == front + [y];
      SelfWeight(front);
      WeightOfOneMore(front, y, front);
      CountsConcat(front, [y], y);
      assert [y][..0] == [];
      WeightOfOneMore(front, y, s);
      CountsConcat(front, [y], y);
      var n := |front| as real;
      assert (n + 1.0) * (n + 1.0) == n * n + 2.0 * n + 1.0;
    }
  }

  lemma {:induction false} RankSumIsWeight(s: seq<real>, t: seq<real>)
    ensures Sum(seq(|t|, i requires 0 <= i < |t| => MidRank(s, t[i]))) == Weight(s, t) + |t| as real / 2.0
  {
    if t != [] {
      var front := t[..|t| - 1];
      RankSumIsWeight(s, front);
      var ranks := seq(|t|, i requires 0 <= i < |t| => MidRank(s, t[i]));
      assert ranks[..|t| - 1] == seq(|front|, i requires 0 <= i < |front| => MidRank(s, front[i]));
    }
  }

  /** Ties or not, the ranks of n values sum to n(n+1)/2. */
  lemma RanksSum(s: seq<real>)
    ensures Sum(RanksOf(s)) == |s| as real * (|s| as real + 1.0) / 2.0
  {
    RankSumIsWeight(s, s);
    SelfWeight(s);
    assert RanksOf(s) == seq(|s|, i requires 0 <= i < |s| => MidRank(s, s[i]));
  }

  // ----- Spearman

  function Mean(s: seq<real>): real
    requires s != []
  {
    Sum(s) / |s| as real
  }

  /** The sum of products of deviations from the two given centres. */
  function Deviations(a: seq<real>, b: seq<real>, ma: real, mb: real): real
    requires |a| == |b|
  {
    if a == [] then 0.0
    else Deviations(a[..|a| - 1], b[..|b| - 1], ma, mb) + Product(a[|a| - 1] - ma, b[|b| - 1] - mb)
  }

  function Product(x: real, y: real): real {
    x * y
  }

  function Covariance(a: seq<real>, b: seq<real>): real
    requires |a| == |b| && a != []
  {
    Deviations(a, b, Mean(a), Mean(b))
  }

  /** The exact non-negative square root of the product of the two rank variances. */
  ghost predicate IsRoot(labels: seq<real>, predictions: seq<real>, root: real)
    requires |labels| == |predictions|
  {
    root >= 0.0 && (|labels| >= 2 ==>
      root * root == Covariance(RanksOf(labels), RanksOf(labels)) * Covariance(RanksOf(predictions), RanksOf(predictions)))
  }

  /** The correlation before the final quantization. */
  ghost function Spearman(labels: seq<real>, predictions: seq<real>, root: real): real
    requires |labels| == |predictions| && IsRoot(labels, predictions, root)
  {
    if |labels| < 2 then 0.0
    else
      var left, right := RanksOf(labels), RanksOf(predictions);
      if Covariance(left, left) == 0.0 || Covariance(right, right) == 0.0 then 0.0
      else
        ProductNonZero(Covariance(left, left), Covariance(right, right));
        Clamp(Covariance(left, right) / root)
  }

  function Clamp(x: real): real {
    if x > 1.0 then 1.0 else if x < -1.0 then -1.0 else x
  }

  lemma {:induction false} SquaresNonNegative(a: seq<real>, ma: real)
    ensures Deviations(a, a, ma, ma) >= 0.0
  {
    if a != [] {
      SquaresNonNegative(a[..|a| - 1], ma);
      SquareNonNegative(a[|a| - 1] - ma);
    }
  }

  /** The non-negative square of t·a - b, expanded: a quadratic in t with the three sums as coefficients. */
  lemma {:induction false} QuadraticNonNegative(a: seq<real>, b: seq<real>, ma: real, mb: real, t: real)
    requires |a| == |b|
    ensures Quadratic(t, Deviations(a, a, ma, ma), Deviations(a, b, ma, mb), Deviations(b, b, mb, mb)) >= 0.0
  {
    hide Quadratic, Product;
    if a == [] {
      assert Quadratic(t, 0.0, 0.0, 0.0) == 0.0 by { QuadraticAtZero(t); }
    }
    if a != [] {
      QuadraticNonNegative(a[..|a| - 1], b[..|b| - 1], ma, mb, t);
      QuadraticStep(t, Deviations(a[..|a| - 1], a[..|a| - 1], ma, ma), Deviations(a[..|a| - 1], b[..|b| - 1], ma, mb),
                    Deviations(b[..|b| - 1], b[..|b| - 1], mb, mb), a[|a| - 1] - ma, b[|b| - 1] - mb);
    }
  }

  function Quadratic(t: real, A: real, S: real, B: real): real {
    t * t * A - 2.0 * t * S + B
  }

  lemma QuadraticAtZero(t: real)
    ensures Quadratic(t, 0.0, 0.0, 0.0) == 0.0
  {
  }

  lemma QuadraticStep(t: real, A: real, S: real, B: real, x: real, y: real)
    requires Quadratic(t, A, S, B) >= 0.0
    ensures Quadratic(t, A + Product(x, x), S + Product(x, y), B + Product(y, y)) >= 0.0
  {
    var u := t * x;
    SquareNonNegative(u - y);
    assert (u - y) * (u - y) == u * u - 2.0 * u * y + y * y;
    assert u * u == t * t * (x * x);
    assert u * y == t * (x * y);
    assert t * t * (A + x * x) == t * t * A + t * t * (x * x);
    assert t * (S + x * y) == t * S + t * (x * y);
  }

  lemma {:induction false} ZeroVarianceZeroCovariance(a: seq<real>, b: seq<real>, ma: real, mb: real)
    requires |a| == |b| && Deviations(a, a, ma, ma) == 0.0
    ensures Deviations(a, b, ma, mb) == 0.0
  {
    if a != [] {
      var x := a[|a| - 1] - ma;
      SquaresNonNegative(a[..|a| - 1], ma);
      assert x * x >= 0.0;
      if x != 0.0 {
        assert x * x > 0.0;
      }
      ZeroVarianceZeroCovariance(a[..|a| - 1], b[..|b| - 1], ma, mb);
    }
  }

  /** Cauchy-Schwarz for the deviation sums. */
  lemma CovarianceBounded(a: seq<real>, b: seq<real>, ma: real, mb: real)
    requires |a| == |b|
    ensures Deviations(a, b, ma, mb) * Deviations(a, b, ma, mb)
         <= Deviations(a, a, ma, ma) * Deviations(b, b, mb, mb)
  {
    hide Quadratic, Deviations;
    var A, S, B := Deviations(a, a, ma, ma), Deviations(a, b, ma, mb), Deviations(b, b, mb, mb);
    SquaresNonNegative(a, ma);
    if A == 0.0 {
      ZeroVarianceZeroCovariance(a, b, ma, mb);
    } else {
      QuadraticNonNegative(a, b, ma, mb, S / A);
      Discriminant(A, S, B);
    }
  }

  lemma Discriminant(A: real, S: real, B: real)
    requires A > 0.0 && Quadratic(S / A, A, S, B) >= 0.0
    ensures S * S <= A * B
  {
    var t := S / A;
    assert t * A == S;
    assert t * t * A == t * (t * A);
    assert t * S <= B;
    ProductMonotone(t * S, B, A);
    assert t * S * A == S * (t * A);
  }

  /** In exact arithmetic the clamp of the correlation changes nothing. */
  lemma SpearmanClampIsIdle(labels: seq<real>, predictions: seq<real>, root: real)
    requires |labels| == |predictions| && IsRoot(labels, predictions, root)
    ensures -1.0 <= Spearman(labels, predictions, root) <= 1.0
    ensures |labels| >= 2 && root > 0.0 ==>
      Spearman(labels, predictions, root) == Covariance(RanksOf(labels), RanksOf(predictions)) / root
  {
    hide RanksOf, Deviations, Mean;
    if |labels| >= 2 && root > 0.0 {
      var left, right := RanksOf(labels), RanksOf(predictions);
      CovarianceBounded(left, right, Mean(left), Mean(right));
      SquareOrder(Covariance(left, right), root);
      QuotientWithinUnit(Covariance(left, right), root);
      RootOfProduct(root, Covariance(left, left), Covariance(right, right));
    }
  }

  /** A vector with any rank variance at all correlates perfectly with itself. */
  lemma SelfCorrelationIsOne(labels: seq<real>, root: real)
    requires |labels| >= 2 && IsRoot(labels, labels, root) && root > 0.0
    ensures Spearman(labels, labels, root) == 1.0
  {
    hide RanksOf, Deviations;
    SpearmanClampIsIdle(labels, labels, root);
    var ranks := RanksOf(labels);
    var v := Covariance(ranks, ranks);
    SquaresNonNegative(ranks, Mean(ranks));
    SameSquare(v, root);
    QuotientIs(v, root, 1.0);
  }

  // ----- reversed predictions

  function Opposite(s: seq<real>): (r: seq<real>)
    ensures |r| == |s|
  {
    seq(|s|, i requires 0 <= i < |s| => -s[i])
  }

  lemma OppositeFront(s: seq<real>)
    requires s != []
    ensures Opposite(s)[..|s| - 1] == Opposite(s[..|s| - 1]) && Opposite(s)[|s| - 1] == -s[|s| - 1]
  {
  }

  lemma {:induction false} OppositeCounts(s: seq<real>, v: real)
    ensures Smaller(Opposite(s), -v) == |s| - Smaller(s, v) - Equal(s, v)
    ensures Equal(Opposite(s), -v) == Equal(s, v)
  {
    if s != [] {
      OppositeFront(s);
      OppositeCounts(s[..|s| - 1], v);
    }
  }

  /** Reversing the values reverses the ranks: first becomes last. */
  lemma OppositeRanks(s: seq<real>, i: nat)
    requires i < |s|
    ensures RanksOf(Opposite(s))[i] == (|s| + 1) as real - RanksOf(s)[i]
  {
    OppositeCounts(s, s[i]);
    assert Opposite(s)[i] == -s[i];
  }

  lemma {:induction false} SumOfComplements(a: seq<real>, b: seq<real>, total: real)
    requires |a| == |b| && forall i :: 0 <= i < |a| ==> b[i] == total - a[i]
    ensures Sum(b) == |a| as real * total - Sum(a)
  {
    if a != [] {
      SumOfComplements(a[..|a| - 1], b[..|b| - 1], total);
      assert |a| as real * total == (|a| - 1) as real * total + total;
    }
  }

  lemma {:induction false} DeviationsOfComplements(a: seq<real>, b: seq<real>, c: seq<real>, ma: real, mb: real, mc: real)
    requires |a| == |b| == |c| && forall i :: 0 <= i < |a| ==> c[i] - mc == -(b[i] - mb)
    ensures Deviations(a, c, ma, mc) == -Deviations(a, b, ma, mb)
    ensures Deviations(c, c, mc, mc) == Deviations(b, b, mb, mb)
  {
    if a != [] {
      var last := |a| - 1;
      DeviationsOfComplements(a[..last], b[..last], c[..last], ma, mb, mc);
      assert Product(a[last] - ma, c[last] - mc) == -Product(a[last] - ma, b[last] - mb);
      assert Product(c[last] - mc, c[last] - mc) == Product(b[last] - mb, b[last] - mb);
    }
  }

  lemma MeanOfComplements(a: seq<real>, b: seq<real>, total: real)
    requires |a| == |b| > 0 && forall i :: 0 <= i < |a| ==> b[i] == total - a[i]
    ensures Mean(b) == total - Mean(a)
  {
    SumOfComplements(a, b, total);
    var n := |a| as real;
    assert (n * total - Sum(a)) / n == total - Sum(a) / n;
  }

  /** Predictions in the opposite order correlate with the opposite sign. */
  lemma OppositeCorrelates(labels: seq<real>, predictions: seq<real>, root: real)
    requires |labels| == |predictions| >= 2 && IsRoot(labels, predictions, root) && root > 0.0
    ensures IsRoot(labels, Opposite(predictions), root)
    ensures Spearman(labels, Opposite(predictions), root) == -Spearman(labels, predictions, root)
  {
    var a, b, c := RanksOf(labels), RanksOf(predictions), RanksOf(Opposite(predictions));
    var total := (|labels| + 1) as real;
    forall i | 0 <= i < |b|
      ensures c[i] == total - b[i]
    {
      OppositeRanks(predictions, i);
    }
    MeanOfComplements(b, c, total);
    DeviationsOfComplements(a, b, c, Mean(a), Mean(b), Mean(c));
    hide RanksOf, Deviations, Mean;
    SpearmanClampIsIdle(labels, predictions, root);
    SpearmanClampIsIdle(labels, Opposite(predictions), root);
    assert (-Covariance(a, b)) / root == -(Covariance(a, b) / root);
  }
}

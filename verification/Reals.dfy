/** Sums of real sequences and the few product and quotient facts the metric proofs use. */
module Reals {

  lemma QuotientIs(x: real, y: real, q: real)
    requires y != 0.0 && q * y == x
    ensures x / y == q
  {
  }

  lemma ProductMonotone(a: real, b: real, c: real)
    requires a <= b && 0.0 <= c
    ensures a * c <= b * c
  {
  }

  lemma SquareNonNegative(x: real)
    ensures x * x >= 0.0
  {
  }

  lemma ProductPositive(a: real, b: real)
    requires a > 0.0 && b > 0.0
    ensures a * b > 0.0
  {
  }

  lemma ProductNonZero(a: real, b: real)
    requires a != 0.0 && b != 0.0
    ensures a * b != 0.0
  {
  }

  lemma SquareGrows(x: real, r: real)
    requires x > r >= 0.0
    ensures x * x > r * r
  {
    assert x * x - r * r == (x - r) * (x + r);
    ProductPositive(x - r, x + r);
  }

  lemma SameSquare(x: real, r: real)
    requires x >= 0.0 && r >= 0.0 && x * x == r * r
    ensures x == r
  {
    if x > r {
      SquareGrows(x, r);
    } else if r > x {
      SquareGrows(r, x);
    }
  }

  lemma RootOfProduct(root: real, a: real, b: real)
    requires root > 0.0 && root * root == a * b
    ensures a != 0.0 && b != 0.0
  {
    SquareGrows(root, 0.0);
  }

  lemma SquareOrder(x: real, r: real)
    requires r >= 0.0 && x * x <= r * r
    ensures -r <= x <= r
  {
    if x > r {
      SquareGrows(x, r);
    } else if x < -r {
      SquareGrows(-x, r);
    }
  }

  lemma QuotientWithinUnit(x: real, r: real)
    requires r > 0.0 && -r <= x <= r
    ensures -1.0 <= x / r <= 1.0
  {
  }

  lemma QuotientNonNegative(x: real, r: real)
    requires r > 0.0 && x >= 0.0
    ensures x / r >= 0.0
  {
  }

  function Abs(x: real): (r: real)
    ensures r >= 0.0 && r >= x && r >= -x
  {
    if x < 0.0 then -x else x
  }

  function Sum(s: seq<real>): real {
    if s == [] then 0.0 else Sum(s[..|s| - 1]) + s[|s| - 1]
  }

  lemma SumAppend(s: seq<real>, x: real)
    ensures Sum(s + [x]) == Sum(s) + x
  {
  }

  lemma {:induction false} SumConcat(a: seq<real>, b: seq<real>)
    ensures Sum(a + b) == Sum(a) + Sum(b)
  {
    if b == [] {
      assert a + b == a;
    } else {
      SumConcat(a, b[..|b| - 1]);
      assert a + b == a + b[..|b| - 1] + [b[|b| - 1]];
      SumAppend(a + b[..|b| - 1], b[|b| - 1]);
    }
  }
}

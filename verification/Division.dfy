/** Floor division by a positive divisor, characterised by its bounds, and a few product facts. */
module Division {

  lemma MulMonotone(a: int, b: int, d: int)
    requires a <= b && 0 <= d
    ensures a * d <= b * d
  {
  }

  function FloorDiv(x: nat, d: nat): (q: nat)
    requires d > 0
    ensures q * d <= x < (q + 1) * d
  {
    x / d
  }

  /** The quotient is the only number whose multiple brackets the dividend. */
  lemma QuotientUnique(x: nat, d: nat, q: int)
    requires d > 0 && q * d <= x < (q + 1) * d
    ensures FloorDiv(x, d) == q
  {
    hide FloorDiv;
    var p := FloorDiv(x, d);
    if p < q {
      MulMonotone(p + 1, q, d);
    } else if p > q {
      MulMonotone(q + 1, p, d);
    }
  }

  lemma QuotientShift(x: nat, q: nat, r: nat, d: nat)
    requires d > 0 && r < d
    ensures FloorDiv(x + q * d + r, d) == FloorDiv(x, d) + q
         || (r > 0 && FloorDiv(x + q * d + r, d) == FloorDiv(x, d) + q + 1)
  {
    hide FloorDiv;
    var u := FloorDiv(x, d);
    var y := x + q * d + r;
    assert (u + q) * d == u * d + q * d;
    assert (u + q + 1) * d == u * d + q * d + d;
    assert (u + q + 2) * d == u * d + q * d + d + d;
    assert (u + 1) * d == u * d + d;
    if y < (u + q + 1) * d {
      QuotientUnique(y, d, u + q);
    } else {
      QuotientUnique(y, d, u + q + 1);
    }
  }

  lemma QuotientBelow(x: nat, d: nat, bound: nat)
    requires d > 0 && x < bound * d
    ensures FloorDiv(x, d) < bound
  {
  }

  lemma QuotientAtLeast(x: nat, d: nat, bound: nat)
    requires d > 0 && bound * d <= x
    ensures FloorDiv(x, d) >= bound
  {
  }
}

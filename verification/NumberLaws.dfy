/** What canonical printing needs of numbers: numeric equality decides the printed text. */
module NumberLaws {
  import opened Digits
  import opened JsonNumbers

  lemma EqualSymmetric(a: Number, b: Number)
    requires NumericallyEqual(a, b)
    ensures NumericallyEqual(b, a)
  {
  }

  lemma EqualTransitive(a: Number, b: Number, c: Number)
    requires NumericallyEqual(a, b) && NumericallyEqual(b, c)
    ensures NumericallyEqual(a, c)
  {
    hide SameValue;
    SameValueTransitive(Magnitude10(a), Magnitude10(b), Magnitude10(c));
  }

  lemma NumberStart(n: Number)
    requires NumberText(n).Some?
    ensures NumberText(n).value != ""
    ensures IsDigit(NumberText(n).value[0]) || NumberText(n).value[0] == '-'
  {
    hide Rendered, RenderCore, Core, DecimalPosition, IsCore, SameValue, NatOf, Numeral, AllDigits;
    match n {
      case Integer(value) =>
        FirstDigit(Numeral(if value < 0 then -value else value));
      case Decimal(negative, coefficient, exponent) =>
        if coefficient > 0 {
          var sp := SpellingOf(coefficient, exponent);
          SpellingValid(coefficient, exponent);
          RenderedFromCore(sp);
          RenderedStart(Core(sp), DecimalPosition(sp));
        } else {
          assert "0"[0] == '0';
        }
    }
  }

  lemma ZeroAligned(a: Scaled, b: Scaled)
    requires SameValue(a, b)
    ensures a.coefficient == 0 <==> b.coefficient == 0
  {
    var k := Lower(a.exponent, b.exponent);
    AlignedZero(a, k);
    AlignedZero(b, k);
  }

  lemma AlignedProduct(a: Scaled, m: int, k: int)
    requires k <= m <= a.exponent
    ensures Aligned(a, k) == Product(Aligned(a, m), Power10(m - k))
  {
    AlignedLower(a, m, k);
  }

  function Product(x: nat, y: nat): nat {
    x * y
  }

  lemma ProductOrder(x: nat, y: nat, p: nat)
    requires p > 0
    ensures Product(x, p) <= Product(y, p) <==> x <= y
    ensures Product(x, p) == Product(y, p) <==> x == y
  {
    if x < y {
      assert x * p < y * p;
    } else if y < x {
      assert y * p < x * p;
    }
  }

  /** The order of decimal values does not see how a value is scaled. */
  lemma AtMostSame(a: Scaled, b: Scaled, c: Scaled)
    requires SameValue(a, b)
    ensures AtMost(a, c) <==> AtMost(b, c)
  {
    hide Aligned, Product;
    var k := Lower(a.exponent, Lower(b.exponent, c.exponent));
    var ab, ac, bc := Lower(a.exponent, b.exponent), Lower(a.exponent, c.exponent), Lower(b.exponent, c.exponent);
    AlignedProduct(a, ab, k);
    AlignedProduct(b, ab, k);
    AlignedProduct(a, ac, k);
    AlignedProduct(c, ac, k);
    AlignedProduct(b, bc, k);
    AlignedProduct(c, bc, k);
    ProductOrder(Aligned(a, ac), Aligned(c, ac), Power10(ac - k));
    ProductOrder(Aligned(b, bc), Aligned(c, bc), Power10(bc - k));
    ProductOrder(Aligned(a, ab), Aligned(b, ab), Power10(ab - k));
  }

  lemma SameIntegers(a: int, b: int)
    requires NumericallyEqual(Integer(a), Integer(b))
    ensures a == b
  {
  }

  lemma SafeHasFewDigits(value: nat)
    requires value <= MAX_SAFE_INTEGER
    ensures |Numeral(value)| <= 20
  {
    hide Power10, Numeral;
    HugePower();
    NumeralLength(value, 20);
  }

  /** A safe integer prints as the decimal of the same value does. */
  lemma IntegerAsDecimal(value: int)
    requires Safe(value) && value != 0
    ensures IntegerText(value) == DecimalText(value < 0, if value < 0 then -value else value, 0)
  {
    hide Power10, NatOf, Numeral, SameValue, Rendered, RenderCore, IntegerText, AllDigits;
    var magnitude: nat := if value < 0 then -value else value;
    var m := Decimal(value < 0, magnitude, 0);
    var sp := SpellingOf(magnitude, 0);
    SpellingValid(magnitude, 0);
    SafeHasFewDigits(magnitude);
    NumeralReadsBack(magnitude);
    SignificantFacts(sp);
    assert Significant(sp) == sp.whole by { NoZerosToStrip(sp); }
    CoreValue(sp);
    RenderedFromCore(sp);
    WholeNumberText(value < 0, Core(sp), DecimalPosition(sp));
    NormalIsSameNumber(m);
    WrittenAsDecimal(value);
    EqualSymmetric(m, Integer(value));
    EqualTransitive(Integer(value), m, NormalOf(m));
    SameIntegers(value, NormalOf(m).value);
  }

  lemma WrittenAsDecimal(value: int)
    ensures NumericallyEqual(Decimal(value < 0, if value < 0 then -value else value, 0), Integer(value))
  {
  }

  lemma NoZerosToStrip(sp: Spelling)
    requires sp.whole != "" && sp.whole[0] != '0' && sp.fraction == ""
    ensures Significant(sp) == sp.whole
  {
  }

  /** Numbers of one value that print at all print alike, whatever their type and spelling. */
  lemma SamePrintableText(a: Number, b: Number)
    requires NumberText(a).Some? && NumberText(b).Some? && NumericallyEqual(a, b)
    ensures NumberText(a) == NumberText(b)
  {
    hide SameValue, Rendered, Numeral, IntegerText;
    ZeroAligned(Magnitude10(a), Magnitude10(b));
    if Magnitude10(a).coefficient == 0 {
      assert IntegerText(0) == "0" by { ZeroText(); }
    } else if a.Integer? && b.Integer? {
      SameIntegers(a.value, b.value);
    } else if a.Integer? {
      IntegerAsDecimal(a.value);
      SameNumberSameText(Decimal(a.value < 0, Magnitude10(a).coefficient, 0), b);
    } else if b.Integer? {
      IntegerAsDecimal(b.value);
      SameNumberSameText(a, Decimal(b.value < 0, Magnitude10(b).coefficient, 0));
    } else {
      SameNumberSameText(a, b);
    }
  }

  lemma ZeroText()
    ensures IntegerText(0) == "0"
  {
  }

  // ----- numbers that print once and never again

  /** An integer value above 2^53 - 1 in magnitude and below 10^21, whatever type carries it. */
  ghost predicate LargeIntegral(n: Number) {
    exists k: int :: LargeInteger(k) && NumericallyEqual(n, Integer(k))
  }

  predicate LargeInteger(k: int) {
    !Safe(k) && -(Power10(21) as int) < k < Power10(21)
  }

  /** A decimal whose value is an integer below 10^21 reads back as that integer. */
  lemma IntegralComesBack(n: Number, k: int)
    requires n.Decimal? && NumericallyEqual(n, Integer(k)) && k != 0 && -(Power10(21) as int) < k < Power10(21)
    ensures NormalOf(n) == Integer(k)
  {
    hide Power10, NatOf, Numeral, SameValue, Rendered, RenderCore, AllDigits, IsCore;
    var magnitude: nat := if k < 0 then -k else k;
    var m := Decimal(k < 0, magnitude, 0);
    ZeroAligned(Magnitude10(n), Magnitude10(Integer(k)));
    WrittenAsDecimal(k);
    EqualSymmetric(m, Integer(k));
    EqualTransitive(n, Integer(k), m);
    var sp, sq := SpellingOf(n.coefficient, n.exponent), SpellingOf(magnitude, 0);
    SpellingValid(n.coefficient, n.exponent);
    SpellingValid(magnitude, 0);
    NumeralLength(magnitude, 21);
    NumeralReadsBack(magnitude);
    NoZerosToStrip(sq);
    SignificantFacts(sq);
    SameCore(sp, sq);
    NormalIsSameNumber(n);
    EqualSymmetric(n, Integer(k));
    EqualTransitive(Integer(k), n, NormalOf(n));
    SameIntegers(k, NormalOf(n).value);
  }

  lemma SameCore(a: Spelling, b: Spelling)
    requires a.Valid() && b.Valid() && SameValue(a.Value(), b.Value())
    ensures IsCore(Core(a)) && Core(a) == Core(b) && DecimalPosition(a) == DecimalPosition(b)
  {
    hide NatOf, SameValue, IsCore, Core, DecimalPosition, AllDigits;
    CoreValue(a);
    CoreValue(b);
    CoreDigits(a);
    CoreDigits(b);
    var x := Scaled(NatOf(Core(a)), DecimalPosition(a) - |Core(a)|);
    var y := Scaled(NatOf(Core(b)), DecimalPosition(b) - |Core(b)|);
    SameValueSymmetric(a.Value(), x);
    SameValueTransitive(x, a.Value(), b.Value());
    SameValueTransitive(x, b.Value(), y);
    CoreUnique(Core(a), DecimalPosition(a), Core(b), DecimalPosition(b));
  }

  lemma NormalIntegerIsSmall(n: Number)
    requires n.Decimal? && NormalOf(n).Integer?
    ensures -(Power10(21) as int) < NormalOf(n).value < Power10(21)
  {
    hide NormalNumber, Power10, NatOf, Numeral, SameValue, Core, DecimalPosition, AllDigits;
    if n.coefficient > 0 {
      var sp := SpellingOf(n.coefficient, n.exponent);
      SpellingValid(n.coefficient, n.exponent);
      CoreValue(sp);
      NormalNumberIsSmall(n.negative, Core(sp), DecimalPosition(sp));
    }
  }

  lemma NormalNumberIsSmall(negative: bool, core: string, position: int)
    requires IsCore(core) && NormalNumber(negative, core, position).Integer?
    ensures -(Power10(21) as int) < NormalNumber(negative, core, position).value < Power10(21)
  {
    hide Power10, NatOf, AllDigits;
    BelowPower(core, position);
    AlignedIsProduct(Scaled(NatOf(core), position - |core|), 0);
  }

  lemma BelowPower(core: string, position: nat)
    requires IsCore(core) && |core| <= position <= 21
    ensures AllDigits(core) && NatOf(core) * Power10(position - |core|) < Power10(21)
  {
    hide Power10, NatOf;
    Magnitude(core);
    PowerSum(|core|, position - |core|);
    PowerMonotone(position, 21);
    MonotoneProduct(NatOf(core), Power10(|core|), Power10(position - |core|));
  }

  lemma MonotoneProduct(a: nat, b: nat, c: nat)
    requires a < b && c > 0
    ensures a * c < b * c
  {
  }

  /** A number that printed cannot print again exactly when it is a large integral one. */
  lemma RefusedAgain(n: Number)
    requires NumberText(n).Some?
    ensures NumberText(NormalOf(n)).None? <==> LargeIntegral(n)
  {
    hide Power10, SameValue, NormalOf, Numeral, DecimalText;
    if n.Integer? {
      IntegerIsNormal(n);
      forall k: int | NumericallyEqual(n, Integer(k))
        ensures k == n.value
      {
        SameIntegers(n.value, k);
      }
    } else {
      NormalIsSameNumber(n);
      if NumberText(NormalOf(n)).None? {
        NormalIntegerIsSmall(n);
        assert LargeInteger(NormalOf(n).value);
      }
      forall k: int | LargeInteger(k) && NumericallyEqual(n, Integer(k))
        ensures NormalOf(n) == Integer(k)
      {
        IntegralComesBack(n, k);
      }
    }
  }
}

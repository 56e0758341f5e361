/**
 Twelve-place half-even quantization and the one normalized spelling of a quantized number. A
 quantized number is a count of units of 10^-12.
 */
module Decimals {
  import opened Digits
  import opened Outcomes
  import opened Reals

  const UNIT: nat := 1_000_000_000_000

  // ----- quantization

  /** The nearest integer, ties to the even neighbour. */
  function HalfEven(y: real): int {
    var f := y.Floor;
    var rest := y - f as real;
    if rest < 0.5 then f
    else if rest > 0.5 then f + 1
    else if f % 2 == 0 then f else f + 1
  }

  function Quantize(x: real): int {
    HalfEven(x * UNIT as real)
  }

  function ValueOf(units: int): real {
    units as real / UNIT as real
  }

  /** `quantize_decimal`: fifty digits of precision bound the quantized coefficient. */
  function QuantizeChecked(x: real): Option<int> {
    if -(Power10(50) as int) < Quantize(x) < Power10(50) then Some(Quantize(x)) else None
  }

  /** Quantizing is refused exactly when the count of units has more than fifty decimal digits. */
  lemma CheckedExactly(x: real)
    ensures var q := Quantize(x);
      QuantizeChecked(x) == if |Numeral(if q < 0 then -q else q)| <= 50 then Some(q) else None
  {
    hide Quantize;
    var n := if Quantize(x) < 0 then -Quantize(x) else Quantize(x);
    NumeralReadsBack(n);
    ValueFixed(Numeral(n));
    if n < Power10(50) {
      NumeralLength(n, 50);
    } else if |Numeral(n)| <= 50 {
      PowerMonotone(|Numeral(n)|, 50);
    }
  }

  /** Nearest with ties to even is a unique choice. */
  lemma HalfEvenUnique(y: real, n: int)
    requires Abs(y - n as real) <= 0.5
    requires Abs(y - n as real) == 0.5 ==> n % 2 == 0
    ensures HalfEven(y) == n
  {
  }

  lemma QuantizeExact(units: int)
    ensures Quantize(ValueOf(units)) == units
  {
  }

  lemma QuantizeMonotone(x: real, y: real)
    requires x <= y
    ensures Quantize(x) <= Quantize(y)
  {
  }

  /** A metric and its complement quantize to complements. */
  lemma QuantizeComplement(x: real)
    ensures Quantize(1.0 - x) == UNIT - Quantize(x)
  {
  }

  /** Quantizing moves two values apart or together by at most one unit. */
  lemma QuantizeLipschitz(x: real, y: real, bound: real)
    requires Abs(x - y) <= bound
    ensures Abs(ValueOf(Quantize(x)) - ValueOf(Quantize(y))) <= bound + ValueOf(1)
  {
  }

  // ----- the normalized spelling

  /** `decimal_string`: plain format of the quantized number, trailing zeros and a bare point removed. */
  function DecimalString(units: int): string {
    if units == 0 then "0"
    else
      var magnitude := if units < 0 then -units else units;
      var plain := (if units < 0 then "-" else "") + Numeral(magnitude / UNIT) + "." + Fixed(magnitude % UNIT, 12);
      StripRight(StripRight(plain, '0'), '.')
  }

  /** Digits whose last one is not zero, as the fraction part of the receipt grammar. */
  predicate Fraction(s: string) {
    1 <= |s| <= 12 && AllDigits(s) && s[|s| - 1] != '0'
  }

  predicate Whole(s: string) {
    s != "" && AllDigits(s) && s[0] != '0'
  }

  function Point(s: string): (k: nat)
    ensures k <= |s|
    ensures k < |s| ==> s[k] == '.'
    ensures forall i :: 0 <= i < k ==> s[i] != '.'
  {
    if s == "" || s[0] == '.' then 0 else 1 + Point(s[1..])
  }

  /** The unsigned, non-zero part of `_DECIMAL_RE`. */
  predicate PositiveGrammar(s: string) {
    var k := Point(s);
    if k == |s| then Whole(s)
    else (Whole(s[..k]) || s[..k] == "0") && Fraction(s[k + 1..])
  }

  /** `_DECIMAL_RE`: "0", or an optional minus and a non-zero plain decimal of at most twelve places. */
  predicate DecimalGrammar(s: string) {
    s == "0" || PositiveGrammar(s) || (s != "" && s[0] == '-' && PositiveGrammar(s[1..]))
  }

  function PositiveUnits(s: string): nat
    requires PositiveGrammar(s)
  {
    var k := Point(s);
    if k == |s| then NatOf(s) * UNIT
    else NatOf(s[..k]) * UNIT + NatOf(s[k + 1..]) * Power10(12 - |s[k + 1..]|)
  }

  /** The number a grammatical string denotes, in units. */
  function UnitsOf(s: string): int
    requires DecimalGrammar(s)
  {
    if s == "0" then 0
    else if s[0] == '-' then -(PositiveUnits(s[1..]) as int)
    else PositiveUnits(s)
  }

  lemma UnitPower()
    ensures Power10(12) == UNIT
  {
  }

  /** The unsigned spelling, given directly by its whole and fraction digits. */
  function Spelled(whole: string, fraction: string): string {
    if fraction == "" then whole else whole + "." + fraction
  }

  lemma PointOfSpelled(whole: string, fraction: string)
    requires AllDigits(whole) && AllDigits(fraction)
    ensures Point(whole + "." + fraction) == |whole| && Point(whole) == |whole|
  {
    PointIs(whole + "." + fraction, |whole|);
    PointIs(whole, |whole|);
  }

  lemma {:induction false} PointIs(s: string, k: nat)
    requires k <= |s| && (k < |s| ==> s[k] == '.')
    requires forall i :: 0 <= i < k ==> s[i] != '.'
    ensures Point(s) == k
  {
  }

  /** Stripping leaves the whole digits and the fraction up to its last non-zero digit. */
  lemma StrippedPlain(sign: string, whole: string, fraction: string)
    requires AllDigits(whole) && whole != "" && AllDigits(fraction)
    ensures StripRight(StripRight(sign + whole + "." + fraction, '0'), '.')
         == sign + Spelled(whole, StripRight(fraction, '0'))
  {
    var plain, kept := sign + whole + "." + fraction, StripRight(fraction, '0');
    var keep := |sign| + |whole| + 1 + |kept|;
    forall i | keep <= i < |plain|
      ensures plain[i] == '0'
    {
      assert plain[i] == fraction[i - |sign| - |whole| - 1];
    }
    if kept != "" {
      assert plain[keep - 1] == fraction[|kept| - 1] == kept[|kept| - 1];
    }
    StripRightIs(plain, '0', keep);
    assert plain[..keep] == sign + whole + "." + kept;
    if kept == "" {
      assert IsDigit(whole[|whole| - 1]);
      StripRightIs(plain[..keep], '.', keep - 1);
      assert plain[..keep][..keep - 1] == sign + whole;
    } else {
      assert IsDigit(fraction[|kept| - 1]);
      StripRightIs(plain[..keep], '.', keep);
      assert sign + whole + "." + kept == sign + (whole + "." + kept);
    }
  }

  lemma StrippedValue(fraction: string)
    requires AllDigits(fraction) && |fraction| <= 12
    ensures var kept := StripRight(fraction, '0');
      AllDigits(kept) && NatOf(fraction) == NatOf(kept) * Power10(|fraction| - |kept|)
  {
    var kept := StripRight(fraction, '0');
    assert fraction == kept + Zeros(|fraction| - |kept|);
    ZerosAround(0, kept, |fraction| - |kept|);
  }

  /** The unsigned core of the spelling satisfies the grammar and denotes the magnitude. */
  lemma SpelledMagnitude(m: nat)
    requires m > 0
    ensures var s := Spelled(Numeral(m / UNIT), StripRight(Fixed(m % UNIT, 12), '0'));
      PositiveGrammar(s) && PositiveUnits(s) == m && s[0] != '-' && s != "0"
  {
    hide Numeral, Fixed, Power10;
    UnitPower();
    var whole, fixed := Numeral(m / UNIT), Fixed(m % UNIT, 12);
    var kept := StripRight(fixed, '0');
    NumeralReadsBack(m / UNIT);
    FixedValue(m % UNIT, 12);
    StrippedValue(fixed);
    PointOfSpelled(whole, kept);
    assert IsDigit(whole[0]);
    var s := Spelled(whole, kept);
    if kept == "" {
      assert NatOf("") == 0;
      assert m % UNIT == 0;
    } else {
      assert s[..|whole|] == whole && s[|whole| + 1..] == kept;
    }
  }

  /** Every quantized number's spelling satisfies the receipt grammar and denotes that number. */
  lemma SpellingReadsBack(units: int)
    ensures DecimalGrammar(DecimalString(units)) && UnitsOf(DecimalString(units)) == units
  {
    if units != 0 {
      var m := if units < 0 then -units else units;
      var sign := if units < 0 then "-" else "";
      var core := Spelled(Numeral(m / UNIT), StripRight(Fixed(m % UNIT, 12), '0'));
      StrippedPlain(sign, Numeral(m / UNIT), Fixed(m % UNIT, 12));
      SpelledMagnitude(m);
      assert DecimalString(units) == sign + core;
      if units < 0 {
        assert (sign + core)[1..] == core;
        NotPositive(sign + core);
      } else {
        assert sign + core == core;
      }
    } else {
      assert DecimalString(0) == "0";
    }
  }

  lemma NotPositive(s: string)
    requires s != "" && s[0] == '-'
    ensures !PositiveGrammar(s)
  {
  }

  /** A grammatical string other than "0" is a positive spelling, or the opposite of one. */
  lemma GrammarCases(s: string)
    requires DecimalGrammar(s) && s != "0"
    ensures s != ""
    ensures s[0] == '-' ==> PositiveGrammar(s[1..]) && UnitsOf(s) == -(PositiveUnits(s[1..]) as int)
    ensures s[0] != '-' ==> PositiveGrammar(s) && UnitsOf(s) == PositiveUnits(s)
  {
    hide PositiveUnits;
    if s != "" && s[0] == '-' {
      NotPositive(s);
    }
  }

  /** The spelling is the only grammatical string that denotes its number. */
  lemma SpellingUnique(s: string)
    requires DecimalGrammar(s)
    ensures DecimalString(UnitsOf(s)) == s
  {
    if s != "0" {
      hide DecimalGrammar, PositiveGrammar, PositiveUnits, UnitsOf, DecimalString;
      GrammarCases(s);
      if s[0] == '-' {
        PositiveSpellingUnique(s[1..], "-");
        assert s == "-" + s[1..];
      } else {
        PositiveSpellingUnique(s, "");
        assert s == "" + s;
      }
    }
  }

  function FractionOf(s: string): string {
    if Point(s) == |s| then "" else s[Point(s) + 1..]
  }

  lemma PositiveShape(s: string)
    requires PositiveGrammar(s)
    ensures var whole, fraction := s[..Point(s)], FractionOf(s);
      && AllDigits(whole) && whole != "" && (whole[0] != '0' || whole == "0")
      && AllDigits(fraction) && |fraction| <= 12 && (fraction == "" || fraction[|fraction| - 1] != '0')
      && s == Spelled(whole, fraction)
      && (fraction == "" ==> whole == s && whole[0] != '0')
      && (fraction != "" ==> Fraction(fraction))
  {
    hide Point;
  }

  /** The whole part and the padded fraction are quotient and remainder of the units. */
  lemma PositiveParts(s: string)
    requires PositiveGrammar(s)
    ensures var whole, fraction := s[..Point(s)], FractionOf(s);
      && AllDigits(whole) && whole != "" && (whole[0] != '0' || whole == "0")
      && AllDigits(fraction) && |fraction| <= 12 && (fraction == "" || fraction[|fraction| - 1] != '0')
      && s == Spelled(whole, fraction)
      && PositiveUnits(s) == NatOf(whole) * UNIT + NatOf(fraction + Zeros(12 - |fraction|)) > 0
  {
    hide Numeral, Fixed, Power10, NatOf, Whole, Fraction, Point, Spelled, PositiveGrammar, AllDigits;
    PositiveShape(s);
    var whole, fraction := s[..Point(s)], FractionOf(s);
    var gap := 12 - |fraction|;
    ZerosAround(0, fraction, gap);
    if fraction == "" {
      NatOfZeros(12);
      assert "" + Zeros(12) == Zeros(12);
      Magnitude(whole);
      AtLeastOne(NatOf(whole), UNIT);
    } else {
      FractionPositive(fraction);
      AtLeastOne(NatOf(fraction), Power10(gap));
    }
  }

  lemma PositiveSpellingUnique(s: string, sign: string)
    requires PositiveGrammar(s) && sign in {"", "-"}
    ensures PositiveUnits(s) > 0
    ensures DecimalString(if sign == "-" then -(PositiveUnits(s) as int) else PositiveUnits(s)) == sign + s
  {
    hide Numeral, Fixed, Power10, NatOf, PositiveGrammar, PositiveUnits, StripRight;
    UnitPower();
    PositiveParts(s);
    var whole, fraction := s[..Point(s)], FractionOf(s);
    var fixed := fraction + Zeros(12 - |fraction|);
    ValueFixed(fixed);
    QuotientAndRemainder(PositiveUnits(s), NatOf(whole), NatOf(fixed));
    NumeralUnique(whole);
    StripRightIs(fixed, '0', |fraction|);
    StrippedPlain(sign, whole, fixed);
  }

  lemma QuotientAndRemainder(m: nat, q: nat, r: nat)
    requires m == q * UNIT + r && r < UNIT
    ensures m / UNIT == q && m % UNIT == r
  {
  }

  lemma FractionPositive(s: string)
    requires Fraction(s)
    ensures NatOf(s) > 0
  {
  }

  /** Metric values fit the receipt's bound of 32 characters. */
  lemma SpellingIsShort(units: int)
    requires -(Power10(30) as int) < units < Power10(30)
    ensures 1 <= |DecimalString(units)| <= 32
  {
    SpellingReadsBack(units);
    if units != 0 {
      UnitPower();
      PowerSum(18, 12);
      var m := if units < 0 then -units else units;
      assert m / UNIT < Power10(18);
      NumeralLength(m / UNIT, 18);
      StrippedPlain(if units < 0 then "-" else "", Numeral(m / UNIT), Fixed(m % UNIT, 12));
    }
  }
}

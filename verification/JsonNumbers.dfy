/**
 JSON numbers: the rendering of section 3.2.2.3 of RFC 8785, as the program derives it from a
 decimal spelling, and the number tokens of its parser.
 */
module JsonNumbers {
  import opened Digits
  import opened Outcomes

  // ----- decimal values

  /** The value coefficient * 10^exponent. */
  datatype Scaled = Scaled(coefficient: nat, exponent: int)

  /** A number with k zeros appended to its digits. */
  function Shifted(n: nat, k: nat): nat
    decreases k
  {
    if k == 0 then n else Shifted(10 * n, k - 1)
  }

  /** The coefficient the value has at a lower exponent. */
  function Aligned(a: Scaled, exponent: int): nat
    requires exponent <= a.exponent
  {
    Shifted(a.coefficient, a.exponent - exponent)
  }

  lemma {:induction false} ShiftedIsProduct(n: nat, k: nat)
    ensures Shifted(n, k) == n * Power10(k)
    decreases k
  {
    if k > 0 {
      ShiftedIsProduct(10 * n, k - 1);
      assert n * (10 * Power10(k - 1)) == 10 * n * Power10(k - 1);
    } else {
      assert Power10(0) == 1;
    }
  }

  lemma AlignedIsProduct(a: Scaled, exponent: int)
    requires exponent <= a.exponent
    ensures Aligned(a, exponent) == a.coefficient * Power10(a.exponent - exponent)
  {
    ShiftedIsProduct(a.coefficient, a.exponent - exponent);
  }

  lemma AlignedZero(a: Scaled, exponent: int)
    requires exponent <= a.exponent
    ensures Aligned(a, exponent) == 0 <==> a.coefficient == 0
  {
    ShiftedZero(a.coefficient, a.exponent - exponent);
  }

  lemma {:induction false} ShiftedZero(n: nat, k: nat)
    ensures Shifted(n, k) == 0 <==> n == 0
    decreases k
  {
    if k > 0 {
      ShiftedZero(10 * n, k - 1);
    }
  }

  function Lower(a: int, b: int): int {
    if a < b then a else b
  }

  predicate SameValue(a: Scaled, b: Scaled) {
    Aligned(a, Lower(a.exponent, b.exponent)) == Aligned(b, Lower(a.exponent, b.exponent))
  }

  predicate AtMost(a: Scaled, b: Scaled) {
    Aligned(a, Lower(a.exponent, b.exponent)) <= Aligned(b, Lower(a.exponent, b.exponent))
  }

  /** A positive decimal as Python spells it: mantissa digits around the point, and an exponent. */
  datatype Spelling = Spelling(whole: string, fraction: string, exponent: int) {
    predicate Valid() {
      whole != "" && AllDigits(whole) && AllDigits(fraction) && NatOf(whole + fraction) > 0
    }

    function Value(): Scaled
      requires Valid()
    {
      Scaled(NatOf(whole + fraction), exponent - |fraction|)
    }
  }

  // ----- rendering

  function Significant(sp: Spelling): string {
    StripLeft(sp.whole + sp.fraction, '0')
  }

  function DecimalPosition(sp: Spelling): int {
    |sp.whole| + sp.exponent - (|sp.whole + sp.fraction| - |Significant(sp)|)
  }

  /** 10^-6 <= value < 10^21 */
  predicate PlainRange(sp: Spelling)
    requires sp.Valid()
  {
    AtMost(Scaled(1, -6), sp.Value()) && !AtMost(Scaled(1, 21), sp.Value())
  }

  function Rendered(sp: Spelling): string
    requires sp.Valid()
  {
    var digits, position := Significant(sp), DecimalPosition(sp);
    if PlainRange(sp) then
      if position <= 0 then StripPoint("0." + Zeros(-position) + digits)
      else if position >= |digits| then digits + Zeros(position - |digits|)
      else StripPoint(digits[..position] + "." + digits[position..])
    else
      SignificantFacts(sp);
      Scientific(digits[..1], StripRight(digits[1..], '0'), position - 1)
  }

  function StripPoint(s: string): string {
    StripRight(StripRight(s, '0'), '.')
  }

  function Scientific(first: string, tail: string, exponent: int): string {
    first + (if tail == "" then "" else "." + tail) + "e" + SignedExponent(exponent)
  }

  function SignedExponent(exponent: int): string {
    if exponent >= 0 then "+" + Numeral(exponent) else "-" + Numeral(-exponent)
  }

  /** The digits of a value without zeros at either end. */
  predicate IsCore(core: string) {
    core != "" && AllDigits(core) && core[0] != '0' && core[|core| - 1] != '0'
  }

  function Core(sp: Spelling): string {
    StripRight(Significant(sp), '0')
  }

  lemma LeftStripped(all: string)
    requires AllDigits(all) && NatOf(all) > 0
    ensures var digits := StripLeft(all, '0');
      digits != "" && AllDigits(digits) && digits[0] != '0' && NatOf(digits) == NatOf(all)
  {
    hide NatOf;
    var digits := StripLeft(all, '0');
    var k := |all| - |digits|;
    assert all == Zeros(k) + digits;
    ZerosAround(k, digits, 0);
    var n: nat := |all|;
    NatOfZeros(n);
    assert digits == "" ==> all == Zeros(n);
  }

  lemma RightStripped(digits: string)
    requires digits != "" && AllDigits(digits) && digits[0] != '0'
    ensures var core := StripRight(digits, '0');
      IsCore(core) && |core| <= |digits| && digits == core + Zeros(|digits| - |core|)
  {
  }

  lemma SignificantFacts(sp: Spelling)
    requires sp.Valid()
    ensures Significant(sp) != "" && AllDigits(Significant(sp)) && Significant(sp)[0] != '0'
    ensures NatOf(Significant(sp)) == NatOf(sp.whole + sp.fraction)
    ensures IsCore(Core(sp)) && |Core(sp)| <= |Significant(sp)|
    ensures Significant(sp) == Core(sp) + Zeros(|Significant(sp)| - |Core(sp)|)
  {
    hide NatOf, StripLeft, StripRight;
    LeftStripped(sp.whole + sp.fraction);
    RightStripped(Significant(sp));
  }

  /** The value of a spelling is its core read as an integer, shifted by position and length. */
  lemma CoreValue(sp: Spelling)
    requires sp.Valid()
    ensures IsCore(Core(sp))
    ensures SameValue(sp.Value(), Scaled(NatOf(Core(sp)), DecimalPosition(sp) - |Core(sp)|))
  {
    hide NatOf, Power10, Significant, Core, IsCore, SameValue;
    SignificantFacts(sp);
    var k := |Significant(sp)| - |Core(sp)|;
    CoreDigits(sp);
    ZerosAround(0, Core(sp), k);
    ShiftedSame(Scaled(NatOf(Core(sp)), DecimalPosition(sp) - |Core(sp)|), k);
  }

  lemma CoreDigits(sp: Spelling)
    requires sp.Valid()
    ensures AllDigits(Core(sp))
  {
  }

  lemma ShiftedSame(a: Scaled, k: nat)
    ensures SameValue(Scaled(a.coefficient * Power10(k), a.exponent - k), a)
  {
    AlignedIsProduct(a, a.exponent - k);
  }

  lemma {:induction false} NotMultipleOfTen(core: string)
    requires IsCore(core)
    ensures NatOf(core) % 10 != 0 && NatOf(core) > 0
  {
  }

  lemma SameValueSymmetric(a: Scaled, b: Scaled)
    requires SameValue(a, b)
    ensures SameValue(b, a)
  {
  }

  lemma AlignedLower(a: Scaled, m: int, k: int)
    requires k <= m <= a.exponent
    ensures Aligned(a, k) == Aligned(a, m) * Power10(m - k)
  {
    AlignedIsProduct(a, k);
    AlignedIsProduct(a, m);
    PowerSum(a.exponent - m, m - k);
    assert a.coefficient * (Power10(a.exponent - m) * Power10(m - k)) == a.coefficient * Power10(a.exponent - m) * Power10(m - k);
  }

  lemma CancelPower(x: nat, y: nat, k: nat)
    requires x * Power10(k) == y * Power10(k)
    ensures x == y
  {
  }

  lemma SameValueTransitive(a: Scaled, b: Scaled, c: Scaled)
    requires SameValue(a, b) && SameValue(b, c)
    ensures SameValue(a, c)
  {
    hide Aligned;
    var k := Lower(Lower(a.exponent, b.exponent), c.exponent);
    AlignedLower(a, Lower(a.exponent, b.exponent), k);
    AlignedLower(b, Lower(a.exponent, b.exponent), k);
    AlignedLower(b, Lower(b.exponent, c.exponent), k);
    AlignedLower(c, Lower(b.exponent, c.exponent), k);
    var m := Lower(a.exponent, c.exponent);
    AlignedLower(a, m, k);
    AlignedLower(c, m, k);
    CancelPower(Aligned(a, m), Aligned(c, m), m - k);
  }

  lemma TenDivides(y: nat, d: nat)
    requires d > 0
    ensures y * Power10(d) % 10 == 0
  {
    assert y * Power10(d) == 10 * (y * Power10(d - 1));
  }

  lemma CoefficientsAtSameScale(x: nat, y: nat, d: nat)
    requires x == y * Power10(d) && x % 10 != 0
    ensures d == 0 && x == y
  {
    assert Power10(0) == 1;
    if d > 0 {
      TenDivides(y, d);
    }
  }

  /** A value has one core and one decimal position. */
  lemma CoreUnique(a: string, p: int, b: string, q: int)
    requires IsCore(a) && IsCore(b)
    requires SameValue(Scaled(NatOf(a), p - |a|), Scaled(NatOf(b), q - |b|))
    ensures a == b && p == q
  {
    NotMultipleOfTen(a);
    NotMultipleOfTen(b);
    var x, y := p - |a|, q - |b|;
    assert Power10(0) == 1;
    if x <= y {
      AlignedIsProduct(Scaled(NatOf(b), y), x);
      CoefficientsAtSameScale(NatOf(a), NatOf(b), y - x);
    } else {
      AlignedIsProduct(Scaled(NatOf(a), x), y);
      CoefficientsAtSameScale(NatOf(b), NatOf(a), x - y);
    }
    NumeralUnique(a);
    NumeralUnique(b);
  }

  /** The rendering as a function of core and position alone. */
  function RenderCore(core: string, position: int): string
    requires IsCore(core)
  {
    if -5 <= position <= 21 then
      if position <= 0 then "0." + Zeros(-position) + core
      else if position >= |core| then core + Zeros(position - |core|)
      else core[..position] + "." + core[position..]
    else Scientific(core[..1], core[1..], position - 1)
  }

  /** A number with p digits before the point lies between 10^(p-1) and 10^p. */
  lemma PowerBound(sp: Spelling, k: int)
    requires sp.Valid()
    ensures AtMost(Scaled(1, k), sp.Value()) <==> k < DecimalPosition(sp)
  {
    hide NatOf, StripLeft, AllDigits;
    SignificantFacts(sp);
    var digits, v := Significant(sp), sp.Value();
    Magnitude(digits);
    var n := |digits|;
    assert DecimalPosition(sp) == v.exponent + n;
    assert Power10(0) == 1;
    if v.exponent <= k {
      AlignedIsProduct(Scaled(1, k), v.exponent);
      if k - v.exponent < n {
        PowerMonotone(k - v.exponent, n - 1);
      } else {
        PowerMonotone(n, k - v.exponent);
      }
    } else {
      AlignedIsProduct(v, k);
      AtLeastOne(v.coefficient, Power10(v.exponent - k));
      assert v.coefficient * Power10(v.exponent - k) >= 1;
    }
  }

  /** Exponent form is used exactly outside [10^-6, 10^21). */
  lemma PlainRangeIsPosition(sp: Spelling)
    requires sp.Valid()
    ensures PlainRange(sp) <==> -5 <= DecimalPosition(sp) <= 21
  {
    PowerBound(sp, -6);
    PowerBound(sp, 21);
  }

  lemma StripPointKeeps(s: string, keep: nat)
    requires 0 < keep <= |s| && s[keep - 1] != '0' && s[keep - 1] != '.'
    requires forall i :: keep <= i < |s| ==> s[i] == '0'
    ensures StripPoint(s) == s[..keep]
  {
  }

  lemma StripPointDrops(s: string, keep: nat)
    requires 0 < keep < |s| && s[keep] == '.' && s[keep - 1] != '.'
    requires forall i :: keep < i < |s| ==> s[i] == '0'
    ensures StripPoint(s) == s[..keep]
  {
  }

  lemma SmallText(core: string, digits: string, k: nat, zeros: nat)
    requires IsCore(core) && digits == core + Zeros(k)
    ensures StripPoint("0." + Zeros(zeros) + digits) == "0." + Zeros(zeros) + core
  {
    var s := "0." + Zeros(zeros) + digits;
    var keep := 2 + zeros + |core|;
    assert s[keep - 1] == core[|core| - 1] && IsDigit(core[|core| - 1]);
    StripPointKeeps(s, keep);
    assert s[..keep] == "0." + Zeros(zeros) + core;
  }

  lemma SplitText(core: string, digits: string, k: nat, position: nat)
    requires IsCore(core) && digits == core + Zeros(k) && 0 < position < |digits|
    ensures StripPoint(digits[..position] + "." + digits[position..])
         == if position >= |core| then core + Zeros(position - |core|) else core[..position] + "." + core[position..]
  {
    var s := digits[..position] + "." + digits[position..];
    if position >= |core| {
      assert IsDigit(digits[position - 1]);
      StripPointDrops(s, position);
      assert s[..position] == core + Zeros(position - |core|);
    } else {
      assert s[|core|] == core[|core| - 1] && IsDigit(core[|core| - 1]);
      StripPointKeeps(s, |core| + 1);
      assert s[..|core| + 1] == core[..position] + "." + core[position..];
    }
  }

  lemma WholeText(core: string, digits: string, k: nat, position: nat)
    requires digits == core + Zeros(k) && position >= |digits|
    ensures digits + Zeros(position - |digits|) == core + Zeros(position - |core|)
  {
  }

  lemma ScientificText(core: string, digits: string, k: nat)
    requires IsCore(core) && digits == core + Zeros(k)
    ensures StripRight(digits[1..], '0') == core[1..] && digits[..1] == core[..1]
  {
    StripRightIs(digits[1..], '0', |core| - 1);
    assert digits[1..][..|core| - 1] == core[1..];
  }

  /** What is rendered depends on the core and the position only. */
  lemma RenderedFromCore(sp: Spelling)
    requires sp.Valid()
    ensures IsCore(Core(sp)) && Rendered(sp) == RenderCore(Core(sp), DecimalPosition(sp))
  {
    hide Power10, NatOf, PlainRange, Numeral, IsCore, StripPoint, Scientific, Significant, Core, StripRight, Zeros;
    SignificantFacts(sp);
    PlainRangeIsPosition(sp);
    var digits, core, position := Significant(sp), Core(sp), DecimalPosition(sp);
    var k := |digits| - |core|;
    if PlainRange(sp) {
      if position <= 0 {
        SmallText(core, digits, k, -position);
      } else if position >= |digits| {
        WholeText(core, digits, k, position);
      } else {
        SplitText(core, digits, k, position);
      }
    } else {
      ScientificText(core, digits, k);
    }
  }

  /** Every spelling of a value renders to the same text. */
  lemma SpellingDoesNotMatter(a: Spelling, b: Spelling)
    requires a.Valid() && b.Valid() && SameValue(a.Value(), b.Value())
    ensures Rendered(a) == Rendered(b)
  {
    hide *;
    CoreDigits(a);
    CoreDigits(b);
    CoreValue(a);
    CoreValue(b);
    SameValueSymmetric(a.Value(), Scaled(NatOf(Core(a)), DecimalPosition(a) - |Core(a)|));
    var u, v := Scaled(NatOf(Core(a)), DecimalPosition(a) - |Core(a)|), Scaled(NatOf(Core(b)), DecimalPosition(b) - |Core(b)|);
    SameValueTransitive(u, a.Value(), b.Value());
    SameValueTransitive(u, b.Value(), v);
    CoreUnique(Core(a), DecimalPosition(a), Core(b), DecimalPosition(b));
    RenderedFromCore(a);
    RenderedFromCore(b);
  }

  // ----- number tokens

  /** A parsed number: an integer token, or a decimal one as sign, coefficient and exponent. */
  datatype Number = Integer(value: int) | Decimal(negative: bool, coefficient: nat, exponent: int)

  function DigitRun(s: string): (n: nat)
    ensures n <= |s| && AllDigits(s[..n]) && (n < |s| ==> !IsDigit(s[n]))
  {
    if s == "" || !IsDigit(s[0]) then 0 else 1 + DigitRun(s[1..])
  }

  /** An optional fraction: a point and at least one digit, or nothing is consumed. */
  function ReadFraction(s: string): (r: (string, string))
    ensures AllDigits(r.0) && |r.1| <= |s|
  {
    if |s| >= 2 && s[0] == '.' && IsDigit(s[1]) then
      var n := DigitRun(s[1..]);
      (s[1..][..n], s[1 + n..])
    else ("", s)
  }

  /** An optional exponent: a letter, an optional sign and at least one digit, or nothing is consumed. */
  function ReadExponent(s: string): (r: (Option<int>, string))
    ensures |r.1| <= |s|
  {
    if |s| >= 2 && (s[0] == 'e' || s[0] == 'E') then
      var start := if s[1] == '+' || s[1] == '-' then 2 else 1;
      var n := DigitRun(s[start..]);
      if n == 0 then (None, s)
      else
        var magnitude := NatOf(s[start..][..n]);
        (Some(if s[1] == '-' then -(magnitude as int) else magnitude), s[start + n..])
    else (None, s)
  }

  function NumberOf(negative: bool, whole: string, fraction: string, exponent: Option<int>): Number
    requires AllDigits(whole) && AllDigits(fraction)
  {
    if fraction == "" && exponent == None then Integer(if negative then -(NatOf(whole) as int) else NatOf(whole))
    else Decimal(negative, NatOf(whole + fraction), (if exponent.Some? then exponent.value else 0) - |fraction|)
  }

  function ReadUnsigned(negative: bool, s: string): (r: Option<(Number, string)>)
    ensures r.Some? ==> |r.value.1| < |s|
  {
    if s == "" || !IsDigit(s[0]) then None
    else
      var w := if s[0] == '0' then 1 else DigitRun(s);
      RunIsPositive(s);
      var (fraction, afterFraction) := ReadFraction(s[w..]);
      var (exponent, rest) := ReadExponent(afterFraction);
      Some((NumberOf(negative, s[..w], fraction, exponent), rest))
  }

  lemma RunIsPositive(s: string)
    requires s != "" && IsDigit(s[0])
    ensures DigitRun(s) >= 1
  {
  }

  /** The number token at the start of a text, with what follows it. */
  function ReadNumber(s: string): (r: Option<(Number, string)>)
    ensures r.Some? ==> |r.value.1| < |s|
  {
    if s != "" && s[0] == '-' then ReadUnsigned(true, s[1..]) else ReadUnsigned(false, s)
  }

  // ----- rendering and reading

  const MAX_SAFE_INTEGER: int := 9_007_199_254_740_991

  predicate Safe(value: int) {
    -MAX_SAFE_INTEGER <= value <= MAX_SAFE_INTEGER
  }

  function SpellingOf(coefficient: nat, exponent: int): Spelling {
    Spelling(Numeral(coefficient), "", exponent)
  }

  /** `_float_to_jcs` of a decimal; the spelling chosen for it does not matter. */
  function DecimalText(negative: bool, coefficient: nat, exponent: int): string {
    if coefficient == 0 then "0"
    else
      NumeralReadsBack(coefficient);
      assert Numeral(coefficient) + "" == Numeral(coefficient);
      (if negative then "-" else "") + Rendered(SpellingOf(coefficient, exponent))
  }

  function IntegerText(value: int): string {
    if value < 0 then "-" + Numeral(-value) else Numeral(value)
  }

  /** A text that cannot continue a number token. */
  predicate Stops(rest: string) {
    rest == "" || (!IsDigit(rest[0]) && rest[0] != '.' && rest[0] != 'e' && rest[0] != 'E')
  }

  lemma {:induction false} RunIs(digits: string, rest: string)
    requires AllDigits(digits) && (rest == "" || !IsDigit(rest[0]))
    ensures DigitRun(digits + rest) == |digits|
  {
    if digits != "" {
      assert (digits + rest)[1..] == digits[1..] + rest;
      RunIs(digits[1..], rest);
    } else {
      assert digits + rest == rest;
    }
  }

  /** The spelling of a token from its parts; exponents carry an explicit sign. */
  function TokenText(whole: string, fraction: string, exponent: Option<int>): string {
    whole + (if fraction == "" then "" else "." + fraction) + (if exponent == None then "" else "e" + SignedExponent(exponent.value))
  }

  lemma FractionReads(fraction: string, rest: string)
    requires AllDigits(fraction)
    requires rest == "" || (!IsDigit(rest[0]) && rest[0] != '.')
    ensures ReadFraction((if fraction == "" then "" else "." + fraction) + rest) == (fraction, rest)
  {
    if fraction == "" {
      assert "" + rest == rest;
    } else {
      var s := "." + fraction + rest;
      assert s[1..] == fraction + rest;
      RunIs(fraction, rest);
      assert s[1..][..|fraction|] == fraction && s[1 + |fraction|..] == rest;
    }
  }

  lemma SignedText(sign: string, digits: string, rest: string)
    requires |sign| == 1
    ensures var s := "e" + (sign + digits) + rest;
      && |s| == 2 + |digits| + |rest| && s[0] == 'e' && s[1] == sign[0] && s[2..] == digits + rest
      && s[2..][..|digits|] == digits && s[2 + |digits|..] == rest
  {
  }

  lemma SignedDigitsRead(s: string, digits: string, rest: string)
    requires |s| >= 2 && s[0] == 'e' && (s[1] == '+' || s[1] == '-') && s[2..] == digits + rest
    requires AllDigits(digits) && digits != "" && Stops(rest)
    ensures ReadExponent(s) == (Some(if s[1] == '-' then -(NatOf(digits) as int) else NatOf(digits)), rest)
  {
    hide NatOf, DigitRun;
    RunIs(digits, rest);
    assert s[2..][..|digits|] == digits && s[2 + |digits|..] == rest;
  }

  lemma ExponentReads(exponent: Option<int>, rest: string)
    requires Stops(rest)
    ensures ReadExponent((if exponent == None then "" else "e" + SignedExponent(exponent.value)) + rest) == (exponent, rest)
  {
    if exponent == None {
      assert "" + rest == rest;
    } else {
      hide Numeral, NatOf, ReadExponent, AllDigits, Stops;
      var x := exponent.value;
      var magnitude := if x >= 0 then x else -x;
      var sign, digits := if x >= 0 then "+" else "-", Numeral(magnitude);
      NumeralReadsBack(magnitude);
      SignedText(sign, digits, rest);
      SignedDigitsRead("e" + (sign + digits) + rest, digits, rest);
    }
  }

  /** A token spelled from its parts reads back as those parts, whatever stops it. */
  lemma TokenReads(negative: bool, whole: string, fraction: string, exponent: Option<int>, rest: string)
    requires AllDigits(whole) && whole != "" && (whole[0] != '0' || whole == "0") && AllDigits(fraction) && Stops(rest)
    ensures ReadUnsigned(negative, TokenText(whole, fraction, exponent) + rest)
         == Some((NumberOf(negative, whole, fraction, exponent), rest))
  {
    hide NatOf, ReadFraction, ReadExponent, Numeral, SignedExponent, NumberOf;
    var f := if fraction == "" then "" else "." + fraction;
    var e := if exponent == None then "" else "e" + SignedExponent(exponent.value);
    var s := TokenText(whole, fraction, exponent) + rest;
    assert s == whole + (f + (e + rest));
    assert s[0] == whole[0];
    var after := f + (e + rest);
    assert after == "" || !IsDigit(after[0]);
    if whole != "0" {
      RunIs(whole, after);
    }
    assert s[..|whole|] == whole && s[|whole|..] == after;
    FractionReads(fraction, e + rest);
    ExponentReads(exponent, rest);
  }

  /** The normal form of a non-zero decimal: an integer below 10^21, or core digits and scale. */
  function NormalNumber(negative: bool, core: string, position: int): Number
    requires IsCore(core)
  {
    if |core| <= position <= 21 then
      var magnitude := Aligned(Scaled(NatOf(core), position - |core|), 0);
      Integer(if negative then -(magnitude as int) else magnitude)
    else Decimal(negative, NatOf(core), position - |core|)
  }

  lemma CorePieces(core: string, k: nat)
    requires IsCore(core) && k <= |core|
    ensures AllDigits(core) && AllDigits(core[..k]) && AllDigits(core[k..])
    ensures k > 0 ==> core[..k] != "" && core[..k][0] != '0'
    ensures core[..k] + core[k..] == core
  {
  }

  lemma TokenPieces(whole: string, fraction: string)
    ensures TokenText(whole, "", None) == whole
    ensures fraction != "" ==> TokenText(whole, fraction, None) == whole + "." + fraction
  {
  }

  lemma ScientificPieces(first: string, tail: string, exponent: int)
    ensures TokenText(first, tail, Some(exponent)) == Scientific(first, tail, exponent)
  {
  }

  /** A token with a fraction or an exponent reads as the decimal of its joined digits. */
  lemma DecimalReads(negative: bool, whole: string, fraction: string, exponent: Option<int>, coefficient: nat, rest: string)
    requires AllDigits(whole) && whole != "" && (whole[0] != '0' || whole == "0") && AllDigits(fraction) && Stops(rest)
    requires fraction != "" || exponent.Some?
    requires AllDigits(whole + fraction) && coefficient == NatOf(whole + fraction)
    ensures ReadUnsigned(negative, TokenText(whole, fraction, exponent) + rest)
         == Some((Decimal(negative, coefficient, (if exponent.Some? then exponent.value else 0) - |fraction|), rest))
  {
    hide NatOf, ReadUnsigned, AllDigits, Stops, TokenText;
    TokenReads(negative, whole, fraction, exponent, rest);
  }

  lemma SmallReads(negative: bool, core: string, zeros: nat, rest: string)
    requires IsCore(core) && Stops(rest)
    ensures ReadUnsigned(negative, "0." + Zeros(zeros) + core + rest)
         == Some((Decimal(negative, NatOf(core), -(zeros as int) - |core|), rest))
  {
    hide NatOf, ReadUnsigned, Zeros, IsCore, AllDigits, Stops, TokenText;
    CorePieces(core, 0);
    ZerosThenDigits(zeros, core);
    ZerosThenDigits(zeros + 1, core);
    var fraction := Zeros(zeros) + core;
    OneMoreZero(zeros, core);
    ZerosAround(zeros + 1, core, 0);
    OneZeroDigit();
    CoreNonEmpty(core);
    DecimalReads(negative, "0", fraction, None, NatOf(core), rest);
    TokenPieces("0", fraction);
    PointJoined(Zeros(zeros), core);
  }

  lemma CoreNonEmpty(core: string)
    requires IsCore(core)
    ensures core != ""
  {
  }

  lemma PointJoined(a: string, b: string)
    ensures "0" + "." + (a + b) == "0." + a + b
  {
  }

  lemma OneZeroDigit()
    ensures AllDigits("0") && AllDigits("")
  {
  }

  lemma ZerosThenDigits(k: nat, s: string)
    requires AllDigits(s)
    ensures AllDigits(Zeros(k) + s) && AllDigits(s + Zeros(k)) && |Zeros(k)| == k
  {
  }

  lemma WholeReads(negative: bool, core: string, zeros: nat, rest: string)
    requires IsCore(core) && Stops(rest)
    ensures var magnitude := Aligned(Scaled(NatOf(core), zeros), 0);
      ReadUnsigned(negative, core + Zeros(zeros) + rest)
      == Some((Integer(if negative then -(magnitude as int) else magnitude), rest))
  {
    hide NatOf, ReadUnsigned, Power10, AllDigits, Stops, Zeros, TokenText;
    CorePieces(core, 0);
    ZerosThenDigits(zeros, core);
    OneZeroDigit();
    ZerosAround(0, core, zeros);
    TokenReads(negative, core + Zeros(zeros), "", None, rest);
    TokenPieces(core + Zeros(zeros), "");
    AlignedIsProduct(Scaled(NatOf(core), zeros), 0);
  }

  lemma SplitReads(negative: bool, core: string, position: nat, rest: string)
    requires IsCore(core) && 0 < position < |core| && Stops(rest)
    ensures ReadUnsigned(negative, core[..position] + "." + core[position..] + rest)
         == Some((Decimal(negative, NatOf(core), position - |core|), rest))
  {
    hide NatOf, ReadUnsigned, AllDigits, IsCore, Stops, TokenText;
    CorePieces(core, position);
    DecimalReads(negative, core[..position], core[position..], None, NatOf(core), rest);
    TokenPieces(core[..position], core[position..]);
  }

  lemma ScientificReads(negative: bool, core: string, exponent: int, rest: string)
    requires IsCore(core) && Stops(rest)
    ensures ReadUnsigned(negative, Scientific(core[..1], core[1..], exponent) + rest)
         == Some((Decimal(negative, NatOf(core), exponent + 1 - |core|), rest))
  {
    hide NatOf, ReadUnsigned, AllDigits, IsCore, Stops, TokenText, Scientific;
    CoreNonEmpty(core);
    CorePieces(core, 1);
    DecimalReads(negative, core[..1], core[1..], Some(exponent), NatOf(core), rest);
    ScientificPieces(core[..1], core[1..], exponent);
  }

  /** Rendered text reads back as the normal form of its value, in every branch of the rendering. */
  lemma CoreTextReads(negative: bool, core: string, position: int, rest: string)
    requires IsCore(core) && Stops(rest)
    ensures ReadUnsigned(negative, RenderCore(core, position) + rest) == Some((NormalNumber(negative, core, position), rest))
  {
    hide NatOf, ReadUnsigned, Power10, Zeros, IsCore, Scientific;
    CoreNonEmpty(core);
    if -5 <= position <= 21 {
      if position <= 0 {
        SmallReads(negative, core, -position, rest);
      } else if position >= |core| {
        WholeReads(negative, core, position - |core|, rest);
      } else {
        SplitReads(negative, core, position, rest);
      }
    } else {
      ScientificReads(negative, core, position - 1, rest);
    }
  }

  lemma OneMoreZero(k: nat, s: string)
    ensures "0" + (Zeros(k) + s) == Zeros(k + 1) + s
  {
  }

  // ----- numbers as values

  /** What a number reads back as: integral decimals below 10^21 come back as integers. */
  function NormalOf(n: Number): Number {
    match n
    case Integer(_) => n
    case Decimal(negative, coefficient, exponent) =>
      if coefficient == 0 then Integer(0)
      else
        SpellingValid(coefficient, exponent);
        CoreValue(SpellingOf(coefficient, exponent));
        NormalNumber(negative, Core(SpellingOf(coefficient, exponent)), DecimalPosition(SpellingOf(coefficient, exponent)))
  }

  lemma SpellingValid(coefficient: nat, exponent: int)
    requires coefficient > 0
    ensures SpellingOf(coefficient, exponent).Valid()
    ensures SpellingOf(coefficient, exponent).Value() == Scaled(coefficient, exponent)
  {
    NumeralReadsBack(coefficient);
    assert Numeral(coefficient) + "" == Numeral(coefficient);
  }

  /** `_number_to_canonical`: integers beyond 2^53 - 1 are refused. */
  function NumberText(n: Number): Option<string> {
    match n
    case Integer(value) => if Safe(value) then Some(IntegerText(value)) else None
    case Decimal(negative, coefficient, exponent) => Some(DecimalText(negative, coefficient, exponent))
  }

  function Magnitude10(n: Number): Scaled {
    match n
    case Integer(value) => Scaled(if value < 0 then -value else value, 0)
    case Decimal(_, coefficient, exponent) => Scaled(coefficient, exponent)
  }

  predicate IsNegative(n: Number) {
    match n
    case Integer(value) => value < 0
    case Decimal(negative, coefficient, _) => negative && coefficient > 0
  }

  predicate NumericallyEqual(a: Number, b: Number) {
    IsNegative(a) == IsNegative(b) && SameValue(Magnitude10(a), Magnitude10(b))
  }

  lemma NormalNumberValue(negative: bool, core: string, position: int)
    requires IsCore(core)
    ensures AllDigits(core) && NatOf(core) > 0
    ensures SameValue(Scaled(NatOf(core), position - |core|), Magnitude10(NormalNumber(negative, core, position)))
    ensures IsNegative(NormalNumber(negative, core, position)) == negative
  {
    hide NatOf, AllDigits;
    PositiveCore(core);
    if |core| <= position <= 21 {
      AlignedZero(Scaled(NatOf(core), position - |core|), 0);
    }
  }

  /** Reading back never changes the number. */
  lemma NormalIsSameNumber(n: Number)
    ensures NumericallyEqual(n, NormalOf(n))
  {
    if n.Decimal? && n.coefficient > 0 {
      hide NatOf, Power10, Core, IsCore, SameValue, DecimalPosition, Aligned, NormalNumber, AllDigits;
      var sp := SpellingOf(n.coefficient, n.exponent);
      SpellingValid(n.coefficient, n.exponent);
      CoreValue(sp);
      NormalNumberValue(n.negative, Core(sp), DecimalPosition(sp));
      SameValueTransitive(sp.Value(), Scaled(NatOf(Core(sp)), DecimalPosition(sp) - |Core(sp)|), Magnitude10(NormalOf(n)));
    } else if n.Decimal? {
      AlignedZero(Magnitude10(n), Lower(n.exponent, 0));
      AlignedZero(Scaled(0, 0), Lower(n.exponent, 0));
    }
  }

  lemma PositiveCore(core: string)
    requires IsCore(core)
    ensures AllDigits(core) && NatOf(core) > 0
  {
  }

  lemma IntegerReads(value: int, rest: string)
    requires Stops(rest)
    ensures ReadNumber(IntegerText(value) + rest) == Some((Integer(value), rest))
  {
    hide NatOf, Numeral, AllDigits, Stops, TokenText, ReadUnsigned;
    var magnitude := if value < 0 then -value else value;
    var digits := Numeral(magnitude);
    NumeralReadsBack(magnitude);
    OneZeroDigit();
    TokenPieces(digits, "");
    TokenReads(value < 0, digits, "", None, rest);
    FirstDigit(digits);
    NegativeText(digits, rest);
    assert (digits + rest)[0] == digits[0];
  }

  lemma FirstDigit(digits: string)
    requires digits != "" && AllDigits(digits)
    ensures IsDigit(digits[0]) && digits[0] != '-'
  {
  }

  lemma NegativeText(text: string, rest: string)
    ensures "-" + text + rest == "-" + (text + rest) && ("-" + text + rest)[1..] == text + rest
  {
  }

  lemma SignedReads(negative: bool, text: string, rest: string)
    requires text != "" && IsDigit(text[0])
    ensures ReadNumber((if negative then "-" else "") + text + rest) == ReadUnsigned(negative, text + rest)
  {
    hide ReadUnsigned;
    NegativeText(text, rest);
    assert (text + rest)[0] == text[0];
    assert "" + text == text;
  }

  lemma ZeroReads(rest: string)
    requires Stops(rest)
    ensures ReadNumber("0" + rest) == Some((Integer(0), rest))
  {
    hide ReadNumber, Stops;
    IntegerReads(0, rest);
    assert IntegerText(0) == "0";
  }

  lemma RenderedStart(core: string, position: int)
    requires IsCore(core)
    ensures RenderCore(core, position) != "" && IsDigit(RenderCore(core, position)[0])
  {
  }

  /** A printed number followed by anything that stops it reads back as its normal form. */
  lemma NumberReadsBack(n: Number, rest: string)
    requires NumberText(n).Some? && Stops(rest)
    ensures ReadNumber(NumberText(n).value + rest) == Some((NormalOf(n), rest))
  {
    match n {
      case Integer(value) =>
        hide ReadNumber, IntegerText, NormalOf, Stops;
        IntegerReads(value, rest);
        IntegerIsNormal(n);
      case Decimal(negative, coefficient, exponent) =>
        hide NatOf, Numeral, Rendered, RenderCore, ReadUnsigned, ReadNumber, Core, DecimalPosition, IsCore, NormalNumber, Stops, AllDigits;
        if coefficient == 0 {
          ZeroReads(rest);
        } else {
          var sp := SpellingOf(coefficient, exponent);
          SpellingValid(coefficient, exponent);
          CoreValue(sp);
          RenderedFromCore(sp);
          CoreTextReads(negative, Core(sp), DecimalPosition(sp), rest);
          RenderedStart(Core(sp), DecimalPosition(sp));
          SignedReads(negative, Rendered(sp), rest);
        }
    }
  }

  lemma IntegerIsNormal(n: Number)
    requires n.Integer?
    ensures NormalOf(n) == n
  {
  }

  lemma WholeNumberText(negative: bool, core: string, position: nat)
    requires IsCore(core) && |core| <= position <= 21
    ensures var n := NormalNumber(negative, core, position);
      n.Integer? && IntegerText(n.value) == (if negative then "-" else "") + RenderCore(core, position)
  {
    hide Power10, NatOf, Numeral;
    var k := position - |core|;
    ZerosAround(0, core, k);
    PositiveCore(core);
    AlignedIsProduct(Scaled(NatOf(core), k), 0);
    AtLeastOne(NatOf(core), Power10(k));
    NumeralUnique(core + Zeros(k));
  }

  /**
   Printing the read-back number gives the same text again exactly when it did not come back as an
   integer the printer refuses: integral decimals from 2^53 up to 10^21 print once and never again.
   */
  lemma ReprintsExactlyWhenSafe(n: Number)
    requires NumberText(n).Some?
    ensures NumberText(NormalOf(n)) == NumberText(n)
        <==> (NormalOf(n).Integer? ==> Safe(NormalOf(n).value))
  {
    if n.Decimal? && n.coefficient > 0 {
      hide NumberText, NormalOf, Safe;
      DecimalReprints(n.negative, n.coefficient, n.exponent);
    } else if n.Decimal? {
      assert IntegerText(0) == "0";
    }
  }

  lemma DecimalReprints(negative: bool, coefficient: nat, exponent: int)
    requires coefficient > 0
    ensures var n := Decimal(negative, coefficient, exponent);
      NumberText(NormalOf(n)) == NumberText(n) <==> (NormalOf(n).Integer? ==> Safe(NormalOf(n).value))
  {
    hide NatOf, Numeral, Rendered, RenderCore, Core, DecimalPosition, IsCore, AllDigits, SameValue, Power10, IntegerText, Safe;
    var sp := SpellingOf(coefficient, exponent);
    SpellingValid(coefficient, exponent);
    CoreValue(sp);
    CoreDigits(sp);
    RenderedFromCore(sp);
    var core, position := Core(sp), DecimalPosition(sp);
    if |core| <= position <= 21 {
      WholeNumberText(negative, core, position);
    } else {
      PositiveCore(core);
      SpellingValid(NatOf(core), position - |core|);
      SpellingDoesNotMatter(sp, SpellingOf(NatOf(core), position - |core|));
    }
  }

  /** 10^20 as a decimal prints as an integer, and that integer is refused. */
  lemma TenToTheTwentyPrintsOnce()
    ensures NumberText(Decimal(false, 1, 20)).Some?
    ensures NumberText(NormalOf(Decimal(false, 1, 20))) == None
  {
    hide Core, DecimalPosition, DecimalText, Numeral;
    var sp := SpellingOf(1, 20);
    SpellingValid(1, 20);
    CoreValue(sp);
    CoreDigits(sp);
    assert IsCore("1") && NatOf("1") == 1 by { assert "1"[..0] == ""; }
    assert Power10(0) == 1;
    SameValueSymmetric(sp.Value(), Scaled(NatOf(Core(sp)), DecimalPosition(sp) - |Core(sp)|));
    CoreUnique(Core(sp), DecimalPosition(sp), "1", 21);
    AlignedIsProduct(Scaled(1, 20), 0);
    HugePower();
  }

  lemma HugePower()
    ensures Power10(20) > MAX_SAFE_INTEGER
  {
    assert Power10(4) == 10_000;
    PowerSum(4, 4);
    PowerSum(8, 8);
    PowerMonotone(16, 20);
  }

  lemma SameNumberSameText(a: Number, b: Number)
    requires a.Decimal? && b.Decimal? && a.coefficient > 0 && b.coefficient > 0 && NumericallyEqual(a, b)
    ensures NumberText(a) == NumberText(b)
  {
    hide NatOf, Numeral, Rendered, SameValue;
    SpellingValid(a.coefficient, a.exponent);
    SpellingValid(b.coefficient, b.exponent);
    SpellingDoesNotMatter(SpellingOf(a.coefficient, a.exponent), SpellingOf(b.coefficient, b.exponent));
  }
}

/** Decimal digit strings: fixed-width and shortest spellings of a number, and the number they spell. */
module Digits {

  function Power10(w: nat): (r: nat)
    ensures r > 0
  {
    if w == 0 then 1 else 10 * Power10(w - 1)
  }

  function DigitChar(d: nat): char
    requires d < 10
  {
    '0' + d as char
  }

  predicate IsDigit(c: char) {
    '0' <= c <= '9'
  }

  predicate AllDigits(s: string) {
    forall i :: 0 <= i < |s| ==> IsDigit(s[i])
  }

  /** The last w decimal digits of n. */
  function Fixed(n: nat, w: nat): (s: string)
    ensures |s| == w && AllDigits(s)
  {
    if w == 0 then "" else Fixed(n / 10, w - 1) + [DigitChar(n % 10)]
  }

  /** The shortest decimal spelling of n. */
  function Numeral(n: nat): (s: string)
    ensures s != "" && AllDigits(s)
  {
    if n < 10 then [DigitChar(n)] else Numeral(n / 10) + [DigitChar(n % 10)]
  }

  function NatOf(s: string): nat
    requires AllDigits(s)
  {
    if s == "" then 0
    else 10 * NatOf(s[..|s| - 1]) + (s[|s| - 1] as int - '0' as int)
  }

  function Zeros(k: nat): (s: string)
    ensures |s| == k && AllDigits(s) && forall i :: 0 <= i < k ==> s[i] == '0'
  {
    seq(k, _ => '0')
  }

  lemma {:induction false} FixedValue(n: nat, w: nat)
    requires n < Power10(w)
    ensures NatOf(Fixed(n, w)) == n
  {
    if w > 0 {
      FixedValue(n / 10, w - 1);
      assert Fixed(n, w)[..w - 1] == Fixed(n / 10, w - 1);
    }
  }

  lemma {:induction false} ValueFixed(s: string)
    requires AllDigits(s)
    ensures NatOf(s) < Power10(|s|) && Fixed(NatOf(s), |s|) == s
  {
    if s != "" {
      var front, d := s[..|s| - 1], s[|s| - 1] as int - '0' as int;
      ValueFixed(front);
      assert NatOf(s) / 10 == NatOf(front) && NatOf(s) % 10 == d;
      assert s == front + [s[|s| - 1]];
    }
  }

  /** The first position at which the digits of two numbers differ decides their order. */
  lemma {:induction false} FirstDifference(n: nat, m: nat, w: nat) returns (k: nat)
    requires n < m < Power10(w)
    ensures k < w && Fixed(n, w)[..k] == Fixed(m, w)[..k] && Fixed(n, w)[k] < Fixed(m, w)[k]
  {
    if n / 10 == m / 10 {
      k := w - 1;
    } else {
      k := FirstDifference(n / 10, m / 10, w - 1);
      var a, b := Fixed(n / 10, w - 1), Fixed(m / 10, w - 1);
      assert Fixed(n, w)[..k] == a[..k] && Fixed(m, w)[..k] == b[..k];
    }
  }

  lemma {:induction false} PowerSum(a: nat, b: nat)
    ensures Power10(a + b) == Power10(a) * Power10(b)
  {
    if a > 0 {
      PowerSum(a - 1, b);
      assert 10 * Power10(a - 1) * Power10(b) == 10 * (Power10(a - 1) * Power10(b));
    }
  }

  lemma {:induction false} PowerMonotone(a: nat, b: nat)
    requires a <= b
    ensures Power10(a) <= Power10(b)
    decreases b
  {
    if a < b {
      PowerMonotone(a, b - 1);
    }
  }

  lemma {:induction false} NatOfConcat(a: string, b: string)
    requires AllDigits(a) && AllDigits(b)
    ensures NatOf(a + b) == NatOf(a) * Power10(|b|) + NatOf(b)
  {
    if b == "" {
      assert a + b == a;
    } else {
      var front := b[..|b| - 1];
      NatOfConcat(a, front);
      assert (a + b)[..|a + b| - 1] == a + front;
      assert 10 * (NatOf(a) * Power10(|front|)) == NatOf(a) * Power10(|b|);
    }
  }

  lemma {:induction false} NatOfZeros(k: nat)
    ensures NatOf(Zeros(k)) == 0
  {
    if k > 0 {
      NatOfZeros(k - 1);
      assert Zeros(k)[..k - 1] == Zeros(k - 1);
    }
  }

  lemma ZerosAround(k: nat, s: string, m: nat)
    requires AllDigits(s)
    ensures NatOf(Zeros(k) + s) == NatOf(s)
    ensures NatOf(s + Zeros(m)) == NatOf(s) * Power10(m)
  {
    NatOfConcat(Zeros(k), s);
    NatOfZeros(k);
    NatOfConcat(s, Zeros(m));
    NatOfZeros(m);
  }

  /** A digit string without a leading zero spells a number of exactly its length. */
  lemma Magnitude(s: string)
    requires AllDigits(s) && s != "" && s[0] != '0'
    ensures Power10(|s| - 1) <= NatOf(s) < Power10(|s|)
  {
  }

  lemma AtLeastOne(a: nat, b: nat)
    requires a >= 1
    ensures a * b >= b
  {
  }

  /** The shortest spelling reads back and has no leading zero unless it is the numeral of zero. */
  lemma {:induction false} NumeralReadsBack(n: nat)
    ensures NatOf(Numeral(n)) == n
    ensures n > 0 ==> Numeral(n)[0] != '0'
    ensures n == 0 ==> Numeral(n) == "0"
  {
    if n < 10 {
      assert Numeral(n)[..0] == "";
    } else {
      NumeralReadsBack(n / 10);
      assert Numeral(n)[..|Numeral(n)| - 1] == Numeral(n / 10);
    }
  }

  lemma {:induction false} NumeralUnique(s: string)
    requires AllDigits(s) && s != "" && (s[0] != '0' || s == "0")
    ensures Numeral(NatOf(s)) == s
  {
    var front, d := s[..|s| - 1], s[|s| - 1] as int - '0' as int;
    if front == "" {
      assert s == [s[0]];
    } else {
      NumeralUnique(front);
      Magnitude(front);
      assert NatOf(s) / 10 == NatOf(front) && NatOf(s) % 10 == d;
      assert s == front + [s[|s| - 1]];
    }
  }

  lemma NumeralLength(n: nat, w: nat)
    requires w > 0 && n < Power10(w)
    ensures |Numeral(n)| <= w
  {
  }

  // ----- stripping

  /** Python's `rstrip` of one character. */
  function StripRight(s: string, c: char): (r: string)
    ensures |r| <= |s| && r == s[..|r|]
    ensures r == "" || r[|r| - 1] != c
    ensures forall i :: |r| <= i < |s| ==> s[i] == c
  {
    if s != "" && s[|s| - 1] == c then StripRight(s[..|s| - 1], c) else s
  }

  /** Python's `lstrip` of one character. */
  function StripLeft(s: string, c: char): (r: string)
    ensures |r| <= |s| && r == s[|s| - |r|..]
    ensures r == "" || r[0] != c
    ensures forall i :: 0 <= i < |s| - |r| ==> s[i] == c
  {
    if s != "" && s[0] == c then StripLeft(s[1..], c) else s
  }

  lemma {:induction false} StripRightIs(s: string, c: char, keep: nat)
    requires keep <= |s| && (keep == 0 || s[keep - 1] != c)
    requires forall i :: keep <= i < |s| ==> s[i] == c
    ensures StripRight(s, c) == s[..keep]
  {
  }
}

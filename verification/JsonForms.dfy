/**
 The exact shape of canonical JSON, as RFC 8785 has it, and the exact grammar of the strict reader:
 which characters stand where in the printed text, and which spellings of numbers and strings are read.
 */
module JsonForms {
  import opened Canonical
  import opened CanonicalLaws
  import opened Digits
  import opened JsonNumbers
  import opened JsonStrings
  import opened Ordering
  import opened Outcomes

  // ----- printed text

  /**
   The printed form of any decimal of which the digits and the position of the point are known: plain
   from 10^-6 to below 10^21, otherwise one digit, the rest after a point, and a signed exponent.
   */
  lemma DecimalForm(sp: Spelling, core: string, position: int)
    requires sp.Valid() && IsCore(core) && SameValue(sp.Value(), Scaled(NatOf(core), position - |core|))
    ensures Rendered(sp)
      == if position < -5 then
           core[..1] + (if |core| == 1 then "" else "." + core[1..]) + "e-" + Numeral(1 - position)
         else if position <= 0 then "0." + Zeros(-position) + core
         else if position < |core| && position <= 21 then core[..position] + "." + core[position..]
         else if position <= 21 then core + Zeros(position - |core|)
         else core[..1] + (if |core| == 1 then "" else "." + core[1..]) + "e+" + Numeral(position - 1)
  {
    var mine, place := Core(sp), DecimalPosition(sp);
    SignificantFacts(sp);
    RenderedFromCore(sp);
    CoreValue(sp);
    hide *;
    hide SignedExponent;
    CoreDigits(sp);
    SameValueSymmetric(sp.Value(), Scaled(NatOf(mine), place - |mine|));
    SameValueTransitive(Scaled(NatOf(mine), place - |mine|), sp.Value(), Scaled(NatOf(core), position - |core|));
    CoreUnique(mine, place, core, position);
    CoreForm(core, position);
  }

  lemma CoreForm(core: string, position: int)
    requires IsCore(core)
    ensures RenderCore(core, position)
      == if position < -5 then
           core[..1] + (if |core| == 1 then "" else "." + core[1..]) + "e-" + Numeral(1 - position)
         else if position <= 0 then "0." + Zeros(-position) + core
         else if position < |core| && position <= 21 then core[..position] + "." + core[position..]
         else if position <= 21 then core + Zeros(position - |core|)
         else core[..1] + (if |core| == 1 then "" else "." + core[1..]) + "e+" + Numeral(position - 1)
  {
    hide Numeral;
    var tail := if |core| == 1 then "" else "." + core[1..];
    var n: nat := if position < 1 then 1 - position else position - 1;
    assert (core[..1] + tail + "e") + ("-" + Numeral(n)) == core[..1] + tail + "e-" + Numeral(n);
    assert (core[..1] + tail + "e") + ("+" + Numeral(n)) == core[..1] + tail + "e+" + Numeral(n);
  }

  /** Integers print as their digits, up to 2^53 - 1 on either side; beyond that they are refused. */
  lemma IntegerForm(n: nat)
    ensures NumberText(Integer(n)) == if n < 0x20_0000_0000_0000 then Some(Numeral(n)) else None
    ensures n > 0 ==> NumberText(Integer(-(n as int))) == if n < 0x20_0000_0000_0000 then Some("-" + Numeral(n)) else None
  {
    hide Numeral;
  }

  /** A string is printed character by character. */
  lemma {:induction false} EscapedConcat(s: string, t: string)
    ensures Escaped(s + t) == Escaped(s) + Escaped(t)
  {
    hide Escape;
    if s == "" {
      assert s + t == t;
    } else {
      EscapedConcat(s[1..], t);
      assert (s + t)[1..] == s[1..] + t;
    }
  }

  /** Arrays: brackets around the items, one comma between two of them, and no blanks. */
  lemma ArrayForm(items: seq<JSON>, last: JSON)
    ensures PlainText(Arr([])) == "[]"
    ensures PlainText(Arr([last])) == "[" + PlainText(last) + "]"
    ensures items != [] ==>
      var before := PlainText(Arr(items));
      && before != "" && PlainText(Arr(items + [last])) == before[..|before| - 1] + "," + PlainText(last) + "]"
  {
    ArrayText([]);
    ArrayText([last]);
    ArrayText(items);
    ArrayText(items + [last]);
    hide PlainText, ItemTexts;
    assert ItemTexts([last]) == [PlainText(last)];
    assert ItemTexts(items + [last]) == ItemTexts(items) + [PlainText(last)];
    if items != [] {
      JoinGrows(ItemTexts(items), PlainText(last));
      var inner := Join(ItemTexts(items));
      assert ("[" + inner + "]")[..|inner| + 1] == "[" + inner;
    }
  }

  lemma ArrayText(items: seq<JSON>)
    ensures PlainText(Arr(items)) == "[" + Join(ItemTexts(items)) + "]"
    ensures forall i :: 0 <= i < |items| ==> ItemTexts(items)[i] == PlainText(items[i])
  {
    hide JsonString, NumberWord, Join, MemberTexts;
  }

  /** Objects: braces around the members, a colon after a key, one comma between two members, and no blanks. */
  lemma ObjectForm(ms: seq<Member>, last: Member)
    ensures PlainText(Obj([])) == "{}"
    ensures PlainText(Obj([last])) == "{" + (JsonString(last.key) + ":" + PlainText(last.value)) + "}"
    ensures ms != [] ==>
      var before := PlainText(Obj(ms));
      && before != ""
      && PlainText(Obj(ms + [last]))
         == before[..|before| - 1] + "," + (JsonString(last.key) + ":" + PlainText(last.value)) + "}"
  {
    hide JsonString;
    assert MemberTexts([last]) == [MemberText(last)];
    assert MemberTexts(ms + [last]) == MemberTexts(ms) + [MemberText(last)];
    if ms != [] {
      JoinGrows(MemberTexts(ms), MemberText(last));
      var inner := Join(MemberTexts(ms));
      assert ("{" + inner + "}")[..|inner| + 1] == "{" + inner;
    }
  }

  lemma {:induction false} JoinGrows(parts: seq<string>, last: string)
    requires parts != []
    ensures Join(parts + [last]) == Join(parts) + "," + last
  {
    if |parts| > 1 {
      JoinGrows(parts[1..], last);
      assert (parts + [last])[1..] == parts[1..] + [last];
    } else {
      assert (parts + [last])[1..] == [last];
    }
  }

  /** Keys ascend by their code units in every object of the tree. */
  predicate KeysAscend(v: JSON) {
    match v
    case Arr(items) => forall i :: 0 <= i < |items| ==> KeysAscend(items[i])
    case Obj(ms) =>
      && (forall i, j :: 0 <= i < j < |ms| ==> LexLess(Utf16(ms[i].key), Utf16(ms[j].key)))
      && forall i :: 0 <= i < |ms| ==> KeysAscend(ms[i].value)
    case _ => true
  }

  /** What is printed has its keys in ascending order of their UTF-16 code units, at every level. */
  lemma {:induction false} PrintedKeysAscend(v: JSON)
    requires WellFormed(v)
    ensures KeysAscend(Ordered(v))
  {
    hide Sort, LexLess, Utf16;
    match v {
      case Arr(items) =>
        forall i | 0 <= i < |items|
          ensures KeysAscend(Ordered(v).items[i])
        {
          PrintedKeysAscend(items[i]);
        }
      case Obj(ms) =>
        MembersAscend(ms);
      case _ =>
    }
  }

  lemma {:induction false} MembersAscend(ms: seq<Member>)
    requires WellFormed(Obj(ms))
    ensures KeysAscend(Ordered(Obj(ms)))
    decreases ms
  {
    hide Sort, LexLess, Utf16;
    var s := Sort(MemberLess, OrderedMembers(ms));
    OrderedDistinct(ms);
    SortedMembers(OrderedMembers(ms));
    forall i | 0 <= i < |s|
      ensures KeysAscend(s[i].value)
    {
      var q := UnsortedPosition(ms, i);
      PrintedKeysAscend(ms[q].value);
    }
    forall i, j | 0 <= i < j < |s|
      ensures LexLess(Utf16(s[i].key), Utf16(s[j].key))
    {
      assert KeyLess(Keys(s)[i], Keys(s)[j]);
    }
  }

  /** The UTF-16 code units of a text, one character at a time: itself, or a surrogate pair. */
  lemma CodeUnits(s: string, c: char)
    ensures Utf16("") == []
    ensures c as int < 0x1_0000 ==> Utf16([c] + s) == [c as int] + Utf16(s)
    ensures c as int >= 0x1_0000 ==>
      exists high, low :: Utf16([c] + s) == [high, low] + Utf16(s)
        && 0xD800 <= high < 0xDC00 <= low < 0xE000 && c as int == 0x1_0000 + (high - 0xD800) * 0x400 + (low - 0xDC00)
  {
    assert ([c] + s)[1..] == s;
    if c as int >= 0x1_0000 {
      var n := c as int - 0x1_0000;
      var high, low := 0xD800 + n / 0x400, 0xDC00 + n % 0x400;
      assert Utf16([c] + s) == [high, low] + Utf16(s);
    }
  }

  // ----- number tokens

  datatype Sign = NoSign | Plus | Minus

  /** The exponent part of a number token. */
  datatype Power = Power(capital: bool, sign: Sign, digits: string) {

    function Text(): string {
      [if capital then 'E' else 'e'] + ((match sign case NoSign => "" case Plus => "+" case Minus => "-") + digits)
    }

    function Value(): int
      requires AllDigits(digits)
    {
      if sign == Minus then -(NatOf(digits) as int) else NatOf(digits)
    }
  }

  /** The parts of a number token. */
  datatype Token = Token(negative: bool, whole: string, fraction: string, power: Option<Power>) {

    /** Digits without a leading zero, perhaps digits after a point, perhaps an exponent with digits. */
    predicate Grammatical() {
      && whole != "" && AllDigits(whole) && (whole[0] == '0' ==> |whole| == 1) && AllDigits(fraction)
      && (power.Some? ==> AllDigits(power.value.digits) && power.value.digits != "")
    }

    function Fraction(): string {
      if fraction == "" then "" else "." + fraction
    }

    function Exponent(): string {
      match power case Some(p) => p.Text() case None => ""
    }

    function Unsigned(): string {
      whole + (Fraction() + Exponent())
    }

    function Text(): string {
      (if negative then "-" else "") + Unsigned()
    }

    /** An integer without point and exponent, otherwise the digits scaled by the exponent. */
    function Meaning(): Number
      requires Grammatical()
    {
      if fraction == "" && power.None? then Integer(if negative then -(NatOf(whole) as int) else NatOf(whole))
      else Decimal(negative, NatOf(whole + fraction), (match power case Some(p) => p.Value() case None => 0) - |fraction|)
    }
  }

  /** Every token of the grammar is read with its meaning, whatever stops it. */
  lemma TokensAreRead(t: Token, rest: string)
    requires t.Grammatical() && Stops(rest)
    ensures ReadNumber(t.Text() + rest) == Some((t.Meaning(), rest))
  {
    UnsignedIsRead(t, rest);
    TokenStarts(t, rest);
    SignedNumber(t.negative, t.Unsigned() + rest);
    hide *;
  }

  lemma TokenStarts(t: Token, rest: string)
    requires t.Grammatical()
    ensures t.Unsigned() + rest != "" && IsDigit((t.Unsigned() + rest)[0])
    ensures t.Text() + rest == (if t.negative then "-" else "") + (t.Unsigned() + rest)
    ensures t.Unsigned() + rest == t.whole + (t.Fraction() + (t.Exponent() + rest))
  {
    hide Token.Fraction, Token.Exponent;
  }

  lemma SignedNumber(negative: bool, s: string)
    requires s != "" && IsDigit(s[0])
    ensures ReadNumber((if negative then "-" else "") + s) == ReadUnsigned(negative, s)
  {
    hide ReadUnsigned;
    assert ("-" + s)[1..] == s && "" + s == s;
  }

  /** How the reader takes a token apart. */
  lemma ReadFromParts(negative: bool, s: string, w: nat, fraction: string, tail: string, exponent: Option<int>, rest: string)
    requires s != "" && IsDigit(s[0]) && w == (if s[0] == '0' then 1 else DigitRun(s))
    requires w <= |s| && ReadFraction(s[w..]) == (fraction, tail) && ReadExponent(tail) == (exponent, rest)
    ensures AllDigits(s[..w]) && AllDigits(fraction)
    ensures ReadUnsigned(negative, s) == Some((NumberOf(negative, s[..w], fraction, exponent), rest))
  {
    hide DigitRun, ReadFraction, ReadExponent, NumberOf;
  }

  function PowerOf(power: Option<Power>): Option<int>
    requires power.Some? ==> AllDigits(power.value.digits)
  {
    match power case Some(p) => Some(p.Value()) case None => None
  }

  lemma UnsignedIsRead(t: Token, rest: string)
    requires t.Grammatical() && Stops(rest)
    ensures ReadUnsigned(t.negative, t.Unsigned() + rest) == Some((t.Meaning(), rest))
  {
    var after := t.Fraction() + (t.Exponent() + rest);
    TokenStarts(t, rest);
    ExponentStarts(t, rest);
    PowerIsRead(t.power, rest);
    FractionReads(t.fraction, t.Exponent() + rest);
    WholeIsRead(t.whole, after);
    MeaningIs(t);
    assert ReadExponent(t.Exponent() + rest) == (PowerOf(t.power), rest) && ReadFraction(after) == (t.fraction, t.Exponent() + rest) by {
      hide NatOf, ReadFraction, ReadExponent, DigitRun, Power.Text, Power.Value;
    }
    hide *;
    ReadFromParts(t.negative, t.whole + after, |t.whole|, t.fraction, t.Exponent() + rest, PowerOf(t.power), rest);
  }

  lemma WholeIsRead(whole: string, after: string)
    requires whole != "" && AllDigits(whole) && (whole[0] == '0' ==> |whole| == 1) && (after == "" || !IsDigit(after[0]))
    ensures var s := whole + after;
      && s != "" && IsDigit(s[0]) && s[..|whole|] == whole && s[|whole|..] == after
      && |whole| == if s[0] == '0' then 1 else DigitRun(s)
  {
    RunIs(whole, after);
    assert (whole + after)[0] == whole[0];
  }

  lemma MeaningIs(t: Token)
    requires t.Grammatical()
    ensures t.Meaning() == NumberOf(t.negative, t.whole, t.fraction, PowerOf(t.power))
  {
  }

  /** What follows the digits of a token is no digit, and no second point follows its fraction. */
  lemma ExponentStarts(t: Token, rest: string)
    requires t.Grammatical() && Stops(rest)
    ensures var e := t.Exponent() + rest; e == "" || (!IsDigit(e[0]) && e[0] != '.')
    ensures var after := t.Fraction() + (t.Exponent() + rest); after == "" || !IsDigit(after[0])
  {
  }

  lemma PowerIsRead(power: Option<Power>, rest: string)
    requires power.Some? ==> AllDigits(power.value.digits) && power.value.digits != ""
    requires Stops(rest)
    ensures ReadExponent((match power case Some(p) => p.Text() case None => "") + rest) == (PowerOf(power), rest)
  {
    hide NatOf, DigitRun;
    match power {
      case None =>
        assert "" + rest == rest;
      case Some(p) =>
        PowerText(p, rest);
        RunIs(p.digits, rest);
        hide Power.Text, AllDigits, Stops;
    }
  }

  lemma PowerText(p: Power, rest: string)
    requires AllDigits(p.digits) && p.digits != ""
    ensures var s, start := p.Text() + rest, if p.sign == NoSign then 1 else 2;
      && |s| >= 2 && (s[0] == 'e' || s[0] == 'E') && (s[1] == '+' <==> p.sign == Plus) && (s[1] == '-' <==> p.sign == Minus)
      && s[start..] == p.digits + rest && s[start..][..|p.digits|] == p.digits && s[start + |p.digits|..] == rest
  {
    hide NatOf;
    var s := p.Text() + rest;
    assert s[1] == if p.sign == NoSign then p.digits[0] else if p.sign == Plus then '+' else '-';
  }

  /** Nothing else is read: whatever the reader takes for a number is a token of the grammar. */
  lemma OnlyTokensAreRead(s: string) returns (t: Token)
    requires ReadNumber(s).Some?
    ensures t.Grammatical() && s == t.Text() + ReadNumber(s).value.1 && ReadNumber(s).value.0 == t.Meaning()
  {
    var negative := s[0] == '-';
    var u := if negative then s[1..] else s;
    t := UnsignedToken(negative, u);
    hide ReadUnsigned;
    assert s == (if negative then "-" else "") + u;
    TokenStarts(t, ReadNumber(s).value.1);
    hide Token.Text, Token.Unsigned;
  }

  lemma UnsignedToken(negative: bool, u: string) returns (t: Token)
    requires ReadUnsigned(negative, u).Some?
    ensures t.Grammatical() && t.negative == negative
    ensures u == t.Unsigned() + ReadUnsigned(negative, u).value.1 && ReadUnsigned(negative, u).value.0 == t.Meaning()
  {
    RunIsPositive(u);
    var w := if u[0] == '0' then 1 else DigitRun(u);
    var (fraction, tail) := ReadFraction(u[w..]);
    var power := PowerRead(tail);
    FractionParts(u[w..]);
    WholeParts(u, w);
    ReadFromParts(negative, u, w, fraction, tail, PowerOf(power), ReadExponent(tail).1);
    hide NatOf, DigitRun, ReadFraction, ReadExponent, ReadUnsigned, NumberOf;
    t := Token(negative, u[..w], fraction, power);
    MeaningIs(t);
    hide Token.Meaning, Power.Text, Power.Value, AllDigits;
    Joined(u, w, t.Fraction(), t.Exponent(), ReadExponent(tail).1);
  }

  lemma WholeParts(u: string, w: nat)
    requires u != "" && IsDigit(u[0]) && w == (if u[0] == '0' then 1 else DigitRun(u))
    ensures 0 < w <= |u| && AllDigits(u[..w]) && (u[..w][0] == '0' ==> w == 1)
  {
    RunIsPositive(u);
    hide DigitRun;
    assert u[..w][0] == u[0];
  }

  lemma Joined(u: string, w: nat, f: string, e: string, rest: string)
    requires w <= |u| && u[w..] == f + (e + rest)
    ensures u == u[..w] + (f + e) + rest
  {
  }

  lemma FractionParts(s: string)
    ensures s == (if ReadFraction(s).0 == "" then "" else "." + ReadFraction(s).0) + ReadFraction(s).1
  {
  }

  lemma PowerRead(s: string) returns (power: Option<Power>)
    ensures power.Some? ==> AllDigits(power.value.digits) && power.value.digits != ""
    ensures s == (match power case Some(p) => p.Text() case None => "") + ReadExponent(s).1
    ensures ReadExponent(s).0 == PowerOf(power)
  {
    hide NatOf, DigitRun;
    if ReadExponent(s).0.None? {
      power := None;
    } else {
      var start := if s[1] == '+' || s[1] == '-' then 2 else 1;
      var n := DigitRun(s[start..]);
      var sign := if s[1] == '+' then Plus else if s[1] == '-' then Minus else NoSign;
      var p := Power(s[0] == 'E', sign, s[start..][..n]);
      power := Some(p);
      assert s == p.Text() + s[start + n..];
    }
  }

  // ----- string characters

  /** Hexadecimal digits are read in both cases, and no other character is one. */
  lemma HexDigits(c: char, n: nat)
    requires n < 16
    ensures HexValue(c) == Some(n) <==> c == "0123456789abcdef"[n] || c == "0123456789ABCDEF"[n]
  {
  }

  /** After a backslash eight letters stand for one character each. */
  lemma ShortEscapes(rest: string)
    ensures ReadEscape("\"" + rest) == Some(('"', rest)) && ReadEscape("\\" + rest) == Some(('\\', rest))
    ensures ReadEscape("/" + rest) == Some(('/', rest)) && ReadEscape("n" + rest) == Some(('\n', rest))
    ensures ReadEscape("r" + rest) == Some(('\r', rest)) && ReadEscape("t" + rest) == Some(('\t', rest))
    ensures ReadEscape("b" + rest) == Some((8 as char, rest)) && ReadEscape("f" + rest) == Some((12 as char, rest))
  {
    forall c: char
      ensures ([c] + rest)[1..] == rest
    {
    }
  }

  /** \u and four digits is the character of that code unit, unless it is a surrogate without its partner. */
  lemma UnitEscapes(digits: string, rest: string)
    requires |digits| == 4
    ensures var unit, out := ReadUnit(digits), ReadEscape("u" + digits + rest);
      && (unit.None? ==> out == None)
      && (unit.Some? && (unit.value < 0xD800 || unit.value >= 0xE000) ==> out == Some((unit.value as char, rest)))
      && (unit.Some? && 0xD800 <= unit.value < 0xE000 && (unit.value >= 0xDC00 || !("\\u" <= rest)) ==> out == None)
  {
    var s := "u" + digits + rest;
    assert s[1..] == digits + rest && s[5..] == rest;
    UnitOfFour(digits, rest);
    hide ReadUnit;
  }

  /** A high and a low surrogate are one character; a high one and anything else is refused. */
  lemma PairEscapes(digits: string, low: string, rest: string)
    requires |digits| == |low| == 4 && ReadUnit(digits).Some? && 0xD800 <= ReadUnit(digits).value < 0xDC00
    ensures ReadEscape("u" + digits + "\\u" + low + rest)
      == if ReadUnit(low).None? || ReadUnit(low).value < 0xDC00 || ReadUnit(low).value >= 0xE000 then None
         else Some(((0x1_0000 + (ReadUnit(digits).value - 0xD800) * 0x400 + (ReadUnit(low).value - 0xDC00)) as char, rest))
  {
    var t := "u" + digits + "\\u" + low + rest;
    UnitOfFour(digits, "\\u" + low + rest);
    UnitOfFour(low, rest);
    hide ReadUnit;
    assert t[1..] == digits + ("\\u" + low + rest);
    assert t[7..] == low + rest && t[11..] == rest;
  }

  lemma UnitOfFour(digits: string, rest: string)
    requires |digits| == 4
    ensures ReadUnit(digits + rest) == ReadUnit(digits)
  {
    hide HexValue;
  }

  /** A code unit is the four digits in base sixteen, and is refused with fewer or other characters. */
  lemma UnitsAreRead(a: char, b: char, c: char, d: char, rest: string)
    ensures ReadUnit([a, b, c, d] + rest)
      == match (HexValue(a), HexValue(b), HexValue(c), HexValue(d)) {
        case (Some(w), Some(x), Some(y), Some(z)) => Some(((w * 16 + x) * 16 + y) * 16 + z)
        case _ => None
      }
    ensures forall s: string :: |s| < 4 ==> ReadUnit(s) == None
  {
    hide HexValue;
    var s := [a, b, c, d] + rest;
    assert s[0] == a && s[1] == b && s[2] == c && s[3] == d;
  }

  /** Inside a string a quote ends it, a backslash escapes, a control character is refused, all else stands for itself. */
  lemma CharactersAreRead(c: char, s: string)
    ensures ReadBody("") == None
    ensures ReadBody([c] + s)
      == if c == '"' then Some(("", s))
         else if c == '\\' then
           match ReadEscape(s) {
             case Some((x, after)) =>
               (match ReadBody(after) case Some((tail, rest)) => Some(([x] + tail, rest)) case None => None)
             case None => None
           }
         else if c as int < 32 then None
         else match ReadBody(s) { case Some((tail, rest)) => Some(([c] + tail, rest)) case None => None }
  {
    hide ReadEscape;
    assert ([c] + s)[1..] == s;
  }

  /** The bytes of a text in UTF-8, character by character. */
  lemma BytesAreCounted(c: char, s: string)
    ensures Utf8Length("") == 0
    ensures var n := c as int;
      Utf8Length([c] + s) == Utf8Length(s) + (if n <= 127 then 1 else if n <= 2047 then 2 else if n <= 65535 then 3 else 4)
  {
    assert ([c] + s)[1..] == s;
  }
}

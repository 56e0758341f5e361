/** JSON strings: escaping, strict reading, and the UTF-16 order of object keys. */
module JsonStrings {
  import opened Outcomes

  function HexChar(n: nat): char
    requires n < 16
  {
    if n < 10 then '0' + n as char else 'a' + (n - 10) as char
  }

  function HexValue(c: char): (r: Option<nat>)
    ensures r.Some? ==> r.value < 16
  {
    if '0' <= c <= '9' then Some(c as int - '0' as int)
    else if 'a' <= c <= 'f' then Some(c as int - 'a' as int + 10)
    else if 'A' <= c <= 'F' then Some(c as int - 'A' as int + 10)
    else None
  }

  /** The escape of one character: short forms, \u00XX for other controls, itself otherwise. */
  function Escape(c: char): (s: string)
    ensures s != ""
  {
    if c == '"' then "\\\""
    else if c == '\\' then "\\\\"
    else if c == '\n' then "\\n"
    else if c == '\r' then "\\r"
    else if c == '\t' then "\\t"
    else if c == 12 as char then "\\f"
    else if c == 8 as char then "\\b"
    else if c < ' ' then "\\u00" + [HexChar(c as int / 16), HexChar(c as int % 16)]
    else [c]
  }

  function Escaped(s: string): string {
    if s == "" then "" else Escape(s[0]) + Escaped(s[1..])
  }

  /** `_json_string` */
  function JsonString(s: string): string {
    "\"" + Escaped(s) + "\""
  }

  /** The code unit of the four hexadecimal digits after a \u. */
  function ReadUnit(s: string): (r: Option<nat>)
    ensures r.Some? ==> r.value < 0x1_0000
  {
    if |s| < 4 then None
    else
      var a, b, c, d := HexValue(s[0]), HexValue(s[1]), HexValue(s[2]), HexValue(s[3]);
      if a.None? || b.None? || c.None? || d.None? then None
      else Some(4096 * a.value + 256 * b.value + 16 * c.value + d.value)
  }

  predicate IsHigh(unit: nat) {
    0xD800 <= unit < 0xDC00
  }

  predicate IsLow(unit: nat) {
    0xDC00 <= unit < 0xE000
  }

  /** What a backslash introduces; an unpaired surrogate is refused, since it is not valid Unicode. */
  function ReadEscape(s: string): (r: Option<(char, string)>)
    ensures r.Some? ==> |r.value.1| < |s|
  {
    if s == "" then None
    else match s[0] {
      case '"' => Some(('"', s[1..]))
      case '\\' => Some(('\\', s[1..]))
      case '/' => Some(('/', s[1..]))
      case 'b' => Some((8 as char, s[1..]))
      case 'f' => Some((12 as char, s[1..]))
      case 'n' => Some(('\n', s[1..]))
      case 'r' => Some(('\r', s[1..]))
      case 't' => Some(('\t', s[1..]))
      case 'u' =>
        var unit := ReadUnit(s[1..]);
        if unit.None? || IsLow(unit.value) then None
        else if !IsHigh(unit.value) then Some((unit.value as char, s[5..]))
        else if |s| < 7 || s[5] != '\\' || s[6] != 'u' then None
        else
          var low := ReadUnit(s[7..]);
          if low.None? || !IsLow(low.value) then None
          else Some(((0x1_0000 + (unit.value - 0xD800) * 0x400 + (low.value - 0xDC00)) as char, s[11..]))
      case _ => None
    }
  }

  /** The characters up to the closing quote, and what follows it. */
  function ReadBody(s: string): (r: Option<(string, string)>)
    ensures r.Some? ==> |r.value.1| < |s|
  {
    if s == "" then None
    else if s[0] == '"' then Some(("", s[1..]))
    else if s[0] == '\\' then
      match ReadEscape(s[1..]) {
        case None => None
        case Some((c, rest)) =>
          match ReadBody(rest) {
            case None => None
            case Some((tail, after)) => Some(([c] + tail, after))
          }
      }
    else if s[0] < ' ' then None
    else match ReadBody(s[1..]) {
      case None => None
      case Some((tail, after)) => Some(([s[0]] + tail, after))
    }
  }

  /** The printed form of a one-character string: seven short forms, lower-case hexadecimal, or itself. */
  lemma PrintedForms(c: char)
    ensures JsonString(['\n']) == "\"\\n\"" && JsonString(['\r']) == "\"\\r\"" && JsonString(['\t']) == "\"\\t\""
    ensures JsonString([8 as char]) == "\"\\b\"" && JsonString([12 as char]) == "\"\\f\""
    ensures JsonString(['"']) == "\"\\\"\"" && JsonString(['\\']) == "\"\\\\\""
    ensures c >= ' ' && c != '"' && c != '\\' ==> JsonString([c]) == ['"', c, '"']
    ensures c < ' ' && c !in "\n\r\t" && c != 8 as char && c != 12 as char ==>
      && |JsonString([c])| == 8 && JsonString([c])[..5] == "\"\\u00"
      && JsonString([c])[5] == "0123456789abcdef"[c as int / 16] && JsonString([c])[6] == "0123456789abcdef"[c as int % 16]
      && JsonString([c])[7] == '"'
  {
    forall d: char
      ensures Escaped([d]) == Escape(d)
    {
      assert [d][1..] == "";
      assert Escape(d) + "" == Escape(d);
    }
  }

  lemma EscapeReads(c: char, rest: string)
    ensures Escape(c) == [c] ==> c != '"' && c != '\\' && c >= ' '
    ensures Escape(c) != [c] ==> Escape(c)[0] == '\\' && ReadEscape(Escape(c)[1..] + rest) == Some((c, rest))
  {
    var e := Escape(c);
    if e != [c] {
      var s := e[1..] + rest;
      if s[0] == 'u' {
        var high, low := c as int / 16, c as int % 16;
        assert HexValue(HexChar(high)) == Some(high) && HexValue(HexChar(low)) == Some(low);
        assert e[1..] == ['u', '0', '0', HexChar(high), HexChar(low)];
        assert s[1..] == ['0', '0', HexChar(high), HexChar(low)] + rest;
        assert s[5..] == rest;
        assert ReadUnit(s[1..]) == Some(c as int);
      } else {
        assert s[1..] == rest;
      }
    }
  }

  /** An escaped string followed by its closing quote reads back. */
  lemma {:induction false} StringReads(s: string, rest: string)
    ensures ReadBody(Escaped(s) + "\"" + rest) == Some((s, rest))
  {
    hide Escape, ReadEscape;
    if s == "" {
      assert Escaped(s) + "\"" + rest == "\"" + rest;
    } else {
      var c := s[0];
      var after := Escaped(s[1..]) + "\"" + rest;
      StringReads(s[1..], rest);
      EscapeReads(c, after);
      var text := Escaped(s) + "\"" + rest;
      assert text == Escape(c) + after;
      assert s == [c] + s[1..];
      if Escape(c) == [c] {
        assert text[1..] == after;
      } else {
        assert text[1..] == Escape(c)[1..] + after;
      }
    }
  }

  // ----- the key order

  /** UTF-16 code units; comparing them is comparing the big-endian bytes. */
  function Utf16(s: string): seq<int> {
    if s == "" then [] else Units(s[0]) + Utf16(s[1..])
  }

  function Units(c: char): (u: seq<int>)
    ensures 1 <= |u| <= 2
  {
    var n := c as int;
    if n < 0x1_0000 then [n] else [0xD800 + (n - 0x1_0000) / 0x400, 0xDC00 + (n - 0x1_0000) % 0x400]
  }

  lemma UnitsPrefix(a: char, b: char, s: seq<int>, t: seq<int>)
    requires Units(a) + s == Units(b) + t
    ensures a == b && s == t
  {
    var x, y := Units(a) + s, Units(b) + t;
    assert x[0] == Units(a)[0] && y[0] == Units(b)[0];
    assert |Units(a)| == |Units(b)|;
    if |Units(a)| == 2 {
      assert x[1] == Units(a)[1] && y[1] == Units(b)[1];
    }
    assert a == b;
    assert x[|Units(a)|..] == s && y[|Units(a)|..] == t;
  }

  /** Different keys never compare equal. */
  lemma {:induction false} Utf16Injective(a: string, b: string)
    requires Utf16(a) == Utf16(b)
    ensures a == b
  {
    hide Units;
    if a != "" && b != "" {
      UnitsPrefix(a[0], b[0], Utf16(a[1..]), Utf16(b[1..]));
      Utf16Injective(a[1..], b[1..]);
      assert a == [a[0]] + a[1..] && b == [b[0]] + b[1..];
    }
  }

  function Utf8Length(s: string): nat {
    if s == "" then 0
    else
      var n := s[0] as int;
      Utf8Length(s[1..]) + (if n < 0x80 then 1 else if n < 0x800 then 2 else if n < 0x1_0000 then 3 else 4)
  }
}

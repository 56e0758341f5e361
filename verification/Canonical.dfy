/**
 Canonical JSON: the printer with UTF-16 key order (RFC 8785 section 3.2.3), the strict parser,
 and the tree limits both of them check.
 */
module Canonical {
  import opened JsonNumbers
  import opened JsonStrings
  import opened NumberLaws
  import opened Ordering
  import opened Outcomes

  /** An object lists its members in insertion order. */
  datatype JSON =
    | Null
    | Bool(truth: bool)
    | Num(number: Number)
    | Str(text: string)
    | Arr(items: seq<JSON>)
    | Obj(members: seq<Member>)

  datatype Member = Member(key: string, value: JSON)

  predicate DistinctKeys(ms: seq<Member>) {
    forall i, j :: 0 <= i < j < |ms| ==> ms[i].key != ms[j].key
  }

  /** Objects are dictionaries: no key occurs twice, at any level. */
  predicate WellFormed(v: JSON) {
    match v
    case Arr(items) => forall i :: 0 <= i < |items| ==> WellFormed(items[i])
    case Obj(ms) => DistinctKeys(ms) && forall i :: 0 <= i < |ms| ==> WellFormed(ms[i].value)
    case _ => true
  }

  predicate Every(v: JSON, p: Number -> bool) {
    match v
    case Num(n) => p(n)
    case Arr(items) => forall i :: 0 <= i < |items| ==> Every(items[i], p)
    case Obj(ms) => forall i :: 0 <= i < |ms| ==> Every(ms[i].value, p)
    case _ => true
  }

  // ----- limits and refusals

  datatype Limits = Limits(bytes: nat, depth: nat, stringBytes: nat)

  datatype JsonError = BytesExceeded | Invalid | LimitExceeded | IntegerOutOfRange

  /** `_validate_json_tree` */
  predicate WithinLimits(v: JSON, limits: Limits, depth: nat) {
    match v
    case Str(s) => Utf8Length(s) <= limits.stringBytes
    case Arr(items) =>
      depth < limits.depth && forall i :: 0 <= i < |items| ==> WithinLimits(items[i], limits, depth + 1)
    case Obj(ms) =>
      && depth < limits.depth
      && forall i :: 0 <= i < |ms| ==>
          Utf8Length(ms[i].key) <= limits.stringBytes && WithinLimits(ms[i].value, limits, depth + 1)
    case _ => true
  }

  // ----- printing

  function Join(parts: seq<string>): string {
    if parts == [] then ""
    else if |parts| == 1 then parts[0]
    else parts[0] + "," + Join(parts[1..])
  }

  function NumberWord(n: Number): string {
    match NumberText(n)
    case Some(text) => text
    case None => ""
  }

  function MemberText(m: Member): string {
    JsonString(m.key) + ":" + PlainText(m.value)
  }

  function ItemTexts(items: seq<JSON>): (r: seq<string>)
    ensures |r| == |items|
  {
    seq(|items|, i requires 0 <= i < |items| => PlainText(items[i]))
  }

  function MemberTexts(ms: seq<Member>): (r: seq<string>)
    ensures |r| == |ms|
  {
    seq(|ms|, i requires 0 <= i < |ms| => MemberText(ms[i]))
  }

  /** The text of a value with its members in the order they stand. */
  function PlainText(v: JSON): string {
    match v
    case Null => "null"
    case Bool(truth) => if truth then "true" else "false"
    case Num(n) => NumberWord(n)
    case Str(s) => JsonString(s)
    case Arr(items) => "[" + Join(ItemTexts(items)) + "]"
    case Obj(ms) => "{" + Join(MemberTexts(ms)) + "}"
  }

  predicate MemberLess(a: Member, b: Member) {
    LexLess(Utf16(a.key), Utf16(b.key))
  }

  /** Members sorted by the UTF-16 code units of their keys, at every level. */
  function Ordered(v: JSON): JSON {
    match v
    case Arr(items) => Arr(seq(|items|, i requires 0 <= i < |items| => Ordered(items[i])))
    case Obj(ms) => Obj(Sort(MemberLess, OrderedMembers(ms)))
    case _ => v
  }

  function OrderedMembers(ms: seq<Member>): (r: seq<Member>)
    ensures |r| == |ms|
  {
    seq(|ms|, i requires 0 <= i < |ms| => OrderedMember(ms[i]))
  }

  function OrderedMember(m: Member): Member {
    Member(m.key, Ordered(m.value))
  }

  predicate Prints(n: Number) {
    NumberText(n).Some?
  }

  /** `canonical_json_text` */
  function CanonicalText(v: JSON, limits: Limits): Result<string, JsonError> {
    if !WithinLimits(v, limits, 0) then Err(LimitExceeded)
    else if !Every(v, Prints) then Err(IntegerOutOfRange)
    else Ok(PlainText(Ordered(v)))
  }

  // ----- parsing

  function SkipBlank(s: string): (r: string)
    ensures |r| <= |s|
  {
    if s != "" && (s[0] == ' ' || s[0] == '\t' || s[0] == '\n' || s[0] == '\r') then SkipBlank(s[1..]) else s
  }

  const MAX_NUMBER_TOKEN_CHARS: nat := 1_024

  function ReadValue(s: string): (r: Option<(JSON, string)>)
    ensures r.Some? ==> |r.value.1| < |s| && WellFormed(r.value.0)
    decreases |s|, 0
  {
    if s == "" then None
    else if s[0] == '"' then
      match ReadBody(s[1..]) {
        case Some((text, rest)) => Some((Str(text), rest))
        case None => None
      }
    else if s[0] == '[' then
      var t := SkipBlank(s[1..]);
      if t != "" && t[0] == ']' then Some((Arr([]), t[1..]))
      else match ReadItems(t) {
        case Some((items, rest)) => Some((Arr(items), rest))
        case None => None
      }
    else if s[0] == '{' then
      var t := SkipBlank(s[1..]);
      if t != "" && t[0] == '}' then Some((Obj([]), t[1..]))
      else match ReadMembers(t) {
        case Some((ms, rest)) => if DistinctKeys(ms) then Some((Obj(ms), rest)) else None
        case None => None
      }
    else if "null" <= s then Some((Null, s[4..]))
    else if "true" <= s then Some((Bool(true), s[4..]))
    else if "false" <= s then Some((Bool(false), s[5..]))
    else match ReadNumber(s) {
      case Some((n, rest)) => if |s| - |rest| <= MAX_NUMBER_TOKEN_CHARS then Some((Num(n), rest)) else None
      case None => None
    }
  }

  /** A number is read exactly when its token has at most 1024 characters. */
  lemma NumberTokenRefusals(s: string)
    requires s != "" && (s[0] == '-' || '0' <= s[0] <= '9')
    ensures var read := ReadNumber(s);
      match ReadValue(s) {
        case Some((v, rest)) => read.Some? && rest == read.value.1 && v == Num(read.value.0) && |s| - |rest| < 1_025
        case None => read.None? || |s| - |read.value.1| >= 1_025
      }
  {
    hide ReadNumber;
  }

  /** The items up to the closing bracket. */
  function ReadItems(s: string): (r: Option<(seq<JSON>, string)>)
    ensures r.Some? ==> |r.value.1| < |s| && forall i :: 0 <= i < |r.value.0| ==> WellFormed(r.value.0[i])
    decreases |s|, 1
  {
    match ReadValue(s)
    case None => None
    case Some((v, rest)) =>
      var t := SkipBlank(rest);
      if t == "" then None
      else if t[0] == ']' then Some(([v], t[1..]))
      else if t[0] != ',' then None
      else match ReadItems(SkipBlank(t[1..])) {
        case None => None
        case Some((items, after)) => Some(([v] + items, after))
      }
  }

  /** The members up to the closing brace. */
  function ReadMembers(s: string): (r: Option<(seq<Member>, string)>)
    ensures r.Some? ==> |r.value.1| < |s| && forall i :: 0 <= i < |r.value.0| ==> WellFormed(r.value.0[i].value)
    decreases |s|, 1
  {
    match ReadMember(s)
    case None => None
    case Some((m, rest)) =>
      var t := SkipBlank(rest);
      if t == "" then None
      else if t[0] == '}' then Some(([m], t[1..]))
      else if t[0] != ',' then None
      else match ReadMembers(SkipBlank(t[1..])) {
        case None => None
        case Some((ms, after)) => Some(([m] + ms, after))
      }
  }

  function ReadMember(s: string): (r: Option<(Member, string)>)
    ensures r.Some? ==> |r.value.1| < |s| && WellFormed(r.value.0.value)
    decreases |s|, 0
  {
    if s == "" || s[0] != '"' then None
    else match ReadBody(s[1..]) {
      case None => None
      case Some((key, rest)) =>
        var t := SkipBlank(rest);
        if t == "" || t[0] != ':' then None
        else match ReadValue(SkipBlank(t[1..])) {
          case None => None
          case Some((v, after)) => Some((Member(key, v), after))
        }
    }
  }

  /** `strict_json_loads` of a decoded text */
  function StrictLoads(text: string, limits: Limits): Result<JSON, JsonError> {
    if Utf8Length(text) > limits.bytes then Err(BytesExceeded)
    else match ReadValue(SkipBlank(text)) {
      case None => Err(Invalid)
      case Some((v, rest)) =>
        if SkipBlank(rest) != "" then Err(Invalid)
        else if !WithinLimits(v, limits, 0) then Err(LimitExceeded)
        else Ok(v)
    }
  }

  /** `_raise_duplicate_key`: the dictionary filled pair by pair, refused at the first repetition. */
  method FillDictionary(pairs: seq<Member>) returns (result: Option<map<string, JSON>>)
    ensures result.Some? <==> DistinctKeys(pairs)
    ensures result.Some? ==> forall key, value ::
      (key in result.value && result.value[key] == value) <==> Member(key, value) in pairs
  {
    var entries: map<string, JSON> := map[];
    for i := 0 to |pairs|
      invariant DistinctKeys(pairs[..i])
      invariant forall key :: key in entries <==> exists j :: 0 <= j < i && pairs[j].key == key
      invariant forall j :: 0 <= j < i ==> pairs[j].key in entries && entries[pairs[j].key] == pairs[j].value
    {
      if pairs[i].key in entries {
        return None;
      }
      entries := entries[pairs[i].key := pairs[i].value];
    }
    assert pairs[..|pairs|] == pairs;
    return Some(entries);
  }

  // ----- reading back what was printed

  /** A value with its numbers as they read back. */
  function Reread(v: JSON): JSON {
    match v
    case Num(n) => Num(NormalOf(n))
    case Arr(items) => Arr(RereadItems(items))
    case Obj(ms) => Obj(RereadMembers(ms))
    case _ => v
  }

  function RereadItems(items: seq<JSON>): (r: seq<JSON>)
    ensures |r| == |items|
  {
    seq(|items|, i requires 0 <= i < |items| => Reread(items[i]))
  }

  function RereadMembers(ms: seq<Member>): (r: seq<Member>)
    ensures |r| == |ms|
  {
    seq(|ms|, i requires 0 <= i < |ms| => Member(ms[i].key, Reread(ms[i].value)))
  }

  function ReadBack(v: JSON): JSON {
    Reread(Ordered(v))
  }

  /** A number whose text the parser takes back; every float has such a text. */
  predicate ReadsAgain(n: Number) {
    Prints(n) && |NumberText(n).value| <= MAX_NUMBER_TOKEN_CHARS
  }

  /** A text that may follow a printed value. */
  predicate Closes(rest: string) {
    rest == "" || rest[0] == ',' || rest[0] == ']' || rest[0] == '}' || rest[0] == '\n'
  }

  lemma ClosesStops(rest: string)
    requires Closes(rest)
    ensures Stops(rest)
  {
  }

  predicate Opens(c: char) {
    c == '"' || c == '[' || c == '{' || c == 'n' || c == 't' || c == 'f' || c == '-' || '0' <= c <= '9'
  }

  lemma TextOpens(v: JSON)
    requires Every(v, Prints)
    ensures PlainText(v) != "" && Opens(PlainText(v)[0])
  {
    hide NumberText, ItemTexts, MemberTexts, Join;
    if v.Num? {
      NumberStart(v.number);
    }
  }

  lemma OpenNotBlank(s: string, rest: string)
    requires s != "" && Opens(s[0])
    ensures SkipBlank(s + rest) == s + rest
    ensures (s + rest)[0] == s[0] && s[0] != ']' && s[0] != '}'
  {
  }

  lemma NumberTokenReads(n: Number, rest: string)
    requires ReadsAgain(n) && Closes(rest)
    ensures ReadValue(NumberWord(n) + rest) == Some((Num(NormalOf(n)), rest))
  {
    hide NumberText, NormalOf, ReadNumber, ReadBody, Stops, WellFormed, ReadItems, ReadMembers, SkipBlank;
    var s := NumberWord(n) + rest;
    ClosesStops(rest);
    NumberStart(n);
    NumberReadsBack(n, rest);
    assert s[0] == NumberWord(n)[0];
    assert "null"[0] == 'n' && "true"[0] == 't' && "false"[0] == 'f';
  }

  lemma StringTokenReads(s: string, rest: string)
    ensures (JsonString(s) + rest)[0] == '"' && ReadBody((JsonString(s) + rest)[1..]) == Some((s, rest))
  {
    hide ReadBody, Escaped;
    StringReads(s, rest);
    assert (JsonString(s) + rest)[1..] == Escaped(s) + "\"" + rest;
  }

  lemma JoinOne(parts: seq<string>, tail: string)
    requires |parts| == 1
    ensures Join(parts) + tail == parts[0] + tail
  {
  }

  lemma JoinMore(parts: seq<string>, tail: string)
    requires |parts| > 1
    ensures Join(parts) + tail == parts[0] + ("," + (Join(parts[1..]) + tail))
  {
  }

  lemma JoinOpens(parts: seq<string>, tail: string)
    requires parts != [] && parts[0] != "" && Opens(parts[0][0])
    ensures var s := Join(parts) + tail;
      s != "" && Opens(s[0]) && s[0] == parts[0][0] && s[0] != ']' && s[0] != '}' && SkipBlank(s) == s
  {
  }

  lemma Separated(more: string)
    requires SkipBlank(more) == more
    ensures Closes("," + more) && SkipBlank("," + more) == "," + more
    ensures ("," + more)[0] == ',' && SkipBlank(("," + more)[1..]) == more
  {
  }

  lemma Closed(bracket: string, rest: string)
    requires bracket == "]" || bracket == "}"
    ensures Closes(bracket + rest) && SkipBlank(bracket + rest) == bracket + rest
    ensures (bracket + rest)[0] == bracket[0] && (bracket + rest)[1..] == rest
  {
  }

  lemma ItemsOpen(items: seq<JSON>, tail: string)
    requires items != [] && Every(items[0], ReadsAgain)
    ensures var s := Join(ItemTexts(items)) + tail;
      s != "" && Opens(s[0]) && s[0] != ']' && SkipBlank(s) == s
  {
    hide Join, PlainText, ReadsAgain, Every, Opens;
    OnlyPrints(items[0]);
    TextOpens(items[0]);
    JoinOpens(ItemTexts(items), tail);
  }

  lemma MembersOpen(ms: seq<Member>, tail: string)
    requires ms != []
    ensures var s := Join(MemberTexts(ms)) + tail;
      s != "" && s[0] != '}' && SkipBlank(s) == s
  {
  }

  lemma {:induction false} OnlyPrints(v: JSON)
    requires Every(v, ReadsAgain)
    ensures Every(v, Prints)
  {
    EveryImplies(v, ReadsAgain, Prints);
  }

  lemma {:induction false} EveryImplies(v: JSON, p: Number -> bool, q: Number -> bool)
    requires Every(v, p) && forall n :: p(n) ==> q(n)
    ensures Every(v, q)
  {
    match v {
      case Arr(items) =>
        forall i | 0 <= i < |items|
          ensures Every(items[i], q)
        {
          EveryImplies(items[i], p, q);
        }
      case Obj(ms) =>
        forall i | 0 <= i < |ms|
          ensures Every(ms[i].value, q)
        {
          EveryImplies(ms[i].value, p, q);
        }
      case _ =>
    }
  }

  lemma ContainerTexts(items: seq<JSON>, ms: seq<Member>, rest: string)
    ensures var s := PlainText(Arr(items)) + rest;
      s != "" && s[0] == '[' && s[1..] == Join(ItemTexts(items)) + ("]" + rest)
    ensures var s := PlainText(Obj(ms)) + rest;
      s != "" && s[0] == '{' && s[1..] == Join(MemberTexts(ms)) + ("}" + rest)
  {
    hide Join, ItemTexts, MemberTexts;
  }

  lemma ListTokenReads(items: seq<JSON>, rest: string)
    requires items != [] ==> Every(items[0], ReadsAgain)
    requires items != [] ==> ReadItems(Join(ItemTexts(items)) + ("]" + rest)) == Some((RereadItems(items), rest))
    ensures ReadValue(PlainText(Arr(items)) + rest) == Some((Arr(RereadItems(items)), rest))
  {
    hide SkipBlank, ReadItems, ReadMembers, ReadNumber, ReadBody, ReadsAgain, Every, Closes, WellFormed, PlainText, Opens;
    var body := Join(ItemTexts(items)) + ("]" + rest);
    ContainerTexts(items, [], rest);
    if items == [] {
      assert body == "]" + rest && RereadItems(items) == items;
      Closed("]", rest);
    } else {
      ItemsOpen(items, "]" + rest);
    }
  }

  lemma ObjectTokenReads(ms: seq<Member>, rest: string)
    requires DistinctKeys(ms)
    requires ms != [] ==> ReadMembers(Join(MemberTexts(ms)) + ("}" + rest)) == Some((RereadMembers(ms), rest))
    ensures ReadValue(PlainText(Obj(ms)) + rest) == Some((Obj(RereadMembers(ms)), rest))
  {
    hide SkipBlank, ReadItems, ReadMembers, ReadNumber, ReadBody, ReadsAgain, Every, Closes, WellFormed, PlainText, Opens;
    var body := Join(MemberTexts(ms)) + ("}" + rest);
    ContainerTexts([], ms, rest);
    if ms == [] {
      assert body == "}" + rest && RereadMembers(ms) == ms;
      Closed("}", rest);
    } else {
      MembersOpen(ms, "}" + rest);
      assert DistinctKeys(RereadMembers(ms));
    }
  }

  lemma WordTokenReads(v: JSON, rest: string)
    requires v.Null? || v.Bool?
    ensures ReadValue(PlainText(v) + rest) == Some((v, rest))
  {
    var s := PlainText(v) + rest;
    assert "null"[0] == 'n' && "true"[0] == 't' && "false"[0] == 'f';
    assert s[0] == PlainText(v)[0];
    assert s[|PlainText(v)|..] == rest;
  }

  /** Every printed value reads back, whatever closes the surrounding container. */
  lemma {:induction false} ValueReads(v: JSON, rest: string)
    requires WellFormed(v) && Every(v, ReadsAgain) && Closes(rest)
    ensures ReadValue(PlainText(v) + rest) == Some((Reread(v), rest))
    decreases v
  {
    hide NumberText, ReadNumber, ReadBody, NormalOf, Closes, ReadItems, ReadMembers, SkipBlank;
    match v {
      case Null => WordTokenReads(v, rest);
      case Bool(_) => WordTokenReads(v, rest);
      case Num(n) => NumberTokenReads(n, rest);
      case Str(s) => StringTokenReads(s, rest);
      case Arr(items) =>
        hide ReadValue;
        if items != [] {
          ItemsRead(items, rest);
        }
        ListTokenReads(items, rest);
      case Obj(ms) =>
        hide ReadValue;
        if ms != [] {
          MembersRead(ms, rest);
        }
        ObjectTokenReads(ms, rest);
    }
  }

  lemma {:induction false} ItemsRead(items: seq<JSON>, rest: string)
    requires items != [] && forall i :: 0 <= i < |items| ==> WellFormed(items[i]) && Every(items[i], ReadsAgain)
    ensures ReadItems(Join(ItemTexts(items)) + ("]" + rest)) == Some((RereadItems(items), rest))
    decreases items
  {
    hide ReadValue, Join, PlainText, Reread, SkipBlank, WellFormed, Every, ReadsAgain, Closes;
    var tail := "]" + rest;
    Closed("]", rest);
    if |items| == 1 {
      JoinOne(ItemTexts(items), tail);
      ValueReads(items[0], tail);
      assert RereadItems(items) == [Reread(items[0])];
    } else {
      var more := Join(ItemTexts(items[1..])) + tail;
      assert ItemTexts(items)[1..] == ItemTexts(items[1..]);
      JoinMore(ItemTexts(items), tail);
      ItemsOpen(items[1..], tail);
      Separated(more);
      ValueReads(items[0], "," + more);
      ItemsRead(items[1..], rest);
      assert RereadItems(items) == [Reread(items[0])] + RereadItems(items[1..]);
    }
  }

  lemma MemberReads(m: Member, rest: string)
    requires ReadValue(PlainText(m.value) + rest) == Some((Reread(m.value), rest)) && Every(m.value, Prints)
    ensures ReadMember(MemberText(m) + rest) == Some((Member(m.key, Reread(m.value)), rest))
  {
    hide ReadValue, ReadBody, PlainText, Reread, WellFormed, Every, JsonString;
    var after := ":" + (PlainText(m.value) + rest);
    assert MemberText(m) + rest == JsonString(m.key) + after;
    StringTokenReads(m.key, after);
    assert after[1..] == PlainText(m.value) + rest;
    TextOpens(m.value);
    OpenNotBlank(PlainText(m.value), rest);
  }

  lemma {:induction false} MembersRead(ms: seq<Member>, rest: string)
    requires ms != [] && forall i :: 0 <= i < |ms| ==> WellFormed(ms[i].value) && Every(ms[i].value, ReadsAgain)
    ensures ReadMembers(Join(MemberTexts(ms)) + ("}" + rest)) == Some((RereadMembers(ms), rest))
    decreases ms
  {
    hide ReadMember, Join, MemberText, Reread, SkipBlank, WellFormed, Every, ReadsAgain, Closes;
    var tail := "}" + rest;
    Closed("}", rest);
    OnlyPrints(ms[0].value);
    if |ms| == 1 {
      JoinOne(MemberTexts(ms), tail);
      ValueReads(ms[0].value, tail);
      MemberReads(ms[0], tail);
      assert RereadMembers(ms) == [Member(ms[0].key, Reread(ms[0].value))];
    } else {
      var more := Join(MemberTexts(ms[1..])) + tail;
      assert MemberTexts(ms)[1..] == MemberTexts(ms[1..]);
      JoinMore(MemberTexts(ms), tail);
      MembersOpen(ms[1..], tail);
      Separated(more);
      ValueReads(ms[0].value, "," + more);
      MemberReads(ms[0], "," + more);
      MembersRead(ms[1..], rest);
      assert RereadMembers(ms) == [Member(ms[0].key, Reread(ms[0].value))] + RereadMembers(ms[1..]);
    }
  }

  // ----- what the reader and the limits refuse

  function Max(a: nat, b: nat): nat {
    if a < b then b else a
  }

  /** How many containers lie around the innermost value. */
  function Nesting(v: JSON): nat {
    match v
    case Arr(items) => 1 + NestingOfItems(items)
    case Obj(ms) => 1 + NestingOfMembers(ms)
    case _ => 0
  }

  function NestingOfItems(items: seq<JSON>): (n: nat)
    ensures forall i :: 0 <= i < |items| ==> Nesting(items[i]) <= n
    ensures n == 0 || exists i :: 0 <= i < |items| && Nesting(items[i]) == n
  {
    if items == [] then 0 else Max(Nesting(items[0]), NestingOfItems(items[1..]))
  }

  function NestingOfMembers(ms: seq<Member>): (n: nat)
    ensures forall i :: 0 <= i < |ms| ==> Nesting(ms[i].value) <= n
    ensures n == 0 || exists i :: 0 <= i < |ms| && Nesting(ms[i].value) == n
  {
    if ms == [] then 0 else Max(Nesting(ms[0].value), NestingOfMembers(ms[1..]))
  }

  /** Every string and key of the value is at most so many bytes of UTF-8. */
  predicate StringsWithin(v: JSON, bytes: nat) {
    match v
    case Str(s) => Utf8Length(s) <= bytes
    case Arr(items) => forall i :: 0 <= i < |items| ==> StringsWithin(items[i], bytes)
    case Obj(ms) => forall i :: 0 <= i < |ms| ==> Utf8Length(ms[i].key) <= bytes && StringsWithin(ms[i].value, bytes)
    case _ => true
  }

  /** A tree is within its limits exactly when it nests no deeper and holds no longer string than they allow. */
  lemma {:induction false} WithinLimitsExactly(v: JSON, limits: Limits, depth: nat)
    requires depth <= limits.depth
    ensures WithinLimits(v, limits, depth) <==> depth + Nesting(v) <= limits.depth && StringsWithin(v, limits.stringBytes)
    decreases v
  {
    hide *;
    match v {
      case Arr(items) =>
        ArrayLimits(items, limits, depth);
        if depth < limits.depth {
          ItemsWithinLimits(items, limits, depth + 1);
        }
      case Obj(ms) =>
        ObjectLimits(ms, limits, depth);
        if depth < limits.depth {
          MembersWithinLimits(ms, limits, depth + 1);
        }
      case _ =>
        LeafLimits(v, limits, depth);
    }
  }

  lemma LeafLimits(v: JSON, limits: Limits, depth: nat)
    requires !v.Arr? && !v.Obj?
    ensures Nesting(v) == 0 && (WithinLimits(v, limits, depth) <==> StringsWithin(v, limits.stringBytes))
  {
    hide Utf8Length;
  }

  lemma ArrayLimits(items: seq<JSON>, limits: Limits, depth: nat)
    ensures WithinLimits(Arr(items), limits, depth)
      <==> depth < limits.depth && forall i :: 0 <= i < |items| ==> WithinLimits(items[i], limits, depth + 1)
    ensures StringsWithin(Arr(items), limits.stringBytes)
      <==> forall i :: 0 <= i < |items| ==> StringsWithin(items[i], limits.stringBytes)
    ensures Nesting(Arr(items)) == 1 + NestingOfItems(items)
  {
    hide NestingOfItems, NestingOfMembers, Utf8Length;
  }

  lemma ObjectLimits(ms: seq<Member>, limits: Limits, depth: nat)
    ensures WithinLimits(Obj(ms), limits, depth)
      <==> && depth < limits.depth
           && forall i :: 0 <= i < |ms| ==> Utf8Length(ms[i].key) <= limits.stringBytes && WithinLimits(ms[i].value, limits, depth + 1)
    ensures StringsWithin(Obj(ms), limits.stringBytes)
      <==> forall i :: 0 <= i < |ms| ==> Utf8Length(ms[i].key) <= limits.stringBytes && StringsWithin(ms[i].value, limits.stringBytes)
    ensures Nesting(Obj(ms)) == 1 + NestingOfMembers(ms)
  {
    hide NestingOfItems, NestingOfMembers, Utf8Length;
  }

  lemma {:induction false} ItemsWithinLimits(items: seq<JSON>, limits: Limits, depth: nat)
    requires depth <= limits.depth
    ensures (forall i :: 0 <= i < |items| ==> WithinLimits(items[i], limits, depth))
      <==> depth + NestingOfItems(items) <= limits.depth && forall i :: 0 <= i < |items| ==> StringsWithin(items[i], limits.stringBytes)
    decreases items
  {
    hide WithinLimits, StringsWithin, Nesting;
    if items != [] {
      var rest := items[1..];
      WithinLimitsExactly(items[0], limits, depth);
      ItemsWithinLimits(rest, limits, depth);
      assert forall i :: 0 < i < |items| ==> items[i] == rest[i - 1];
      assert forall i :: 0 <= i < |rest| ==> rest[i] == items[i + 1];
    }
  }

  lemma {:induction false} MembersWithinLimits(ms: seq<Member>, limits: Limits, depth: nat)
    requires depth <= limits.depth
    ensures (forall i :: 0 <= i < |ms| ==> WithinLimits(ms[i].value, limits, depth))
      <==> depth + NestingOfMembers(ms) <= limits.depth && forall i :: 0 <= i < |ms| ==> StringsWithin(ms[i].value, limits.stringBytes)
    decreases ms
  {
    hide WithinLimits, StringsWithin, Nesting;
    if ms != [] {
      var rest := ms[1..];
      WithinLimitsExactly(ms[0].value, limits, depth);
      MembersWithinLimits(rest, limits, depth);
      assert forall i :: 0 < i < |ms| ==> ms[i] == rest[i - 1];
      assert forall i :: 0 <= i < |rest| ==> rest[i] == ms[i + 1];
    }
  }

  /** Which refusal a text meets: its bytes, its grammar, what follows its value, its limits. */
  lemma LoadRefusals(text: string, limits: Limits)
    ensures var out, read := StrictLoads(text, limits), ReadValue(SkipBlank(text));
      if Utf8Length(text) > limits.bytes then out == Err(BytesExceeded)
      else if read.None? || SkipBlank(read.value.1) != "" then out == Err(Invalid)
      else if Nesting(read.value.0) > limits.depth || !StringsWithin(read.value.0, limits.stringBytes) then out == Err(LimitExceeded)
      else out == Ok(read.value.0)
  {
    hide ReadValue, SkipBlank, Utf8Length;
    if ReadValue(SkipBlank(text)).Some? {
      WithinLimitsExactly(ReadValue(SkipBlank(text)).value.0, limits, 0);
    }
  }

  /** Which refusal a value meets that cannot be printed. */
  lemma PrintRefusals(v: JSON, limits: Limits)
    ensures CanonicalText(v, limits)
      == if Nesting(v) > limits.depth || !StringsWithin(v, limits.stringBytes) then Err(LimitExceeded)
         else if !Every(v, Prints) then Err(IntegerOutOfRange)
         else Ok(PlainText(Ordered(v)))
  {
    hide PlainText, Ordered, Prints;
    WithinLimitsExactly(v, limits, 0);
  }

  /** Blanks are the four of the grammar and no others. */
  lemma BlanksAreFour(c: char, s: string)
    ensures SkipBlank([c] + s) == if c as int in {9, 10, 13, 32} then SkipBlank(s) else [c] + s
  {
    assert ([c] + s)[1..] == s;
  }

  /** Items are separated by commas, members too, keys are strings and a colon follows them: nothing else is read. */
  lemma SeparatorsAreStrict(s: string)
    ensures ReadItems(s).Some? ==>
      ReadValue(s).Some? && SkipBlank(ReadValue(s).value.1) != "" && SkipBlank(ReadValue(s).value.1)[0] in ",]"
    ensures ReadMembers(s).Some? ==>
      ReadMember(s).Some? && SkipBlank(ReadMember(s).value.1) != "" && SkipBlank(ReadMember(s).value.1)[0] in ",}"
    ensures ReadMember(s).Some? ==>
      s != "" && s[0] == '"' && ReadBody(s[1..]).Some?
      && SkipBlank(ReadBody(s[1..]).value.1) != "" && SkipBlank(ReadBody(s[1..]).value.1)[0] == ':'
  {
    hide SkipBlank, ReadBody, ReadNumber;
  }
}

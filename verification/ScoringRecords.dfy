/**
 The scoring record format over canonical JSON, and the proof that it is a lawful dataset format:
 a row reads back to a record with the same ID and the same row. Rounding a decimal to the nearest
 float is a parameter.
 */
module ScoringRecords {
  import opened Canonical
  import opened CanonicalLaws
  import opened Identifiers
  import opened JsonNumbers
  import opened JsonStrings
  import opened NumberLaws
  import opened Ordering
  import opened Outcomes
  import Dataset
  import Digits

  datatype Feature = Feature(name: string, value: Number)

  datatype ScoringRecord = ScoringRecord(id: string, features: seq<Feature>, relevance: Number)

  const MAX_FEATURES: nat := 256
  const RECORD_LIMITS: Limits := Limits(1_048_576, 32, 65_536)

  predicate InFeatureRange(n: Number) {
    AtMost(Magnitude10(n), Scaled(1_000_000, 0))
  }

  predicate InLabelRange(n: Number) {
    !IsNegative(n) && AtMost(Magnitude10(n), Scaled(100, 0))
  }

  predicate ByName(a: Feature, b: Feature) {
    StringLess(a.name, b.name)
  }

  /** What `parse_scoring_record` returns: named features in order, every number in range. */
  ghost predicate ValidRecord(r: ScoringRecord) {
    && RecordId(r.id) && 1 <= |r.features| <= MAX_FEATURES && Ascending(ByName, r.features)
    && (forall i :: 0 <= i < |r.features| ==> FeatureName(r.features[i].name) && InFeatureRange(r.features[i].value))
    && InLabelRange(r.relevance)
  }

  // ----- to and from JSON

  function FeatureMembers(features: seq<Feature>): (r: seq<Member>)
    ensures |r| == |features|
  {
    seq(|features|, i requires 0 <= i < |features| => Member(features[i].name, Num(features[i].value)))
  }

  /** `ScoringRecord.to_mapping` */
  function ToJson(r: ScoringRecord): JSON {
    Obj([Member("id", Str(r.id)), Member("features", Obj(FeatureMembers(r.features))), Member("label", Num(r.relevance))])
  }

  function Find(ms: seq<Member>, key: string): Option<JSON> {
    if ms == [] then None else if ms[0].key == key then Some(ms[0].value) else Find(ms[1..], key)
  }

  predicate FeatureMember(m: Member) {
    FeatureName(m.key) && m.value.Num? && InFeatureRange(m.value.number)
  }

  function FeaturesOf(ms: seq<Member>): (r: seq<Feature>)
    requires forall i :: 0 <= i < |ms| ==> FeatureMember(ms[i])
    ensures |r| == |ms|
  {
    seq(|ms|, i requires 0 <= i < |ms| && FeatureMember(ms[i]) => Feature(ms[i].key, ms[i].value.number))
  }

  /** `parse_scoring_record` */
  function FromJson(v: JSON): Option<ScoringRecord> {
    if !v.Obj? || |v.members| != 3 then None
    else
      match (Find(v.members, "id"), Find(v.members, "features"), Find(v.members, "label"))
      case (Some(Str(id)), Some(Obj(fs)), Some(Num(labelValue))) =>
        if RecordId(id) && 1 <= |fs| <= MAX_FEATURES && (forall i :: 0 <= i < |fs| ==> FeatureMember(fs[i])) && InLabelRange(labelValue)
        then Some(ScoringRecord(id, Sort(ByName, FeaturesOf(fs)), labelValue))
        else None
      case _ => None
  }

  // ----- rounding and the row

  type Rounding = Number -> Number

  /**
   Rounding to the nearest float: the text of a float is short, the bounds are floats and so are
   never crossed, and a float's own decimal rounds to the same number.
   */
  ghost predicate LawfulRounding(nearest: Rounding) {
    && (forall n :: InFeatureRange(n) ==> InFeatureRange(nearest(n)) && ReadsAgain(nearest(n)))
    && (forall n :: InLabelRange(n) ==> InLabelRange(nearest(n)) && ReadsAgain(nearest(n)))
    && (forall n :: InFeatureRange(n) || InLabelRange(n) ==> NumericallyEqual(nearest(NormalOf(nearest(n))), nearest(n)))
  }

  function RoundedFeatures(nearest: Rounding, features: seq<Feature>): (r: seq<Feature>)
    ensures |r| == |features|
  {
    seq(|features|, i requires 0 <= i < |features| => Feature(features[i].name, nearest(features[i].value)))
  }

  function Rounded(nearest: Rounding, r: ScoringRecord): ScoringRecord {
    ScoringRecord(r.id, RoundedFeatures(nearest, r.features), nearest(r.relevance))
  }

  /** The canonical row of a record, without its newline. */
  function EncodeRecord(nearest: Rounding, r: ScoringRecord): string {
    match CanonicalText(ToJson(Rounded(nearest, r)), RECORD_LIMITS)
    case Ok(text) => text
    case Err(_) => ""
  }

  function DecodeRecord(line: string): Option<ScoringRecord> {
    match StrictLoads(line, RECORD_LIMITS)
    case Ok(v) => FromJson(v)
    case Err(_) => None
  }

  ghost function RecordFormat(nearest: Rounding, sha256: string -> string, bucket: (int, string) -> nat): Dataset.Format<ScoringRecord> {
    Dataset.Format(
      (r: ScoringRecord) => r.id, (r: ScoringRecord) => ValidRecord(r), (r: ScoringRecord) => EncodeRecord(nearest, r),
      DecodeRecord, sha256, bucket)
  }

  // ----- printable rows

  predicate Plain(s: string) {
    forall i :: 0 <= i < |s| ==> ' ' <= s[i] < 127 as char
  }

  predicate PlainStrings(v: JSON) {
    match v
    case Str(s) => Plain(s)
    case Arr(items) => forall i :: 0 <= i < |items| ==> PlainStrings(items[i])
    case Obj(ms) => forall i :: 0 <= i < |ms| ==> Plain(ms[i].key) && PlainStrings(ms[i].value)
    case _ => true
  }

  lemma {:induction false} EscapedPlain(s: string)
    requires Plain(s)
    ensures Plain(Escaped(s)) && Plain(JsonString(s))
  {
    if s != "" {
      assert Plain(s[1..]);
      EscapedPlain(s[1..]);
      assert Plain(Escape(s[0]));
    }
  }

  lemma {:induction false} JoinPlain(parts: seq<string>)
    requires forall i :: 0 <= i < |parts| ==> Plain(parts[i])
    ensures Plain(Join(parts))
  {
    if |parts| > 1 {
      JoinPlain(parts[1..]);
    }
  }

  lemma DigitsPlain(s: string)
    requires Digits.AllDigits(s)
    ensures Plain(s)
  {
  }

  lemma SplitDigits(s: string, k: nat)
    requires Digits.AllDigits(s) && k <= |s|
    ensures Digits.AllDigits(s[..k]) && Digits.AllDigits(s[k..])
  {
  }

  lemma Joined(a: string, b: string)
    requires Plain(a) && Plain(b)
    ensures Plain(a + b)
  {
  }

  lemma RenderedPlain(core: string, position: int)
    requires IsCore(core)
    ensures Plain(RenderCore(core, position))
  {
    hide Plain, Scientific, Digits.Zeros, IsCore;
    if position <= 0 {
      PointedPlain(core, -position);
    } else if position >= |core| {
      WholePlain(core, position - |core|);
    } else {
      SplitPlain(core, position);
    }
    ScientificPlain(core, position - 1);
  }

  lemma PointedPlain(core: string, zeros: nat)
    requires IsCore(core)
    ensures Plain("0." + Digits.Zeros(zeros) + core)
  {
    hide Plain, Digits.Zeros, Digits.AllDigits;
    SmallPlain();
    DigitsPlain(core);
    DigitsPlain(Digits.Zeros(zeros));
    Joined("0.", Digits.Zeros(zeros));
    Joined("0." + Digits.Zeros(zeros), core);
  }

  lemma WholePlain(core: string, zeros: nat)
    requires IsCore(core)
    ensures Plain(core + Digits.Zeros(zeros))
  {
    hide Plain, Digits.Zeros, Digits.AllDigits;
    DigitsPlain(core);
    DigitsPlain(Digits.Zeros(zeros));
    Joined(core, Digits.Zeros(zeros));
  }

  lemma SplitPlain(core: string, position: nat)
    requires IsCore(core) && position <= |core|
    ensures Plain(core[..position] + "." + core[position..])
  {
    hide Plain, Digits.AllDigits;
    SmallPlain();
    SplitDigits(core, position);
    DigitsPlain(core[..position]);
    DigitsPlain(core[position..]);
    Joined(core[..position], ".");
    Joined(core[..position] + ".", core[position..]);
  }

  lemma SmallPlain()
    ensures Plain("0.") && Plain(".") && Plain("e") && Plain("+") && Plain("-") && Plain("")
  {
  }

  lemma ScientificPlain(core: string, exponent: int)
    requires IsCore(core)
    ensures Plain(Scientific(core[..1], core[1..], exponent))
  {
    hide Digits.Numeral, Plain, Digits.AllDigits;
    SmallPlain();
    SplitDigits(core, 1);
    DigitsPlain(core[..1]);
    DigitsPlain(core[1..]);
    var digits := Digits.Numeral(if exponent >= 0 then exponent else -exponent);
    DigitsPlain(digits);
    Joined(if exponent >= 0 then "+" else "-", digits);
    Joined(".", core[1..]);
    var fraction := if core[1..] == "" then "" else "." + core[1..];
    Joined(core[..1], fraction);
    Joined(core[..1] + fraction, "e");
    Joined(core[..1] + fraction + "e", SignedExponent(exponent));
  }

  lemma NumberPlain(n: Number)
    ensures Plain(NumberWord(n))
  {
    hide Digits.Numeral, Digits.NatOf, Rendered, RenderCore, Core, DecimalPosition, IsCore, SameValue;
    match n {
      case Integer(value) => DigitsPlain(Digits.Numeral(if value < 0 then -value else value));
      case Decimal(negative, coefficient, exponent) =>
        if coefficient > 0 {
          var sp := SpellingOf(coefficient, exponent);
          SpellingValid(coefficient, exponent);
          RenderedFromCore(sp);
          RenderedPlain(Core(sp), DecimalPosition(sp));
        }
    }
  }

  lemma {:induction false} TextPlain(v: JSON)
    requires PlainStrings(v)
    ensures Plain(PlainText(v))
  {
    hide JsonString, NumberWord, Join;
    match v {
      case Num(n) => NumberPlain(n);
      case Str(s) => EscapedPlain(s);
      case Arr(items) =>
        forall i | 0 <= i < |items|
          ensures Plain(ItemTexts(items)[i])
        {
          TextPlain(items[i]);
        }
        JoinPlain(ItemTexts(items));
      case Obj(ms) =>
        forall i | 0 <= i < |ms|
          ensures Plain(MemberTexts(ms)[i])
        {
          EscapedPlain(ms[i].key);
          TextPlain(ms[i].value);
        }
        JoinPlain(MemberTexts(ms));
      case _ =>
    }
  }

  lemma {:induction false} PlainLength(s: string)
    requires Plain(s)
    ensures Utf8Length(s) == |s|
  {
    if s != "" {
      PlainLength(s[1..]);
    }
  }

  lemma {:induction false} OrderedPlain(v: JSON)
    requires WellFormed(v) && PlainStrings(v)
    ensures PlainStrings(Ordered(v))
    decreases v, 1
  {
    hide Sort, Plain;
    match v {
      case Arr(items) =>
        forall i | 0 <= i < |items|
          ensures Ordered(v).items[i] == Ordered(items[i]) && PlainStrings(Ordered(items[i]))
        {
          OrderedPlain(items[i]);
        }
      case Obj(ms) =>
        var s := Sort(MemberLess, OrderedMembers(ms));
        forall i | 0 <= i < |s|
          ensures Plain(s[i].key) && PlainStrings(s[i].value)
        {
          var p := UnsortedPosition(ms, i);
          OrderedPlain(ms[p].value);
        }
      case _ =>
    }
  }

  // ----- what a row reads back to

  lemma {:induction false} FindMember(ms: seq<Member>, i: nat)
    requires DistinctKeys(ms) && i < |ms|
    ensures Find(ms, ms[i].key) == Some(ms[i].value)
  {
    if i > 0 {
      assert ms[0].key != ms[i].key;
      assert ms[1..][i - 1] == ms[i];
      FindMember(ms[1..], i - 1);
    }
  }

  lemma {:induction false} FoundMember(ms: seq<Member>, key: string)
    ensures match Find(ms, key) {
      case Some(v) => Member(key, v) in ms
      case None => forall i :: 0 <= i < |ms| ==> ms[i].key != key
    }
  {
    if ms != [] && ms[0].key != key {
      FoundMember(ms[1..], key);
      assert forall m :: m in ms[1..] ==> m in ms;
    }
  }

  /** What a dictionary of the three fields is read as: ID, features sorted by name and label, or nothing. */
  lemma FieldsRead(ms: seq<Member>, id: string, features: seq<Member>, n: Number)
    requires DistinctKeys(ms) && |ms| == 3
    requires Member("id", Str(id)) in ms && Member("features", Obj(features)) in ms && Member("label", Num(n)) in ms
    ensures FromJson(Obj(ms)).Some? <==>
      && RecordId(id) && 1 <= |features| <= 256
      && (forall i :: 0 <= i < |features| ==>
          FeatureName(features[i].key) && features[i].value.Num?
          && AtMost(Magnitude10(features[i].value.number), Scaled(1_000_000, 0)))
      && !IsNegative(n) && AtMost(Magnitude10(n), Scaled(100, 0))
    ensures FromJson(Obj(ms)).Some? ==>
      var r := FromJson(Obj(ms)).value;
      && r.id == id && r.relevance == n && |r.features| == |features|
      && forall i :: 0 <= i < |features| ==> Feature(features[i].key, features[i].value.number) in r.features
  {
    hide RecordId, FeatureName, AtMost, IsNegative, Sort;
    var i :| 0 <= i < |ms| && ms[i] == Member("id", Str(id));
    FindMember(ms, i);
    var j :| 0 <= j < |ms| && ms[j] == Member("features", Obj(features));
    FindMember(ms, j);
    var k :| 0 <= k < |ms| && ms[k] == Member("label", Num(n));
    FindMember(ms, k);
    if FromJson(Obj(ms)).Some? {
      ByNameOrder();
      SortSorts(ByName, FeaturesOf(features));
      var sorted := Sort(ByName, FeaturesOf(features));
      forall m | 0 <= m < |features|
        ensures Feature(features[m].key, features[m].value.number) in sorted
      {
        assert FeaturesOf(features)[m] in multiset(FeaturesOf(features));
        assert FeaturesOf(features)[m] in multiset(sorted);
      }
    }
  }

  lemma ByNameOrder()
    ensures StrictWeak(ByName)
  {
    hide LexLess;
    StringOrder();
  }

  /** Nothing but such a dictionary is read as a record. */
  lemma OnlyFieldsRead(v: JSON)
    requires FromJson(v).Some?
    ensures v.Obj? && |v.members| == 3
    ensures exists id :: Member("id", Str(id)) in v.members
    ensures exists features :: Member("features", Obj(features)) in v.members
    ensures exists n :: Member("label", Num(n)) in v.members
  {
    hide RecordId, FeatureMember, InLabelRange, Sort;
    FoundMember(v.members, "id");
    FoundMember(v.members, "features");
    FoundMember(v.members, "label");
  }

  lemma MemberBack(ms: seq<Member>, i: nat, p: nat)
    requires i < |ms| && p < |ms| && Sort(MemberLess, OrderedMembers(ms))[i] == OrderedMember(ms[p])
    ensures ReadBack(Obj(ms)).Obj? && |ReadBack(Obj(ms)).members| == |ms|
    ensures ReadBack(Obj(ms)).members[i] == Member(ms[p].key, ReadBack(ms[p].value))
  {
    hide Sort, NormalOf;
    var s := Sort(MemberLess, OrderedMembers(ms));
    assert Ordered(Obj(ms)) == Obj(s);
    assert ReadBack(Obj(ms)) == Obj(RereadMembers(s));
  }

  /** A member of a dictionary is found, read back, in the dictionary that reads back. */
  lemma FindReadBack(ms: seq<Member>, p: nat)
    requires WellFormed(Obj(ms)) && p < |ms|
    ensures ReadBack(Obj(ms)).Obj? && |ReadBack(Obj(ms)).members| == |ms|
    ensures Find(ReadBack(Obj(ms)).members, ms[p].key) == Some(ReadBack(ms[p].value))
  {
    hide Sort, NormalOf;
    var i := SortedPosition(ms, p);
    ReadBackIsSame(Obj(ms));
    var back := ReadBack(Obj(ms)).members;
    MemberBack(ms, i, p);
    FindMember(back, i);
  }

  lemma NamesDiffer(features: seq<Feature>)
    requires Ascending(ByName, features)
    ensures DistinctKeys(FeatureMembers(features))
  {
    hide LexLess;
    StringOrder();
    var ms := FeatureMembers(features);
    forall i, j | 0 <= i < j < |ms|
      ensures ms[i].key != ms[j].key
    {
      assert ByName(features[i], features[j]);
    }
  }

  lemma ThreeKeys(r: ScoringRecord)
    requires Ascending(ByName, r.features)
    ensures ToJson(r).members[0].key == "id" && ToJson(r).members[1].key == "features" && ToJson(r).members[2].key == "label"
    ensures WellFormed(ToJson(r))
  {
    hide StringLess;
    NamesDiffer(r.features);
    assert "id" != "features" && "id" != "label" && "features"[0] != "label"[0];
    assert WellFormed(Obj(FeatureMembers(r.features)));
    var ms := ToJson(r).members;
    assert DistinctKeys(ms);
    forall i | 0 <= i < |ms|
      ensures WellFormed(ms[i].value)
    {
      assert i == 0 || i == 1 || i == 2;
    }
  }

  function NormalFeatures(features: seq<Feature>): (r: seq<Feature>)
    ensures |r| == |features|
  {
    seq(|features|, i requires 0 <= i < |features| => Feature(features[i].name, NormalOf(features[i].value)))
  }

  lemma NormalInRange(n: Number)
    ensures InFeatureRange(NormalOf(n)) <==> InFeatureRange(n)
    ensures InLabelRange(NormalOf(n)) <==> InLabelRange(n)
  {
    hide SameValue, AtMost, NormalOf;
    NormalIsSameNumber(n);
    AtMostSame(Magnitude10(n), Magnitude10(NormalOf(n)), Scaled(1_000_000, 0));
    AtMostSame(Magnitude10(n), Magnitude10(NormalOf(n)), Scaled(100, 0));
  }

  lemma SortedFeatures(features: seq<Feature>, back: seq<Feature>)
    requires Ascending(ByName, features) && forall f :: f in back <==> f in features
    requires forall i, j :: 0 <= i < j < |back| ==> back[i].name != back[j].name
    ensures Sort(ByName, back) == features
  {
    hide LexLess, Sort;
    StringOrder();
    LexKeyOrder(ByName, (f: Feature) => Codes(f.name));
    forall i, j | 0 <= i < j < |back|
      ensures ByName(back[i], back[j]) || ByName(back[j], back[i])
    {
      assert back[i].name != back[j].name;
    }
    ComparableSortAscends(ByName, back);
    forall f
      ensures f in Sort(ByName, back) <==> f in features
    {
      assert f in multiset(Sort(ByName, back)) <==> f in multiset(back);
    }
    AscendingUnique(ByName, Sort(ByName, back), features);
  }

  predicate FromFeature(features: seq<Feature>, m: Member) {
    exists p :: 0 <= p < |features| && m == Member(features[p].name, Num(NormalOf(features[p].value)))
  }

  /** The features object reads back to the same features in normal form. */
  lemma FeaturesReadBack(features: seq<Feature>)
    requires Ascending(ByName, features)
    requires forall i :: 0 <= i < |features| ==> FeatureName(features[i].name) && InFeatureRange(features[i].value)
    ensures var back := ReadBack(Obj(FeatureMembers(features)));
      back.Obj? && |back.members| == |features| && (forall i :: 0 <= i < |back.members| ==> FeatureMember(back.members[i]))
      && Sort(ByName, FeaturesOf(back.members)) == NormalFeatures(features)
  {
    hide Sort, FeatureName, InFeatureRange, NormalOf, StringLess, ReadBack;
    var ms := FeatureMembers(features);
    NamesDiffer(features);
    assert WellFormed(Obj(ms));
    ReadBackIsSame(Obj(ms));
    var back := ReadBack(Obj(ms)).members;
    forall i | 0 <= i < |back|
      ensures FeatureMember(back[i])
      ensures FromFeature(features, back[i])
    {
      var p := UnsortedPosition(ms, i);
      NormalInRange(features[p].value);
      MemberBack(ms, i, p);
      LeavesReadBack("", features[p].value);
      assert back[i] == Member(features[p].name, Num(NormalOf(features[p].value)));
    }
    forall p | 0 <= p < |features|
      ensures Feature(features[p].name, NormalOf(features[p].value)) in FeaturesOf(back)
    {
      var i := SortedPosition(ms, p);
      MemberBack(ms, i, p);
      LeavesReadBack("", features[p].value);
      assert back[i] == Member(features[p].name, Num(NormalOf(features[p].value)));
      assert FeaturesOf(back)[i] == Feature(features[p].name, NormalOf(features[p].value));
    }
    SameFeatures(features, back);
    SortedFeatures(NormalFeatures(features), FeaturesOf(back));
  }

  lemma SameFeatures(features: seq<Feature>, back: seq<Member>)
    requires |back| == |features| && forall i :: 0 <= i < |back| ==> FeatureMember(back[i])
    requires Ascending(ByName, features) && DistinctKeys(back)
    requires forall i :: 0 <= i < |back| ==> FromFeature(features, back[i])
    requires forall p :: 0 <= p < |features| ==> Feature(features[p].name, NormalOf(features[p].value)) in FeaturesOf(back)
    ensures Ascending(ByName, NormalFeatures(features))
    ensures forall f :: f in FeaturesOf(back) <==> f in NormalFeatures(features)
    ensures forall i, j :: 0 <= i < j < |back| ==> FeaturesOf(back)[i].name != FeaturesOf(back)[j].name
  {
    hide FeatureName, InFeatureRange, NormalOf, StringLess;
    var normal, found := NormalFeatures(features), FeaturesOf(back);
    forall i, j | 0 <= i < j < |normal|
      ensures ByName(normal[i], normal[j])
    {
      assert ByName(features[i], features[j]);
    }
    forall i | 0 <= i < |found|
      ensures found[i] in normal
    {
      var p :| 0 <= p < |features| && back[i] == Member(features[p].name, Num(NormalOf(features[p].value)));
      assert found[i] == normal[p];
    }
    forall p | 0 <= p < |normal|
      ensures normal[p] in found
    {
    }
  }

  /** A record as its row reads back: every number in normal form. */
  function NormalRecord(r: ScoringRecord): ScoringRecord {
    ScoringRecord(r.id, NormalFeatures(r.features), NormalOf(r.relevance))
  }

  lemma RecordReadsBack(r: ScoringRecord)
    requires ValidRecord(r)
    ensures FromJson(ReadBack(ToJson(r))) == Some(NormalRecord(r))
  {
    hide Sort, FeatureName, InFeatureRange, InLabelRange, NormalOf, StringLess, RecordId, ReadBack, Find, NormalFeatures;
    ThreeKeys(r);
    var ms := ToJson(r).members;
    FindReadBack(ms, 0);
    FindReadBack(ms, 1);
    FindReadBack(ms, 2);
    LeavesReadBack(r.id, r.relevance);
    FeaturesReadBack(r.features);
    NormalInRange(r.relevance);
  }

  lemma LeavesReadBack(s: string, n: Number)
    ensures ReadBack(Str(s)) == Str(s) && ReadBack(Num(n)) == Num(NormalOf(n))
  {
  }
}

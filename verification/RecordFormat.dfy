/** The scoring record format is lawful, so everything proved about datasets holds for it. */
module RecordFormat {
  import opened Canonical
  import opened CanonicalLaws
  import opened Identifiers
  import opened JsonNumbers
  import opened JsonStrings
  import opened Ordering
  import opened Outcomes
  import opened ScoringRecords
  import Dataset
  import DatasetTheorems
  import Freezing

  // ----- a valid record prints

  ghost predicate Readable(r: ScoringRecord) {
    ReadsAgain(r.relevance) && forall i :: 0 <= i < |r.features| ==> ReadsAgain(r.features[i].value)
  }

  lemma RoundedIsValid(nearest: Rounding, r: ScoringRecord)
    requires LawfulRounding(nearest) && ValidRecord(r)
    ensures ValidRecord(Rounded(nearest, r)) && Readable(Rounded(nearest, r))
  {
    hide RecordId, FeatureName, InFeatureRange, InLabelRange, ReadsAgain, StringLess, NormalOf;
    var x := Rounded(nearest, r);
    forall i, j | 0 <= i < j < |x.features|
      ensures ByName(x.features[i], x.features[j])
    {
      assert ByName(r.features[i], r.features[j]);
    }
  }

  lemma GrammarPlain(s: string)
    ensures RecordId(s) || FeatureName(s) ==> Plain(s) && Utf8Length(s) <= 128
  {
    if RecordId(s) || FeatureName(s) {
      PlainLength(s);
    }
  }

  lemma KeywordsPlain()
    ensures Plain("id") && Plain("features") && Plain("label")
    ensures Utf8Length("id") <= 128 && Utf8Length("features") <= 128 && Utf8Length("label") <= 128
  {
    hide Utf8Length;
    assert Plain("id") && Plain("features") && Plain("label");
    PlainLength("id");
    PlainLength("features");
    PlainLength("label");
  }

  lemma FeaturesPrintable(features: seq<Feature>)
    requires forall i :: 0 <= i < |features| ==> FeatureName(features[i].name) && ReadsAgain(features[i].value)
    ensures var v := Obj(FeatureMembers(features));
      Every(v, ReadsAgain) && PlainStrings(v) && WithinLimits(v, RECORD_LIMITS, 1)
  {
    hide FeatureName, ReadsAgain, Plain;
    forall i | 0 <= i < |features|
      ensures Plain(features[i].name) && Utf8Length(features[i].name) <= 128
    {
      GrammarPlain(features[i].name);
    }
  }

  lemma RecordPrintable(r: ScoringRecord)
    requires ValidRecord(r) && Readable(r)
    ensures Every(ToJson(r), ReadsAgain) && PlainStrings(ToJson(r)) && WithinLimits(ToJson(r), RECORD_LIMITS, 0)
    ensures WellFormed(ToJson(r))
  {
    hide FeatureName, ReadsAgain, Plain, StringLess, RecordId, InFeatureRange, InLabelRange;
    ThreeKeys(r);
    KeywordsPlain();
    GrammarPlain(r.id);
    FeaturesPrintable(r.features);
    hide PlainStrings, WithinLimits, Every, WellFormed, FeatureMembers;
    LeavesPrintable(r.id, r.relevance);
    MembersPrintable(Member("id", Str(r.id)), Member("features", Obj(FeatureMembers(r.features))), Member("label", Num(r.relevance)));
  }

  lemma LeavesPrintable(s: string, n: Number)
    requires Plain(s) && Utf8Length(s) <= 128 && ReadsAgain(n)
    ensures Every(Str(s), ReadsAgain) && PlainStrings(Str(s)) && WithinLimits(Str(s), RECORD_LIMITS, 1)
    ensures Every(Num(n), ReadsAgain) && PlainStrings(Num(n)) && WithinLimits(Num(n), RECORD_LIMITS, 1)
  {
  }

  ghost predicate Printable(m: Member) {
    && Plain(m.key) && Utf8Length(m.key) <= 128
    && Every(m.value, ReadsAgain) && PlainStrings(m.value) && WithinLimits(m.value, RECORD_LIMITS, 1)
  }

  lemma MembersPrintable(a: Member, b: Member, c: Member)
    requires Printable(a) && Printable(b) && Printable(c)
    ensures var v := Obj([a, b, c]); Every(v, ReadsAgain) && PlainStrings(v) && WithinLimits(v, RECORD_LIMITS, 0)
  {
    hide Plain, ReadsAgain, Utf8Length, Printable;
    var ms := [a, b, c];
    forall i | 0 <= i < |ms|
      ensures Printable(ms[i])
    {
    }
    EachPrintable(ms);
  }

  lemma EachPrintable(ms: seq<Member>)
    requires forall i :: 0 <= i < |ms| ==> Printable(ms[i])
    ensures Every(Obj(ms), ReadsAgain) && PlainStrings(Obj(ms)) && WithinLimits(Obj(ms), RECORD_LIMITS, 0)
  {
  }

  /** The row of a valid record: printable ASCII between braces. */
  lemma RowFacts(nearest: Rounding, r: ScoringRecord)
    requires LawfulRounding(nearest) && ValidRecord(r)
    ensures var row := EncodeRecord(nearest, r);
      && CanonicalText(ToJson(Rounded(nearest, r)), RECORD_LIMITS) == Ok(row)
      && Plain(row) && Utf8Length(row) == |row| && row != "" && row[|row| - 1] == '}'
  {
    hide ValidRecord, Readable, PlainStrings, Every, WithinLimits, WellFormed, Plain, PlainText, Utf8Length, Ordered, LawfulRounding, ReadsAgain;
    RoundedIsValid(nearest, r);
    var v := ToJson(Rounded(nearest, r));
    RecordPrintable(Rounded(nearest, r));
    OnlyPrints(v);
    OrderedPlain(v);
    TextPlain(Ordered(v));
    PlainLength(PlainText(Ordered(v)));
    ObjectText(v.members);
  }

  lemma ObjectText(ms: seq<Member>)
    ensures var text := PlainText(Ordered(Obj(ms)));
      text != "" && text[|text| - 1] == '}'
  {
  }

  // ----- the laws of the format

  lemma DecodedIsValid(line: string)
    requires DecodeRecord(line).Some?
    ensures ValidRecord(DecodeRecord(line).value)
  {
    hide FeatureName, InFeatureRange, InLabelRange, RecordId, StringLess, ReadValue, Utf8Length, WithinLimits, Sort;
    var v := StrictLoads(line, RECORD_LIMITS).value;
    assert WellFormed(v);
    FoundFeatures(v.members, "features");
    var fs := Find(v.members, "features").value.members;
    SortedFound(fs);
  }

  lemma {:induction false} FoundFeatures(ms: seq<Member>, key: string)
    requires (forall i :: 0 <= i < |ms| ==> WellFormed(ms[i].value)) && Find(ms, key).Some?
    ensures WellFormed(Find(ms, key).value)
  {
    if ms[0].key != key {
      FoundFeatures(ms[1..], key);
    }
  }

  lemma SortedFound(fs: seq<Member>)
    requires DistinctKeys(fs) && forall i :: 0 <= i < |fs| ==> FeatureMember(fs[i])
    ensures var sorted := Sort(ByName, FeaturesOf(fs));
      && Ascending(ByName, sorted)
      && forall i :: 0 <= i < |sorted| ==> FeatureName(sorted[i].name) && InFeatureRange(sorted[i].value)
  {
    hide FeatureName, InFeatureRange, LexLess, Sort;
    StringOrder();
    LexKeyOrder(ByName, (f: Feature) => Codes(f.name));
    var found := FeaturesOf(fs);
    forall i, j | 0 <= i < j < |found|
      ensures ByName(found[i], found[j]) || ByName(found[j], found[i])
    {
      assert fs[i].key != fs[j].key;
    }
    ComparableSortAscends(ByName, found);
    var sorted := Sort(ByName, found);
    forall i | 0 <= i < |sorted|
      ensures FeatureName(sorted[i].name) && InFeatureRange(sorted[i].value)
    {
      assert sorted[i] in multiset(sorted);
      assert sorted[i] in multiset(found);
      var j :| 0 <= j < |found| && found[j] == sorted[i];
      assert FeatureMember(fs[j]);
    }
  }

  lemma NormalIsValid(r: ScoringRecord)
    requires ValidRecord(r)
    ensures ValidRecord(NormalRecord(r))
  {
    hide FeatureName, InFeatureRange, InLabelRange, RecordId, StringLess, NormalOf;
    var x := NormalRecord(r);
    NormalInRange(r.relevance);
    forall i | 0 <= i < |x.features|
      ensures FeatureName(x.features[i].name) && InFeatureRange(x.features[i].value)
    {
      NormalInRange(r.features[i].value);
    }
    forall i, j | 0 <= i < j < |x.features|
      ensures ByName(x.features[i], x.features[j])
    {
      assert ByName(r.features[i], r.features[j]);
    }
  }

  lemma NumbersRoundTheSame(nearest: Rounding, r: ScoringRecord)
    requires LawfulRounding(nearest) && ValidRecord(r)
    ensures NumericallyEqual(nearest(NormalOf(nearest(r.relevance))), nearest(r.relevance))
    ensures forall i :: 0 <= i < |r.features| ==>
      NumericallyEqual(nearest(NormalOf(nearest(r.features[i].value))), nearest(r.features[i].value))
  {
    hide FeatureName, InFeatureRange, InLabelRange, RecordId, StringLess, NormalOf, NumericallyEqual, ReadsAgain;
  }

  lemma FeaturesRoundTheSame(nearest: Rounding, features: seq<Feature>)
    requires forall i :: 0 <= i < |features| ==>
      NumericallyEqual(nearest(NormalOf(nearest(features[i].value))), nearest(features[i].value))
    ensures var x := RoundedFeatures(nearest, features);
      SameJson(Obj(FeatureMembers(RoundedFeatures(nearest, NormalFeatures(x)))), Obj(FeatureMembers(x)))
  {
    hide NormalOf, NumericallyEqual;
    var x := RoundedFeatures(nearest, features);
    var y := RoundedFeatures(nearest, NormalFeatures(x));
    var xs, ys := FeatureMembers(x), FeatureMembers(y);
    forall i | 0 <= i < |ys|
      ensures ys[i].key == xs[i].key && SameJson(ys[i].value, xs[i].value)
    {
      assert ys[i] == Member(features[i].name, Num(nearest(NormalOf(nearest(features[i].value)))));
      assert xs[i] == Member(features[i].name, Num(nearest(features[i].value)));
    }
    hide SameJson;
    Pointwise(ys, xs);
  }

  /** Rounding what reads back gives the same numbers again. */
  lemma RoundsTheSame(nearest: Rounding, r: ScoringRecord)
    requires LawfulRounding(nearest) && ValidRecord(r)
    ensures var x := Rounded(nearest, r);
      SameJson(ToJson(Rounded(nearest, NormalRecord(x))), ToJson(x))
  {
    hide LawfulRounding, ValidRecord, NormalOf, NumericallyEqual, RoundedFeatures, NormalFeatures, FeatureMembers;
    NumbersRoundTheSame(nearest, r);
    FeaturesRoundTheSame(nearest, r.features);
    var x := Rounded(nearest, r);
    var y := Rounded(nearest, NormalRecord(x));
    assert SameJson(Num(y.relevance), Num(x.relevance));
    hide SameJson;
    ThreeMatched(r.id, Obj(FeatureMembers(y.features)), Obj(FeatureMembers(x.features)), Num(y.relevance), Num(x.relevance));
  }

  lemma Pointwise(a: seq<Member>, b: seq<Member>)
    requires |a| == |b| && forall i :: 0 <= i < |a| ==> a[i].key == b[i].key && SameJson(a[i].value, b[i].value)
    ensures SameJson(Obj(a), Obj(b))
  {
  }

  lemma ThreeMatched(id: string, a: JSON, b: JSON, m: JSON, n: JSON)
    requires SameJson(a, b) && SameJson(m, n)
    ensures SameJson(
      Obj([Member("id", Str(id)), Member("features", a), Member("label", m)]),
      Obj([Member("id", Str(id)), Member("features", b), Member("label", n)]))
  {
    hide NumericallyEqual;
    var x := [Member("id", Str(id)), Member("features", a), Member("label", m)];
    var y := [Member("id", Str(id)), Member("features", b), Member("label", n)];
    assert SameJson(Str(id), Str(id));
    Pointwise(x, y);
  }

  lemma RowReadsBack(nearest: Rounding, r: ScoringRecord)
    requires LawfulRounding(nearest) && ValidRecord(r)
    requires |EncodeRecord(nearest, r)| <= Dataset.MAX_JSONL_LINE_BYTES
    ensures var back := DecodeRecord(EncodeRecord(nearest, r));
      back.Some? && back.value.id == r.id && EncodeRecord(nearest, back.value) == EncodeRecord(nearest, r)
  {
    hide ValidRecord, Readable, PlainStrings, Every, WithinLimits, WellFormed, Plain, Utf8Length, LawfulRounding, ReadsAgain, StrictLoads, FromJson, SameJson, CanonicalText, ReadBack, ToJson;
    var x := Rounded(nearest, r);
    RowFacts(nearest, r);
    RoundedIsValid(nearest, r);
    RecordPrintable(x);
    CanonicalTextReadsBack(ToJson(x), RECORD_LIMITS, "");
    assert EncodeRecord(nearest, r) + "" == EncodeRecord(nearest, r);
    RecordReadsBack(x);
    var back := NormalRecord(x);
    NormalIsValid(x);
    RoundedIsValid(nearest, back);
    RecordPrintable(Rounded(nearest, back));
    RowFacts(nearest, back);
    RoundsTheSame(nearest, r);
    SameTextExactlyWhenEqual(ToJson(Rounded(nearest, back)), ToJson(x), RECORD_LIMITS);
  }

  /** The scoring record format satisfies every law the dataset results rest on. */
  lemma RecordFormatIsLawful(nearest: Rounding, sha256: string -> string, bucket: (int, string) -> nat)
    requires LawfulRounding(nearest)
    ensures Dataset.Lawful(RecordFormat(nearest, sha256, bucket))
  {
    hide ValidRecord, LawfulRounding, EncodeRecord, DecodeRecord;
    var f := RecordFormat(nearest, sha256, bucket);
    forall r | f.valid(r)
      ensures f.encode(r) != "" && '\n' !in f.encode(r) && f.encode(r)[|f.encode(r)| - 1] != '\r'
    {
      RowFacts(nearest, r);
    }
    forall r | f.valid(r) && |f.encode(r)| <= Dataset.MAX_JSONL_LINE_BYTES
      ensures Dataset.Faithful(f, r, f.decode(f.encode(r)))
    {
      RowReadsBack(nearest, r);
    }
    forall line | f.decode(line).Some?
      ensures f.valid(f.decode(line).value)
    {
      DecodedIsValid(line);
    }
  }

  /** With the real record format: the checker accepts exactly the datasets that freezing emits. */
  lemma ScoringDatasetsVerifyExactly(nearest: Rounding, sha256: string -> string, bucket: (int, string) -> nat, ds: Dataset.FrozenDataset)
    requires LawfulRounding(nearest)
    ensures var f := RecordFormat(nearest, sha256, bucket);
      Dataset.VerifyOutcome(f, ds).Ok? <==>
      exists rs: seq<ScoringRecord> ::
        Freezing.FreezeOutcome(f, rs, ds.seed, Dataset.MAX_RECORDS, Dataset.MAX_OUTPUT_BYTES) == Ok(ds)
  {
    RecordFormatIsLawful(nearest, sha256, bucket);
    DatasetTheorems.VerifiesExactlyFrozen(RecordFormat(nearest, sha256, bucket), ds);
  }
}

/**
 Score results in the generation cache. A number with a fraction is a float when the model answers
 and a Decimal when the cache file is read, and revalidation takes no Decimal: which stored results
 are sent again, and which become failures.
 */
module ScoreResults {
  import opened Canonical
  import opened CanonicalLaws
  import opened Generation
  import opened GenerationRuns
  import opened JsonNumbers
  import opened JsonStrings
  import opened NumberLaws
  import opened Ordering
  import opened Outcomes
  import opened ResultNames
  import Digits

  const SCORE_WORKLOAD: string := "atlas.score.generate"

  const SUBSCORES: seq<string> := [
    "activity", "adoption", "documentation", "maintainability", "operability",
    "quality", "relevance", "security", "technical_quality", "usefulness"]

  const NOT_APPLICABLE_REASONS: set<string> :=
    {"insufficient_evidence", "not_applicable", "not_measured", "unsupported_material"}

  // ----- the fields of a dictionary

  function Lookup(ms: seq<Member>, key: string): (r: Option<JSON>)
    ensures r.Some? ==> Member(key, r.value) in ms
    ensures r.None? ==> forall m :: m in ms ==> m.key != key
  {
    if ms == [] then None
    else if ms[0].key == key then Some(ms[0].value)
    else Lookup(ms[1..], key)
  }

  function Field(v: JSON, key: string): Option<JSON> {
    if v.Obj? then Lookup(v.members, key) else None
  }

  // ----- the rule for one score

  /** `isinstance(number, (int, float))` and the range; what a file gives back is never a float. */
  predicate ScoreNumber(field: Option<JSON>, maximum: nat, reloaded: bool) {
    && field.Some? && field.value.Num?
    && (reloaded ==> field.value.number.Integer?)
    && !IsNegative(field.value.number) && AtMost(Magnitude10(field.value.number), Scaled(maximum, 0))
  }

  predicate Applicable(v: JSON) {
    Field(v, "applicability") == Some(Str("applicable"))
  }

  /** `_validate_score_value`, but for the explanation and the evidence references. */
  predicate ScoreValue(v: JSON, required: bool, reloaded: bool) {
    if Applicable(v) then
      && ScoreNumber(Field(v, "value"), 100, reloaded)
      && ScoreNumber(Field(v, "confidence"), 1, reloaded)
      && Field(v, "reason") == Some(Null)
    else
      && !required && Field(v, "applicability") == Some(Str("not_applicable"))
      && Field(v, "value") == Some(Null) && Field(v, "confidence") == Some(Null)
      && Field(v, "reason").Some? && Field(v, "reason").value.Str? && Field(v, "reason").value.text in NOT_APPLICABLE_REASONS
  }

  /** The scores of a result: the overall one and the ten subscores, where they exist. */
  function Score(v: JSON, name: string): Option<JSON> {
    match Field(v, "output")
    case None => None
    case Some(output) =>
      if name == "overall" then Field(output, name)
      else match Field(output, "subscores") {
        case None => None
        case Some(subscores) => Field(subscores, name)
      }
  }

  const SCORES: seq<string> := ["overall"] + SUBSCORES

  predicate ScoreOutput(v: JSON, reloaded: bool) {
    forall name :: name in SCORES ==> Score(v, name).Some? && ScoreValue(Score(v, name).value, name == "overall", reloaded)
  }

  // ----- revalidation

  /** Everything else that a result is validated for. */
  type Settled = (Identity, JSON) -> bool

  /** The other checks compare values: they see no spelling of a number and no member order. */
  ghost predicate ByValue(settled: Settled) {
    forall id, v, w :: SameJson(v, w) && WellFormed(v) && WellFormed(w) ==> settled(id, v) == settled(id, w)
  }

  predicate Validates(settled: Settled, id: Identity, v: JSON, reloaded: bool) {
    settled(id, v) && (Field(v, "workload_type") == Some(Str(SCORE_WORKLOAD)) ==> ScoreOutput(v, reloaded))
  }

  /** The validator of cache files. */
  function Revalidator(settled: Settled): Validator {
    (id: Identity, v: JSON) => Validates(settled, id, v, true)
  }

  ghost predicate Whole(n: Number) {
    exists k: int :: NumericallyEqual(n, Integer(k))
  }

  ghost predicate WholeField(field: Option<JSON>) {
    field.Some? && field.value.Num? ==> Whole(field.value.number)
  }

  /** Every applicable value and confidence is a whole number. */
  ghost predicate WholeScores(v: JSON) {
    forall name :: name in SCORES && Score(v, name).Some? && Applicable(Score(v, name).value) ==>
      WholeField(Field(Score(v, name).value, "value")) && WholeField(Field(Score(v, name).value, "confidence"))
  }

  // ----- fields read back

  lemma {:induction false} LookupIs(ms: seq<Member>, i: nat)
    requires DistinctKeys(ms) && i < |ms|
    ensures Lookup(ms, ms[i].key) == Some(ms[i].value)
  {
    if i > 0 {
      assert ms[0].key != ms[i].key;
      LookupIs(ms[1..], i - 1);
    }
  }

  /** A field of what reads back is what the field reads back as. */
  lemma FieldReadBack(v: JSON, key: string)
    requires WellFormed(v)
    ensures Field(ReadBack(v), key) == if Field(v, key).Some? then Some(ReadBack(Field(v, key).value)) else None
    ensures Field(v, key).Some? ==> WellFormed(Field(v, key).value)
  {
    hide Sort, NormalOf;
    if v.Obj? {
      var ms := v.members;
      var s := Sort(MemberLess, OrderedMembers(ms));
      var back := RereadMembers(s);
      assert ReadBack(v) == Obj(back);
      ReadBackIsSame(v);
      if Field(v, key).Some? {
        var p :| 0 <= p < |ms| && ms[p] == Member(key, Field(v, key).value);
        var i := SortedPosition(ms, p);
        assert back[i] == Member(key, ReadBack(ms[p].value));
        LookupIs(back, i);
      } else {
        forall i | 0 <= i < |back|
          ensures back[i].key != key
        {
          var p := UnsortedPosition(ms, i);
          assert ms[p] in ms;
        }
      }
    }
  }

  lemma ScoreReadBack(v: JSON, name: string)
    requires WellFormed(v)
    ensures Score(ReadBack(v), name) == if Score(v, name).Some? then Some(ReadBack(Score(v, name).value)) else None
    ensures Score(v, name).Some? ==> WellFormed(Score(v, name).value)
  {
    hide ReadBack, WellFormed, Field;
    FieldReadBack(v, "output");
    if Field(v, "output").Some? {
      var output := Field(v, "output").value;
      FieldReadBack(output, name);
      FieldReadBack(output, "subscores");
      if Field(output, "subscores").Some? {
        FieldReadBack(Field(output, "subscores").value, name);
      }
    }
  }

  lemma PlainReadBack(w: JSON)
    ensures w.Str? || w.Null? ==> ReadBack(w) == w
    ensures ReadBack(w).Str? || ReadBack(w).Null? ==> ReadBack(w) == w
    ensures ReadBack(w).Num? <==> w.Num?
    ensures w.Num? ==> ReadBack(w) == Num(NormalOf(w.number))
  {
    hide NormalOf, Sort;
  }

  // ----- whole numbers

  /** A number up to a hundred comes back as an integer exactly when its value is one. */
  lemma WholeComesBack(n: Number)
    requires AtMost(Magnitude10(n), Scaled(100, 0))
    ensures NormalOf(n).Integer? <==> Whole(n)
  {
    hide NormalOf, SameValue, AtMost;
    NormalIsSameNumber(n);
    if n.Integer? {
      IntegerIsNormal(n);
    } else if k: int :| NumericallyEqual(n, Integer(k)) {
      SmallInteger(n, k);
      if k != 0 {
        IntegralComesBack(n, k);
      } else {
        ZeroComesBack(n);
      }
    }
  }

  lemma SmallInteger(n: Number, k: int)
    requires AtMost(Magnitude10(n), Scaled(100, 0)) && NumericallyEqual(n, Integer(k))
    ensures -100 <= k <= 100
    ensures -(Digits.Power10(21) as int) < k < Digits.Power10(21)
  {
    AtMostSame(Magnitude10(n), Magnitude10(Integer(k)), Scaled(100, 0));
    assert Digits.Power10(3) == 1000;
    Digits.PowerMonotone(3, 21);
  }

  lemma ZeroComesBack(n: Number)
    requires n.Decimal? && NumericallyEqual(n, Integer(0))
    ensures NormalOf(n).Integer?
  {
    hide SameValue;
    ZeroAligned(Magnitude10(n), Magnitude10(Integer(0)));
  }

  lemma HalfIsNotWhole()
    ensures !Whole(Decimal(false, 5, -1))
  {
    forall k: int
      ensures !NumericallyEqual(Decimal(false, 5, -1), Integer(k))
    {
      AlignedIsProduct(Magnitude10(Integer(k)), -1);
      assert Digits.Power10(1) == 10;
      assert Aligned(Scaled(5, -1), -1) == 5;
    }
  }

  /** Integers that print, and numbers up to a hundred. */
  predicate ScoreScale(n: Number) {
    n.Integer? || AtMost(Magnitude10(n), Scaled(100, 0))
  }

  lemma ScoreScaleIsSafe(n: Number)
    requires Prints(n) && ScoreScale(n)
    ensures !LargeIntegral(n)
  {
    hide SameValue, AtMost;
    forall k: int | NumericallyEqual(n, Integer(k))
      ensures Safe(k)
    {
      if n.Integer? {
        SameIntegers(n.value, k);
      } else {
        SmallInteger(n, k);
      }
    }
  }

  lemma {:induction false} ScoreScaleEverywhere(v: JSON)
    requires Every(v, Prints) && Every(v, ScoreScale)
    ensures Every(v, NotLargeIntegral)
    decreases v
  {
    hide Prints, ScoreScale, LargeIntegral;
    match v {
      case Num(n) => ScoreScaleIsSafe(n);
      case Arr(items) =>
        forall i | 0 <= i < |items|
          ensures Every(items[i], NotLargeIntegral)
        {
          ScoreScaleEverywhere(items[i]);
        }
      case Obj(ms) =>
        forall i | 0 <= i < |ms|
          ensures Every(ms[i].value, NotLargeIntegral)
        {
          ScoreScaleEverywhere(ms[i].value);
        }
      case _ =>
    }
  }

  // ----- which results are sent again

  lemma ScoreNumberReadBack(w: JSON, maximum: nat)
    requires maximum <= 100 && ScoreNumber(Some(w), maximum, false)
    ensures ScoreNumber(Some(ReadBack(w)), maximum, true) <==> WholeField(Some(w))
  {
    hide NormalOf, SameValue, AtMost, Whole, ReadBack;
    PlainReadBack(w);
    NormalIsSameNumber(w.number);
    AtMostSame(Magnitude10(w.number), Magnitude10(NormalOf(w.number)), Scaled(maximum, 0));
    BelowHundred(Magnitude10(w.number), maximum);
    WholeComesBack(w.number);
  }

  lemma ScoreNumberPresent(field: Option<JSON>, maximum: nat)
    requires ScoreNumber(field, maximum, false)
    ensures field.Some? && field.value.Num?
  {
  }

  lemma BelowHundred(a: Scaled, maximum: nat)
    requires maximum <= 100 && AtMost(a, Scaled(maximum, 0))
    ensures AtMost(a, Scaled(100, 0))
  {
    var k := Lower(a.exponent, 0);
    AlignedIsProduct(Scaled(maximum, 0), k);
    AlignedIsProduct(Scaled(100, 0), k);
    ProductOrder(maximum, 100, Digits.Power10(-k));
  }

  lemma ScoreValueReadBack(v: JSON, required: bool)
    requires WellFormed(v) && ScoreValue(v, required, false)
    ensures ScoreValue(ReadBack(v), required, true)
        <==> (Applicable(v) ==> WholeField(Field(v, "value")) && WholeField(Field(v, "confidence")))
  {
    hide ReadBack, WellFormed, Field, ScoreNumber, WholeField;
    FieldReadBack(v, "applicability");
    FieldReadBack(v, "value");
    FieldReadBack(v, "confidence");
    FieldReadBack(v, "reason");
    PlainReadBack(Field(v, "applicability").value);
    PlainReadBack(Field(v, "reason").value);
    if Applicable(v) {
      ScoreNumberPresent(Field(v, "value"), 100);
      ScoreNumberPresent(Field(v, "confidence"), 1);
      ScoreNumberReadBack(Field(v, "value").value, 100);
      ScoreNumberReadBack(Field(v, "confidence").value, 1);
    } else {
      PlainReadBack(Null);
    }
  }

  lemma ScoreOutputReadBack(v: JSON)
    requires WellFormed(v) && ScoreOutput(v, false)
    ensures ScoreOutput(ReadBack(v), true) <==> WholeScores(v)
  {
    hide ReadBack, WellFormed, Score, Applicable, WholeField, ScoreValue;
    forall name | name in SCORES
      ensures Score(ReadBack(v), name).Some?
      ensures ScoreValue(Score(ReadBack(v), name).value, name == "overall", true)
        <==> (Applicable(Score(v, name).value) ==>
                WholeField(Field(Score(v, name).value, "value")) && WholeField(Field(Score(v, name).value, "confidence")))
    {
      ScoreReadBack(v, name);
      ScoreValueReadBack(Score(v, name).value, name == "overall");
    }
  }

  /**
   A stored score result that was valid when the model gave it is sent again exactly when each of its
   applicable values and confidences is a whole number and it holds no large integral number; it is
   refused as drifted when one is not whole.
   */
  lemma ScoreReloadsExactlyWhenWhole(settled: Settled, id: Identity, v: JSON)
    requires ByValue(settled) && Holdable(v) && StoredText(v).Ok?
    requires Field(v, "workload_type") == Some(Str(SCORE_WORKLOAD)) && Validates(settled, id, v, false)
    ensures var text := StoredText(v).value;
      && (Reload(Revalidator(settled), id, text + "\n") == Ok(text) <==> WholeScores(v) && Every(v, NotLargeIntegral))
      && (Reload(Revalidator(settled), id, text + "\n").Ok? ==> Reload(Revalidator(settled), id, text + "\n") == Ok(text))
      && (!WholeScores(v) ==> Reload(Revalidator(settled), id, text + "\n") == Err(Drifted))
    ensures Every(v, ScoreScale) ==> Every(v, NotLargeIntegral)
  {
    hide CanonicalText, StrictLoads, ReadBack, WellFormed, Utf8Length, ScoreOutput, WholeScores, ScoreScale, Field, Prints;
    ReloadSendsSameBytes(Revalidator(settled), id, v);
    CanonicalTextReadsBack(v, RESULT_LIMITS, "\n");
    ReadBackIsSame(v);
    FieldReadBack(v, "workload_type");
    PlainReadBack(Str(SCORE_WORKLOAD));
    ScoreOutputReadBack(v);
    if Every(v, ScoreScale) {
      EveryPrints(v);
      ScoreScaleEverywhere(v);
    }
  }

  lemma EveryPrints(v: JSON)
    requires StoredText(v).Ok?
    ensures Every(v, Prints)
  {
    hide PlainText, Ordered, Prints;
  }

  /** The witness: an applicable confidence of one half is refused when it is read back. */
  lemma HalfConfidenceIsRefused(settled: Settled, id: Identity, v: JSON, name: string)
    requires ByValue(settled) && Holdable(v) && StoredText(v).Ok?
    requires Field(v, "workload_type") == Some(Str(SCORE_WORKLOAD)) && Validates(settled, id, v, false)
    requires name in SCORES && Score(v, name).Some? && Applicable(Score(v, name).value)
    requires Field(Score(v, name).value, "confidence") == Some(Num(Decimal(false, 5, -1)))
    ensures Reload(Revalidator(settled), id, StoredText(v).value + "\n") == Err(Drifted)
  {
    hide Reload, Holdable, StoredText, Score, Applicable, Field, Validates, Whole;
    ScoreReloadsExactlyWhenWhole(settled, id, v);
    HalfIsNotWhole();
  }

  /**
   The run that goes wrong: the completion of a valid score result with a fraction is acknowledged
   ambiguously, and the next claim on the same lease identity ends in a failure.
   */
  lemma FractionalCompletionBecomesFailure(settled: Settled, id: Identity, v: JSON, refusal: string)
    requires ByValue(settled) && Holdable(v) && StoredText(v).Ok? && ValidIdentity(id)
    requires Field(v, "workload_type") == Some(Str(SCORE_WORKLOAD)) && Validates(settled, id, v, false)
    requires !WholeScores(v)
    ensures var out := Run(Revalidator(settled),
                           Claim(id) + Execute(v) + Retry() + Reclaim(id) + [Started(None, refusal), CheckEnds(None)]);
      out.Some? && out.value.log == [ModelRun(id), Complete(id, StoredText(v).value), Failed(id, refusal)]
  {
    hide Reload, Holdable, StoredText, WholeScores, Field, Validates, Run, Claim, Execute, Retry, Reclaim, ValidIdentity;
    ScoreReloadsExactlyWhenWhole(settled, id, v);
    RefusedCompletionBecomesFailure(Revalidator(settled), id, v, StoredText(v).value, refusal);
  }
}

/**
 Linear evaluators: scoring a feature map, verifying that a candidate changes exactly one declared
 scalar, and how far such a change can move any score.
 */
module Candidate {
  import opened Decimals
  import opened Identifiers
  import opened Listings
  import opened Ordering
  import opened Outcomes
  import opened Reals

  /** A JSON number is written as an integer or as a decimal, and the two never compare equal. */
  datatype Kind = IntegerToken | DecimalToken

  datatype Scalar = Scalar(kind: Kind, value: real)

  datatype Payload = Payload(bias: Scalar, weights: map<string, Scalar>)

  /** A scalar position of a payload. */
  datatype Leaf = Bias | Weight(name: string)

  const MAX_FEATURES: nat := 256
  const LINEAR_EVALUATOR_SCHEMA: string := "urn:atlasrepo:atlas-research:fixture:v1:linear-evaluator"

  predicate WithinHundred(x: real) {
    -100.0 <= x <= 100.0
  }

  /** `validate_linear_evaluator` */
  predicate ValidPayload(p: Payload) {
    && WithinHundred(p.bias.value)
    && 1 <= |p.weights| <= MAX_FEATURES
    && (forall name :: name in p.weights ==> FeatureName(name) && WithinHundred(p.weights[name].value))
  }

  predicate ValidFeatures(features: map<string, real>) {
    && (forall name :: name in features ==> FeatureName(name) && -1_000_000.0 <= features[name] <= 1_000_000.0)
    && 1 <= |features| <= MAX_FEATURES
  }

  datatype Refusal =
    | FeaturesInvalid | EvaluatorInvalid | UnknownSchema | LevelMismatch | TargetInvalid
    | DeclaredTypeChange | StructureChange | TypeChange | ChangeCount(observed: nat) | PathMismatch
    | OldValueMismatch | NewValueMismatch | OutOfRange | ZeroChange

  // ----- scoring

  function Feature(features: map<string, real>, name: string): real {
    if name in features then features[name] else 0.0
  }

  function Contribution(weight: real, feature: real): real {
    weight * feature
  }

  function WeightAt(p: Payload, name: string): real {
    if name in p.weights then p.weights[name].value else 0.0
  }

  function Dot(p: Payload, features: map<string, real>, names: seq<string>): real {
    if names == [] then 0.0
    else
      var name := names[|names| - 1];
      Dot(p, features, names[..|names| - 1]) + Contribution(WeightAt(p, name), Feature(features, name))
  }

  function ClampScore(x: real): (r: real)
    ensures 0.0 <= r <= 100.0
  {
    if x > 100.0 then 100.0 else if x < 0.0 then 0.0 else x
  }

  /** The clamped score before quantization. */
  ghost function ExactScore(p: Payload, features: map<string, real>): (r: real)
    ensures 0.0 <= r <= 100.0
  {
    ClampScore(p.bias.value + Dot(p, features, Listing(p.weights.Keys)))
  }

  ghost function ScoreOutcome(p: Payload, features: map<string, real>): Result<int, Refusal> {
    if !ValidPayload(p) then Err(EvaluatorInvalid)
    else if !ValidFeatures(features) then Err(FeaturesInvalid)
    else Ok(Quantize(ExactScore(p, features)))
  }

  method ScoreLinearEvaluator(p: Payload, features: map<string, real>) returns (out: Result<int, Refusal>)
    ensures out == ScoreOutcome(p, features)
  {
    hide ValidPayload, ValidFeatures, StringLess, Contribution, WeightAt, Feature, Quantize;
    if !ValidPayload(p) {
      return Err(EvaluatorInvalid);
    }
    if !ValidFeatures(features) {
      return Err(FeaturesInvalid);
    }
    var names := ListDirectory(p.weights.Keys);
    var total := 0.0;
    for i := 0 to |names|
      invariant total == Dot(p, features, names[..i])
    {
      assert names[..i + 1][..i] == names[..i];
      total := total + Contribution(WeightAt(p, names[i]), Feature(features, names[i]));
    }
    assert names[..|names|] == names;
    return Ok(Quantize(ClampScore(p.bias.value + total)));
  }

  /** Which refusal a payload and a feature map meet, in numbers; otherwise the score is the quantized one. */
  lemma ScoreRefusals(p: Payload, features: map<string, real>)
    ensures ScoreOutcome(p, features)
      == if p.bias.value < -100.0 || p.bias.value > 100.0 || |p.weights| < 1 || |p.weights| > 256
            || exists name :: name in p.weights
                 && (!FeatureName(name) || p.weights[name].value < -100.0 || p.weights[name].value > 100.0)
         then Err(EvaluatorInvalid)
         else if |features| < 1 || |features| > 256
            || exists name :: name in features
                 && (!FeatureName(name) || features[name] < -1_000_000.0 || features[name] > 1_000_000.0)
         then Err(FeaturesInvalid)
         else Ok(Quantize(ExactScore(p, features)))
  {
    hide FeatureName, Quantize;
  }

  // ----- verifying a change

  /** The candidate document: its level, its target contract and the change it declares. */
  datatype Proposal = Proposal(
    level: string, targetId: string, targetVersion: string, path: string, oldValue: Scalar, newValue: Scalar)

  datatype Change = Change(path: string, oldValue: Scalar, newValue: Scalar)

  function PathText(leaf: Leaf): string {
    match leaf
    case Bias => "bias"
    case Weight(name) => "weights." + name
  }

  lemma PathTextInjective(a: Leaf, b: Leaf)
    requires PathText(a) == PathText(b)
    ensures a == b
  {
    assert "bias"[0] == 'b' && "weights."[0] == 'w';
    assert PathText(a)[0] == (if a.Bias? then 'b' else 'w') && PathText(b)[0] == (if b.Bias? then 'b' else 'w');
    if a.Weight? && b.Weight? {
      assert PathText(a)[8..] == a.name && PathText(b)[8..] == b.name;
    }
  }

  predicate HasLeaf(p: Payload, leaf: Leaf) {
    leaf.Weight? ==> leaf.name in p.weights
  }

  /** The scalar at a leaf; only leaves of the payload are ever asked for. */
  function LeafAt(p: Payload, leaf: Leaf): Scalar {
    match leaf
    case Bias => p.bias
    case Weight(name) => if name in p.weights then p.weights[name] else Scalar(IntegerToken, 0.0)
  }

  function LeafList(names: seq<string>): (r: seq<Leaf>)
    ensures |r| == |names| + 1 && r[0] == Bias && forall i :: 0 <= i < |names| ==> r[i + 1] == Weight(names[i])
  {
    [Bias] + seq(|names|, i requires 0 <= i < |names| => Weight(names[i]))
  }

  /** The leaves of the first k that differ; a change of type is refused at once. */
  function Differences(parent: Payload, proposed: Payload, leaves: seq<Leaf>, k: nat): Result<seq<Leaf>, Refusal>
    requires k <= |leaves|
  {
    if k == 0 then Ok([])
    else
      var found :- Differences(parent, proposed, leaves, k - 1);
      var before, after := LeafAt(parent, leaves[k - 1]), LeafAt(proposed, leaves[k - 1]);
      if before.kind != after.kind then Err(TypeChange)
      else if before != after then Ok(found + [leaves[k - 1]])
      else Ok(found)
  }

  predicate WellDeclared(c: Proposal) {
    IsLevelTwo(c.level) && 1 <= |c.targetId| <= 512 && 1 <= |c.targetVersion| <= 64
  }

  predicate IsLevelTwo(level: string) {
    level == "LEVEL_2"
  }

  predicate KnownSchema(schema: string) {
    schema == LINEAR_EVALUATOR_SCHEMA
  }

  /** The checks made before any leaf is compared. */
  function Objection(c: Proposal, parent: Payload, proposed: Payload, schema: string): Option<Refusal> {
    if !KnownSchema(schema) then Some(UnknownSchema)
    else if !IsLevelTwo(c.level) then Some(LevelMismatch)
    else if !WellDeclared(c) then Some(TargetInvalid)
    else if !ValidPayload(parent) || !ValidPayload(proposed) then Some(EvaluatorInvalid)
    else if c.oldValue.kind != c.newValue.kind then Some(DeclaredTypeChange)
    else if parent.weights.Keys != proposed.weights.Keys then Some(StructureChange)
    else None
  }

  /** The checks on the leaves found to differ. */
  function Judged(c: Proposal, parent: Payload, proposed: Payload, found: seq<Leaf>): Result<Change, Refusal> {
    if |found| != 1 then Err(ChangeCount(|found|))
    else if c.path != PathText(found[0]) then Err(PathMismatch)
    else if c.oldValue != LeafAt(parent, found[0]) then Err(OldValueMismatch)
    else if c.newValue != LeafAt(proposed, found[0]) then Err(NewValueMismatch)
    else if !WithinHundred(c.oldValue.value) || !WithinHundred(c.newValue.value) then Err(OutOfRange)
    else if c.oldValue.value == c.newValue.value then Err(ZeroChange)
    else Ok(Change(c.path, c.oldValue, c.newValue))
  }

  ghost function ChangeOutcome(c: Proposal, parent: Payload, proposed: Payload, schema: string): Result<Change, Refusal> {
    match Objection(c, parent, proposed, schema)
    case Some(refusal) => Err(refusal)
    case None =>
      var leaves := LeafList(Listing(parent.weights.Keys));
      var found :- Differences(parent, proposed, leaves, |leaves|);
      Judged(c, parent, proposed, found)
  }

  lemma {:induction false} FoundAreLeaves(parent: Payload, proposed: Payload, leaves: seq<Leaf>, k: nat)
    requires k <= |leaves|
    requires Differences(parent, proposed, leaves, k).Ok?
    ensures forall leaf :: leaf in Differences(parent, proposed, leaves, k).value <==>
      leaf in leaves[..k] && LeafAt(parent, leaf) != LeafAt(proposed, leaf)
    ensures forall leaf :: leaf in leaves[..k] ==> LeafAt(parent, leaf).kind == LeafAt(proposed, leaf).kind
  {
    if k > 0 {
      FoundAreLeaves(parent, proposed, leaves, k - 1);
      assert leaves[..k] == leaves[..k - 1] + [leaves[k - 1]];
    }
  }

  lemma {:induction false} DifferencesStick(parent: Payload, proposed: Payload, leaves: seq<Leaf>, k: nat)
    requires k <= |leaves|
    requires Differences(parent, proposed, leaves, k).Err?
    ensures Differences(parent, proposed, leaves, |leaves|) == Err(Differences(parent, proposed, leaves, k).error)
    decreases |leaves| - k
  {
    if k < |leaves| {
      DifferencesStick(parent, proposed, leaves, k + 1);
    }
  }

  method VerifyCandidateChange(c: Proposal, parent: Payload, proposed: Payload, schema: string)
    returns (out: Result<Change, Refusal>)
    ensures out == ChangeOutcome(c, parent, proposed, schema)
  {
    hide Objection, Judged, StringLess, LeafAt, LeafList;
    var objection := Objection(c, parent, proposed, schema);
    if objection.Some? {
      return Err(objection.value);
    }
    var names := ListDirectory(parent.weights.Keys);
    var leaves := LeafList(names);
    var differences: seq<Leaf> := [];
    for k := 0 to |leaves|
      invariant Differences(parent, proposed, leaves, k) == Ok(differences)
    {
      if Differences(parent, proposed, leaves, k + 1).Err? {
        DifferencesStick(parent, proposed, leaves, k + 1);
      }
      var before, after := LeafAt(parent, leaves[k]), LeafAt(proposed, leaves[k]);
      if before.kind != after.kind {
        return Err(TypeChange);
      }
      if before != after {
        differences := differences + [leaves[k]];
      }
    }
    return Judged(c, parent, proposed, differences);
  }

  /** The checks made before any leaf is compared, in order. */
  lemma ChangeObjections(c: Proposal, parent: Payload, proposed: Payload, schema: string)
    ensures var out := ChangeOutcome(c, parent, proposed, schema);
      if schema != "urn:atlasrepo:atlas-research:fixture:v1:linear-evaluator" then out == Err(UnknownSchema)
      else if c.level != "LEVEL_2" then out == Err(LevelMismatch)
      else if |c.targetId| < 1 || |c.targetId| > 512 || |c.targetVersion| < 1 || |c.targetVersion| > 64 then out == Err(TargetInvalid)
      else if !ValidPayload(parent) || !ValidPayload(proposed) then out == Err(EvaluatorInvalid)
      else if c.oldValue.kind != c.newValue.kind then out == Err(DeclaredTypeChange)
      else if parent.weights.Keys != proposed.weights.Keys then out == Err(StructureChange)
      else true
  {
    hide ValidPayload, Differences, Judged, StringLess;
  }

  /** The leaves that differ decide the rest: how many, then the declared path, old value and new value. */
  lemma ChangeJudgements(c: Proposal, parent: Payload, proposed: Payload, found: seq<Leaf>)
    ensures |found| != 1 ==> Judged(c, parent, proposed, found) == Err(ChangeCount(|found|))
    ensures |found| == 1 ==>
      var out := Judged(c, parent, proposed, found);
      && (out == Err(PathMismatch) <==> c.path != PathText(found[0]))
      && (out == Err(OldValueMismatch) <==> c.path == PathText(found[0]) && c.oldValue != LeafAt(parent, found[0]))
      && (out == Err(NewValueMismatch) <==>
          c.path == PathText(found[0]) && c.oldValue == LeafAt(parent, found[0]) && c.newValue != LeafAt(proposed, found[0]))
      && (out.Ok? ==>
          out.value == Change(c.path, c.oldValue, c.newValue) && c.oldValue.value != c.newValue.value
          && -100.0 <= c.oldValue.value <= 100.0 && -100.0 <= c.newValue.value <= 100.0)
  {
    hide PathText, LeafAt;
  }

  // ----- what acceptance means

  /** The two payloads have the same shape and differ at this leaf alone, by value. */
  ghost predicate DifferOnlyAt(parent: Payload, proposed: Payload, leaf: Leaf) {
    && parent.weights.Keys == proposed.weights.Keys
    && HasLeaf(parent, leaf)
    && LeafAt(parent, leaf).kind == LeafAt(proposed, leaf).kind
    && LeafAt(parent, leaf).value != LeafAt(proposed, leaf).value
    && (forall other :: HasLeaf(parent, other) && other != leaf ==> LeafAt(parent, other) == LeafAt(proposed, other))
  }

  ghost predicate Declares(c: Proposal, parent: Payload, proposed: Payload, leaf: Leaf) {
    && HasLeaf(parent, leaf) && HasLeaf(proposed, leaf)
    && c.path == PathText(leaf) && c.oldValue == LeafAt(parent, leaf) && c.newValue == LeafAt(proposed, leaf)
  }

  lemma LeavesCovered(p: Payload, names: seq<string>)
    requires forall name :: name in names <==> name in p.weights
    ensures forall leaf :: leaf in LeafList(names) <==> HasLeaf(p, leaf)
  {
    forall leaf | HasLeaf(p, leaf)
      ensures leaf in LeafList(names)
    {
      if leaf.Weight? {
        var i :| 0 <= i < |names| && names[i] == leaf.name;
        assert LeafList(names)[i + 1] == leaf;
      } else {
        assert LeafList(names)[0] == leaf;
      }
    }
  }

  lemma {:induction false} OneDifference(parent: Payload, proposed: Payload, leaves: seq<Leaf>, k: nat, leaf: Leaf)
    requires k <= |leaves|
    requires DifferOnlyAt(parent, proposed, leaf) && Distinct(leaves)
    requires forall other :: other in leaves ==> HasLeaf(parent, other)
    ensures Differences(parent, proposed, leaves, k) == Ok(if leaf in leaves[..k] then [leaf] else [])
  {
    if k > 0 {
      OneDifference(parent, proposed, leaves, k - 1, leaf);
      assert leaves[..k] == leaves[..k - 1] + [leaves[k - 1]];
      var last := leaves[k - 1];
      assert last in leaves && HasLeaf(parent, last);
      assert last !in leaves[..k - 1];
      assert [] + [leaf] == [leaf];
    }
  }

  lemma LeavesDistinct(names: seq<string>)
    requires Ascending(StringLess, names)
    ensures Distinct(LeafList(names))
  {
    hide LexLess;
    StringOrder();
    var leaves := LeafList(names);
    forall i, j | 0 <= i < j < |leaves|
      ensures leaves[i] != leaves[j]
    {
      if i > 0 {
        assert StringLess(names[i - 1], names[j - 1]);
      }
    }
  }

  lemma OnlyOneFound(parent: Payload, proposed: Payload, names: seq<string>)
    requires parent.weights.Keys == proposed.weights.Keys
    requires forall name :: name in names <==> name in parent.weights
    requires Differences(parent, proposed, LeafList(names), |names| + 1).Ok?
    requires |Differences(parent, proposed, LeafList(names), |names| + 1).value| == 1
    ensures DifferOnlyAt(parent, proposed, Differences(parent, proposed, LeafList(names), |names| + 1).value[0])
  {
    hide LeafList, LeafAt, Differences;
    var leaves := LeafList(names);
    var found := Differences(parent, proposed, leaves, |leaves|).value;
    LeavesCovered(parent, names);
    FoundAreLeaves(parent, proposed, leaves, |leaves|);
    assert leaves[..|leaves|] == leaves;
    assert found[0] in found;
    forall other | HasLeaf(parent, other) && other != found[0]
      ensures LeafAt(parent, other) == LeafAt(proposed, other)
    {
      assert other in leaves && other !in found;
    }
  }

  /**
   A candidate is accepted exactly when it is well declared, both payloads are valid, and they
   differ at one leaf alone, the declared one, from the declared old to the declared new value.
   The range and zero-change refusals at the end of the check can never be reached.
   */
  lemma AcceptedExactlyOneLeaf(c: Proposal, parent: Payload, proposed: Payload, schema: string)
    ensures ChangeOutcome(c, parent, proposed, schema).Ok? <==>
      && KnownSchema(schema) && WellDeclared(c) && ValidPayload(parent) && ValidPayload(proposed)
      && exists leaf :: DifferOnlyAt(parent, proposed, leaf) && Declares(c, parent, proposed, leaf)
    ensures ChangeOutcome(c, parent, proposed, schema) != Err(OutOfRange)
    ensures ChangeOutcome(c, parent, proposed, schema) != Err(ZeroChange)
  {
    hide PathText, ValidPayload, StringLess, LexLess, Differences, DifferOnlyAt, Declares, KnownSchema, IsLevelTwo, LeafAt, WithinHundred;
    var names := Listing(parent.weights.Keys);
    var leaves := LeafList(names);
    if Objection(c, parent, proposed, schema) == None {
      DifferencesNeverJudge(parent, proposed, leaves, |leaves|);
      var found := Differences(parent, proposed, leaves, |leaves|);
      if found.Ok? && |found.value| == 1 {
        OnlyOneFound(parent, proposed, names);
        LeafBounds(parent, proposed, found.value[0]);
        DeclaresMeans(c, parent, proposed, found.value[0]);
      }
    }
    forall leaf | DifferOnlyAt(parent, proposed, leaf) && Declares(c, parent, proposed, leaf)
      ensures parent.weights.Keys == proposed.weights.Keys && c.oldValue.kind == c.newValue.kind
      ensures Differences(parent, proposed, leaves, |leaves|) == Ok([leaf])
      ensures c.path == PathText(leaf) && c.oldValue == LeafAt(parent, leaf) && c.newValue == LeafAt(proposed, leaf)
    {
      DeclaresMeans(c, parent, proposed, leaf);
      LeavesDistinct(names);
      LeavesCovered(parent, names);
      OneDifference(parent, proposed, leaves, |leaves|, leaf);
      assert leaves[..|leaves|] == leaves;
    }
  }

  lemma {:induction false} DifferencesNeverJudge(parent: Payload, proposed: Payload, leaves: seq<Leaf>, k: nat)
    requires k <= |leaves|
    ensures Differences(parent, proposed, leaves, k).Err? ==> Differences(parent, proposed, leaves, k).error == TypeChange
  {
    if k > 0 {
      DifferencesNeverJudge(parent, proposed, leaves, k - 1);
    }
  }

  lemma DeclaresMeans(c: Proposal, parent: Payload, proposed: Payload, leaf: Leaf)
    requires DifferOnlyAt(parent, proposed, leaf)
    ensures parent.weights.Keys == proposed.weights.Keys && HasLeaf(parent, leaf) && HasLeaf(proposed, leaf)
    ensures LeafAt(parent, leaf).kind == LeafAt(proposed, leaf).kind
    ensures Declares(c, parent, proposed, leaf) <==>
      c.path == PathText(leaf) && c.oldValue == LeafAt(parent, leaf) && c.newValue == LeafAt(proposed, leaf)
  {
  }

  lemma LeafBounds(parent: Payload, proposed: Payload, leaf: Leaf)
    requires DifferOnlyAt(parent, proposed, leaf)
    ensures HasLeaf(parent, leaf) && HasLeaf(proposed, leaf)
    ensures LeafAt(parent, leaf).value != LeafAt(proposed, leaf).value
    ensures ValidPayload(parent) ==> WithinHundred(LeafAt(parent, leaf).value)
    ensures ValidPayload(proposed) ==> WithinHundred(LeafAt(proposed, leaf).value)
  {
  }

  // ----- how far an accepted change moves a score

  /** How much a leaf counts in a feature map: the bias once, a weight by its feature. */
  function Influence(leaf: Leaf, features: map<string, real>): real {
    match leaf
    case Bias => 1.0
    case Weight(name) => Feature(features, name)
  }

  lemma {:induction false} DotUnchanged(parent: Payload, proposed: Payload, features: map<string, real>, names: seq<string>)
    requires forall name :: name in names ==> WeightAt(parent, name) == WeightAt(proposed, name)
    ensures Dot(parent, features, names) == Dot(proposed, features, names)
  {
    hide Contribution, WeightAt;
    if names != [] {
      var front := names[..|names| - 1];
      assert names[|names| - 1] in names && forall name :: name in front ==> name in names;
      DotUnchanged(parent, proposed, features, front);
    }
  }

  lemma ContributionDifference(a: real, b: real, x: real)
    ensures Contribution(b, x) - Contribution(a, x) == Contribution(b - a, x)
  {
  }

  lemma {:induction false} DotDiffers(parent: Payload, proposed: Payload, features: map<string, real>, names: seq<string>, name: string)
    requires Distinct(names) && name in names
    requires forall other :: other in names && other != name ==> WeightAt(parent, other) == WeightAt(proposed, other)
    ensures Dot(proposed, features, names) - Dot(parent, features, names)
         == Contribution(WeightAt(proposed, name) - WeightAt(parent, name), Feature(features, name))
  {
    hide Contribution, WeightAt, Feature;
    var front, last := names[..|names| - 1], names[|names| - 1];
    assert names == front + [last];
    assert forall other :: other in front ==> other in names;
    if last == name {
      assert forall i :: 0 <= i < |front| ==> front[i] != last;
      DotUnchanged(parent, proposed, features, front);
      ContributionDifference(WeightAt(parent, name), WeightAt(proposed, name), Feature(features, name));
    } else {
      assert last in names;
      DotDiffers(parent, proposed, features, front, name);
    }
  }

  lemma AscendingNamesDistinct(names: seq<string>)
    requires Ascending(StringLess, names)
    ensures Distinct(names)
  {
    hide LexLess;
    StringOrder();
  }

  /** A one-leaf change moves the unclamped score by the change times the leaf's influence. */
  lemma LinearDifference(parent: Payload, proposed: Payload, features: map<string, real>, leaf: Leaf)
    requires DifferOnlyAt(parent, proposed, leaf)
    ensures HasLeaf(parent, leaf) && HasLeaf(proposed, leaf)
    ensures var names := Listing(parent.weights.Keys);
      (proposed.bias.value + Dot(proposed, features, names)) - (parent.bias.value + Dot(parent, features, names))
      == Contribution(LeafAt(proposed, leaf).value - LeafAt(parent, leaf).value, Influence(leaf, features))
  {
    hide StringLess, Contribution, Dot;
    var names := Listing(parent.weights.Keys);
    AscendingNamesDistinct(names);
    forall name | name in names && leaf != Weight(name)
      ensures WeightAt(parent, name) == WeightAt(proposed, name)
    {
      assert HasLeaf(parent, Weight(name));
      assert LeafAt(parent, Weight(name)) == LeafAt(proposed, Weight(name));
    }
    match leaf {
      case Bias =>
        DotUnchanged(parent, proposed, features, names);
        assert Contribution(proposed.bias.value - parent.bias.value, 1.0) == proposed.bias.value - parent.bias.value by {
          TimesOne(proposed.bias.value - parent.bias.value);
        }
      case Weight(name) =>
        assert HasLeaf(parent, Bias) && LeafAt(parent, Bias) == LeafAt(proposed, Bias);
        DotDiffers(parent, proposed, features, names, name);
    }
  }

  lemma TimesOne(x: real)
    ensures Contribution(x, 1.0) == x
  {
  }

  lemma ClampContracts(x: real, y: real)
    ensures Abs(ClampScore(x) - ClampScore(y)) <= Abs(x - y)
  {
  }

  lemma AbsOfProduct(a: real, b: real)
    ensures Abs(Contribution(a, b)) == Contribution(Abs(a), Abs(b))
  {
  }

  /** Where both scores are strictly inside the scale they differ by exactly the change times the influence. */
  lemma UnclampedScoreMovesExactly(parent: Payload, proposed: Payload, features: map<string, real>, leaf: Leaf)
    requires DifferOnlyAt(parent, proposed, leaf)
    requires 0.0 < ExactScore(parent, features) < 100.0 && 0.0 < ExactScore(proposed, features) < 100.0
    ensures var change := LeafAt(proposed, leaf).value - LeafAt(parent, leaf).value;
      ExactScore(proposed, features) - ExactScore(parent, features)
      == match leaf {
           case Bias => change
           case Weight(name) => if name in features then change * features[name] else 0.0
         }
  {
    hide StringLess, Dot, LeafAt;
    LinearDifference(parent, proposed, features, leaf);
    TimesOne(LeafAt(proposed, leaf).value - LeafAt(parent, leaf).value);
  }

  lemma {:induction false} NothingAdded(p: Payload, features: map<string, real>, names: seq<string>)
    requires forall name :: name in names ==> name !in features
    ensures Dot(p, features, names) == 0.0
  {
    if names != [] {
      var front := names[..|names| - 1];
      assert names[|names| - 1] in names && forall name :: name in front ==> name in names;
      NothingAdded(p, features, front);
    }
  }

  /** Features the evaluator does not weigh and weights without a feature leave the bias, clamped to the scale. */
  lemma UnweighedFeaturesLeaveTheBias(p: Payload, features: map<string, real>)
    requires forall name :: name in p.weights ==> name !in features
    ensures ExactScore(p, features)
      == if p.bias.value < 0.0 then 0.0 else if p.bias.value > 100.0 then 100.0 else p.bias.value
  {
    hide StringLess, Dot;
    NothingAdded(p, features, Listing(p.weights.Keys));
  }

  /** Both scores exist, and they differ by at most the change times the leaf's influence. */
  ghost predicate ScoreMoves(parent: Payload, proposed: Payload, features: map<string, real>, leaf: Leaf) {
    var change := LeafAt(proposed, leaf).value - LeafAt(parent, leaf).value;
    var bound := Contribution(Abs(change), Abs(Influence(leaf, features)));
    && Abs(ExactScore(proposed, features) - ExactScore(parent, features)) <= bound
    && ScoreOutcome(parent, features).Ok? && ScoreOutcome(proposed, features).Ok?
    && Abs(ValueOf(ScoreOutcome(proposed, features).value) - ValueOf(ScoreOutcome(parent, features).value)) <= bound + ValueOf(1)
  }

  /** The exact score moves within the bound, the quantized score within one unit more. */
  lemma OneLeafBoundsScore(parent: Payload, proposed: Payload, features: map<string, real>, leaf: Leaf)
    requires DifferOnlyAt(parent, proposed, leaf)
    requires ValidPayload(parent) && ValidPayload(proposed) && ValidFeatures(features)
    ensures ScoreMoves(parent, proposed, features, leaf)
  {
    hide ValidPayload, ValidFeatures, StringLess, Contribution, Dot, LeafAt, Influence;
    LinearDifference(parent, proposed, features, leaf);
    var names := Listing(parent.weights.Keys);
    var before, after := parent.bias.value + Dot(parent, features, names), proposed.bias.value + Dot(proposed, features, names);
    var change := LeafAt(proposed, leaf).value - LeafAt(parent, leaf).value;
    ClampContracts(after, before);
    AbsOfProduct(change, Influence(leaf, features));
    QuantizeLipschitz(ExactScore(proposed, features), ExactScore(parent, features),
      Contribution(Abs(change), Abs(Influence(leaf, features))));
  }

  /**
   An accepted candidate moves the score of any feature map by at most the declared change times
   the influence of the declared leaf: one for the bias, the feature's value for a weight.
   */
  lemma AcceptedChangeBoundsScore(c: Proposal, parent: Payload, proposed: Payload, schema: string, features: map<string, real>)
    requires ChangeOutcome(c, parent, proposed, schema).Ok? && ValidFeatures(features)
    ensures exists leaf :: Declares(c, parent, proposed, leaf) && ScoreMoves(parent, proposed, features, leaf)
  {
    hide ValidPayload, ValidFeatures, ScoreMoves, ChangeOutcome, DifferOnlyAt, Declares, KnownSchema, WellDeclared;
    AcceptedExactlyOneLeaf(c, parent, proposed, schema);
    var leaf :| DifferOnlyAt(parent, proposed, leaf) && Declares(c, parent, proposed, leaf);
    OneLeafBoundsScore(parent, proposed, features, leaf);
  }
}

/**
 The three splits partition the frozen records, and it does not matter how the rows were divided
 among source exports.
 */
module SourceTheorems {
  import opened Dataset
  import opened DatasetLaws
  import opened DatasetTheorems
  import opened Freezing
  import opened Ordering
  import opened Outcomes

  // ----- the splits partition the records

  /** What a split file of a frozen dataset contains. */
  ghost predicate HoldsExactly<R(!new)>(f: Format<R>, seed: int, name: Split, split: FrozenSplit, inputs: seq<R>) {
    var parsed := ParseOutcome(f, split.data, MAX_RECORDS, true);
    && split.name == name && parsed.Ok? && |parsed.value| == split.recordCount
    && Ascending(StringLess, Ids(f, parsed.value))
    && (forall i :: 0 <= i < |parsed.value| ==> SplitOf(f, seed, f.id(parsed.value[i])) == name)
    && (forall r :: r in inputs && SplitOf(f, seed, f.id(r)) == name ==> Present(f, r, parsed.value))
  }

  ghost predicate Present<R>(f: Format<R>, r: R, rs: seq<R>) {
    exists i :: 0 <= i < |rs| && f.id(rs[i]) == f.id(r) && f.encode(rs[i]) == f.encode(r)
  }

  lemma SplitHoldsExactly<R(!new)>(f: Format<R>, seed: int, name: Split, inputs: seq<R>)
    requires Lawful(f) && Writable(f, inputs) && Distinct(Ids(f, inputs)) && |inputs| <= MAX_RECORDS
    requires |Rows(f, inputs)| <= MAX_OUTPUT_BYTES
    ensures HoldsExactly(f, seed, name, SplitFile(f, seed, name, Sort(ById(f), inputs)), inputs)
  {
    hide Sort, Rows, SplitOf, Lawful, StringLess, ParseOutcome, Chosen;
    var s := Sort(ById(f), inputs);
    SortedById(f, inputs);
    SortedMembership(f, inputs);
    SameMembersWritable(f, inputs, s);
    SortRows(f, ById(f), inputs);
    ChosenCover(f, seed, s);
    ChosenAscends(f, seed, name, s);
    ChosenMembers(f, seed, name, s);
    ChosenWritable(f, seed, name, s);
    PermutedLength(inputs, s);
    var chosen := Chosen(f, seed, name, s);
    AscendingIdsDistinct(f, chosen);
    SplitSize(f, seed, name, s);
    FileReadsBack(f, chosen, MAX_RECORDS);
    var parsed := ParseOutcome(f, Rows(f, chosen), MAX_RECORDS, true).value;
    forall i | 0 <= i < |parsed|
      ensures SplitOf(f, seed, f.id(parsed[i])) == name
    {
      assert f.id(parsed[i]) == f.id(chosen[i]) && chosen[i] in chosen;
    }
    forall r | r in inputs && SplitOf(f, seed, f.id(r)) == name
      ensures Present(f, r, parsed)
    {
      assert r in chosen;
      var i :| 0 <= i < |chosen| && chosen[i] == r;
      assert f.id(parsed[i]) == f.id(chosen[i]) && f.encode(parsed[i]) == f.encode(chosen[i]);
    }
  }

  lemma SplitSize<R>(f: Format<R>, seed: int, name: Split, rs: seq<R>)
    ensures |Rows(f, Chosen(f, seed, name, rs))| <= |Rows(f, rs)|
  {
    hide Rows, Chosen;
    ChosenCover(f, seed, rs);
    match name {
      case Train =>
      case Validation =>
      case Test =>
    }
  }

  /** Every input record is in exactly the split its ID hashes to, and nothing else is in any split. */
  lemma SplitsPartition<R(!new)>(f: Format<R>, inputs: seq<R>, seed: int, maxRecords: int, maxOutput: int)
    requires Lawful(f) && FreezeOutcome(f, inputs, seed, maxRecords, maxOutput).Ok?
    ensures var ds := FreezeOutcome(f, inputs, seed, maxRecords, maxOutput).value;
      && (forall name: Split :: HoldsExactly(f, seed, name, SplitNamed(ds, name), inputs))
      && ds.train.recordCount + ds.validation.recordCount + ds.test.recordCount == ds.sourceRecordCount == |inputs|
  {
    hide FreezeOutcome, HoldsExactly, Lawful, Sort, Rows, Chosen;
    FreezeSucceedsExactly(f, inputs, seed, maxRecords, maxOutput);
    var s := Sort(ById(f), inputs);
    ChosenCover(f, seed, s);
    var ds := Assembled(f, seed, s);
    forall name: Split
      ensures HoldsExactly(f, seed, name, SplitNamed(ds, name), inputs)
    {
      SplitHoldsExactly(f, seed, name, inputs);
    }
  }

  /** A split file decodes, in ascending order of IDs, to exactly the inputs that were meant for it. */
  ghost predicate DecodesToExactly<R(!new)>(f: Format<R>, split: FrozenSplit, inputs: seq<R>, meant: R -> bool) {
    var parsed := ParseOutcome(f, split.data, MAX_RECORDS, true);
    && parsed.Ok? && |parsed.value| == split.recordCount && split.sha256 == f.sha256(split.data)
    && Ascending(StringLess, Ids(f, parsed.value))
    && (forall i :: 0 <= i < |parsed.value| ==> CameFrom(f, parsed.value[i], inputs, meant))
    && (forall r :: r in inputs && meant(r) ==> Present(f, r, parsed.value))
  }

  ghost predicate CameFrom<R(!new)>(f: Format<R>, parsed: R, inputs: seq<R>, meant: R -> bool) {
    exists r :: r in inputs && meant(r) && f.id(parsed) == f.id(r) && f.encode(parsed) == f.encode(r)
  }

  lemma SplitDecodesExactly<R(!new)>(f: Format<R>, seed: int, name: Split, inputs: seq<R>, meant: R -> bool)
    requires Lawful(f) && Writable(f, inputs) && Distinct(Ids(f, inputs)) && |inputs| <= MAX_RECORDS
    requires |Rows(f, inputs)| <= MAX_OUTPUT_BYTES
    requires forall r :: meant(r) <==> SplitOf(f, seed, f.id(r)) == name
    ensures DecodesToExactly(f, SplitFile(f, seed, name, Sort(ById(f), inputs)), inputs, meant)
  {
    hide Sort, Rows, SplitOf, Lawful, StringLess, ParseOutcome, Chosen;
    SplitHoldsExactly(f, seed, name, inputs);
    var s := Sort(ById(f), inputs);
    var chosen := Chosen(f, seed, name, s);
    SortedById(f, inputs);
    SortedMembership(f, inputs);
    SameMembersWritable(f, inputs, s);
    SortRows(f, ById(f), inputs);
    ChosenCover(f, seed, s);
    ChosenAscends(f, seed, name, s);
    ChosenMembers(f, seed, name, s);
    ChosenWritable(f, seed, name, s);
    PermutedLength(inputs, s);
    AscendingIdsDistinct(f, chosen);
    SplitSize(f, seed, name, s);
    FileReadsBack(f, chosen, MAX_RECORDS);
    var parsed := ParseOutcome(f, Rows(f, chosen), MAX_RECORDS, true).value;
    forall i | 0 <= i < |parsed|
      ensures CameFrom(f, parsed[i], inputs, meant)
    {
      assert chosen[i] in chosen && chosen[i] in inputs && meant(chosen[i]);
      assert f.id(parsed[i]) == f.id(chosen[i]) && f.encode(parsed[i]) == f.encode(chosen[i]);
    }
  }

  /**
   Where every record goes, by the number its seed and ID hash to: below eight tenths of 2^64 to the
   train file, below nine tenths to the validation file, the rest to the test file, which alone is sealed.
   */
  lemma BucketsDecideFiles<R(!new)>(f: Format<R>, inputs: seq<R>, seed: int, maxRecords: int, maxOutput: int)
    requires Lawful(f) && FreezeOutcome(f, inputs, seed, maxRecords, maxOutput).Ok?
    ensures var ds := FreezeOutcome(f, inputs, seed, maxRecords, maxOutput).value;
      && DecodesToExactly(f, ds.train, inputs, r => f.bucket(seed, f.id(r)) < 14757395258967641292)
      && DecodesToExactly(f, ds.validation, inputs,
           r => 14757395258967641292 <= f.bucket(seed, f.id(r)) < 16602069666338596454)
      && DecodesToExactly(f, ds.test, inputs, r => 16602069666338596454 <= f.bucket(seed, f.id(r)))
      && !ds.train.isSealed && !ds.validation.isSealed && ds.test.isSealed
      && ds.train.name == Train && ds.validation.name == Validation && ds.test.name == Test && ds.seed == seed
  {
    hide FreezeOutcome, DecodesToExactly, Lawful, Sort, Rows, Chosen;
    FreezeSucceedsExactly(f, inputs, seed, maxRecords, maxOutput);
    SplitDecodesExactly(f, seed, Train, inputs, r => f.bucket(seed, f.id(r)) < 14757395258967641292);
    SplitDecodesExactly(f, seed, Validation, inputs,
      r => 14757395258967641292 <= f.bucket(seed, f.id(r)) < 16602069666338596454);
    SplitDecodesExactly(f, seed, Test, inputs, r => 16602069666338596454 <= f.bucket(seed, f.id(r)));
  }

  /** The boundaries are eight and nine tenths of 2^64, rounded down: no train bucket lies above its share. */
  lemma BoundariesAreTenths(bucket: nat)
    ensures 10 * TRAIN_BOUNDARY <= 8 * 0x1_0000_0000_0000_0000 < 10 * (TRAIN_BOUNDARY + 1)
    ensures 10 * VALIDATION_BOUNDARY <= 9 * 0x1_0000_0000_0000_0000 < 10 * (VALIDATION_BOUNDARY + 1)
    ensures bucket < TRAIN_BOUNDARY ==> 10 * bucket < 8 * 0x1_0000_0000_0000_0000
  {
  }

  // ----- sources

  lemma {:induction false} InsertParallel<R>(f: Format<R>, x: R, y: R, s: seq<R>, t: seq<R>)
    requires f.id(x) == f.id(y) && f.encode(x) == f.encode(y) && SameRows(f, s, t)
    ensures SameRows(f, Insert(ById(f), x, s), Insert(ById(f), y, t))
  {
    hide StringLess;
    if s == [] {
      assert t == [];
    } else {
      assert f.id(s[0]) == f.id(t[0]) && f.encode(s[0]) == f.encode(t[0]);
      if !ById(f)(x, s[0]) {
        TailParallel(f, s, t);
        InsertParallel(f, x, y, s[1..], t[1..]);
      }
    }
  }

  lemma TailParallel<R>(f: Format<R>, s: seq<R>, t: seq<R>)
    requires s != [] && SameRows(f, s, t)
    ensures SameRows(f, s[1..], t[1..])
  {
  }

  lemma {:induction false} SortParallel<R>(f: Format<R>, s: seq<R>, t: seq<R>)
    requires SameRows(f, s, t)
    ensures SameRows(f, Sort(ById(f), s), Sort(ById(f), t))
  {
    hide Insert, ById;
    if s != [] {
      var n := |s| - 1;
      SortParallel(f, s[..n], t[..n]);
      InsertParallel(f, s[n], t[n], Sort(ById(f), s[..n]), Sort(ById(f), t[..n]));
    }
  }

  lemma {:induction false} ChosenParallel<R>(f: Format<R>, seed: int, name: Split, s: seq<R>, t: seq<R>)
    requires SameRows(f, s, t)
    ensures SameRows(f, Chosen(f, seed, name, s), Chosen(f, seed, name, t))
  {
    hide SplitOf;
    if s != [] {
      TailParallel(f, s, t);
      ChosenParallel(f, seed, name, s[1..], t[1..]);
    }
  }

  /** A dataset depends on its records only through their IDs and rows. */
  lemma RowsDecideDataset<R>(f: Format<R>, seed: int, a: seq<R>, b: seq<R>)
    requires SameRows(f, a, b)
    ensures Assembled(f, seed, a) == Assembled(f, seed, b)
  {
    hide Rows, Chosen, SameRows;
    forall name: Split
      ensures SplitFile(f, seed, name, a) == SplitFile(f, seed, name, b)
    {
      ChosenParallel(f, seed, name, a, b);
      SameRowsSameFile(f, Chosen(f, seed, name, a), Chosen(f, seed, name, b));
      SameCount(f, Chosen(f, seed, name, a), Chosen(f, seed, name, b));
    }
    SameCount(f, a, b);
  }

  lemma SameCount<R>(f: Format<R>, a: seq<R>, b: seq<R>)
    requires SameRows(f, a, b)
    ensures |a| == |b|
  {
  }

  function Flatten<R>(pieces: seq<seq<R>>): seq<R> {
    if pieces == [] then [] else Flatten(pieces[..|pieces| - 1]) + pieces[|pieces| - 1]
  }

  function Files<R>(f: Format<R>, pieces: seq<seq<R>>): (r: seq<string>)
    ensures |r| == |pieces|
  {
    seq(|pieces|, i requires 0 <= i < |pieces| => Rows(f, pieces[i]))
  }

  lemma {:induction false} FlattenPrefix<R>(pieces: seq<seq<R>>, k: nat)
    requires k <= |pieces|
    ensures Flatten(pieces[..k]) <= Flatten(pieces)
    decreases |pieces|
  {
    if k < |pieces| {
      var front := pieces[..|pieces| - 1];
      FlattenPrefix(front, k);
      assert front[..k] == pieces[..k];
    } else {
      assert pieces[..k] == pieces;
    }
  }

  lemma PiecePlace<R>(pieces: seq<seq<R>>, k: nat)
    requires 0 < k <= |pieces|
    ensures Flatten(pieces[..k]) == Flatten(pieces[..k - 1]) + pieces[k - 1]
  {
    assert pieces[..k][..k - 1] == pieces[..k - 1];
  }

  lemma PrefixRows<R>(f: Format<R>, a: seq<R>, b: seq<R>)
    requires a <= b
    ensures |Rows(f, a)| <= |Rows(f, b)|
  {
  }

  /** Whole exports within the limits: no piece is empty and no piece exceeds an artifact. */
  ghost predicate Exportable<R>(f: Format<R>, pieces: seq<seq<R>>, maxTotal: int, maxRecords: int) {
    && Writable(f, Flatten(pieces)) && Distinct(Ids(f, Flatten(pieces)))
    && |Flatten(pieces)| <= Min(maxRecords, MAX_RECORDS)
    && |Rows(f, Flatten(pieces))| <= Min(maxTotal, MAX_TOTAL_INPUT_BYTES)
    && forall i :: 0 <= i < |pieces| ==> pieces[i] != [] && |Rows(f, pieces[i])| <= MAX_ARTIFACT_BYTES
  }

  lemma PieceWritable<R>(f: Format<R>, all: seq<R>, before: seq<R>, piece: seq<R>)
    requires before + piece <= all && Writable(f, all) && Distinct(Ids(f, all))
    ensures Writable(f, piece) && Distinct(Ids(f, piece)) && !Overlap(Ids(f, piece), Ids(f, before))
  {
    var n := |before|;
    forall i | 0 <= i < |piece|
      ensures piece[i] == all[n + i] && Ids(f, piece)[i] == Ids(f, all)[n + i]
    {
      assert (before + piece)[n + i] == piece[i];
    }
    forall i | 0 <= i < n
      ensures Ids(f, before)[i] == Ids(f, all)[i]
    {
      assert (before + piece)[i] == before[i];
    }
  }

  lemma RowsNonEmpty<R>(f: Format<R>, rs: seq<R>)
    requires rs != []
    ensures Rows(f, rs) != ""
  {
  }

  lemma {:induction false} PiecesGather<R(!new)>(f: Format<R>, pieces: seq<seq<R>>, k: nat, maxTotal: int, maxRecords: int)
    requires Lawful(f) && Exportable(f, pieces, maxTotal, maxRecords) && k <= |pieces|
    ensures var gathered := Gathered(f, Files(f, pieces), k, maxTotal, maxRecords);
      gathered.Ok? && SameRows(f, gathered.value.records, Flatten(pieces[..k]))
      && gathered.value.bytes == |Rows(f, Flatten(pieces[..k]))|
      && forall i :: 0 <= i < |gathered.value.records| ==> f.valid(gathered.value.records[i])
  {
    hide Rows, Lawful, Distinct, TakeLines, Lines, Writable, SameRows, Overlap, Ids;
    if k > 0 {
      PiecesGather(f, pieces, k - 1, maxTotal, maxRecords);
      var all, before, piece := Flatten(pieces), Flatten(pieces[..k - 1]), pieces[k - 1];
      var tally := Gathered(f, Files(f, pieces), k - 1, maxTotal, maxRecords).value;
      PiecePlace(pieces, k);
      FlattenPrefix(pieces, k);
      PrefixRows(f, before + piece, all);
      RowsConcat(f, before, piece);
      PieceWritable(f, all, before, piece);
      SameCount(f, tally.records, before);
      RowsNonEmpty(f, piece);
      var remaining := Min(maxRecords, MAX_RECORDS) - |tally.records|;
      FileReadsBack(f, piece, remaining);
      var parsed := ParseOutcome(f, Rows(f, piece), remaining, true).value;
      assert ParseOutcome(f, Rows(f, piece), remaining, false) == Ok(parsed);
      ParsedValid(f, Rows(f, piece), remaining);
      SameRowsSameFile(f, tally.records, before);
      ConcatParallel(f, tally.records, before, parsed, piece);
    } else {
      NoRows(f);
    }
  }

  lemma NoRows<R>(f: Format<R>)
    ensures Rows(f, []) == "" && SameRows(f, [], [])
  {
  }

  lemma ParsedValid<R(!new)>(f: Format<R>, data: string, limit: int)
    requires Lawful(f) && ParseOutcome(f, data, limit, true).Ok?
    ensures forall i :: 0 <= i < |ParseOutcome(f, data, limit, true).value| ==> f.valid(ParseOutcome(f, data, limit, true).value[i])
  {
    hide TakeLines, Lines, Lawful;
    TakenLines(f, Lines(data), |Lines(data)|, limit);
  }

  lemma ConcatParallel<R>(f: Format<R>, a: seq<R>, b: seq<R>, x: seq<R>, y: seq<R>)
    requires SameRows(f, a, b) && SameRows(f, x, y)
    ensures SameRows(f, a + x, b + y)
  {
  }

  lemma {:induction false} GatheredValid<R(!new)>(f: Format<R>, sources: seq<string>, k: nat, maxTotal: int, maxRecords: int)
    requires Lawful(f) && k <= |sources| && Gathered(f, sources, k, maxTotal, maxRecords).Ok?
    ensures forall r :: r in Gathered(f, sources, k, maxTotal, maxRecords).value.records ==> f.valid(r)
  {
    hide TakeLines, Lines, Lawful, Overlap, Ids;
    if k > 0 {
      GatheredValid(f, sources, k - 1, maxTotal, maxRecords);
      var tally := Gathered(f, sources, k - 1, maxTotal, maxRecords).value;
      ParsedValid(f, sources[k - 1], Min(maxRecords, MAX_RECORDS) - |tally.records|);
    }
  }

  lemma FreezableParallel<R>(f: Format<R>, a: seq<R>, b: seq<R>, seed: int, maxRecords: int, maxOutput: int)
    requires SameRows(f, a, b) && forall r :: r in b ==> f.valid(r)
    requires Freezable(f, a, seed, maxRecords, maxOutput)
    ensures Freezable(f, b, seed, maxRecords, maxOutput)
  {
    hide Rows;
    SameRowsSameFile(f, a, b);
    assert Ids(f, a) == Ids(f, b);
    forall i | 0 <= i < |b|
      ensures f.valid(b[i]) && |f.encode(b[i])| <= MAX_JSONL_LINE_BYTES
    {
      assert b[i] in b && f.encode(a[i]) == f.encode(b[i]);
    }
  }

  lemma ParallelRecordsFreezeAlike<R(!new)>(f: Format<R>, a: seq<R>, b: seq<R>, seed: int, maxRecords: int, maxOutput: int)
    requires Lawful(f) && SameRows(f, a, b)
    requires (forall r :: r in a ==> f.valid(r)) && (forall r :: r in b ==> f.valid(r))
    ensures FreezeOutcome(f, a, seed, maxRecords, maxOutput).Ok? <==> FreezeOutcome(f, b, seed, maxRecords, maxOutput).Ok?
    ensures FreezeOutcome(f, a, seed, maxRecords, maxOutput).Ok? ==>
      FreezeOutcome(f, a, seed, maxRecords, maxOutput) == FreezeOutcome(f, b, seed, maxRecords, maxOutput)
  {
    hide FreezeOutcome, Freezable, Lawful, Assembled, Sort;
    FreezeSucceedsExactly(f, a, seed, maxRecords, maxOutput);
    FreezeSucceedsExactly(f, b, seed, maxRecords, maxOutput);
    assert SameRows(f, b, a);
    if Freezable(f, a, seed, maxRecords, maxOutput) {
      FreezableParallel(f, a, b, seed, maxRecords, maxOutput);
      SortParallel(f, a, b);
      RowsDecideDataset(f, seed, Sort(ById(f), a), Sort(ById(f), b));
    } else if Freezable(f, b, seed, maxRecords, maxOutput) {
      FreezableParallel(f, b, a, seed, maxRecords, maxOutput);
    }
  }

  /**
   Any two lists of exports that parse: if the records of the one, taken in some order, have the IDs
   and rows of the records of the other, both freeze to the same dataset or neither freezes. Spacing,
   key order, number spellings, record order and the division into exports leave no trace.
   */
  lemma RecordsDecideSources<R(!new)>(
    f: Format<R>, left: seq<string>, right: seq<string>, reordered: seq<R>, seed: int, maxTotal: int, maxRecords: int, maxOutput: int)
    requires Lawful(f)
    requires Gathered(f, left, |left|, maxTotal, maxRecords).Ok? && Gathered(f, right, |right|, maxTotal, maxRecords).Ok?
    requires multiset(reordered) == multiset(Gathered(f, left, |left|, maxTotal, maxRecords).value.records)
    requires SameRows(f, reordered, Gathered(f, right, |right|, maxTotal, maxRecords).value.records)
    ensures FreezeSourcesOutcome(f, left, seed, maxTotal, maxRecords, maxOutput).Ok?
      <==> FreezeSourcesOutcome(f, right, seed, maxTotal, maxRecords, maxOutput).Ok?
    ensures FreezeSourcesOutcome(f, left, seed, maxTotal, maxRecords, maxOutput).Ok? ==>
      FreezeSourcesOutcome(f, left, seed, maxTotal, maxRecords, maxOutput)
      == FreezeSourcesOutcome(f, right, seed, maxTotal, maxRecords, maxOutput)
  {
    hide FreezeOutcome, Freezable, Lawful, Gathered, SameRows;
    var a := Gathered(f, left, |left|, maxTotal, maxRecords).value.records;
    var b := Gathered(f, right, |right|, maxTotal, maxRecords).value.records;
    GatheredValid(f, left, |left|, maxTotal, maxRecords);
    GatheredValid(f, right, |right|, maxTotal, maxRecords);
    forall r | r in reordered
      ensures f.valid(r)
    {
      assert r in multiset(reordered);
      assert r in a;
    }
    FreezeSucceedsExactly(f, a, seed, maxRecords, maxOutput);
    FreezeSucceedsExactly(f, reordered, seed, maxRecords, maxOutput);
    OrderDoesNotMatter(f, a, reordered, seed, maxRecords, maxOutput);
    ParallelRecordsFreezeAlike(f, reordered, b, seed, maxRecords, maxOutput);
  }

  /** Freezing exports gives what freezing their rows in one go gives, however they were divided. */
  lemma DivisionDoesNotMatter<R(!new)>(f: Format<R>, pieces: seq<seq<R>>, seed: int, maxTotal: int, maxRecords: int, maxOutput: int)
    requires Lawful(f) && Exportable(f, pieces, maxTotal, maxRecords)
    requires maxTotal >= 1 && FreezeOutcome(f, Flatten(pieces), seed, maxRecords, maxOutput).Ok?
    ensures FreezeSourcesOutcome(f, Files(f, pieces), seed, maxTotal, maxRecords, maxOutput)
         == FreezeOutcome(f, Flatten(pieces), seed, maxRecords, maxOutput)
  {
    hide FreezeOutcome, Lawful, Rows, Gathered, Assembled, Ids, Distinct, Sort;
    PiecesGather(f, pieces, |pieces|, maxTotal, maxRecords);
    assert pieces[..|pieces|] == pieces;
    var all := Flatten(pieces);
    var records := Gathered(f, Files(f, pieces), |pieces|, maxTotal, maxRecords).value.records;
    FreezeSucceedsExactly(f, all, seed, maxRecords, maxOutput);
    SameRowsSameFile(f, records, all);
    FreezeSucceedsExactly(f, records, seed, maxRecords, maxOutput);
    SortParallel(f, records, all);
    RowsDecideDataset(f, seed, Sort(ById(f), records), Sort(ById(f), all));
  }
}

/** What freezing and verifying promise over all inputs. */
module DatasetTheorems {
  import opened Dataset
  import opened DatasetLaws
  import opened Freezing
  import opened Ordering
  import opened Outcomes

  // ----- when each loop succeeds

  lemma {:induction false} CollectedExactly<R>(f: Format<R>, inputs: seq<R>, k: nat, limit: int)
    requires k <= |inputs| && limit >= 1
    ensures Collected(f, inputs, k, limit).Ok? <==>
      k <= Min(limit, MAX_RECORDS) && (forall i :: 0 <= i < k ==> f.valid(inputs[i])) && Distinct(Ids(f, inputs)[..k])
    ensures Collected(f, inputs, k, limit).Ok? ==> Collected(f, inputs, k, limit).value == inputs[..k]
  {
    if k > 0 {
      CollectedExactly(f, inputs, k - 1, limit);
      assert inputs[..k] == inputs[..k - 1] + [inputs[k - 1]];
      assert Ids(f, inputs[..k - 1]) == Ids(f, inputs)[..k - 1];
      OneMoreDistinct(Ids(f, inputs), k);
    }
  }

  lemma OneMoreDistinct<T>(s: seq<T>, k: nat)
    requires 0 < k <= |s|
    ensures Distinct(s[..k]) <==> Distinct(s[..k - 1]) && s[k - 1] !in s[..k - 1]
  {
  }

  lemma {:induction false} RowsExactly<R>(f: Format<R>, rs: seq<R>, k: nat, maxOutput: int)
    requires k <= |rs| && maxOutput >= 1
    ensures RowsOutcome(f, rs, k, maxOutput).Ok? <==>
      && (forall i :: 0 <= i < k ==> |f.encode(rs[i])| <= MAX_JSONL_LINE_BYTES)
      && |Rows(f, rs[..k])| <= Min(maxOutput, MAX_OUTPUT_BYTES)
    ensures RowsOutcome(f, rs, k, maxOutput).Ok? ==> RowsOutcome(f, rs, k, maxOutput).value == |Rows(f, rs[..k])|
  {
    if k > 0 {
      RowsExactly(f, rs, k - 1, maxOutput);
      assert rs[..k] == rs[..k - 1] + [rs[k - 1]];
      RowsConcat(f, rs[..k - 1], [rs[k - 1]]);
      assert Rows(f, [rs[k - 1]]) == f.encode(rs[k - 1]) + "\n" by {
        assert [rs[k - 1]][1..] == [];
      }
    }
  }

  lemma {:induction false} InsertRows<R>(f: Format<R>, less: (R, R) -> bool, x: R, s: seq<R>)
    ensures |Rows(f, Insert(less, x, s))| == |Rows(f, s)| + |f.encode(x)| + 1
  {
    if s == [] {
      assert [x][1..] == s;
    } else if less(x, s[0]) {
      assert ([x] + s)[1..] == s;
    } else {
      InsertRows(f, less, x, s[1..]);
      assert ([s[0]] + Insert(less, x, s[1..]))[1..] == Insert(less, x, s[1..]);
    }
  }

  lemma {:induction false} SortRows<R>(f: Format<R>, less: (R, R) -> bool, s: seq<R>)
    ensures |Rows(f, Sort(less, s))| == |Rows(f, s)|
  {
    if s != [] {
      var front, last := s[..|s| - 1], s[|s| - 1];
      SortRows(f, less, front);
      InsertRows(f, less, last, Sort(less, front));
      assert s == front + [last];
      RowsConcat(f, front, [last]);
      assert Rows(f, [last]) == f.encode(last) + "\n" by {
        assert [last][1..] == [];
      }
    }
  }

  /** The conditions under which records can be frozen; each can be checked before the call. */
  ghost predicate Freezable<R>(f: Format<R>, inputs: seq<R>, seed: int, maxRecords: int, maxOutput: int) {
    && SeedValid(seed) && maxRecords >= 1 && maxOutput >= 1
    && 1 <= |inputs| <= Min(maxRecords, MAX_RECORDS)
    && Writable(f, inputs)
    && Distinct(Ids(f, inputs))
    && |Rows(f, inputs)| <= Min(maxOutput, MAX_OUTPUT_BYTES)
  }

  lemma SameMembersWritable<R>(f: Format<R>, a: seq<R>, b: seq<R>)
    requires multiset(a) == multiset(b) && Writable(f, a)
    ensures Writable(f, b)
  {
    forall i | 0 <= i < |b|
      ensures f.valid(b[i]) && |f.encode(b[i])| <= MAX_JSONL_LINE_BYTES
    {
      assert b[i] in multiset(b);
      assert b[i] in multiset(a);
    }
  }

  lemma SortedLinesFit<R>(f: Format<R>, a: seq<R>, b: seq<R>)
    requires multiset(a) == multiset(b)
    ensures (forall i :: 0 <= i < |a| ==> |f.encode(a[i])| <= MAX_JSONL_LINE_BYTES)
        ==> forall i :: 0 <= i < |b| ==> |f.encode(b[i])| <= MAX_JSONL_LINE_BYTES
  {
    forall i | 0 <= i < |b|
      ensures b[i] in a
    {
      assert b[i] in multiset(b);
      assert b[i] in multiset(a);
    }
  }

  /**
   Freezing succeeds exactly on freezable records, the closing check never being what fails, and
   then holds the records sorted by ID.
   */
  lemma FreezeSucceedsExactly<R(!new)>(f: Format<R>, inputs: seq<R>, seed: int, maxRecords: int, maxOutput: int)
    requires Lawful(f)
    ensures FreezeOutcome(f, inputs, seed, maxRecords, maxOutput).Ok? <==> Freezable(f, inputs, seed, maxRecords, maxOutput)
    ensures Freezable(f, inputs, seed, maxRecords, maxOutput) ==>
      FreezeOutcome(f, inputs, seed, maxRecords, maxOutput) == Ok(Assembled(f, seed, Sort(ById(f), inputs)))
  {
    hide Collected, RowsOutcome, Sort, Rows, VerifyOutcome, Assembled, Lawful, Ids, Ascending, Distinct;
    if SeedValid(seed) && maxRecords >= 1 && maxOutput >= 1 {
      CollectedExactly(f, inputs, |inputs|, maxRecords);
      assert inputs[..|inputs|] == inputs && Ids(f, inputs)[..|inputs|] == Ids(f, inputs);
      if Collected(f, inputs, |inputs|, maxRecords).Ok? && inputs != [] {
        var sorted := Sort(ById(f), inputs);
        SortedById(f, inputs);
        SortRows(f, ById(f), inputs);
        RowsExactly(f, sorted, |sorted|, maxOutput);
        assert sorted[..|sorted|] == sorted;
        SortedLinesFit(f, inputs, sorted);
        SortedLinesFit(f, sorted, inputs);
        if RowsOutcome(f, sorted, |sorted|, maxOutput).Ok? {
          SameMembersWritable(f, inputs, sorted);
          ClosingCheckPasses(f, seed, sorted);
        }
      }
    }
  }

  // ----- the input order does not matter

  lemma PermutedDistinct<R>(f: Format<R>, a: seq<R>, b: seq<R>)
    requires multiset(a) == multiset(b) && Distinct(Ids(f, a))
    ensures Distinct(Ids(f, b))
  {
    forall i, j | 0 <= i < j < |a|
      ensures a[i] != a[j]
    {
      assert Ids(f, a)[i] != Ids(f, a)[j];
    }
    forall i, j | 0 <= i < j < |b|
      ensures Ids(f, b)[i] != Ids(f, b)[j]
    {
      assert b[i] in multiset(b) && b[j] in multiset(b);
      assert b[i] in multiset(a) && b[j] in multiset(a);
      var p :| 0 <= p < |a| && a[p] == b[i];
      var q :| 0 <= q < |a| && a[q] == b[j];
      assert Ids(f, a)[p] == f.id(b[i]) && Ids(f, a)[q] == f.id(b[j]);
      if b[i] == b[j] {
        SplitTwice(b, i, j);
        TwoPlaces(a, b[i]);
      }
    }
  }

  /** Records frozen in another order give the same dataset, or are refused in both orders. */
  lemma OrderDoesNotMatter<R(!new)>(f: Format<R>, a: seq<R>, b: seq<R>, seed: int, maxRecords: int, maxOutput: int)
    requires Lawful(f) && multiset(a) == multiset(b)
    ensures Freezable(f, a, seed, maxRecords, maxOutput) <==> Freezable(f, b, seed, maxRecords, maxOutput)
    ensures FreezeOutcome(f, a, seed, maxRecords, maxOutput).Ok? ==>
      FreezeOutcome(f, b, seed, maxRecords, maxOutput) == FreezeOutcome(f, a, seed, maxRecords, maxOutput)
  {
    hide Sort, Rows, Lawful, Ids, Distinct, FreezeOutcome, Assembled, Writable;
    PermutedLength(a, b);
    if Distinct(Ids(f, a)) || Distinct(Ids(f, b)) {
      if Distinct(Ids(f, a)) {
        PermutedDistinct(f, a, b);
      } else {
        PermutedDistinct(f, b, a);
      }
      SortedAlike(f, a, b);
      SortRows(f, ById(f), a);
      SortRows(f, ById(f), b);
    }
    if Writable(f, a) {
      SameMembersWritable(f, a, b);
    } else if Writable(f, b) {
      SameMembersWritable(f, b, a);
    }
    FreezeSucceedsExactly(f, a, seed, maxRecords, maxOutput);
    FreezeSucceedsExactly(f, b, seed, maxRecords, maxOutput);
  }

  lemma PermutedLength<T>(a: seq<T>, b: seq<T>)
    requires multiset(a) == multiset(b)
    ensures |a| == |b|
  {
    assert |multiset(a)| == |a| && |multiset(b)| == |b|;
  }

  lemma SortedAlike<R(!new)>(f: Format<R>, a: seq<R>, b: seq<R>)
    requires multiset(a) == multiset(b) && Distinct(Ids(f, a)) && Distinct(Ids(f, b))
    ensures Sort(ById(f), a) == Sort(ById(f), b)
  {
    hide Sort, StringLess;
    SortedById(f, a);
    SortedById(f, b);
    ByIdOrder(f);
    var s, t := Sort(ById(f), a), Sort(ById(f), b);
    forall r
      ensures r in s <==> r in t
    {
      assert r in multiset(s) <==> r in multiset(t);
    }
    AscendingUnique(ById(f), s, t);
  }

  // ----- the checker accepts only frozen datasets

  lemma {:induction false} TakenLines<R(!new)>(f: Format<R>, lines: seq<string>, k: nat, limit: int)
    requires Lawful(f) && k <= |lines| && TakeLines(f, lines, k, limit).Ok?
    ensures var rs := TakeLines(f, lines, k, limit).value;
      && |rs| == k && (k > 0 ==> k <= Min(limit, MAX_RECORDS))
      && (forall i :: 0 <= i < k ==> f.valid(rs[i]) && |lines[i]| <= MAX_JSONL_LINE_BYTES)
  {
    if k > 0 {
      TakenLines(f, lines, k - 1, limit);
    }
  }

  /** The records of a split file that passed the checker's parse and canonicality checks. */
  lemma CanonicalFile<R(!new)>(f: Format<R>, data: string)
    requires Lawful(f) && ParseOutcome(f, data, MAX_RECORDS, true).Ok?
    requires Rows(f, ParseOutcome(f, data, MAX_RECORDS, true).value) == data
    ensures var rs := ParseOutcome(f, data, MAX_RECORDS, true).value;
      Writable(f, rs) && Distinct(Ids(f, rs)) && |rs| <= MAX_RECORDS
  {
    hide Lines, TakeLines, Rows, Lawful, Distinct, Ids;
    var rs := ParseOutcome(f, data, MAX_RECORDS, true).value;
    TakenLines(f, Lines(data), |Lines(data)|, MAX_RECORDS);
    ParsedDistinct(f, Lines(data), |Lines(data)|, MAX_RECORDS);
    FramingRoundTrip(f, rs);
    forall i | 0 <= i < |rs|
      ensures |f.encode(rs[i])| <= MAX_JSONL_LINE_BYTES
    {
      assert Lines(data)[i] == Encoded(f, rs)[i];
    }
  }

  lemma SortedDistinctAscends<R(!new)>(f: Format<R>, rs: seq<R>)
    requires Ids(f, rs) == Sort(StringLess, Ids(f, rs)) && Distinct(Ids(f, rs))
    ensures Ascending(ById(f), rs)
  {
    hide Sort, LexLess;
    ByIdOrder(f);
    SortSorts(StringLess, Ids(f, rs));
    forall i, j | 0 <= i < j < |rs|
      ensures ById(f)(rs[i], rs[j])
    {
      assert Ids(f, rs)[i] != Ids(f, rs)[j] && !StringLess(Ids(f, rs)[j], Ids(f, rs)[i]);
      assert Ids(f, rs)[i] == f.id(rs[i]) && Ids(f, rs)[j] == f.id(rs[j]);
    }
  }

  lemma {:induction false} NoFaultMembers<R>(f: Format<R>, seed: int, name: Split, rs: seq<R>, k: nat, seen: seq<string>)
    requires k <= |rs| && IdsFault(f, seed, name, rs, k, seen) == None
    ensures forall i :: 0 <= i < k ==> SplitOf(f, seed, f.id(rs[i])) == name
  {
    hide SplitOf;
    if k > 0 {
      NoFaultMembers(f, seed, name, rs, k - 1, seen);
    }
  }

  /** What an accepted split consists of. */
  ghost predicate Accepted<R>(f: Format<R>, seed: int, split: FrozenSplit, name: Split, rs: seq<R>) {
    && split == FrozenSplit(name, Rows(f, rs), f.sha256(Rows(f, rs)), |rs|, name == Test)
    && Writable(f, rs) && Ascending(ById(f), rs)
    && forall i :: 0 <= i < |rs| ==> SplitOf(f, seed, f.id(rs[i])) == name
  }

  lemma AcceptedSplit<R(!new)>(f: Format<R>, seed: int, split: FrozenSplit, name: Split, tally: Tally<R>) returns (rs: seq<R>)
    requires Lawful(f) && SplitOutcome(f, seed, split, name, tally).Ok?
    ensures SplitOutcome(f, seed, split, name, tally).value == Tally(tally.records + rs, tally.bytes + |split.data|)
    ensures tally.bytes + |split.data| <= MAX_OUTPUT_BYTES
    ensures Accepted(f, seed, split, name, rs)
  {
    hide ParseOutcome, Rows, Sort, IdsFault, Lawful, Ids, Distinct, Ascending, Writable, SplitOf;
    rs := ParseOutcome(f, split.data, MAX_RECORDS, true).value;
    CanonicalFile(f, split.data);
    SortedDistinctAscends(f, rs);
    NoFaultMembers(f, seed, name, rs, |rs|, Ids(f, tally.records));
  }

  /** Taking the split's records out of all of them finds exactly the split's file. */
  lemma ChosenIsSplit<R(!new)>(f: Format<R>, seed: int, name: Split, all: seq<R>, rs: seq<R>)
    requires Ascending(ById(f), all) && Ascending(ById(f), rs)
    requires forall r :: r in rs <==> r in all && SplitOf(f, seed, f.id(r)) == name
    ensures Chosen(f, seed, name, all) == rs
  {
    hide SplitOf, StringLess, Ascending, Chosen;
    ByIdOrder(f);
    ChosenAscends(f, seed, name, all);
    ChosenMembers(f, seed, name, all);
    AscendingUnique(ById(f), Chosen(f, seed, name, all), rs);
  }

  lemma DisjointDistinct<R(!new)>(f: Format<R>, seed: int, a: seq<R>, b: seq<R>, c: seq<R>)
    requires Ascending(ById(f), a) && Ascending(ById(f), b) && Ascending(ById(f), c)
    requires forall i :: 0 <= i < |a| ==> SplitOf(f, seed, f.id(a[i])) == Train
    requires forall i :: 0 <= i < |b| ==> SplitOf(f, seed, f.id(b[i])) == Validation
    requires forall i :: 0 <= i < |c| ==> SplitOf(f, seed, f.id(c[i])) == Test
    ensures Distinct(Ids(f, a + b + c))
  {
    hide SplitOf, Ascending, ById;
    AscendingIdsDistinct(f, a);
    AscendingIdsDistinct(f, b);
    AscendingIdsDistinct(f, c);
    var x, y, z := Ids(f, a), Ids(f, b), Ids(f, c);
    assert Ids(f, a + b + c) == x + y + z;
    forall i, j | 0 <= i < |x| && 0 <= j < |y| ensures x[i] != y[j] {}
    forall i, j | 0 <= i < |x| && 0 <= j < |z| ensures x[i] != z[j] {}
    forall i, j | 0 <= i < |y| && 0 <= j < |z| ensures y[i] != z[j] {}
  }

  lemma ThreeWritable<R>(f: Format<R>, a: seq<R>, b: seq<R>, c: seq<R>)
    requires Writable(f, a) && Writable(f, b) && Writable(f, c)
    ensures Writable(f, a + b + c) && |Rows(f, a + b + c)| == |Rows(f, a)| + |Rows(f, b)| + |Rows(f, c)|
  {
    hide Rows;
    RowsConcat(f, a + b, c);
    RowsConcat(f, a, b);
  }

  /** A verified dataset is what freezing its own decoded records with its own seed gives. */
  lemma VerifiedIsFrozen<R(!new)>(f: Format<R>, ds: FrozenDataset)
    requires Lawful(f) && VerifyOutcome(f, ds).Ok?
    ensures FreezeOutcome(f, VerifyOutcome(f, ds).value, ds.seed, MAX_RECORDS, MAX_OUTPUT_BYTES) == Ok(ds)
  {
    hide SplitOutcome, FreezeOutcome, Lawful, Sort, Rows, SplitOf, Ascending, Writable, Distinct, Ids, Chosen, ById;
    ThreeSplits(f, ds);
    var start: Tally<R> := Tally([], 0);
    var a := AcceptedSplit(f, ds.seed, ds.train, Train, start);
    var one := SplitOutcome(f, ds.seed, ds.train, Train, start).value;
    var b := AcceptedSplit(f, ds.seed, ds.validation, Validation, one);
    var two := SplitOutcome(f, ds.seed, ds.validation, Validation, one).value;
    var c := AcceptedSplit(f, ds.seed, ds.test, Test, two);
    var all := a + b + c;
    assert VerifyOutcome(f, ds).value == all;
    DisjointDistinct(f, ds.seed, a, b, c);
    ThreeWritable(f, a, b, c);
    SortedById(f, all);
    FreezeSucceedsExactly(f, all, ds.seed, MAX_RECORDS, MAX_OUTPUT_BYTES);
    SortedMembership(f, all);
    var s := Sort(ById(f), all);
    ChosenIsSplit(f, ds.seed, Train, s, a);
    ChosenIsSplit(f, ds.seed, Validation, s, b);
    ChosenIsSplit(f, ds.seed, Test, s, c);
  }

  lemma SortedMembership<R(!new)>(f: Format<R>, rs: seq<R>)
    requires multiset(Sort(ById(f), rs)) == multiset(rs)
    ensures forall r :: r in Sort(ById(f), rs) <==> r in rs
  {
    hide Sort;
    forall r
      ensures r in Sort(ById(f), rs) <==> r in rs
    {
      assert r in multiset(Sort(ById(f), rs)) <==> r in multiset(rs);
    }
  }

  /** The checker accepts a dataset exactly when freezing some records with its seed emits it. */
  lemma VerifiesExactlyFrozen<R(!new)>(f: Format<R>, ds: FrozenDataset)
    requires Lawful(f)
    ensures VerifyOutcome(f, ds).Ok? <==>
      exists rs: seq<R> :: FreezeOutcome(f, rs, ds.seed, MAX_RECORDS, MAX_OUTPUT_BYTES) == Ok(ds)
  {
    hide VerifyOutcome, Collected, RowsOutcome, Sort, Lawful;
    if VerifyOutcome(f, ds).Ok? {
      VerifiedIsFrozen(f, ds);
    }
  }

  // ----- a refusal that can never be reached

  lemma {:induction false} NoOverlapFault<R>(f: Format<R>, seed: int, name: Split, rs: seq<R>, k: nat, seen: seq<string>)
    requires k <= |rs| && forall i :: 0 <= i < |seen| ==> SplitOf(f, seed, seen[i]) != name
    ensures IdsFault(f, seed, name, rs, k, seen) != Some(SplitsOverlap)
  {
    hide SplitOf;
    if k > 0 {
      NoOverlapFault(f, seed, name, rs, k - 1, seen);
    }
  }

  lemma {:induction false} LinesNeverOverlap<R>(f: Format<R>, lines: seq<string>, k: nat, limit: int)
    requires k <= |lines|
    ensures TakeLines(f, lines, k, limit) != Err(SplitsOverlap)
  {
    if k > 0 {
      LinesNeverOverlap(f, lines, k - 1, limit);
    }
  }

  lemma SplitNeverOverlaps<R>(f: Format<R>, seed: int, split: FrozenSplit, name: Split, tally: Tally<R>)
    requires Elsewhere(f, seed, name, tally.records)
    ensures SplitOutcome(f, seed, split, name, tally) != Err(SplitsOverlap)
  {
    hide TakeLines, Lines, Rows, Sort, SplitOf, IdsFault, Ids;
    LinesNeverOverlap(f, Lines(split.data), |Lines(split.data)|, MAX_RECORDS);
    var parsed := ParseOutcome(f, split.data, MAX_RECORDS, true);
    if parsed.Ok? {
      NoOverlapFault(f, seed, name, parsed.value, |parsed.value|, Ids(f, tally.records));
    }
  }

  lemma AcceptedElsewhere<R(!new)>(f: Format<R>, seed: int, before: seq<R>, rs: seq<R>, other: Split, name: Split)
    requires Elsewhere(f, seed, name, before) && name != other
    requires forall i :: 0 <= i < |rs| ==> SplitOf(f, seed, f.id(rs[i])) == other
    ensures Elsewhere(f, seed, name, before + rs)
  {
    hide SplitOf;
    var all := before + rs;
    forall i | 0 <= i < |all|
      ensures SplitOf(f, seed, Ids(f, all)[i]) != name
    {
      if i < |before| {
        assert Ids(f, all)[i] == Ids(f, before)[i];
      } else {
        assert Ids(f, all)[i] == f.id(rs[i - |before|]);
      }
    }
  }

  /** The overlap refusal is dead: an ID seen in an earlier split already failed membership. */
  lemma OverlapNeverReported<R(!new)>(f: Format<R>, ds: FrozenDataset)
    requires Lawful(f)
    ensures VerifyOutcome(f, ds) != Err(SplitsOverlap)
  {
    hide SplitOutcome, Lawful, SplitOf, Ids, Ascending, Writable, Rows, Elsewhere;
    ThreeSplits(f, ds);
    var start: Tally<R> := Tally([], 0);
    forall name: Split
      ensures Elsewhere(f, ds.seed, name, start.records)
    {
      NothingElsewhere(f, ds.seed, name);
    }
    SplitNeverOverlaps(f, ds.seed, ds.train, Train, start);
    if SplitOutcome(f, ds.seed, ds.train, Train, start).Ok? {
      var a := AcceptedSplit(f, ds.seed, ds.train, Train, start);
      var one := SplitOutcome(f, ds.seed, ds.train, Train, start).value;
      AcceptedElsewhere(f, ds.seed, start.records, a, Train, Validation);
      AcceptedElsewhere(f, ds.seed, start.records, a, Train, Test);
      SplitNeverOverlaps(f, ds.seed, ds.validation, Validation, one);
      if SplitOutcome(f, ds.seed, ds.validation, Validation, one).Ok? {
        var b := AcceptedSplit(f, ds.seed, ds.validation, Validation, one);
        AcceptedElsewhere(f, ds.seed, one.records, b, Validation, Test);
        SplitNeverOverlaps(f, ds.seed, ds.test, Test, SplitOutcome(f, ds.seed, ds.validation, Validation, one).value);
      }
    }
  }
}

/**
 The freezer and the checker agree: what one emits the other accepts, and it accepts nothing else;
 the dataset depends only on which records went in.
 */
module DatasetLaws {
  import opened Dataset
  import opened Freezing
  import opened Ordering
  import opened Outcomes

  function Encoded<R>(f: Format<R>, rs: seq<R>): (r: seq<string>)
    ensures |r| == |rs|
  {
    seq(|rs|, i requires 0 <= i < |rs| => f.encode(rs[i]))
  }

  ghost predicate Writable<R>(f: Format<R>, rs: seq<R>) {
    forall i :: 0 <= i < |rs| ==> f.valid(rs[i]) && |f.encode(rs[i])| <= MAX_JSONL_LINE_BYTES
  }

  /** The same IDs and rows, position by position; only number spellings may differ. */
  ghost predicate SameRows<R>(f: Format<R>, a: seq<R>, b: seq<R>) {
    && |a| == |b|
    && forall i :: 0 <= i < |a| ==> f.id(a[i]) == f.id(b[i]) && f.encode(a[i]) == f.encode(b[i])
  }

  // ----- framing

  lemma NewlineAfter(row: string, rest: string)
    requires '\n' !in row
    ensures var data := row + "\n" + rest;
      NextNewline(data) == |row| && data[..|row|] == row && data[|row| + 1..] == rest
  {
    var data := row + "\n" + rest;
    var n := NextNewline(data);
    assert data[|row|] == '\n' && data[..|row|] == row && data[|row| + 1..] == rest;
    forall i | 0 <= i < n
      ensures data[i] != '\n'
    {
      assert data[..n][i] == data[i];
    }
    forall i | 0 <= i < |row|
      ensures data[i] != '\n'
    {
      assert data[i] == row[i];
    }
  }

  lemma RowFaithful<R(!new)>(f: Format<R>, r: R)
    requires Lawful(f) && f.valid(r) && |f.encode(r)| <= MAX_JSONL_LINE_BYTES
    ensures Faithful(f, r, f.decode(f.encode(r)))
  {
  }

  lemma RowShape<R(!new)>(f: Format<R>, r: R)
    requires Lawful(f) && f.valid(r)
    ensures '\n' !in f.encode(r) && f.encode(r) != "" && Chomped(f.encode(r)) == f.encode(r)
  {
  }

  /** The lines of a file of rows are the rows. */
  lemma {:induction false} FramingRoundTrip<R(!new)>(f: Format<R>, rs: seq<R>)
    requires Lawful(f) && forall i :: 0 <= i < |rs| ==> f.valid(rs[i])
    ensures Lines(Rows(f, rs)) == Encoded(f, rs)
  {
    hide NextNewline, Lawful, Chomped;
    if rs != [] {
      var row := f.encode(rs[0]);
      RowShape(f, rs[0]);
      NewlineAfter(row, Rows(f, rs[1..]));
      FramingRoundTrip(f, rs[1..]);
      assert Encoded(f, rs) == [row] + Encoded(f, rs[1..]);
    }
  }

  lemma IdIsNew<R>(f: Format<R>, before: seq<R>, rs: seq<R>, k: nat)
    requires k < |rs| && SameRows(f, before, rs[..k]) && Distinct(Ids(f, rs))
    ensures f.id(rs[k]) !in Ids(f, before)
  {
    forall i | 0 <= i < k
      ensures Ids(f, before)[i] != f.id(rs[k])
    {
      assert Ids(f, rs)[i] == f.id(rs[..k][i]) && Ids(f, rs)[k] == f.id(rs[k]);
      assert f.id(before[i]) == f.id(rs[..k][i]);
    }
  }

  lemma SameRowsAppend<R>(f: Format<R>, a: seq<R>, b: seq<R>, x: R, y: R)
    requires SameRows(f, a, b) && f.id(x) == f.id(y) && f.encode(x) == f.encode(y)
    ensures SameRows(f, a + [x], b + [y])
  {
  }

  /** Rows of writable records with distinct IDs decode to records with the same IDs and rows. */
  lemma {:induction false} RowsDecode<R(!new)>(f: Format<R>, rs: seq<R>, k: nat, limit: int)
    requires Lawful(f) && Writable(f, rs) && Distinct(Ids(f, rs))
    requires k <= |rs| <= Min(limit, MAX_RECORDS)
    ensures var taken := TakeLines(f, Encoded(f, rs), k, limit);
      taken.Ok? && |taken.value| == k && SameRows(f, taken.value, rs[..k])
  {
    hide Lawful, Distinct, Ids;
    if k > 0 {
      RowsDecode(f, rs, k - 1, limit);
      hide SameRows;
      var before := TakeLines(f, Encoded(f, rs), k - 1, limit).value;
      var r := rs[k - 1];
      assert Encoded(f, rs)[k - 1] == f.encode(r);
      RowShape(f, r);
      RowFaithful(f, r);
      IdIsNew(f, before, rs, k - 1);
      SameRowsAppend(f, before, rs[..k - 1], f.decode(f.encode(r)).value, r);
      assert rs[..k] == rs[..k - 1] + [r];
    }
  }

  lemma {:induction false} SameRowsSameFile<R>(f: Format<R>, a: seq<R>, b: seq<R>)
    requires SameRows(f, a, b)
    ensures Rows(f, a) == Rows(f, b) && Ids(f, a) == Ids(f, b)
  {
    if a != [] {
      assert SameRows(f, a[1..], b[1..]) by {
        forall i | 0 <= i < |a| - 1
          ensures f.id(a[1..][i]) == f.id(b[1..][i]) && f.encode(a[1..][i]) == f.encode(b[1..][i])
        {
          assert f.id(a[i + 1]) == f.id(b[i + 1]);
        }
      }
      SameRowsSameFile(f, a[1..], b[1..]);
    }
  }

  /** Decoding a file of rows succeeds and reproduces the file. */
  lemma FileReadsBack<R(!new)>(f: Format<R>, rs: seq<R>, limit: int)
    requires Lawful(f) && Writable(f, rs) && Distinct(Ids(f, rs))
    requires |rs| <= Min(limit, MAX_RECORDS) && |Rows(f, rs)| <= MAX_ARTIFACT_BYTES
    ensures var parsed := ParseOutcome(f, Rows(f, rs), limit, true);
      parsed.Ok? && SameRows(f, parsed.value, rs) && Rows(f, parsed.value) == Rows(f, rs) && Ids(f, parsed.value) == Ids(f, rs)
  {
    hide TakeLines, Lines, Rows, Lawful, Distinct;
    FramingRoundTrip(f, rs);
    RowsDecode(f, rs, |rs|, limit);
    assert rs[..|rs|] == rs;
    SameRowsSameFile(f, ParseOutcome(f, Rows(f, rs), limit, true).value, rs);
  }

  // ----- the sorted records and their splits

  lemma ByIdOrder<R(!new)>(f: Format<R>)
    ensures StrictWeak(ById(f)) && StrictWeak(StringLess) && Total(StringLess)
  {
    StringOrder();
    LexKeyOrder(ById(f), (r: R) => Codes(f.id(r)));
  }

  lemma SortedById<R(!new)>(f: Format<R>, rs: seq<R>)
    requires Distinct(Ids(f, rs))
    ensures var s := Sort(ById(f), rs); Ascending(ById(f), s) && multiset(s) == multiset(rs) && Distinct(Ids(f, s))
  {
    hide LexLess, Sort;
    ByIdOrder(f);
    forall i, j | 0 <= i < j < |rs|
      ensures ById(f)(rs[i], rs[j]) || ById(f)(rs[j], rs[i])
    {
      assert Ids(f, rs)[i] != Ids(f, rs)[j];
    }
    ComparableSortAscends(ById(f), rs);
    AscendingIdsDistinct(f, Sort(ById(f), rs));
  }

  lemma AscendingIdsDistinct<R(!new)>(f: Format<R>, s: seq<R>)
    requires Ascending(ById(f), s)
    ensures Distinct(Ids(f, s)) && Ascending(StringLess, Ids(f, s))
  {
    hide LexLess;
    ByIdOrder(f);
    forall i, j | 0 <= i < j < |s|
      ensures Ids(f, s)[i] != Ids(f, s)[j] && StringLess(Ids(f, s)[i], Ids(f, s)[j])
    {
      assert ById(f)(s[i], s[j]);
    }
  }

  /** Sorting leaves a strictly ascending sequence alone. */
  lemma AscendingIsSorted<T(!new)>(less: (T, T) -> bool, s: seq<T>)
    requires StrictWeak(less) && Ascending(less, s)
    ensures Sort(less, s) == s
  {
    hide Sort;
    ComparableSortAscends(less, s);
    forall x
      ensures x in Sort(less, s) <==> x in s
    {
      assert x in multiset(Sort(less, s)) <==> x in multiset(s);
    }
    AscendingUnique(less, Sort(less, s), s);
  }

  lemma {:induction false} ChosenMembers<R(!new)>(f: Format<R>, seed: int, name: Split, rs: seq<R>)
    ensures forall r :: r in Chosen(f, seed, name, rs) <==> r in rs && SplitOf(f, seed, f.id(r)) == name
    ensures |Chosen(f, seed, name, rs)| <= |rs|
  {
    hide SplitOf;
    if rs != [] {
      ChosenMembers(f, seed, name, rs[1..]);
      assert rs == [rs[0]] + rs[1..];
    }
  }

  lemma {:induction false} ChosenAscends<R(!new)>(f: Format<R>, seed: int, name: Split, rs: seq<R>)
    requires Ascending(ById(f), rs)
    ensures Ascending(ById(f), Chosen(f, seed, name, rs))
  {
    hide SplitOf, StringLess;
    if rs != [] {
      ChosenAscends(f, seed, name, rs[1..]);
      ChosenMembers(f, seed, name, rs[1..]);
      var tail := Chosen(f, seed, name, rs[1..]);
      forall i | 0 <= i < |tail|
        ensures ById(f)(rs[0], tail[i])
      {
        assert tail[i] in tail && tail[i] in rs[1..];
      }
    }
  }

  lemma ChosenHead<R>(f: Format<R>, seed: int, name: Split, rs: seq<R>)
    requires rs != []
    ensures var tail, all := Chosen(f, seed, name, rs[1..]), Chosen(f, seed, name, rs);
      var mine := SplitOf(f, seed, f.id(rs[0])) == name;
      && (mine ==> |all| == 1 + |tail|)
      && (mine ==> |Rows(f, all)| == |f.encode(rs[0])| + 1 + |Rows(f, tail)|)
      && (!mine ==> all == tail)
  {
  }

  /** The three splits hold every record once and every byte once. */
  lemma {:induction false} ChosenCover<R>(f: Format<R>, seed: int, rs: seq<R>)
    ensures var t, v, x := Chosen(f, seed, Train, rs), Chosen(f, seed, Validation, rs), Chosen(f, seed, Test, rs);
      && |t| + |v| + |x| == |rs|
      && |Rows(f, t)| + |Rows(f, v)| + |Rows(f, x)| == |Rows(f, rs)|
  {
    if rs != [] {
      ChosenCover(f, seed, rs[1..]);
      hide SplitOf, Chosen;
      ChosenHead(f, seed, Train, rs);
      ChosenHead(f, seed, Validation, rs);
      ChosenHead(f, seed, Test, rs);
    }
  }

  // ----- the closing check

  lemma {:induction false} NoIdsFault<R>(f: Format<R>, seed: int, name: Split, rs: seq<R>, k: nat, seen: seq<string>)
    requires k <= |rs|
    requires forall i :: 0 <= i < |rs| ==> SplitOf(f, seed, f.id(rs[i])) == name
    requires forall id :: id in seen ==> SplitOf(f, seed, id) != name
    ensures IdsFault(f, seed, name, rs, k, seen) == None
  {
    hide SplitOf;
    if k > 0 {
      NoIdsFault(f, seed, name, rs, k - 1, seen);
    }
  }

  ghost predicate Elsewhere<R>(f: Format<R>, seed: int, name: Split, rs: seq<R>) {
    forall i :: 0 <= i < |rs| ==> SplitOf(f, seed, Ids(f, rs)[i]) != name
  }

  /** One split of an assembled dataset passes, adding records with the same IDs and rows. */
  lemma SplitVerifies<R(!new)>(f: Format<R>, seed: int, name: Split, rs: seq<R>, tally: Tally<R>)
    requires Lawful(f) && Writable(f, rs) && Ascending(ById(f), rs) && |rs| <= MAX_RECORDS
    requires Elsewhere(f, seed, name, tally.records)
    requires tally.bytes + |Rows(f, Chosen(f, seed, name, rs))| <= MAX_OUTPUT_BYTES
    ensures var chosen := Chosen(f, seed, name, rs);
      var outcome := SplitOutcome(f, seed, SplitFile(f, seed, name, rs), name, tally);
      && outcome.Ok? && outcome.value.bytes == tally.bytes + |Rows(f, chosen)|
      && |outcome.value.records| == |tally.records| + |chosen|
      && Ids(f, outcome.value.records) == Ids(f, tally.records) + Ids(f, chosen)
  {
    hide TakeLines, Lines, Rows, Chosen, SplitOf, Sort, Lawful, StringLess, IdsFault;
    var chosen := Chosen(f, seed, name, rs);
    ChosenAscends(f, seed, name, rs);
    ChosenMembers(f, seed, name, rs);
    ChosenWritable(f, seed, name, rs);
    AscendingIdsDistinct(f, chosen);
    FileReadsBack(f, chosen, MAX_RECORDS);
    var parsed := ParseOutcome(f, Rows(f, chosen), MAX_RECORDS, true).value;
    ByIdOrder(f);
    AscendingIsSorted(StringLess, Ids(f, chosen));
    forall i | 0 <= i < |parsed|
      ensures SplitOf(f, seed, f.id(parsed[i])) == name
    {
      assert Ids(f, parsed)[i] == f.id(parsed[i]) && Ids(f, chosen)[i] == f.id(chosen[i]);
      assert chosen[i] in chosen;
    }
    NoIdsFault(f, seed, name, parsed, |parsed|, Ids(f, tally.records));
    assert Ids(f, tally.records + parsed) == Ids(f, tally.records) + Ids(f, parsed);
  }

  lemma ChosenWritable<R(!new)>(f: Format<R>, seed: int, name: Split, rs: seq<R>)
    requires Writable(f, rs)
    ensures Writable(f, Chosen(f, seed, name, rs))
  {
  }

  lemma ElsewhereGrows<R(!new)>(f: Format<R>, seed: int, name: Split, other: Split, before: seq<R>, after: seq<R>, rs: seq<R>)
    requires name != other && Elsewhere(f, seed, name, before)
    requires Ids(f, after) == Ids(f, before) + Ids(f, Chosen(f, seed, other, rs))
    ensures Elsewhere(f, seed, name, after)
  {
    hide SplitOf, Chosen;
    ChosenMembers(f, seed, other, rs);
    var chosen := Chosen(f, seed, other, rs);
    forall i | 0 <= i < |after|
      ensures SplitOf(f, seed, Ids(f, after)[i]) != name
    {
      if i < |before| {
        assert Ids(f, after)[i] == Ids(f, before)[i];
      } else {
        assert Ids(f, after)[i] == Ids(f, chosen)[i - |before|] == f.id(chosen[i - |before|]);
        assert chosen[i - |before|] in chosen;
      }
    }
  }

  /** The check that closes `freeze_records` cannot fail. */
  lemma ClosingCheckPasses<R(!new)>(f: Format<R>, seed: int, rs: seq<R>)
    requires Lawful(f) && Writable(f, rs) && Ascending(ById(f), rs) && 1 <= |rs| <= MAX_RECORDS
    requires SeedValid(seed) && |Rows(f, rs)| <= MAX_OUTPUT_BYTES
    ensures VerifyOutcome(f, Assembled(f, seed, rs)).Ok?
  {
    hide SplitOutcome, SplitOf, Chosen, Rows, StringLess, Lawful, Ascending, Ids, Elsewhere, SplitFile;
    var ds := Assembled(f, seed, rs);
    ChosenCover(f, seed, rs);
    var start: Tally<R> := Tally([], 0);
    forall name: Split
      ensures Elsewhere(f, seed, name, start.records)
    {
      NothingElsewhere(f, seed, name);
    }
    SplitVerifies(f, seed, Train, rs, start);
    var one := SplitOutcome(f, seed, ds.train, Train, start).value;
    ElsewhereGrows(f, seed, Validation, Train, start.records, one.records, rs);
    ElsewhereGrows(f, seed, Test, Train, start.records, one.records, rs);
    SplitVerifies(f, seed, Validation, rs, one);
    var two := SplitOutcome(f, seed, ds.validation, Validation, one).value;
    ElsewhereGrows(f, seed, Test, Validation, one.records, two.records, rs);
    SplitVerifies(f, seed, Test, rs, two);
    ThreeSplits(f, ds);
  }

  lemma NothingElsewhere<R>(f: Format<R>, seed: int, name: Split)
    ensures Elsewhere(f, seed, name, [])
  {
  }

  lemma ThreeSplits<R>(f: Format<R>, ds: FrozenDataset)
    ensures SplitsOutcome(f, ds, |SPLITS|) ==
      var one :- SplitOutcome(f, ds.seed, ds.train, Train, Tally([], 0));
      var two :- SplitOutcome(f, ds.seed, ds.validation, Validation, one);
      SplitOutcome(f, ds.seed, ds.test, Test, two)
  {
    hide SplitOutcome;
    assert SplitsOutcome(f, ds, 0) == Ok(Tally([], 0));
    assert SplitsOutcome(f, ds, 3) == SplitsOutcome(f, ds, |SPLITS|);
    var one := SplitsOutcome(f, ds, 1);
    var two := SplitsOutcome(f, ds, 2);
  }
}

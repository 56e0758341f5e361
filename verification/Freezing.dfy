/** `freeze_records` and `freeze_jsonl_sources`: from records or source exports to a frozen dataset. */
module Freezing {
  import opened Dataset
  import opened Ordering
  import opened Outcomes

  function ById<R>(f: Format<R>): (R, R) -> bool {
    (a, b) => StringLess(f.id(a), f.id(b))
  }

  function Admit<R>(f: Format<R>, rs: seq<R>, r: R, limit: int): Result<seq<R>, Refusal> {
    if |rs| >= Min(limit, MAX_RECORDS) then Err(RecordsExceeded)
    else if !f.valid(r) then Err(RecordInvalid)
    else if f.id(r) in Ids(f, rs) then Err(DuplicateId)
    else Ok(rs + [r])
  }

  function Collected<R>(f: Format<R>, inputs: seq<R>, k: nat, limit: int): Result<seq<R>, Refusal>
    requires k <= |inputs|
  {
    if k == 0 then Ok([])
    else
      var rs :- Collected(f, inputs, k - 1, limit);
      Admit(f, rs, inputs[k - 1], limit)
  }

  /** The bytes written after the first k rows, under the line and output limits. */
  function RowsOutcome<R>(f: Format<R>, rs: seq<R>, k: nat, maxOutput: int): Result<nat, Refusal>
    requires k <= |rs|
  {
    if k == 0 then Ok(0)
    else
      var total :- RowsOutcome(f, rs, k - 1, maxOutput);
      var row := f.encode(rs[k - 1]) + "\n";
      if |row| - 1 > MAX_JSONL_LINE_BYTES then Err(LineTooLong)
      else if total + |row| > Min(maxOutput, MAX_OUTPUT_BYTES) then Err(OutputExceeded)
      else Ok(total + |row|)
  }

  function SplitFile<R>(f: Format<R>, seed: int, name: Split, rs: seq<R>): FrozenSplit {
    var chosen := Chosen(f, seed, name, rs);
    FrozenSplit(name, Rows(f, chosen), f.sha256(Rows(f, chosen)), |chosen|, name == Test)
  }

  function Assembled<R>(f: Format<R>, seed: int, rs: seq<R>): FrozenDataset {
    FrozenDataset(
      seed, SplitFile(f, seed, Train, rs), SplitFile(f, seed, Validation, rs), SplitFile(f, seed, Test, rs), |rs|)
  }

  function FreezeOutcome<R>(f: Format<R>, inputs: seq<R>, seed: int, maxRecords: int, maxOutput: int)
    : Result<FrozenDataset, Refusal>
  {
    if !SeedValid(seed) then Err(SeedInvalid)
    else if maxRecords < 1 || maxOutput < 1 then Err(LimitInvalid)
    else
      var rs :- Collected(f, inputs, |inputs|, maxRecords);
      if rs == [] then Err(Empty)
      else
        var sorted := Sort(ById(f), rs);
        var total :- RowsOutcome(f, sorted, |sorted|, maxOutput);
        var ds := Assembled(f, seed, sorted);
        var records :- VerifyOutcome(f, ds);
        Ok(ds)
  }

  lemma {:induction false} CollectedSticks<R>(f: Format<R>, inputs: seq<R>, k: nat, limit: int)
    requires k <= |inputs| && Collected(f, inputs, k, limit).Err?
    ensures Collected(f, inputs, |inputs|, limit) == Err(Collected(f, inputs, k, limit).error)
    decreases |inputs| - k
  {
    if k < |inputs| {
      CollectedSticks(f, inputs, k + 1, limit);
    }
  }

  lemma {:induction false} RowsSticks<R>(f: Format<R>, rs: seq<R>, k: nat, maxOutput: int)
    requires k <= |rs| && RowsOutcome(f, rs, k, maxOutput).Err?
    ensures RowsOutcome(f, rs, |rs|, maxOutput) == Err(RowsOutcome(f, rs, k, maxOutput).error)
    decreases |rs| - k
  {
    if k < |rs| {
      RowsSticks(f, rs, k + 1, maxOutput);
    }
  }

  method CollectRecords<R>(f: Format<R>, inputs: seq<R>, limit: int) returns (out: Result<seq<R>, Refusal>)
    ensures out == Collected(f, inputs, |inputs|, limit)
  {
    var records: seq<R> := [];
    var seenIds: set<string> := {};
    for k := 0 to |inputs|
      invariant Collected(f, inputs, k, limit) == Ok(records)
      invariant forall id :: id in seenIds <==> id in Ids(f, records)
    {
      ghost var next := Collected(f, inputs, k + 1, limit);
      if next.Err? {
        CollectedSticks(f, inputs, k + 1, limit);
      }
      if |records| >= Min(limit, MAX_RECORDS) {
        return Err(RecordsExceeded);
      }
      var record := inputs[k];
      if !f.valid(record) {
        return Err(RecordInvalid);
      }
      if f.id(record) in seenIds {
        return Err(DuplicateId);
      }
      assert Ids(f, records + [record]) == Ids(f, records) + [f.id(record)];
      seenIds := seenIds + {f.id(record)};
      records := records + [record];
    }
    return Ok(records);
  }

  /** Every split's file and count after the rows so far. */
  ghost predicate Written<R>(f: Format<R>, seed: int, rs: seq<R>, content: map<Split, string>, counts: map<Split, nat>) {
    forall name: Split ::
      && name in content && content[name] == Rows(f, Chosen(f, seed, name, rs))
      && name in counts && counts[name] == |Chosen(f, seed, name, rs)|
  }

  lemma OneMoreWritten<R>(f: Format<R>, seed: int, rs: seq<R>, k: nat, content: map<Split, string>, counts: map<Split, nat>)
    requires k < |rs| && Written(f, seed, rs[..k], content, counts)
    ensures var chosen := SplitOf(f, seed, f.id(rs[k]));
      Written(f, seed, rs[..k + 1],
        content[chosen := content[chosen] + (f.encode(rs[k]) + "\n")], counts[chosen := counts[chosen] + 1])
  {
    hide SplitOf, Rows, Chosen;
    forall name: Split {
      OneMoreRow(f, seed, name, rs, k);
    }
  }

  /** The row loop: every row goes to the file and the count of its split. */
  method WriteRows<R>(f: Format<R>, seed: int, rs: seq<R>, maxOutput: int)
    returns (out: Result<(map<Split, string>, map<Split, nat>), Refusal>)
    ensures RowsOutcome(f, rs, |rs|, maxOutput).Err? ==> out == Err(RowsOutcome(f, rs, |rs|, maxOutput).error)
    ensures RowsOutcome(f, rs, |rs|, maxOutput).Ok? ==> out.Ok? && Written(f, seed, rs, out.value.0, out.value.1)
  {
    hide SplitOf, Written;
    var content: map<Split, string> := map[Train := "", Validation := "", Test := ""];
    var counts: map<Split, nat> := map[Train := 0, Validation := 0, Test := 0];
    var total := 0;
    assert rs[..0] == [];
    NothingWritten(f, seed);
    for k := 0 to |rs|
      invariant RowsOutcome(f, rs, k, maxOutput) == Ok(total)
      invariant content.Keys == {Train, Validation, Test} == counts.Keys
      invariant Written(f, seed, rs[..k], content, counts)
    {
      if RowsOutcome(f, rs, k + 1, maxOutput).Err? {
        RowsSticks(f, rs, k + 1, maxOutput);
      }
      var row := f.encode(rs[k]) + "\n";
      if |row| - 1 > MAX_JSONL_LINE_BYTES {
        return Err(LineTooLong);
      }
      if total + |row| > Min(maxOutput, MAX_OUTPUT_BYTES) {
        return Err(OutputExceeded);
      }
      total := total + |row|;
      OneMoreWritten(f, seed, rs, k, content, counts);
      var chosen := SplitOf(f, seed, f.id(rs[k]));
      content := content[chosen := content[chosen] + row];
      counts := counts[chosen := counts[chosen] + 1];
    }
    assert rs[..|rs|] == rs;
    return Ok((content, counts));
  }

  lemma NothingWritten<R>(f: Format<R>, seed: int)
    ensures Written(f, seed, [], map[Train := "", Validation := "", Test := ""], map[Train := 0, Validation := 0, Test := 0])
  {
    var content: map<Split, string> := map[Train := "", Validation := "", Test := ""];
    var counts: map<Split, nat> := map[Train := 0, Validation := 0, Test := 0];
    forall name: Split
      ensures name in content && content[name] == Rows(f, Chosen(f, seed, name, []))
      ensures name in counts && counts[name] == |Chosen(f, seed, name, [])|
    {
      match name {
        case Train =>
        case Validation =>
        case Test =>
      }
    }
  }

  lemma OneMoreRow<R>(f: Format<R>, seed: int, name: Split, rs: seq<R>, k: nat)
    requires k < |rs|
    ensures var before, after := Chosen(f, seed, name, rs[..k]), Chosen(f, seed, name, rs[..k + 1]);
      var mine := SplitOf(f, seed, f.id(rs[k])) == name;
      && after == before + (if mine then [rs[k]] else [])
      && Rows(f, after) == Rows(f, before) + (if mine then f.encode(rs[k]) + "\n" else "")
  {
    hide SplitOf;
    assert rs[..k + 1] == rs[..k] + [rs[k]];
    ChosenConcat(f, seed, name, rs[..k], [rs[k]]);
    var mine := if SplitOf(f, seed, f.id(rs[k])) == name then [rs[k]] else [];
    assert Chosen(f, seed, name, [rs[k]]) == mine;
    RowsConcat(f, Chosen(f, seed, name, rs[..k]), mine);
    assert Rows(f, [rs[k]]) == f.encode(rs[k]) + "\n" by {
      assert [rs[k]][1..] == [];
    }
  }

  method FreezeRecords<R>(f: Format<R>, inputs: seq<R>, seed: int, maxRecords: int, maxOutput: int)
    returns (out: Result<FrozenDataset, Refusal>)
    ensures out == FreezeOutcome(f, inputs, seed, maxRecords, maxOutput)
  {
    hide Collected, RowsOutcome, Sort, Rows, Chosen, VerifyOutcome;
    if !SeedValid(seed) {
      return Err(SeedInvalid);
    }
    if maxRecords < 1 || maxOutput < 1 {
      return Err(LimitInvalid);
    }
    var collected := CollectRecords(f, inputs, maxRecords);
    if collected.Err? {
      return Err(collected.error);
    }
    if collected.value == [] {
      return Err(Empty);
    }
    var normalized := Sort(ById(f), collected.value);
    var written := WriteRows(f, seed, normalized, maxOutput);
    if written.Err? {
      return Err(written.error);
    }
    var (content, counts) := written.value;
    var train := FrozenSplit(Train, content[Train], f.sha256(content[Train]), counts[Train], false);
    var validation := FrozenSplit(Validation, content[Validation], f.sha256(content[Validation]), counts[Validation], false);
    var test := FrozenSplit(Test, content[Test], f.sha256(content[Test]), counts[Test], true);
    var ds := FrozenDataset(seed, train, validation, test, |normalized|);
    assert ds == Assembled(f, seed, normalized);
    var verified := VerifyFrozenDataset(f, ds);
    if verified.Err? {
      return Err(verified.error);
    }
    return Ok(ds);
  }

  // ----- several source exports

  predicate Overlap(a: seq<string>, b: seq<string>) {
    exists i :: 0 <= i < |a| && a[i] in b
  }

  /** The records and bytes of the first k sources. */
  function Gathered<R>(f: Format<R>, sources: seq<string>, k: nat, maxTotal: int, maxRecords: int): Result<Tally<R>, Refusal>
    requires k <= |sources|
  {
    if k == 0 then Ok(Tally([], 0))
    else
      var tally :- Gathered(f, sources, k - 1, maxTotal, maxRecords);
      var bytes := tally.bytes + |sources[k - 1]|;
      var remaining := Min(maxRecords, MAX_RECORDS) - |tally.records|;
      if bytes > Min(maxTotal, MAX_TOTAL_INPUT_BYTES) then Err(BytesExceeded)
      else if remaining < 1 then Err(RecordsExceeded)
      else
        var parsed :- ParseOutcome(f, sources[k - 1], remaining, false);
        if Overlap(Ids(f, parsed), Ids(f, tally.records)) then Err(DuplicateId)
        else Ok(Tally(tally.records + parsed, bytes))
  }

  function FreezeSourcesOutcome<R>(f: Format<R>, sources: seq<string>, seed: int, maxTotal: int, maxRecords: int, maxOutput: int)
    : Result<FrozenDataset, Refusal>
  {
    if maxTotal < 1 || maxRecords < 1 || maxOutput < 1 then Err(LimitInvalid)
    else
      var tally :- Gathered(f, sources, |sources|, maxTotal, maxRecords);
      FreezeOutcome(f, tally.records, seed, maxRecords, maxOutput)
  }

  lemma {:induction false} GatheredSticks<R>(f: Format<R>, sources: seq<string>, k: nat, maxTotal: int, maxRecords: int)
    requires k <= |sources| && Gathered(f, sources, k, maxTotal, maxRecords).Err?
    ensures Gathered(f, sources, |sources|, maxTotal, maxRecords) == Err(Gathered(f, sources, k, maxTotal, maxRecords).error)
    decreases |sources| - k
  {
    hide ParseOutcome, Overlap, Ids, Min;
    if k < |sources| {
      GatheredSticks(f, sources, k + 1, maxTotal, maxRecords);
    }
  }

  /** The record loop over one parsed source: no ID of it was seen before. */
  method AddRecords<R>(f: Format<R>, parsed: seq<R>, before: seq<R>, seen: set<string>)
    returns (repeated: bool, seenIds: set<string>)
    requires Distinct(Ids(f, parsed)) && forall id :: id in seen <==> id in Ids(f, before)
    ensures repeated <==> Overlap(Ids(f, parsed), Ids(f, before))
    ensures !repeated ==> forall id :: id in seenIds <==> id in Ids(f, before + parsed)
  {
    seenIds := seen;
    for j := 0 to |parsed|
      invariant forall id :: id in seenIds <==> id in Ids(f, before) + Ids(f, parsed)[..j]
      invariant forall i :: 0 <= i < j ==> Ids(f, parsed)[i] !in Ids(f, before)
    {
      var id := f.id(parsed[j]);
      assert Ids(f, parsed)[j] == id;
      if id in seenIds {
        return true, seenIds;
      }
      seenIds := seenIds + {id};
    }
    assert Ids(f, before + parsed) == Ids(f, before) + Ids(f, parsed);
    assert Ids(f, parsed)[..|parsed|] == Ids(f, parsed);
    return false, seenIds;
  }

  method FreezeJsonlSources<R>(f: Format<R>, sources: seq<string>, seed: int, maxTotal: int, maxRecords: int, maxOutput: int)
    returns (out: Result<FrozenDataset, Refusal>)
    ensures out == FreezeSourcesOutcome(f, sources, seed, maxTotal, maxRecords, maxOutput)
  {
    hide FreezeOutcome, Lines, TakeLines;
    if maxTotal < 1 || maxRecords < 1 || maxOutput < 1 {
      return Err(LimitInvalid);
    }
    var allRecords: seq<R> := [];
    var seenIds: set<string> := {};
    var totalBytes: nat := 0;
    for k := 0 to |sources|
      invariant Gathered(f, sources, k, maxTotal, maxRecords) == Ok(Tally(allRecords, totalBytes))
      invariant forall id :: id in seenIds <==> id in Ids(f, allRecords)
    {
      if Gathered(f, sources, k + 1, maxTotal, maxRecords).Err? {
        GatheredSticks(f, sources, k + 1, maxTotal, maxRecords);
      }
      totalBytes := totalBytes + |sources[k]|;
      if totalBytes > Min(maxTotal, MAX_TOTAL_INPUT_BYTES) {
        return Err(BytesExceeded);
      }
      var remaining := Min(maxRecords, MAX_RECORDS) - |allRecords|;
      if remaining < 1 {
        return Err(RecordsExceeded);
      }
      var parsed := ParseJsonl(f, sources[k], remaining, false);
      if parsed.Err? {
        return Err(parsed.error);
      }
      ParsedDistinct(f, Lines(sources[k]), |Lines(sources[k])|, remaining);
      var repeated;
      repeated, seenIds := AddRecords(f, parsed.value, allRecords, seenIds);
      if repeated {
        return Err(DuplicateId);
      }
      allRecords := allRecords + parsed.value;
    }
    out := FreezeRecords(f, allRecords, seed, maxRecords, maxOutput);
  }
}

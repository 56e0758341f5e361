/** Which refusal a dataset file, a frozen dataset, its records or its sources meet, in order and in numbers. */
module DatasetRefusals {
  import opened Dataset
  import opened DatasetLaws
  import opened Freezing
  import opened Ordering
  import opened Outcomes

  // ----- files

  /** A file is refused for its size before anything is read; an empty one only where records are needed. */
  lemma FileRefusals<R>(f: Format<R>, data: string, limit: int, allowEmpty: bool)
    ensures |data| > 268_435_456 ==> ParseOutcome(f, data, limit, allowEmpty) == Err(BytesExceeded)
    ensures ParseOutcome(f, "", limit, allowEmpty) == if allowEmpty then Ok([]) else Err(Empty)
  {
  }

  /** Why one more line is refused after some records, and the record it gives otherwise. */
  lemma LineRefusals<R>(f: Format<R>, rs: seq<R>, line: string, limit: int)
    ensures var out := TakeLine(f, rs, line, limit);
      if line == "" then out == Err(EmptyLine)
      else if |line| > 1_048_576 then out == Err(LineTooLong)
      else if |rs| >= limit || |rs| >= 1_000_000 then out == Err(RecordsExceeded)
      else if f.decode(line).None? then out == Err(RecordInvalid)
      else if exists i :: 0 <= i < |rs| && f.id(rs[i]) == f.id(f.decode(line).value) then out == Err(DuplicateId)
      else out == Ok(rs + [f.decode(line).value])
  {
    if f.decode(line).Some? {
      var id := f.id(f.decode(line).value);
      assert id in Ids(f, rs) <==> exists i :: 0 <= i < |rs| && f.id(rs[i]) == id by {
        if i :| 0 <= i < |rs| && f.id(rs[i]) == id {
          assert Ids(f, rs)[i] == id;
        }
      }
    }
  }

  /** A file within its size is refused with the refusal of its first bad line. */
  lemma FirstBadLineDecides<R>(f: Format<R>, data: string, limit: int, allowEmpty: bool, k: nat)
    requires 0 < |data| <= 268_435_456 && k < |Lines(data)| && TakeLines(f, Lines(data), k, limit).Ok?
    requires TakeLine(f, TakeLines(f, Lines(data), k, limit).value, Lines(data)[k], limit).Err?
    ensures ParseOutcome(f, data, limit, allowEmpty)
      == Err(TakeLine(f, TakeLines(f, Lines(data), k, limit).value, Lines(data)[k], limit).error)
  {
    hide Lines, TakeLine;
    NextTaken(f, Lines(data), k, limit);
    RefusalSticks(f, Lines(data), k + 1, |Lines(data)|, limit);
  }

  /** One carriage return before a newline belongs to the line ending. */
  lemma CarriageReturnIsDropped(row: string, rest: string)
    requires '\n' !in row
    ensures Lines(row + "\r\n" + rest) == [row] + Lines(rest)
    ensures row != "" && row[|row| - 1] != '\r' ==> Lines(row + "\n" + rest) == [row] + Lines(rest)
  {
    hide NextNewline;
    assert row + "\r\n" + rest == (row + "\r") + "\n" + rest;
    NewlineAfter(row + "\r", rest);
    NewlineAfter(row, rest);
    assert (row + "\r")[..|row|] == row;
  }

  // ----- frozen datasets

  /** Why one split is refused after others, in order. */
  lemma SplitRefusals<R>(f: Format<R>, seed: int, split: FrozenSplit, name: Split, tally: Tally<R>)
    ensures var out := SplitOutcome(f, seed, split, name, tally);
      var parsed := ParseOutcome(f, split.data, 1_000_000, true);
      if split.name != name then out == Err(NameMismatch)
      else if split.isSealed != (name == Test) then out == Err(SealMismatch)
      else if split.sha256 != f.sha256(split.data) then out == Err(DigestMismatch)
      else if parsed.Err? then out == Err(parsed.error)
      else if tally.bytes + |split.data| > 268_435_456 then out == Err(OutputExceeded)
      else if |parsed.value| != split.recordCount then out == Err(CountMismatch)
      else if Rows(f, parsed.value) != split.data then out == Err(NotCanonical)
      else if Ids(f, parsed.value) != Sort(StringLess, Ids(f, parsed.value)) then out == Err(OrderInvalid)
      else
        var fault := IdsFault(f, seed, name, parsed.value, |parsed.value|, Ids(f, tally.records));
        if fault.Some? then out == Err(fault.value)
        else out == Ok(Tally(tally.records + parsed.value, tally.bytes + |split.data|))
  {
    hide TakeLines, Rows, Sort, IdsFault, Lines, Ids;
  }

  /** The first record that hashes elsewhere, or was in an earlier split, is what refuses a split's records. */
  lemma FirstStrayDecides<R>(f: Format<R>, seed: int, name: Split, rs: seq<R>, k: nat, seen: seq<string>)
    requires k < |rs| && IdsFault(f, seed, name, rs, k, seen).None?
    ensures SplitOf(f, seed, f.id(rs[k])) != name ==> IdsFault(f, seed, name, rs, |rs|, seen) == Some(MembershipInvalid)
    ensures SplitOf(f, seed, f.id(rs[k])) == name && f.id(rs[k]) in seen ==>
      IdsFault(f, seed, name, rs, |rs|, seen) == Some(SplitsOverlap)
  {
    hide SplitOf;
    if SplitOf(f, seed, f.id(rs[k])) != name || f.id(rs[k]) in seen {
      IdsFaultSticks(f, seed, name, rs, k + 1, seen);
    }
  }

  /** A dataset's seed and count are checked first; then its splits in order; then their total. */
  lemma FrozenRefusals<R>(f: Format<R>, ds: FrozenDataset)
    ensures var out := VerifyOutcome(f, ds);
      var tally := SplitsOutcome(f, ds, 3);
      if ds.seed < 0 || ds.seed > 4_294_967_295 then out == Err(SeedInvalid)
      else if ds.sourceRecordCount < 1 || ds.sourceRecordCount > 1_000_000 then out == Err(CountMismatch)
      else if tally.Err? then out == Err(tally.error)
      else if |tally.value.records| != ds.sourceRecordCount then out == Err(CountMismatch)
      else out == Ok(tally.value.records)
  {
    hide SplitOutcome;
  }

  // ----- records to freeze

  /** Why one more record is refused while freezing. */
  lemma RecordRefusals<R>(f: Format<R>, rs: seq<R>, r: R, limit: int)
    ensures var out := Admit(f, rs, r, limit);
      if |rs| >= limit || |rs| >= 1_000_000 then out == Err(RecordsExceeded)
      else if !f.valid(r) then out == Err(RecordInvalid)
      else if f.id(r) in Ids(f, rs) then out == Err(DuplicateId)
      else out == Ok(rs + [r])
  {
  }

  /** Freezing checks the seed, the limits, the records, that there are any, and the size of their rows. */
  lemma FreezeRefusals<R>(f: Format<R>, inputs: seq<R>, seed: int, maxRecords: int, maxOutput: int)
    ensures var out := FreezeOutcome(f, inputs, seed, maxRecords, maxOutput);
      var collected := Collected(f, inputs, |inputs|, maxRecords);
      if seed < 0 || seed > 4_294_967_295 then out == Err(SeedInvalid)
      else if maxRecords < 1 || maxOutput < 1 then out == Err(LimitInvalid)
      else if collected.Err? then out == Err(collected.error)
      else if collected.value == [] then out == Err(Empty)
      else
        var sorted := Sort(ById(f), collected.value);
        var written := RowsOutcome(f, sorted, |sorted|, maxOutput);
        written.Err? ==> out == Err(written.error)
  {
    hide Collected, Sort, RowsOutcome, VerifyOutcome, Assembled;
  }

  /** Why one more row is refused: its own length, then the bytes of all rows. */
  lemma RowRefusals<R>(f: Format<R>, rs: seq<R>, k: nat, maxOutput: int)
    requires k < |rs| && RowsOutcome(f, rs, k, maxOutput).Ok?
    ensures var total, length := RowsOutcome(f, rs, k, maxOutput).value, |f.encode(rs[k])|;
      var out := RowsOutcome(f, rs, k + 1, maxOutput);
      if length > 1_048_576 then out == Err(LineTooLong)
      else if total + length + 1 > maxOutput || total + length + 1 > 268_435_456 then out == Err(OutputExceeded)
      else out == Ok(total + length + 1)
  {
  }

  // ----- sources


  /** Why one more source is refused: all bytes, all records, its own lines, IDs of earlier sources. */
  lemma SourceRefusals<R>(f: Format<R>, sources: seq<string>, k: nat, maxTotal: int, maxRecords: int)
    requires k < |sources| && Gathered(f, sources, k, maxTotal, maxRecords).Ok?
    ensures var tally, out := Gathered(f, sources, k, maxTotal, maxRecords).value, Gathered(f, sources, k + 1, maxTotal, maxRecords);
      var bytes := tally.bytes + |sources[k]|;
      var remaining := (if maxRecords < 1_000_000 then maxRecords else 1_000_000) - |tally.records|;
      if bytes > maxTotal || bytes > 1_073_741_824 then out == Err(BytesExceeded)
      else if remaining < 1 then out == Err(RecordsExceeded)
      else
        var parsed := ParseOutcome(f, sources[k], remaining, false);
        if parsed.Err? then out == Err(parsed.error)
        else if exists id :: id in Ids(f, parsed.value) && id in Ids(f, tally.records) then out == Err(DuplicateId)
        else out == Ok(Tally(tally.records + parsed.value, bytes))
  {
    hide TakeLines, Lines, Ids;
    var remaining := Min(maxRecords, MAX_RECORDS) - |Gathered(f, sources, k, maxTotal, maxRecords).value.records|;
    if ParseOutcome(f, sources[k], remaining, false).Ok? {
      OverlapShares(Ids(f, ParseOutcome(f, sources[k], remaining, false).value),
        Ids(f, Gathered(f, sources, k, maxTotal, maxRecords).value.records));
    }
  }

  lemma OverlapShares(a: seq<string>, b: seq<string>)
    ensures Overlap(a, b) <==> exists id :: id in a && id in b
  {
    if id :| id in a && id in b {
      var i :| 0 <= i < |a| && a[i] == id;
      assert a[i] in b;
    }
  }

  /** Sources are refused for their limits, then for the first bad one, then as their records are. */
  lemma SourcesRefusals<R>(f: Format<R>, sources: seq<string>, seed: int, maxTotal: int, maxRecords: int, maxOutput: int)
    ensures var out := FreezeSourcesOutcome(f, sources, seed, maxTotal, maxRecords, maxOutput);
      var gathered := Gathered(f, sources, |sources|, maxTotal, maxRecords);
      if maxTotal < 1 || maxRecords < 1 || maxOutput < 1 then out == Err(LimitInvalid)
      else if gathered.Err? then out == Err(gathered.error)
      else out == FreezeOutcome(f, gathered.value.records, seed, maxRecords, maxOutput)
  {
    hide Gathered, FreezeOutcome;
  }
}

/**
 Freezing scoring records into three split files, and verifying frozen files. Files are byte
 strings, one character a byte; the record format and the split hash are parameters.
 */
module Dataset {
  import opened Ordering
  import opened Outcomes

  /** The scoring record format: `parse_scoring_record`, `canonical_json_bytes` and the hashes. */
  datatype Format<!R> = Format(
    id: R -> string,
    valid: R -> bool,
    encode: R -> string,
    decode: string -> Option<R>,
    sha256: string -> string,
    bucket: (int, string) -> nat)

  /**
   A row is never empty, holds no newline and does not end in a carriage return; it decodes to a
   record with the same ID and the same row. Numbers may come back in another spelling.
   */
  ghost predicate Lawful<R(!new)>(f: Format<R>) {
    && (forall r :: f.valid(r) ==> f.encode(r) != "" && '\n' !in f.encode(r) && f.encode(r)[|f.encode(r)| - 1] != '\r')
    && (forall r :: f.valid(r) && |f.encode(r)| <= MAX_JSONL_LINE_BYTES ==> Faithful(f, r, f.decode(f.encode(r))))
    && (forall line :: f.decode(line).Some? ==> f.valid(f.decode(line).value))
  }

  predicate Faithful<R>(f: Format<R>, r: R, back: Option<R>) {
    back.Some? && f.id(back.value) == f.id(r) && f.encode(back.value) == f.encode(r)
  }

  const MAX_ARTIFACT_BYTES: nat := 268_435_456
  const MAX_OUTPUT_BYTES: nat := 268_435_456
  const MAX_TOTAL_INPUT_BYTES: nat := 1_073_741_824
  const MAX_RECORDS: nat := 1_000_000
  const MAX_JSONL_LINE_BYTES: nat := 1_048_576
  const TRAIN_BOUNDARY: nat := 14_757_395_258_967_641_292
  const VALIDATION_BOUNDARY: nat := 16_602_069_666_338_596_454

  datatype Refusal =
    | SeedInvalid | LimitInvalid | BytesExceeded | Empty | EmptyLine | LineTooLong | RecordsExceeded | RecordInvalid
    | DuplicateId | OutputExceeded | CountMismatch | NameMismatch | SealMismatch | DigestMismatch
    | NotCanonical | OrderInvalid | MembershipInvalid | SplitsOverlap

  function Min(a: int, b: int): int {
    if a < b then a else b
  }

  // ----- JSONL

  function NextNewline(data: string): (n: nat)
    ensures n <= |data| && '\n' !in data[..n] && (n < |data| ==> data[n] == '\n')
  {
    if data == "" || data[0] == '\n' then 0
    else
      var n := NextNewline(data[1..]);
      assert data[..n + 1] == [data[0]] + data[1..][..n];
      n + 1
  }

  /** One trailing carriage return is dropped. */
  function Chomped(line: string): (r: string)
    ensures |r| <= |line|
  {
    if line != "" && line[|line| - 1] == '\r' then line[..|line| - 1] else line
  }

  function Lines(data: string): seq<string> {
    if data == "" then []
    else
      var n := NextNewline(data);
      [Chomped(data[..n])] + (if n < |data| then Lines(data[n + 1..]) else [])
  }

  function Ids<R>(f: Format<R>, rs: seq<R>): (r: seq<string>)
    ensures |r| == |rs|
  {
    seq(|rs|, i requires 0 <= i < |rs| => f.id(rs[i]))
  }

  /** One more line after the records read so far. */
  function TakeLine<R>(f: Format<R>, rs: seq<R>, line: string, limit: int): Result<seq<R>, Refusal> {
    if line == "" then Err(EmptyLine)
    else if |line| > MAX_JSONL_LINE_BYTES then Err(LineTooLong)
    else if |rs| >= Min(limit, MAX_RECORDS) then Err(RecordsExceeded)
    else match f.decode(line) {
      case None => Err(RecordInvalid)
      case Some(r) => if f.id(r) in Ids(f, rs) then Err(DuplicateId) else Ok(rs + [r])
    }
  }

  function TakeLines<R>(f: Format<R>, lines: seq<string>, k: nat, limit: int): Result<seq<R>, Refusal>
    requires k <= |lines|
  {
    if k == 0 then Ok([])
    else
      var rs :- TakeLines(f, lines, k - 1, limit);
      TakeLine(f, rs, lines[k - 1], limit)
  }

  /** `parse_scoring_jsonl` under its default byte limits */
  function ParseOutcome<R>(f: Format<R>, data: string, limit: int, allowEmpty: bool): Result<seq<R>, Refusal> {
    if |data| > MAX_ARTIFACT_BYTES then Err(BytesExceeded)
    else if data == "" && !allowEmpty then Err(Empty)
    else TakeLines(f, Lines(data), |Lines(data)|, limit)
  }

  lemma RefusalSticks<R>(f: Format<R>, lines: seq<string>, k: nat, m: nat, limit: int)
    requires k <= m <= |lines| && TakeLines(f, lines, k, limit).Err?
    ensures TakeLines(f, lines, m, limit) == Err(TakeLines(f, lines, k, limit).error)
  {
  }

  lemma NextLine(data: string)
    requires data != ""
    ensures var n := NextNewline(data);
      Lines(data) == [Chomped(data[..n])] + (if n < |data| then Lines(data[n + 1..]) else [])
  {
  }

  lemma NothingTaken<R>(f: Format<R>, lines: seq<string>, limit: int)
    ensures TakeLines(f, lines, 0, limit) == Ok([]) && Lines("") == []
  {
  }

  lemma NextTaken<R>(f: Format<R>, lines: seq<string>, k: nat, limit: int)
    requires k < |lines| && TakeLines(f, lines, k, limit).Ok?
    ensures TakeLines(f, lines, k + 1, limit) == TakeLine(f, TakeLines(f, lines, k, limit).value, lines[k], limit)
  {
  }

  method ParseJsonl<R>(f: Format<R>, data: string, limit: int, allowEmpty: bool) returns (out: Result<seq<R>, Refusal>)
    ensures out == ParseOutcome(f, data, limit, allowEmpty)
  {
    hide TakeLine, NextNewline, Chomped, Lines, TakeLines;
    if |data| > MAX_ARTIFACT_BYTES {
      return Err(BytesExceeded);
    }
    NothingTaken(f, Lines(data), limit);
    if data == "" {
      return if allowEmpty then Ok([]) else Err(Empty);
    }
    assert data[|data|..] == "";
    ghost var lines := Lines(data);
    ghost var k: nat := 0;
    var records: seq<R> := [];
    var offset := 0;
    while offset < |data|
      invariant 0 <= offset <= |data| && k <= |lines|
      invariant lines[k..] == Lines(data[offset..])
      invariant TakeLines(f, lines, k, limit) == Ok(records)
    {
      ghost var rest := data[offset..];
      NextLine(rest);
      NextTaken(f, lines, k, limit);
      var newline := NextNewline(data[offset..]);
      var line := Chomped(data[offset..][..newline]);
      assert lines[k..][0] == line;
      offset := if offset + newline < |data| then offset + newline + 1 else |data|;
      assert lines[k + 1..] == lines[k..][1..];
      assert newline < |rest| ==> rest[newline + 1..] == data[offset..];
      var taken := TakeLine(f, records, line, limit);
      k := k + 1;
      if taken.Err? {
        RefusalSticks(f, lines, k, |lines|, limit);
        return taken;
      }
      records := taken.value;
    }
    assert lines[k..] == [];
    return Ok(records);
  }

  // ----- splits

  datatype Split = Train | Validation | Test

  predicate SeedValid(seed: int) {
    0 <= seed <= 0xFFFF_FFFF
  }

  /** `split_for_id` */
  function SplitOf<R>(f: Format<R>, seed: int, id: string): Split {
    var bucket := f.bucket(seed, id);
    if bucket < TRAIN_BOUNDARY then Train
    else if bucket < VALIDATION_BOUNDARY then Validation
    else Test
  }

  datatype FrozenSplit = FrozenSplit(name: Split, data: string, sha256: string, recordCount: int, isSealed: bool)

  datatype FrozenDataset = FrozenDataset(
    seed: int, train: FrozenSplit, validation: FrozenSplit, test: FrozenSplit, sourceRecordCount: int)

  const SPLITS: seq<Split> := [Train, Validation, Test]

  function SplitNamed(ds: FrozenDataset, name: Split): FrozenSplit {
    match name
    case Train => ds.train
    case Validation => ds.validation
    case Test => ds.test
  }

  /** The file of a sequence of records, one row a line. */
  function Rows<R>(f: Format<R>, rs: seq<R>): string {
    if rs == [] then "" else f.encode(rs[0]) + "\n" + Rows(f, rs[1..])
  }

  function Chosen<R>(f: Format<R>, seed: int, name: Split, rs: seq<R>): seq<R> {
    if rs == [] then []
    else (if SplitOf(f, seed, f.id(rs[0])) == name then [rs[0]] else []) + Chosen(f, seed, name, rs[1..])
  }

  lemma {:induction false} RowsConcat<R>(f: Format<R>, a: seq<R>, b: seq<R>)
    ensures Rows(f, a + b) == Rows(f, a) + Rows(f, b)
  {
    if a == [] {
      assert a + b == b;
      assert "" + Rows(f, b) == Rows(f, b);
    } else {
      RowsConcat(f, a[1..], b);
      assert (a + b)[1..] == a[1..] + b && (a + b)[0] == a[0];
      Associative(f.encode(a[0]) + "\n", Rows(f, a[1..]), Rows(f, b));
    }
  }

  lemma Associative<T>(x: seq<T>, y: seq<T>, z: seq<T>)
    ensures x + (y + z) == x + y + z
  {
  }

  lemma {:induction false} ChosenConcat<R>(f: Format<R>, seed: int, name: Split, a: seq<R>, b: seq<R>)
    ensures Chosen(f, seed, name, a + b) == Chosen(f, seed, name, a) + Chosen(f, seed, name, b)
  {
    hide SplitOf;
    if a == [] {
      assert a + b == b;
      assert [] + Chosen(f, seed, name, b) == Chosen(f, seed, name, b);
    } else {
      ChosenConcat(f, seed, name, a[1..], b);
      assert (a + b)[1..] == a[1..] + b && (a + b)[0] == a[0];
      var head := if SplitOf(f, seed, f.id(a[0])) == name then [a[0]] else [];
      Associative(head, Chosen(f, seed, name, a[1..]), Chosen(f, seed, name, b));
    }
  }

  // ----- verifying

  /** What the checks of the splits before this one established. */
  datatype Tally<R> = Tally(records: seq<R>, bytes: nat)

  /** Membership and disjointness of the first k records of a split. */
  function IdsFault<R>(f: Format<R>, seed: int, name: Split, rs: seq<R>, k: nat, seen: seq<string>): Option<Refusal>
    requires k <= |rs|
  {
    if k == 0 then None
    else
      var fault := IdsFault(f, seed, name, rs, k - 1, seen);
      if fault.Some? then fault
      else if SplitOf(f, seed, f.id(rs[k - 1])) != name then Some(MembershipInvalid)
      else if f.id(rs[k - 1]) in seen then Some(SplitsOverlap)
      else None
  }

  function SplitOutcome<R>(f: Format<R>, seed: int, split: FrozenSplit, name: Split, tally: Tally<R>): Result<Tally<R>, Refusal> {
    if split.name != name then Err(NameMismatch)
    else if split.isSealed != (name == Test) then Err(SealMismatch)
    else if f.sha256(split.data) != split.sha256 then Err(DigestMismatch)
    else
      var records :- ParseOutcome(f, split.data, MAX_RECORDS, true);
      var bytes := tally.bytes + |split.data|;
      if bytes > MAX_OUTPUT_BYTES then Err(OutputExceeded)
      else if |records| != split.recordCount then Err(CountMismatch)
      else if Rows(f, records) != split.data then Err(NotCanonical)
      else if Ids(f, records) != Sort(StringLess, Ids(f, records)) then Err(OrderInvalid)
      else match IdsFault(f, seed, name, records, |records|, Ids(f, tally.records)) {
        case Some(fault) => Err(fault)
        case None => Ok(Tally(tally.records + records, bytes))
      }
  }

  function SplitsOutcome<R>(f: Format<R>, ds: FrozenDataset, k: nat): Result<Tally<R>, Refusal>
    requires k <= |SPLITS|
  {
    if k == 0 then Ok(Tally([], 0))
    else
      var tally :- SplitsOutcome(f, ds, k - 1);
      SplitOutcome(f, ds.seed, SplitNamed(ds, SPLITS[k - 1]), SPLITS[k - 1], tally)
  }

  /** `verify_frozen_dataset`, with the records it decoded on the way */
  function VerifyOutcome<R>(f: Format<R>, ds: FrozenDataset): Result<seq<R>, Refusal> {
    if !SeedValid(ds.seed) then Err(SeedInvalid)
    else if !(1 <= ds.sourceRecordCount <= MAX_RECORDS) then Err(CountMismatch)
    else
      var tally :- SplitsOutcome(f, ds, |SPLITS|);
      if |tally.records| != ds.sourceRecordCount then Err(CountMismatch) else Ok(tally.records)
  }

  lemma SplitsRefusalSticks<R>(f: Format<R>, ds: FrozenDataset, k: nat)
    requires k <= |SPLITS| && SplitsOutcome(f, ds, k).Err?
    ensures SplitsOutcome(f, ds, |SPLITS|) == Err(SplitsOutcome(f, ds, k).error)
    decreases |SPLITS| - k
  {
  }

  lemma {:induction false} IdsFaultSticks<R>(f: Format<R>, seed: int, name: Split, rs: seq<R>, k: nat, seen: seq<string>)
    requires k <= |rs| && IdsFault(f, seed, name, rs, k, seen).Some?
    ensures IdsFault(f, seed, name, rs, |rs|, seen) == IdsFault(f, seed, name, rs, k, seen)
    decreases |rs| - k
  {
    if k < |rs| {
      IdsFaultSticks(f, seed, name, rs, k + 1, seen);
    }
  }

  /** Parsed records have distinct IDs. */
  lemma {:induction false} ParsedDistinct<R>(f: Format<R>, lines: seq<string>, k: nat, limit: int)
    requires k <= |lines| && TakeLines(f, lines, k, limit).Ok?
    ensures Distinct(Ids(f, TakeLines(f, lines, k, limit).value))
  {
    if k > 0 {
      ParsedDistinct(f, lines, k - 1, limit);
      var before, after := TakeLines(f, lines, k - 1, limit).value, TakeLines(f, lines, k, limit).value;
      assert Ids(f, after) == Ids(f, before) + [f.id(after[|before|])];
    }
  }

  /** The membership loop: every ID belongs to the split and was not seen in an earlier one. */
  method CheckMembership<R>(f: Format<R>, seed: int, name: Split, records: seq<R>, seen: seq<string>)
    returns (fault: Option<Refusal>, allIds: seq<string>)
    requires Distinct(Ids(f, records))
    ensures fault == IdsFault(f, seed, name, records, |records|, seen)
    ensures fault == None ==> allIds == seen + Ids(f, records)
  {
    allIds := seen;
    for j := 0 to |records|
      invariant IdsFault(f, seed, name, records, j, seen) == None
      invariant allIds == seen + Ids(f, records)[..j]
    {
      var id := f.id(records[j]);
      assert id == Ids(f, records)[j];
      if SplitOf(f, seed, id) != name {
        IdsFaultSticks(f, seed, name, records, j + 1, seen);
        return Some(MembershipInvalid), allIds;
      }
      if id in allIds {
        IdsFaultSticks(f, seed, name, records, j + 1, seen);
        return Some(SplitsOverlap), allIds;
      }
      allIds := allIds + [id];
    }
    return None, allIds;
  }

  /** The local variables of the checker after some of the splits. */
  datatype Progress = Progress(allIds: seq<string>, total: nat, totalBytes: nat)

  ghost predicate Reflects<R>(f: Format<R>, at: Progress, tally: Tally<R>) {
    at.allIds == Ids(f, tally.records) && at.total == |tally.records| && at.totalBytes == tally.bytes
  }

  /** The body of the checker's loop for one split. */
  method VerifySplit<R>(f: Format<R>, seed: int, split: FrozenSplit, name: Split, at: Progress, ghost tally: Tally<R>)
    returns (out: Result<Progress, Refusal>)
    requires Reflects(f, at, tally)
    ensures var outcome := SplitOutcome(f, seed, split, name, tally);
      && (outcome.Ok? ==> out.Ok? && Reflects(f, out.value, outcome.value))
      && (outcome.Err? ==> out == Err(outcome.error))
  {
    hide TakeLines, Rows, Sort, IdsFault, Lines;
    if split.name != name {
      return Err(NameMismatch);
    }
    if split.isSealed != (name == Test) {
      return Err(SealMismatch);
    }
    if f.sha256(split.data) != split.sha256 {
      return Err(DigestMismatch);
    }
    var parsed := ParseJsonl(f, split.data, MAX_RECORDS, true);
    if parsed.Err? {
      return Err(parsed.error);
    }
    var records := parsed.value;
    ParsedDistinct(f, Lines(split.data), |Lines(split.data)|, MAX_RECORDS);
    var totalBytes := at.totalBytes + |split.data|;
    if totalBytes > MAX_OUTPUT_BYTES {
      return Err(OutputExceeded);
    }
    if |records| != split.recordCount {
      return Err(CountMismatch);
    }
    if Rows(f, records) != split.data {
      return Err(NotCanonical);
    }
    if Ids(f, records) != Sort(StringLess, Ids(f, records)) {
      return Err(OrderInvalid);
    }
    var fault, allIds := CheckMembership(f, seed, name, records, at.allIds);
    if fault.Some? {
      return Err(fault.value);
    }
    return Ok(Progress(allIds, at.total + |records|, totalBytes));
  }

  method VerifyFrozenDataset<R>(f: Format<R>, ds: FrozenDataset) returns (out: Result<(), Refusal>)
    ensures VerifyOutcome(f, ds).Ok? ==> out == Ok(())
    ensures VerifyOutcome(f, ds).Err? ==> out == Err(VerifyOutcome(f, ds).error)
  {
    hide SplitOutcome, Ids;
    if !SeedValid(ds.seed) {
      return Err(SeedInvalid);
    }
    if ds.sourceRecordCount < 1 || ds.sourceRecordCount > MAX_RECORDS {
      return Err(CountMismatch);
    }
    var at := Progress([], 0, 0);
    ghost var tally: Tally<R> := Tally([], 0);
    NoIds(f);
    for i := 0 to |SPLITS|
      invariant SplitsOutcome(f, ds, i) == Ok(tally) && Reflects(f, at, tally)
    {
      ghost var outcome := SplitsOutcome(f, ds, i + 1);
      var verified := VerifySplit(f, ds.seed, SplitNamed(ds, SPLITS[i]), SPLITS[i], at, tally);
      if verified.Err? {
        SplitsRefusalSticks(f, ds, i + 1);
        return Err(verified.error);
      }
      at, tally := verified.value, outcome.value;
    }
    if at.total != ds.sourceRecordCount {
      return Err(CountMismatch);
    }
    return Ok(());
  }

  lemma NoIds<R>(f: Format<R>)
    ensures Ids(f, []) == []
  {
  }
}

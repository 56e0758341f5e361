/**
 The receipt log: a directory of immutable, hash-chained entries and a mutable HEAD file. Files are
 names mapped to contents. The receipt codec and the hash are parameters, so every result below
 holds for any codec that reads back what it writes.
 */
module Receipts {
  import opened Outcomes
  import opened Ordering
  import opened EntryNames
  import opened Listings

  const MAX_JOB_BYTES: nat := 1_048_576

  /** The receipt fields the log and the worker act on; `evidence` is the rest of the document. */
  datatype Receipt = Receipt(
    id: string, previous: Option<string>, key: string, jobDigest: string,
    jobId: string, attempt: nat, inputs: string,
    startedAt: int, finishedAt: int, workerId: string, sessionId: string, evidence: string)

  /** What a HEAD document holds as its sequence: a number, or the truth value that equals one. */
  datatype Sequence = Count(number: nat) | Truth

  datatype Head = Head(sequence: Sequence, filename: string, sha: string)

  /** Canonical encoding with its decoder, the digest, and the closed receipt contract. */
  datatype Codec = Codec(
    encode: Receipt -> string, decode: string -> Option<Receipt>,
    encodeHead: Head -> string, decodeHead: string -> Option<Head>,
    hash: string -> string, accepts: Receipt -> bool)

  ghost predicate Lawful(c: Codec) {
    && (forall r :: c.accepts(r) ==>
        ValidId(r.id) && r.startedAt <= r.finishedAt && c.decode(c.encode(r)) == Some(r))
    && (forall h :: c.decodeHead(c.encodeHead(h)) == Some(h))
  }

  ghost predicate CollisionFree(c: Codec) {
    forall a, b :: c.hash(a) == c.hash(b) ==> a == b
  }

  datatype Refusal =
    | EntryOrderInvalid | EntryTooLarge | JsonInvalid | ReceiptInvalid | NotCanonical
    | ChainBroken | DuplicateIdentity | FilenameMismatch | HeadMismatch
    | JobConflict | ReplayConflict | StaleHead | DeadlineExpired | ReceiptTooLarge
    | NotAdmitted | EntryWriteFailed | HeadWriteFailed | Killed

  datatype Stored = Stored(sequence: nat, name: string, data: string, sha: string, doc: Receipt)

  datatype Committed = Committed(name: string, data: string, sha: string, replayed: bool)

  datatype Verification = Verification(count: nat, head: Option<string>, recovered: bool)

  /** The durable state: entry files, and HEAD when it exists. */
  datatype Store = Store(entries: map<string, string>, head: Option<string>)

  /** Where a storage operation of a commit stops. */
  datatype Point = BeforeLink | AfterLink | BeforeReplace | AfterReplace

  /** An operation fails at a point, the process dies there, or it dies leaving a temporary entry. */
  datatype Fault = NoFault | Fails(at: Point) | Dies(at: Point) | DiesWithTemporary(name: string)

  // ----- the scan

  function LastSha(es: seq<Stored>): Option<string> {
    if es == [] then None else Some(es[|es| - 1].sha)
  }

  function Ids(es: seq<Stored>): (s: set<string>)
    ensures forall id :: id in s <==> exists i :: 0 <= i < |es| && es[i].doc.id == id
  {
    set e | e in es :: e.doc.id
  }

  function Keys(es: seq<Stored>): (s: set<string>)
    ensures forall key :: key in s <==> exists i :: 0 <= i < |es| && es[i].doc.key == key
  {
    set e | e in es :: e.doc.key
  }

  /** What one iteration of the scan makes of the next name, given the entries read so far. */
  function ReadEntry(c: Codec, entries: map<string, string>, name: string, es: seq<Stored>): Result<Stored, Refusal>
    requires name in entries
  {
    var parsed := ParseName(name);
    if parsed.None? || parsed.value.0 != |es| + 1 then Err(EntryOrderInvalid)
    else
      var data := entries[name];
      if |data| > MAX_JOB_BYTES then Err(EntryTooLarge)
      else match c.decode(data) {
        case None => Err(JsonInvalid)
        case Some(doc) =>
          if !c.accepts(doc) then Err(ReceiptInvalid)
          else if c.encode(doc) != data then Err(NotCanonical)
          else if doc.previous != LastSha(es) then Err(ChainBroken)
          else if doc.id in Ids(es) || doc.key in Keys(es) then Err(DuplicateIdentity)
          else if doc.id != parsed.value.1 then Err(FilenameMismatch)
          else Ok(Stored(|es| + 1, name, data, c.hash(data), doc))
      }
  }

  ghost function ScanPrefix(c: Codec, entries: map<string, string>, names: seq<string>, k: nat): Result<seq<Stored>, Refusal>
    requires k <= |names| && forall x :: x in names ==> x in entries
  {
    if k == 0 then Ok([])
    else
      var es :- ScanPrefix(c, entries, names, k - 1);
      var e :- ReadEntry(c, entries, names[k - 1], es);
      Ok(es + [e])
  }

  ghost function Scan(c: Codec, entries: map<string, string>): Result<seq<Stored>, Refusal> {
    var names := Listing(entries.Keys);
    ScanPrefix(c, entries, names, |names|)
  }

  /** The declarative meaning of an intact log: numbered, canonical, linked, without repetition. */
  ghost predicate Chain(c: Codec, es: seq<Stored>) {
    && |es| < SEQUENCE_BOUND
    && (forall i :: 0 <= i < |es| ==> Link(c, es, i))
    && (forall i, j :: 0 <= i < j < |es| ==> es[i].doc.id != es[j].doc.id && es[i].doc.key != es[j].doc.key)
  }

  ghost predicate Link(c: Codec, es: seq<Stored>, i: nat)
    requires i < |es|
  {
    var e := es[i];
    && e.sequence == i + 1
    && e.name == EntryName(i + 1, e.doc.id)
    && ValidId(e.doc.id)
    && c.accepts(e.doc)
    && e.data == c.encode(e.doc)
    && |e.data| <= MAX_JOB_BYTES
    && e.sha == c.hash(e.data)
    && e.doc.previous == (if i == 0 then None else Some(es[i - 1].sha))
  }

  function NamesOf(es: seq<Stored>): (names: seq<string>)
    ensures |names| == |es|
    ensures forall i :: 0 <= i < |es| ==> names[i] == es[i].name
  {
    seq(|es|, i requires 0 <= i < |es| => es[i].name)
  }

  /** The directory that holds exactly these entries. */
  function Layout(es: seq<Stored>): map<string, string> {
    if es == [] then map[] else Layout(es[..|es| - 1])[es[|es| - 1].name := es[|es| - 1].data]
  }

  lemma {:induction false} LayoutNames(es: seq<Stored>)
    ensures forall x :: x in Layout(es) <==> x in NamesOf(es)
  {
    if es != [] {
      LayoutNames(es[..|es| - 1]);
      assert NamesOf(es) == NamesOf(es[..|es| - 1]) + [es[|es| - 1].name];
    }
  }

  lemma {:induction false} LayoutData(es: seq<Stored>, i: nat)
    requires i < |es| && forall a, b :: 0 <= a < b < |es| ==> es[a].name != es[b].name
    ensures es[i].name in Layout(es) && Layout(es)[es[i].name] == es[i].data
  {
    if i < |es| - 1 {
      LayoutData(es[..|es| - 1], i);
      assert es[..|es| - 1][i] == es[i];
    }
  }

  lemma ChainNamesAscend(c: Codec, es: seq<Stored>)
    requires Chain(c, es)
    ensures Ascending(StringLess, NamesOf(es))
    ensures forall i, j :: 0 <= i < j < |es| ==> es[i].name != es[j].name
  {
    hide ParseName, EntryName, ValidId;
    forall i, j | 0 <= i < j < |es|
      ensures StringLess(es[i].name, es[j].name) && es[i].name != es[j].name
    {
      assert Link(c, es, i) && Link(c, es, j);
      NamesSortBySequence(i + 1, j + 1, es[i].doc.id, es[j].doc.id);
      NameReadsBack(i + 1, es[i].doc.id);
      NameReadsBack(j + 1, es[j].doc.id);
    }
  }

  /** The entry that a chain of entries can be extended with. */
  ghost predicate Extends(c: Codec, es: seq<Stored>, e: Stored) {
    && e.sequence == |es| + 1 < SEQUENCE_BOUND
    && e.name == EntryName(|es| + 1, e.doc.id)
    && ValidId(e.doc.id)
    && c.accepts(e.doc)
    && e.data == c.encode(e.doc)
    && |e.data| <= MAX_JOB_BYTES
    && e.sha == c.hash(e.data)
    && e.doc.previous == LastSha(es)
    && e.doc.id !in Ids(es)
    && e.doc.key !in Keys(es)
  }

  lemma ExtendedChain(c: Codec, es: seq<Stored>, e: Stored)
    requires Chain(c, es) && Extends(c, es, e)
    ensures Chain(c, es + [e])
  {
    hide EntryName, ValidId;
    var all := es + [e];
    forall i | 0 <= i < |all|
      ensures Link(c, all, i)
    {
      if i < |es| {
        assert Link(c, es, i) && all[i] == es[i];
        assert i > 0 ==> all[i - 1] == es[i - 1];
      }
    }
    forall i, j | 0 <= i < j < |all|
      ensures all[i].doc.id != all[j].doc.id && all[i].doc.key != all[j].doc.key
    {
      if j == |es| {
        assert es[i].doc.id in Ids(es) && es[i].doc.key in Keys(es);
      } else {
        assert all[i] == es[i] && all[j] == es[j];
      }
    }
  }

  lemma ReadEntryExtends(c: Codec, entries: map<string, string>, name: string, es: seq<Stored>)
    requires Lawful(c) && name in entries
    requires ReadEntry(c, entries, name, es).Ok?
    ensures var e := ReadEntry(c, entries, name, es).value;
      Extends(c, es, e) && e.name == name && e.data == entries[name]
  {
    hide ParseName, EntryName, ValidId;
    ReadNameIsEntryName(name);
  }

  /** An accepted prefix of the listing is a chain whose entries are the files read. */
  lemma {:induction false} ScannedIsChain(c: Codec, entries: map<string, string>, names: seq<string>, k: nat)
    requires Lawful(c) && k <= |names| && forall x :: x in names ==> x in entries
    requires ScanPrefix(c, entries, names, k).Ok?
    ensures var es := ScanPrefix(c, entries, names, k).value;
      && |es| == k && Chain(c, es)
      && forall i :: 0 <= i < k ==> names[i] == es[i].name && entries[names[i]] == es[i].data
  {
    hide ReadEntry, Extends, Link;
    if k > 0 {
      ScannedIsChain(c, entries, names, k - 1);
      var es := ScanPrefix(c, entries, names, k - 1).value;
      ReadEntryExtends(c, entries, names[k - 1], es);
      ExtendedChain(c, es, ReadEntry(c, entries, names[k - 1], es).value);
    }
  }

  lemma ExtensionIsRead(c: Codec, entries: map<string, string>, es: seq<Stored>, e: Stored)
    requires Lawful(c) && Extends(c, es, e)
    requires e.name in entries && entries[e.name] == e.data
    ensures ReadEntry(c, entries, e.name, es) == Ok(e)
  {
    hide ParseName, EntryName, ValidId;
    NameReadsBack(|es| + 1, e.doc.id);
  }

  lemma ChainPrefix(c: Codec, es: seq<Stored>, k: nat)
    requires Chain(c, es) && k <= |es|
    ensures Chain(c, es[..k])
    ensures k < |es| ==> Extends(c, es[..k], es[k])
  {
    hide EntryName, ValidId;
    var front := es[..k];
    forall i | 0 <= i < k
      ensures Link(c, front, i)
    {
      assert Link(c, es, i);
    }
    if k < |es| {
      assert Link(c, es, k);
    }
  }

  lemma {:induction false} ChainIsScanned(c: Codec, entries: map<string, string>, names: seq<string>, es: seq<Stored>, k: nat)
    requires Lawful(c) && Chain(c, es) && k <= |names| == |es|
    requires forall x :: x in names ==> x in entries
    requires forall i :: 0 <= i < |es| ==> names[i] == es[i].name && entries[names[i]] == es[i].data
    ensures ScanPrefix(c, entries, names, k) == Ok(es[..k])
  {
    hide ReadEntry, Extends, Chain;
    if k > 0 {
      ChainIsScanned(c, entries, names, es, k - 1);
      ChainPrefix(c, es, k - 1);
      assert names[k - 1] in entries;
      ExtensionIsRead(c, entries, es[..k - 1], es[k - 1]);
      assert es[..k] == es[..k - 1] + [es[k - 1]];
    }
  }

  lemma ScannedIsLayout(c: Codec, entries: map<string, string>)
    requires Lawful(c) && Scan(c, entries).Ok?
    ensures var es := Scan(c, entries).value; Chain(c, es) && entries == Layout(es)
  {
    hide Lawful, Chain, ScanPrefix, Layout;
    var names := Listing(entries.Keys);
    ScannedIsChain(c, entries, names, |names|);
    var es := Scan(c, entries).value;
    ChainNamesAscend(c, es);
    LayoutNames(es);
    assert names == NamesOf(es);
    forall x | x in entries
      ensures x in Layout(es) && Layout(es)[x] == entries[x]
    {
      var i :| 0 <= i < |names| && names[i] == x;
      LayoutData(es, i);
    }
    assert entries.Keys == Layout(es).Keys;
  }

  lemma LayoutIsScanned(c: Codec, es: seq<Stored>)
    requires Lawful(c) && Chain(c, es)
    ensures Scan(c, Layout(es)) == Ok(es)
  {
    hide Lawful, Chain, ScanPrefix, Layout;
    LayoutNames(es);
    ChainNamesAscend(c, es);
    ListingIs(Layout(es).Keys, NamesOf(es));
    forall i | 0 <= i < |es|
      ensures es[i].name in Layout(es) && Layout(es)[es[i].name] == es[i].data
    {
      LayoutData(es, i);
    }
    ChainIsScanned(c, Layout(es), NamesOf(es), es, |es|);
    assert es[..|es|] == es;
  }

  /** The scan accepts exactly the directories that lay out a chain, and returns that chain. */
  lemma ScanAcceptsExactlyLayouts(c: Codec, entries: map<string, string>, es: seq<Stored>)
    requires Lawful(c)
    ensures Scan(c, entries) == Ok(es) <==> Chain(c, es) && entries == Layout(es)
  {
    hide Lawful, Chain, Scan, Layout;
    if Scan(c, entries).Ok? {
      ScannedIsLayout(c, entries);
    }
    if Chain(c, es) {
      LayoutIsScanned(c, es);
    }
  }

  // ----- HEAD

  function HeadOf(es: seq<Stored>): Head
    requires es != []
  {
    var last := es[|es| - 1];
    Head(Count(last.sequence), last.name, last.sha)
  }

  /** Equality of documents as the comparison of dictionaries has it: true equals one. */
  predicate SameHead(a: Head, b: Head) {
    Worth(a.sequence) == Worth(b.sequence) && a.filename == b.filename && a.sha == b.sha
  }

  function Worth(s: Sequence): nat {
    match s
    case Count(number) => number
    case Truth => 1
  }

  /** `_require_matching_head`: the decoded document equals the expected one and prints as it stands. */
  function HeadMatches(c: Codec, head: Option<string>, es: seq<Stored>): bool {
    if es == [] then head.None?
    else if head.None? then false
    else match c.decodeHead(head.value) {
      case None => false
      case Some(document) => SameHead(document, HeadOf(es)) && c.encodeHead(document) == head.value
    }
  }

  /** The HEAD file that belongs to a chain. */
  function ProperHead(c: Codec, es: seq<Stored>): Option<string> {
    if es == [] then None else Some(c.encodeHead(HeadOf(es)))
  }

  /** The HEAD file of a one-entry log with the sequence number written as a truth value. */
  function TruthHead(c: Codec, es: seq<Stored>): Option<string>
    requires es != []
  {
    Some(c.encodeHead(HeadOf(es).(sequence := Truth)))
  }

  /** The check accepts the proper HEAD and, on a log of one entry, one other file. */
  lemma HeadMatchesExactly(c: Codec, head: Option<string>, es: seq<Stored>)
    requires Lawful(c) && (es != [] ==> es[|es| - 1].sequence == |es|)
    ensures HeadMatches(c, head, es) <==> head == ProperHead(c, es) || (|es| == 1 && head == TruthHead(c, es))
    ensures es != [] ==> TruthHead(c, es) != ProperHead(c, es)
  {
    if es != [] {
      var proper, truth := HeadOf(es), HeadOf(es).(sequence := Truth);
      assert c.decodeHead(c.encodeHead(proper)) == Some(proper) && c.decodeHead(c.encodeHead(truth)) == Some(truth);
      if HeadMatches(c, head, es) {
        var document := c.decodeHead(head.value).value;
        assert document == proper || document == truth;
      }
    }
  }

  // ----- the operations, as functions on the durable state

  function FirstWithKey(es: seq<Stored>, key: string): (found: Option<Stored>)
    ensures found.None? ==> forall i :: 0 <= i < |es| ==> es[i].doc.key != key
    ensures found.Some? ==> found.value in es && found.value.doc.key == key
  {
    if es == [] then None
    else if es[0].doc.key == key then Some(es[0])
    else FirstWithKey(es[1..], key)
  }

  /** The outer budget check that runs under the lock; HEAD bytes are absent for a replay. */
  type Admission = (Committed, Option<string>) -> bool

  ghost function CommitOutcome(c: Codec, s: Store, r: Receipt, expired: bool, admit: Admission, fault: Fault)
    : (Store, Result<Committed, Refusal>)
  {
    if !c.accepts(r) then (s, Err(ReceiptInvalid))
    else if |c.encode(r)| > MAX_JOB_BYTES then (s, Err(ReceiptTooLarge))
    else match Scan(c, s.entries) {
      case Err(e) => (s, Err(e))
      case Ok(es) =>
        if !HeadMatches(c, s.head, es) then (s, Err(HeadMismatch))
        else match FirstWithKey(es, r.key) {
          case Some(stored) =>
            if stored.doc.jobDigest != r.jobDigest then (s, Err(JobConflict))
            else if stored.data != c.encode(r) then (s, Err(ReplayConflict))
            else
              var replay := Committed(stored.name, stored.data, stored.sha, true);
              if admit(replay, None) then (s, Ok(replay)) else (s, Err(NotAdmitted))
          case None =>
            if r.previous != LastSha(es) then (s, Err(StaleHead))
            else if expired then (s, Err(DeadlineExpired))
            else
              var e := NewEntry(c, es, r);
              var head := c.encodeHead(HeadOf(es + [e]));
              if !admit(Committed(e.name, e.data, e.sha, false), Some(head)) then (s, Err(NotAdmitted))
              else WriteOutcome(s, e, head, fault)
        }
    }
  }

  function NewEntry(c: Codec, es: seq<Stored>, r: Receipt): Stored {
    Stored(|es| + 1, EntryName(|es| + 1, r.id), c.encode(r), c.hash(c.encode(r)), r)
  }

  /** Entry link, entries sync, HEAD replacement: what each fault leaves behind and reports. */
  function WriteOutcome(s: Store, e: Stored, head: string, fault: Fault): (Store, Result<Committed, Refusal>) {
    var linked := s.(entries := s.entries[e.name := e.data]);
    match fault
    case NoFault => (linked.(head := Some(head)), Ok(Committed(e.name, e.data, e.sha, false)))
    case DiesWithTemporary(name) => (s.(entries := s.entries[name := ""]), Err(Killed))
    case Fails(BeforeLink) => (s, Err(EntryWriteFailed))
    case Fails(AfterLink) => (linked, Err(EntryWriteFailed))
    case Fails(BeforeReplace) => (linked, Err(HeadWriteFailed))
    case Fails(AfterReplace) => (linked.(head := Some(head)), Err(HeadWriteFailed))
    case Dies(BeforeLink) => (s, Err(Killed))
    case Dies(AfterReplace) => (linked.(head := Some(head)), Err(Killed))
    case Dies(_) => (linked, Err(Killed))
  }

  ghost function FindOutcome(c: Codec, s: Store, key: string, jobDigest: string): Result<Option<Stored>, Refusal> {
    match Scan(c, s.entries)
    case Err(e) => Err(e)
    case Ok(es) =>
      if !HeadMatches(c, s.head, es) then Err(HeadMismatch)
      else match FirstWithKey(es, key) {
        case None => Ok(None)
        case Some(stored) => if stored.doc.jobDigest != jobDigest then Err(JobConflict) else Ok(Some(stored))
      }
  }

  ghost function VerifyOutcome(c: Codec, s: Store, recover: bool, fault: Fault): (Store, Result<Verification, Refusal>) {
    match Scan(c, s.entries)
    case Err(e) => (s, Err(e))
    case Ok(es) =>
      if HeadMatches(c, s.head, es) then (s, Ok(Verification(|es|, LastSha(es), false)))
      else if !recover then (s, Err(HeadMismatch))
      else match fault {
        case Fails(AfterReplace) => (s.(head := ProperHead(c, es)), Err(HeadWriteFailed))
        case Dies(AfterReplace) => (s.(head := ProperHead(c, es)), Err(Killed))
        case Fails(_) => (s, Err(HeadWriteFailed))
        case Dies(_) => (s, Err(Killed))
        case DiesWithTemporary(_) => (s, Err(Killed))
        case NoFault => (s.(head := ProperHead(c, es)), Ok(Verification(|es|, LastSha(es), true)))
      }
  }

  lemma ScanStarts(c: Codec, entries: map<string, string>, names: seq<string>)
    requires names == Listing(entries.Keys)
    ensures ScanPrefix(c, entries, names, 0) == Ok([]) && Ids([]) == {} && Keys([]) == {}
    ensures Scan(c, entries) == ScanPrefix(c, entries, names, |names|)
  {
    hide Listing;
  }

  lemma IdentitiesGrow(es: seq<Stored>, e: Stored)
    ensures Ids(es + [e]) == Ids(es) + {e.doc.id} && Keys(es + [e]) == Keys(es) + {e.doc.key}
  {
  }

  /** One more name decides the whole scan when it is refused, and extends the prefix otherwise. */
  lemma ScanStep(c: Codec, entries: map<string, string>, names: seq<string>, k: nat, es: seq<Stored>)
    requires k < |names| && forall x :: x in names ==> x in entries
    requires ScanPrefix(c, entries, names, k) == Ok(es)
    ensures var step := ReadEntry(c, entries, names[k], es);
      if step.Ok? then ScanPrefix(c, entries, names, k + 1) == Ok(es + [step.value])
      else ScanPrefix(c, entries, names, |names|) == Err(step.error)
  {
    hide ReadEntry;
    if ScanPrefix(c, entries, names, k + 1).Err? {
      RefusalSticks(c, entries, names, k + 1);
    }
  }

  lemma {:induction false} RefusalSticks(c: Codec, entries: map<string, string>, names: seq<string>, k: nat)
    requires k <= |names| && (forall x :: x in names ==> x in entries)
    requires ScanPrefix(c, entries, names, k).Err?
    ensures ScanPrefix(c, entries, names, |names|) == ScanPrefix(c, entries, names, k)
    decreases |names| - k
  {
    if k < |names| {
      RefusalSticks(c, entries, names, k + 1);
    }
  }

  // ----- the log itself

  class ReceiptLog {
    const codec: Codec
    var entries: map<string, string>
    var head: Option<string>

    constructor (codec: Codec)
      ensures this.codec == codec && State() == Store(map[], None)
    {
      this.codec := codec;
      entries, head := map[], None;
    }

    function State(): Store
      reads this
    {
      Store(entries, head)
    }

    /** `_scan_entries`: one pass over the sorted names with the sets of identities seen so far. */
    method ScanEntries() returns (r: Result<seq<Stored>, Refusal>)
      ensures r == Scan(codec, entries)
    {
      hide ParseName, ScanPrefix, Listing, Scan, Ids, Keys;
      var names := ListDirectory(entries.Keys);
      ScanStarts(codec, entries, names);
      var es: seq<Stored>, seenIds: set<string>, seenKeys: set<string>, previous: Option<string> := [], {}, {}, None;
      var k := 0;
      ghost var whole := ScanPrefix(codec, entries, names, |names|);
      while k < |names|
        invariant 0 <= k <= |names|
        invariant whole == ScanPrefix(codec, entries, names, |names|)
        invariant ScanPrefix(codec, entries, names, k) == Ok(es) && |es| == k
        invariant seenIds == Ids(es) && seenKeys == Keys(es) && previous == LastSha(es)
      {
        var parsed := ParseName(names[k]);
        ScanStep(codec, entries, names, k, es);
        assert names[k] in entries;
        if parsed.None? || parsed.value.0 != k + 1 {
          return Err(EntryOrderInvalid);
        }
        var data := entries[names[k]];
        if |data| > MAX_JOB_BYTES {
          return Err(EntryTooLarge);
        }
        var decoded := codec.decode(data);
        if decoded.None? {
          return Err(JsonInvalid);
        }
        var doc := decoded.value;
        if !codec.accepts(doc) {
          return Err(ReceiptInvalid);
        }
        if codec.encode(doc) != data {
          return Err(NotCanonical);
        }
        if doc.previous != previous {
          return Err(ChainBroken);
        }
        if doc.id in seenIds || doc.key in seenKeys {
          return Err(DuplicateIdentity);
        }
        if doc.id != parsed.value.1 {
          return Err(FilenameMismatch);
        }
        var digest := codec.hash(data);
        IdentitiesGrow(es, Stored(k + 1, names[k], data, digest, doc));
        es := es + [Stored(k + 1, names[k], data, digest, doc)];
        seenIds := seenIds + {doc.id};
        seenKeys := seenKeys + {doc.key};
        previous := Some(digest);
        k := k + 1;
      }
      r := Ok(es);
    }

    method Commit(r: Receipt, expired: bool, admit: Admission, fault: Fault) returns (out: Result<Committed, Refusal>)
      modifies this`entries, this`head
      ensures (State(), out) == CommitOutcome(codec, old(State()), r, expired, admit, fault)
    {
      if !codec.accepts(r) {
        return Err(ReceiptInvalid);
      }
      var data := codec.encode(r);
      if |data| > MAX_JOB_BYTES {
        return Err(ReceiptTooLarge);
      }
      var scanned := ScanEntries();
      if scanned.Err? {
        return Err(scanned.error);
      }
      var es := scanned.value;
      if !HeadMatches(codec, head, es) {
        return Err(HeadMismatch);
      }
      var k := 0;
      while k < |es|
        invariant 0 <= k <= |es|
        invariant FirstWithKey(es[k..], r.key) == FirstWithKey(es, r.key)
      {
        if es[k].doc.key == r.key {
          if es[k].doc.jobDigest != r.jobDigest {
            return Err(JobConflict);
          }
          if es[k].data != data {
            return Err(ReplayConflict);
          }
          var replay := Committed(es[k].name, es[k].data, es[k].sha, true);
          if !admit(replay, None) {
            return Err(NotAdmitted);
          }
          return Ok(replay);
        }
        k := k + 1;
      }
      if r.previous != LastSha(es) {
        return Err(StaleHead);
      }
      if expired {
        return Err(DeadlineExpired);
      }
      var e := NewEntry(codec, es, r);
      var headData := codec.encodeHead(Head(Count(e.sequence), e.name, e.sha));
      if !admit(Committed(e.name, e.data, e.sha, false), Some(headData)) {
        return Err(NotAdmitted);
      }
      match fault {
        case DiesWithTemporary(name) =>
          entries := entries[name := ""];
          return Err(Killed);
        case Fails(BeforeLink) =>
          return Err(EntryWriteFailed);
        case Dies(BeforeLink) =>
          return Err(Killed);
        case _ =>
      }
      entries := entries[e.name := e.data];
      match fault {
        case Fails(AfterLink) =>
          return Err(EntryWriteFailed);
        case Dies(AfterLink) =>
          return Err(Killed);
        case _ =>
      }
      var failure := WriteHead(headData, fault);
      if failure.Some? {
        return Err(failure.value);
      }
      out := Ok(Committed(e.name, e.data, e.sha, false));
    }

    /** `_write_head`: a temporary file replaces HEAD; its own cleanup leaves nothing behind. */
    method WriteHead(data: string, fault: Fault) returns (failure: Option<Refusal>)
      modifies this`head
      ensures fault in {Fails(BeforeReplace), Fails(AfterLink), Fails(BeforeLink)} ==> head == old(head) && failure == Some(HeadWriteFailed)
      ensures fault in {Dies(BeforeReplace), Dies(AfterLink), Dies(BeforeLink)} || fault.DiesWithTemporary? ==> head == old(head) && failure == Some(Killed)
      ensures fault == Fails(AfterReplace) ==> head == Some(data) && failure == Some(HeadWriteFailed)
      ensures fault == Dies(AfterReplace) ==> head == Some(data) && failure == Some(Killed)
      ensures fault == NoFault ==> head == Some(data) && failure == None
    {
      match fault {
        case NoFault =>
          head, failure := Some(data), None;
        case DiesWithTemporary(_) =>
          failure := Some(Killed);
        case Fails(at) =>
          if at == AfterReplace {
            head := Some(data);
          }
          failure := Some(HeadWriteFailed);
        case Dies(at) =>
          if at == AfterReplace {
            head := Some(data);
          }
          failure := Some(Killed);
      }
    }

    method Find(key: string, jobDigest: string) returns (r: Result<Option<Stored>, Refusal>)
      ensures r == FindOutcome(codec, State(), key, jobDigest)
    {
      hide Scan, HeadMatches;
      var scanned := ScanEntries();
      if scanned.Err? {
        return Err(scanned.error);
      }
      var es := scanned.value;
      if !HeadMatches(codec, head, es) {
        return Err(HeadMismatch);
      }
      var k := 0;
      while k < |es|
        invariant 0 <= k <= |es|
        invariant FirstWithKey(es[k..], key) == FirstWithKey(es, key)
      {
        if es[k].doc.key == key {
          if es[k].doc.jobDigest != jobDigest {
            return Err(JobConflict);
          }
          return Ok(Some(es[k]));
        }
        k := k + 1;
      }
      r := Ok(None);
    }

    method Verify(recover: bool, fault: Fault) returns (r: Result<Verification, Refusal>)
      modifies this`head
      ensures (State(), r) == VerifyOutcome(codec, old(State()), recover, fault)
    {
      hide Scan, HeadMatches;
      var scanned := ScanEntries();
      if scanned.Err? {
        return Err(scanned.error);
      }
      var es := scanned.value;
      if HeadMatches(codec, head, es) {
        return Ok(Verification(|es|, LastSha(es), false));
      }
      if !recover {
        return Err(HeadMismatch);
      }
      if es == [] {
        // An empty log has no HEAD: recovery unlinks it, and only the sync can still fail.
        match fault {
          case Fails(at) =>
            if at == AfterReplace {
              head := None;
            }
            return Err(HeadWriteFailed);
          case Dies(at) =>
            if at == AfterReplace {
              head := None;
            }
            return Err(Killed);
          case DiesWithTemporary(_) =>
            return Err(Killed);
          case NoFault =>
            head := None;
        }
      } else {
        var failure := WriteHead(codec.encodeHead(HeadOf(es)), fault);
        if failure.Some? {
          return Err(failure.value);
        }
      }
      r := Ok(Verification(|es|, LastSha(es), true));
    }
  }
}

/**
 What every run of commits, failures, deaths and recoveries keeps in a receipt log, when a commit
 would break the log, and how one head digest pins down a whole log.
 */
module ReceiptRuns {
  import opened Outcomes
  import opened EntryNames
  import opened Listings
  import opened Receipts

  datatype Action =
    | Committing(receipt: Receipt, expired: bool, admit: Admission, fault: Fault)
    | Verifying(recover: bool, fault: Fault)

  ghost function Act(c: Codec, s: Store, a: Action): Store {
    match a
    case Committing(r, expired, admit, fault) => CommitOutcome(c, s, r, expired, admit, fault).0
    case Verifying(recover, fault) => VerifyOutcome(c, s, recover, fault).0
  }

  ghost function Run(c: Codec, s: Store, actions: seq<Action>): Store {
    if actions == [] then s else Act(c, Run(c, s, actions[..|actions| - 1]), actions[|actions| - 1])
  }

  /** The scan succeeds with these entries and HEAD names the last or the last but one. */
  ghost predicate Sound(c: Codec, s: Store, es: seq<Stored>) {
    && Scan(c, s.entries) == Ok(es)
    && (s.head == ProperHead(c, es) || (es != [] && s.head == ProperHead(c, es[..|es| - 1])))
  }

  /** The assumptions on one action: a fresh receipt ID, a sixteen-digit number, no stray temporary. */
  ghost predicate Admissible(c: Codec, s: Store, a: Action) {
    a.Committing? && Scan(c, s.entries).Ok? ==>
      var es := Scan(c, s.entries).value;
      && !a.fault.DiesWithTemporary?
      && (a.receipt.id !in Ids(es) || a.receipt.key in Keys(es))
      && |es| + 1 < SEQUENCE_BOUND
  }

  ghost predicate AdmissibleRun(c: Codec, s: Store, actions: seq<Action>) {
    forall k :: 0 <= k < |actions| ==> Admissible(c, Run(c, s, actions[..k]), actions[k])
  }

  lemma NewEntryExtends(c: Codec, es: seq<Stored>, r: Receipt)
    requires Lawful(c) && c.accepts(r) && |c.encode(r)| <= MAX_JOB_BYTES
    requires r.previous == LastSha(es) && r.id !in Ids(es) && r.key !in Keys(es)
    requires |es| + 1 < SEQUENCE_BOUND
    ensures Extends(c, es, NewEntry(c, es, r))
  {
  }

  lemma LayoutGrows(es: seq<Stored>, e: Stored)
    ensures Layout(es + [e]) == Layout(es)[e.name := e.data]
  {
  }

  /** Linking an extension of a scanned chain scans to the longer chain. */
  lemma LinkedScan(c: Codec, entries: map<string, string>, es: seq<Stored>, e: Stored)
    requires Lawful(c) && Scan(c, entries) == Ok(es) && Extends(c, es, e)
    ensures Scan(c, entries[e.name := e.data]) == Ok(es + [e])
    ensures e.name !in entries
  {
    hide Scan, Extends, Chain;
    ScanAcceptsExactlyLayouts(c, entries, es);
    ExtendedChain(c, es, e);
    LayoutGrows(es, e);
    ScanAcceptsExactlyLayouts(c, entries[e.name := e.data], es + [e]);
    ChainNamesAscend(c, es + [e]);
    LayoutNames(es);
    forall i | 0 <= i < |es|
      ensures es[i].name != e.name
    {
      assert (es + [e])[i] == es[i] && (es + [e])[|es|] == e;
    }
  }

  lemma FoundKey(es: seq<Stored>, key: string)
    ensures FirstWithKey(es, key).None? <==> key !in Keys(es)
  {
  }

  lemma ScannedSequences(c: Codec, entries: map<string, string>, es: seq<Stored>)
    requires Lawful(c) && Scan(c, entries) == Ok(es)
    ensures es != [] ==> es[|es| - 1].sequence == |es|
  {
    hide Scan, Lawful, EntryName, ValidId;
    ScanAcceptsExactlyLayouts(c, entries, es);
    if es != [] {
      assert Link(c, es, |es| - 1);
    }
  }

  /** In a sound log the check accepts exactly the proper HEAD. */
  lemma SoundHeadMatches(c: Codec, s: Store, es: seq<Stored>)
    requires Lawful(c) && Sound(c, s, es)
    ensures HeadMatches(c, s.head, es) <==> s.head == ProperHead(c, es)
  {
    hide Scan, Lawful, HeadMatches;
    ScannedSequences(c, s.entries, es);
    HeadMatchesExactly(c, s.head, es);
  }

  /** One commit, whatever its fault, extends the scanned entries by at most the new one. */
  lemma CommitKeepsSound(c: Codec, s: Store, es: seq<Stored>, a: Action) returns (after: seq<Stored>)
    requires Lawful(c) && Sound(c, s, es) && a.Committing? && Admissible(c, s, a)
    ensures Sound(c, Act(c, s, a), after)
    ensures after == es || after == es + [NewEntry(c, es, a.receipt)]
    ensures forall name :: name in s.entries ==> name in Act(c, s, a).entries && Act(c, s, a).entries[name] == s.entries[name]
  {
    hide Scan, Extends, Lawful, HeadMatches, CommitOutcome, Ids, Keys, WriteOutcome, NewEntry, ProperHead;
    var r := a.receipt;
    after := es;
    FoundKey(es, r.key);
    SoundHeadMatches(c, s, es);
    CommitWritesOrRefuses(c, s, es, r, a.expired, a.admit, a.fault);
    if Act(c, s, a) != s {
      var e := NewEntry(c, es, r);
      NewEntryExtends(c, es, r);
      LinkedScan(c, s.entries, es, e);
      assert (es + [e])[..|es|] == es;
      WriteShape(s, e, c.encodeHead(HeadOf(es + [e])), a.fault);
      HeadIsProper(c, es, e);
      if Act(c, s, a).entries != s.entries {
        after := es + [e];
      }
    }
  }

  lemma WriteShape(s: Store, e: Stored, head: string, fault: Fault)
    requires !fault.DiesWithTemporary?
    ensures var now := WriteOutcome(s, e, head, fault).0;
      now == s || (now.entries == s.entries[e.name := e.data] && now.head in {s.head, Some(head)})
  {
  }

  lemma HeadIsProper(c: Codec, es: seq<Stored>, e: Stored)
    ensures ProperHead(c, es + [e]) == Some(c.encodeHead(HeadOf(es + [e])))
  {
  }

  /** A commit that changes the store has passed every guard and is at its writes. */
  lemma CommitWritesOrRefuses(c: Codec, s: Store, es: seq<Stored>, r: Receipt, expired: bool, admit: Admission, fault: Fault)
    requires Scan(c, s.entries) == Ok(es)
    ensures var now := CommitOutcome(c, s, r, expired, admit, fault).0;
      var e := NewEntry(c, es, r);
      now != s ==>
        && c.accepts(r) && |c.encode(r)| <= MAX_JOB_BYTES && HeadMatches(c, s.head, es)
        && FirstWithKey(es, r.key).None? && r.previous == LastSha(es)
        && now == WriteOutcome(s, e, c.encodeHead(HeadOf(es + [e])), fault).0
  {
    hide Scan, HeadMatches, FirstWithKey, WriteOutcome;
  }

  /** Recovery leaves a HEAD that is accepted and touches nothing else, from any HEAD whatever. */
  lemma RecoveryRestoresHead(c: Codec, s: Store, es: seq<Stored>)
    requires Lawful(c) && Scan(c, s.entries) == Ok(es)
    ensures VerifyOutcome(c, s, true, NoFault)
         == if s.head == ProperHead(c, es) || (|es| == 1 && s.head == TruthHead(c, es))
            then (s, Ok(Verification(|es|, LastSha(es), false)))
            else (s.(head := ProperHead(c, es)), Ok(Verification(|es|, LastSha(es), true)))
    ensures VerifyOutcome(c, s.(head := ProperHead(c, es)), false, NoFault)
         == (s.(head := ProperHead(c, es)), Ok(Verification(|es|, LastSha(es), false)))
  {
    hide Scan, Lawful, HeadMatches, TruthHead, ProperHead;
    ScannedSequences(c, s.entries, es);
    HeadMatchesExactly(c, s.head, es);
    HeadMatchesExactly(c, ProperHead(c, es), es);
  }

  /** What verification says of every log that scans, and how each recovery that fails answers. */
  lemma VerificationExactly(c: Codec, s: Store, es: seq<Stored>, fault: Fault)
    requires Lawful(c) && Scan(c, s.entries) == Ok(es)
    ensures var accepted := s.head == ProperHead(c, es) || (|es| == 1 && s.head == TruthHead(c, es));
      && VerifyOutcome(c, s, false, fault)
         == (s, if accepted then Ok(Verification(|es|, LastSha(es), false)) else Err(HeadMismatch))
      && (accepted ==> VerifyOutcome(c, s, true, fault) == (s, Ok(Verification(|es|, LastSha(es), false))))
      && (!accepted ==>
          var (now, out) := VerifyOutcome(c, s, true, fault);
          && now == (if fault in {NoFault, Fails(AfterReplace), Dies(AfterReplace)} then s.(head := ProperHead(c, es)) else s)
          && (out.Ok? <==> fault == NoFault) && (out.Ok? ==> out.value == Verification(|es|, LastSha(es), true))
          && (out == Err(HeadWriteFailed) <==> fault.Fails?) && (out == Err(Killed) <==> fault.Dies? || fault.DiesWithTemporary?))
  {
    hide Scan, Lawful, HeadMatches, TruthHead, ProperHead;
    ScannedSequences(c, s.entries, es);
    HeadMatchesExactly(c, s.head, es);
  }

  /** Why the next name is refused after some entries, in order, and the entry it gives otherwise. */
  lemma EntryRefusals(c: Codec, entries: map<string, string>, name: string, es: seq<Stored>)
    requires name in entries
    ensures var data, out := entries[name], ReadEntry(c, entries, name, es);
      if ParseName(name).None? || ParseName(name).value.0 != |es| + 1 then out == Err(EntryOrderInvalid)
      else if |data| > 1_048_576 then out == Err(EntryTooLarge)
      else if c.decode(data).None? then out == Err(JsonInvalid)
      else
        var r := c.decode(data).value;
        if !c.accepts(r) then out == Err(ReceiptInvalid)
        else if c.encode(r) != data then out == Err(NotCanonical)
        else if r.previous != (if es == [] then None else Some(es[|es| - 1].sha)) then out == Err(ChainBroken)
        else if exists i :: 0 <= i < |es| && (es[i].doc.id == r.id || es[i].doc.key == r.key) then out == Err(DuplicateIdentity)
        else if r.id != ParseName(name).value.1 then out == Err(FilenameMismatch)
        else out == Ok(Stored(|es| + 1, name, data, c.hash(data), r))
  {
    hide ParseName;
  }

  /** The scan stops at the first name it cannot read on from, with that name's refusal. */
  lemma ScanRefusesFirst(c: Codec, entries: map<string, string>, k: nat, es: seq<Stored>)
    requires k < |Listing(entries.Keys)| && ScanPrefix(c, entries, Listing(entries.Keys), k) == Ok(es)
    requires ReadEntry(c, entries, Listing(entries.Keys)[k], es).Err?
    ensures Scan(c, entries) == Err(ReadEntry(c, entries, Listing(entries.Keys)[k], es).error)
  {
    hide Listing, ReadEntry;
    var names := Listing(entries.Keys);
    ScanStep(c, entries, names, k, es);
    ScanStarts(c, entries, names);
  }

  /** A log that does not scan is refused by every operation with the scan's own refusal. */
  lemma UnscannedIsRefused(c: Codec, s: Store, refusal: Refusal, r: Receipt, expired: bool, admit: Admission, fault: Fault, recover: bool)
    requires Scan(c, s.entries) == Err(refusal)
    ensures VerifyOutcome(c, s, recover, fault) == (s, Err(refusal))
    ensures FindOutcome(c, s, r.key, r.jobDigest) == Err(refusal)
    ensures c.accepts(r) && |c.encode(r)| <= MAX_JOB_BYTES ==> CommitOutcome(c, s, r, expired, admit, fault) == (s, Err(refusal))
  {
  }

  /** A lookup in a log that scans: HEAD first, then the entry under the key, then its job. */
  lemma LookupExactly(c: Codec, s: Store, es: seq<Stored>, key: string, jobDigest: string)
    requires Lawful(c) && Scan(c, s.entries) == Ok(es)
    ensures var out := FindOutcome(c, s, key, jobDigest);
      if s.head != ProperHead(c, es) && !(|es| == 1 && s.head == TruthHead(c, es)) then out == Err(HeadMismatch)
      else if key !in Keys(es) then out == Ok(None)
      else exists e :: e in es && e.doc.key == key && out == if e.doc.jobDigest == jobDigest then Ok(Some(e)) else Err(JobConflict)
  {
    hide Scan, Lawful, HeadMatches, TruthHead, ProperHead;
    ScannedSequences(c, s.entries, es);
    HeadMatchesExactly(c, s.head, es);
    FoundKey(es, key);
  }

  /** A commit of an unbound key: every refusal in order, and what each fault of its writes leaves. */
  lemma CommitExactly(c: Codec, s: Store, es: seq<Stored>, r: Receipt, expired: bool, admit: Admission, fault: Fault)
    requires Lawful(c) && Scan(c, s.entries) == Ok(es) && r.key !in Keys(es)
    ensures var (now, out) := CommitOutcome(c, s, r, expired, admit, fault);
      var e := NewEntry(c, es, r);
      var head := c.encodeHead(HeadOf(es + [e]));
      if !c.accepts(r) then now == s && out == Err(ReceiptInvalid)
      else if |c.encode(r)| > 1_048_576 then now == s && out == Err(ReceiptTooLarge)
      else if s.head != ProperHead(c, es) && !(|es| == 1 && s.head == TruthHead(c, es)) then now == s && out == Err(HeadMismatch)
      else if r.previous != LastSha(es) then now == s && out == Err(StaleHead)
      else if expired then now == s && out == Err(DeadlineExpired)
      else if !admit(Committed(e.name, e.data, e.sha, false), Some(head)) then now == s && out == Err(NotAdmitted)
      else
        && e.sequence == |es| + 1 && e.data == c.encode(r) && e.sha == c.hash(e.data) && e.doc == r
        && e.name == EntryName(|es| + 1, r.id)
        && (now.entries == match fault {
              case DiesWithTemporary(name) => s.entries[name := ""]
              case Fails(at) => if at == BeforeLink then s.entries else s.entries[e.name := e.data]
              case Dies(at) => if at == BeforeLink then s.entries else s.entries[e.name := e.data]
              case NoFault => s.entries[e.name := e.data]
            })
        && now.head == (if fault in {NoFault, Fails(AfterReplace), Dies(AfterReplace)} then Some(head) else s.head)
        && (out.Ok? <==> fault == NoFault) && (out.Ok? ==> out.value == Committed(e.name, e.data, e.sha, false))
        && (out == Err(EntryWriteFailed) <==> fault in {Fails(BeforeLink), Fails(AfterLink)})
        && (out == Err(HeadWriteFailed) <==> fault in {Fails(BeforeReplace), Fails(AfterReplace)})
        && (out == Err(Killed) <==> fault.Dies? || fault.DiesWithTemporary?)
  {
    hide Scan, Lawful, HeadMatches, TruthHead, ProperHead, EntryName;
    ScannedSequences(c, s.entries, es);
    HeadMatchesExactly(c, s.head, es);
    FoundKey(es, r.key);
  }

  lemma VerifyKeepsSound(c: Codec, s: Store, es: seq<Stored>, recover: bool, fault: Fault)
    requires Lawful(c) && Sound(c, s, es)
    ensures Sound(c, VerifyOutcome(c, s, recover, fault).0, es)
    ensures VerifyOutcome(c, s, recover, fault).0.entries == s.entries
  {
    hide Scan, Lawful;
  }

  /**
   Every run: the scan keeps succeeding, earlier entries stay a byte-identical prefix, and HEAD is
   at most one entry behind.
   */
  lemma {:induction false} RunsKeepTheLog(c: Codec, s: Store, es: seq<Stored>, actions: seq<Action>) returns (after: seq<Stored>)
    requires Lawful(c) && Sound(c, s, es) && AdmissibleRun(c, s, actions)
    ensures Sound(c, Run(c, s, actions), after)
    ensures es <= after && |after| <= |es| + |actions|
    ensures forall name :: name in s.entries ==> name in Run(c, s, actions).entries && Run(c, s, actions).entries[name] == s.entries[name]
  {
    hide Sound, Admissible, Lawful, Act;
    if actions == [] {
      after := es;
    } else {
      var k := |actions| - 1;
      forall i | 0 <= i < k
        ensures Admissible(c, Run(c, s, actions[..k][..i]), actions[..k][i])
      {
        assert actions[..k][..i] == actions[..i];
      }
      var middle := RunsKeepTheLog(c, s, es, actions[..k]);
      after := ActKeepsSound(c, Run(c, s, actions[..k]), middle, actions[k]);
    }
  }

  lemma ActKeepsSound(c: Codec, s: Store, es: seq<Stored>, a: Action) returns (after: seq<Stored>)
    requires Lawful(c) && Sound(c, s, es) && Admissible(c, s, a)
    ensures Sound(c, Act(c, s, a), after) && es <= after && |after| <= |es| + 1
    ensures forall name :: name in s.entries ==> name in Act(c, s, a).entries && Act(c, s, a).entries[name] == s.entries[name]
  {
    hide Sound, Admissible, Lawful, CommitOutcome, VerifyOutcome;
    match a {
      case Committing(_, _, _, _) =>
        after := CommitKeepsSound(c, s, es, a);
      case Verifying(recover, fault) =>
        VerifyKeepsSound(c, s, es, recover, fault);
        after := es;
    }
  }

  /** The empty log is sound, so the result above covers every run from it. */
  lemma EmptyLogIsSound(c: Codec)
    requires Lawful(c)
    ensures Sound(c, Store(map[], None), [])
  {
  }

  lemma AcceptedReceipt(c: Codec, r: Receipt)
    requires Lawful(c) && c.accepts(r)
    ensures ValidId(r.id) && r.startedAt <= r.finishedAt
  {
  }

  lemma ScannedLinkIsFresh(c: Codec, entries: map<string, string>, es: seq<Stored>, r: Receipt)
    requires Lawful(c) && Scan(c, entries) == Ok(es) && c.accepts(r)
    requires var e := NewEntry(c, es, r); Scan(c, entries[e.name := e.data]).Ok?
    ensures r.id !in Ids(es) && |es| + 1 < SEQUENCE_BOUND
  {
    hide Scan, Lawful, Chain, ParseName, EntryName, ValidId, Layout, Link;
    AcceptedReceipt(c, r);
    var e := NewEntry(c, es, r);
    var linked := entries[e.name := e.data];
    var all := Scan(c, linked).value;
    ScannedIsLayout(c, linked);
    ScannedIsLayout(c, entries);
    LayoutNames(all);
    LayoutNames(es);
    assert e.name in NamesOf(all);
    var j :| 0 <= j < |all| && all[j].name == e.name;
    ScannedSequence(c, all, j, |es| + 1, r.id);
    if i :| 0 <= i < |es| && es[i].doc.id == r.id {
      assert NamesOf(es)[i] in entries && es[i].name in NamesOf(all);
      var k :| 0 <= k < |all| && all[k].name == es[i].name;
      ScannedSequence(c, es, i, i + 1, r.id);
      ScannedSequence(c, all, k, i + 1, r.id);
      DistinctIds(c, all, j, k);
    }
  }

  /**
   The commit never asks whether the receipt ID is new or the number still has sixteen digits. Once
   the entry is linked, the log still scans exactly when both hold.
   */
  lemma LinkedLogScansExactlyWhenFresh(c: Codec, entries: map<string, string>, es: seq<Stored>, r: Receipt)
    requires Lawful(c) && Scan(c, entries) == Ok(es)
    requires c.accepts(r) && |c.encode(r)| <= MAX_JOB_BYTES
    requires r.previous == LastSha(es) && r.key !in Keys(es)
    ensures var e := NewEntry(c, es, r);
      Scan(c, entries[e.name := e.data]).Ok? <==> r.id !in Ids(es) && |es| + 1 < SEQUENCE_BOUND
  {
    hide Scan, Lawful;
    var e := NewEntry(c, es, r);
    if r.id !in Ids(es) && |es| + 1 < SEQUENCE_BOUND {
      NewEntryExtends(c, es, r);
      LinkedScan(c, entries, es, e);
    }
    if Scan(c, entries[e.name := e.data]).Ok? {
      ScannedLinkIsFresh(c, entries, es, r);
    }
  }

  lemma DistinctIds(c: Codec, es: seq<Stored>, j: nat, k: nat)
    requires Chain(c, es) && k < j < |es|
    ensures es[j].doc.id != es[k].doc.id
  {
  }

  /** In a chain, an entry's name fixes its position and its receipt ID. */
  lemma ScannedSequence(c: Codec, es: seq<Stored>, i: nat, n: nat, id: string)
    requires Lawful(c) && Chain(c, es) && i < |es|
    requires ValidId(id) && (es[i].name == EntryName(n, id) || (es[i].doc.id == id && n == i + 1))
    ensures es[i].name == EntryName(n, id) && n == i + 1 < SEQUENCE_BOUND && es[i].doc.id == id
  {
    hide ParseName, EntryName, ValidId;
    assert Link(c, es, i);
    NameReadsBack(i + 1, es[i].doc.id);
    if n >= SEQUENCE_BOUND {
      OverflowingNameUnreadable(n, id);
    } else {
      NameReadsBack(n, id);
    }
  }

  /** A stray temporary name stops the log for good: no later action reads past it or changes a file. */
  lemma {:induction false} UnreadableLogIsFrozen(c: Codec, s: Store, actions: seq<Action>)
    requires Scan(c, s.entries).Err?
    ensures Run(c, s, actions) == s
  {
    if actions != [] {
      UnreadableLogIsFrozen(c, s, actions[..|actions| - 1]);
    }
  }

  lemma TemporaryMakesUnreadable(c: Codec, entries: map<string, string>, name: string)
    requires Lawful(c) && name in entries && ParseName(name) == None
    ensures Scan(c, entries).Err?
  {
    hide Scan, Lawful, ParseName, EntryName, ValidId, Layout, Link;
    if Scan(c, entries).Ok? {
      var es := Scan(c, entries).value;
      ScanAcceptsExactlyLayouts(c, entries, es);
      LayoutNames(es);
      var i :| 0 <= i < |es| && es[i].name == name;
      ChainNameReads(c, es, i);
    }
  }

  lemma ChainNameReads(c: Codec, es: seq<Stored>, i: nat)
    requires Chain(c, es) && i < |es|
    ensures ParseName(es[i].name).Some?
  {
    hide ParseName, EntryName, ValidId;
    assert Link(c, es, i);
    NameReadsBack(i + 1, es[i].doc.id);
  }

  /** One digest determines the chain below it, by walking the `previous` links to the first entry. */
  lemma {:induction false} SameShaSameChain(c: Codec, a: seq<Stored>, b: seq<Stored>)
    requires Lawful(c) && CollisionFree(c) && Chain(c, a) && Chain(c, b)
    requires LastSha(a) == LastSha(b)
    ensures a == b
  {
    hide Lawful, Chain, EntryName, ValidId;
    if a != [] {
      var x, y := a[|a| - 1], b[|b| - 1];
      LastLink(c, a);
      LastLink(c, b);
      assert c.hash(x.data) == c.hash(y.data);
      EncodingInjective(c, x.doc, y.doc);
      ChainPrefix(c, a, |a| - 1);
      ChainPrefix(c, b, |b| - 1);
      SameShaSameChain(c, a[..|a| - 1], b[..|b| - 1]);
      assert a == a[..|a| - 1] + [x] && b == b[..|b| - 1] + [y];
    }
  }

  lemma LastLink(c: Codec, es: seq<Stored>)
    requires Chain(c, es) && es != []
    ensures var e := es[|es| - 1];
      && e.sequence == |es| && e.name == EntryName(|es|, e.doc.id) && c.accepts(e.doc)
      && e.data == c.encode(e.doc) && e.sha == c.hash(e.data) && e.doc.previous == LastSha(es[..|es| - 1])
  {
    hide EntryName, ValidId;
    assert Link(c, es, |es| - 1);
  }

  lemma EncodingInjective(c: Codec, a: Receipt, b: Receipt)
    requires Lawful(c) && c.accepts(a) && c.accepts(b) && c.encode(a) == c.encode(b)
    ensures a == b
  {
  }

  /** Two logs that pass the scan and report one head digest hold the same names and bytes. */
  lemma HeadDigestPinsTheLog(c: Codec, s: map<string, string>, t: map<string, string>, a: seq<Stored>, b: seq<Stored>)
    requires Lawful(c) && CollisionFree(c)
    requires Scan(c, s) == Ok(a) && Scan(c, t) == Ok(b) && LastSha(a) == LastSha(b)
    ensures a == b && s == t
  {
    hide Scan, Lawful, CollisionFree, Chain;
    ScanAcceptsExactlyLayouts(c, s, a);
    ScanAcceptsExactlyLayouts(c, t, b);
    SameShaSameChain(c, a, b);
  }

  lemma {:induction false} KeyFoundAtEntry(es: seq<Stored>, e: Stored)
    requires e in es
    requires forall i, j :: 0 <= i < j < |es| ==> es[i].doc.key != es[j].doc.key
    ensures FirstWithKey(es, e.doc.key) == Some(e)
  {
  }

  /**
   A key that is bound stays bound to its bytes: the same receipt replays without a write, any other
   receipt under the key is refused, and find returns the entry to exactly its own job.
   */
  lemma BoundKeyReplaysExactly(c: Codec, s: Store, es: seq<Stored>, e: Stored, r: Receipt, expired: bool, admit: Admission, fault: Fault)
    requires Lawful(c) && Scan(c, s.entries) == Ok(es) && s.head == ProperHead(c, es) && e in es
    requires c.accepts(r) && |c.encode(r)| <= MAX_JOB_BYTES && r.key == e.doc.key
    ensures var (after, out) := CommitOutcome(c, s, r, expired, admit, fault);
      && after == s
      && (r == e.doc ==> out == if admit(Committed(e.name, e.data, e.sha, true), None)
                                then Ok(Committed(e.name, e.data, e.sha, true)) else Err(NotAdmitted))
      && (r != e.doc ==> out == Err(if r.jobDigest != e.doc.jobDigest then JobConflict else ReplayConflict))
    ensures FindOutcome(c, s, e.doc.key, r.jobDigest)
         == if r.jobDigest == e.doc.jobDigest then Ok(Some(e)) else Err(JobConflict)
  {
    hide Scan, Lawful, EntryName, ValidId;
    SoundHeadMatches(c, s, es);
    ScanAcceptsExactlyLayouts(c, s.entries, es);
    KeyFoundAtEntry(es, e);
    var i :| 0 <= i < |es| && es[i] == e;
    assert Link(c, es, i);
    if c.encode(r) == e.data {
      EncodingInjective(c, r, e.doc);
    }
  }

  /** HEAD holds the number, the name and the digest of the last entry, and is absent for an empty log. */
  lemma HeadNamesTheLastEntry(c: Codec, s: Store, es: seq<Stored>)
    requires Lawful(c) && Scan(c, s.entries) == Ok(es)
    ensures es == [] ==> ProperHead(c, es) == None && LastSha(es) == None
    ensures es != [] ==>
      var last := es[|es| - 1];
      && last.sequence == |es| && last.name == EntryName(|es|, last.doc.id) && last.data == s.entries[last.name]
      && last.sha == c.hash(last.data) && LastSha(es) == Some(last.sha)
      && ProperHead(c, es) == Some(c.encodeHead(Head(Count(|es|), last.name, last.sha)))
      && TruthHead(c, es) == Some(c.encodeHead(Head(Truth, last.name, last.sha)))
  {
    ScanAcceptsExactlyLayouts(c, s.entries, es);
    if es != [] {
      assert Link(c, es, |es| - 1);
    }
    hide Lawful, Scan, ValidId, EntryName;
  }
}

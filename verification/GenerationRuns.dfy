/**
 Over every run of the generation worker, with deaths, restarts and ambiguous acknowledgements:
 once a result was sent for a lease identity, the same bytes are sent again and the model does not
 run again, until an accepted terminal message or a matching receipt removes the cache file.
 */
module GenerationRuns {
  import opened Canonical
  import opened Generation
  import opened Listings
  import opened Ordering
  import opened Outcomes
  import opened ResultNames

  lemma PinnedAppend(log: seq<Entry>, e: Entry, id: Identity)
    ensures Pinned(log + [e], id)
      == if e == Removed(id) then None else if e.Complete? && e.id == id then Some(e.text) else Pinned(log, id)
  {
    assert (log + [e])[..|log|] == log;
  }

  /** What may be appended without breaking a pin. */
  predicate Respectful(log: seq<Entry>, e: Entry) {
    && (e.ModelRun? ==> Pinned(log, e.id) == None)
    && (e.Complete? ==> Pinned(log, e.id) in {None, Some(e.text)})
  }

  predicate Justified(log: seq<Entry>, e: Entry) {
    e.Removed? ==> log != [] && log[|log| - 1] in {Accepted(e.id), Receipt(e.id)}
  }

  lemma LogAppend(log: seq<Entry>, e: Entry)
    requires RespectsPins(log) && RemovalsJustified(log) && Respectful(log, e) && Justified(log, e)
    ensures RespectsPins(log + [e]) && RemovalsJustified(log + [e])
  {
    hide Pinned;
    var after := log + [e];
    forall q | 0 <= q < |after|
      ensures after[..q] == log[..q]
    {
    }
    assert log[..|log|] == log;
  }

  ghost predicate GoodLog(log: seq<Entry>) {
    RespectsPins(log) && RemovalsJustified(log) && forall q :: 0 <= q < |log| ==> ValidIdentity(log[q].id)
  }

  lemma GoodAppend(log: seq<Entry>, e: Entry)
    requires GoodLog(log) && Respectful(log, e) && Justified(log, e) && ValidIdentity(e.id)
    ensures GoodLog(log + [e])
  {
    hide RespectsPins, RemovalsJustified, Respectful, Justified, ValidIdentity;
    LogAppend(log, e);
  }

  lemma SameText(a: string, b: string)
    requires a + "\n" == b + "\n"
    ensures a == b
  {
    assert (a + "\n")[..|a|] == a && (b + "\n")[..|b|] == b;
  }

  /** Entries that neither complete nor remove leave every pin where it is. */
  lemma PinsUnmoved(s: State, e: Entry)
    requires PinsStored(s) && !e.Complete? && !e.Removed?
    ensures PinsStored(s.(log := s.log + [e]))
  {
    hide ResultName, ValidIdentity, Pinned;
    forall id | ValidIdentity(id)
      ensures Pinned(s.log + [e], id) == Pinned(s.log, id)
    {
      PinnedAppend(s.log, e, id);
    }
  }

  lemma PinsAfterRemoval(s: State, id: Identity, log: seq<Entry>)
    requires PinsStored(s) && ValidIdentity(id)
    requires forall other :: Pinned(log, other) == Pinned(s.log, other)
    ensures PinsStored(State(s.files - {ResultName(id)}, s.stage, log + [Removed(id)]))
  {
    hide ResultName, ValidIdentity, Pinned;
    forall other | ValidIdentity(other) && Pinned(log + [Removed(id)], other).Some?
      ensures other != id && Pinned(s.log, other) == Pinned(log + [Removed(id)], other) && ResultName(other) != ResultName(id)
    {
      PinnedAppend(log, Removed(id), other);
      if ResultName(other) == ResultName(id) {
        ResultNamesDiffer(other, id);
      }
    }
  }

  lemma PinsAfterCompletion(s: State, id: Identity, text: string)
    requires PinsStored(s) && ValidIdentity(id)
    requires ResultName(id) in s.files && s.files[ResultName(id)] == text + "\n"
    ensures PinsStored(s.(log := s.log + [Complete(id, text)])) && Respectful(s.log, Complete(id, text))
  {
    hide ResultName, ValidIdentity, Pinned;
    forall other | ValidIdentity(other)
      ensures Pinned(s.log + [Complete(id, text)], other) == if other == id then Some(text) else Pinned(s.log, other)
    {
      PinnedAppend(s.log, Complete(id, text), other);
    }
    if Pinned(s.log, id).Some? {
      SameText(Pinned(s.log, id).value, text);
    }
  }

  lemma PinsAfterStore(s: State, id: Identity, text: string)
    requires PinsStored(s) && WellStored(s.files) && ValidIdentity(id) && ResultName(id) !in s.files && CanonicalFile(text)
    ensures PinsStored(s.(files := s.files[ResultName(id) := text + "\n"]))
    ensures WellStored(s.files[ResultName(id) := text + "\n"])
  {
    ResultNameReadsBack(id);
    hide ResultName, ValidIdentity, Pinned, CacheIdentity, CanonicalFile;
  }

  lemma StoredElsewhere(files: map<string, string>, name: string)
    requires WellStored(files)
    ensures WellStored(files - {name})
  {
    hide NamedProperly, CanonicalFile;
  }

  lemma ReloadedText(validates: Validator, id: Identity, files: map<string, string>)
    requires WellStored(files) && ValidIdentity(id) && ResultName(id) in files && Reload(validates, id, files[ResultName(id)]).Ok?
    ensures files[ResultName(id)] == Reload(validates, id, files[ResultName(id)]).value + "\n"
  {
    ResultNameReadsBack(id);
    hide Reload, StoredText, Holdable, NamedProperly, ResultName, CacheIdentity, ValidIdentity;
    var text :| files[ResultName(id)] == text + "\n" && CanonicalFile(text);
    var v :| Holdable(v) && StoredText(v) == Ok(text);
    ReloadSendsSameBytes(validates, id, v);
  }

  // ----- one event at a time

  lemma LookUpKeepsSound(validates: Validator, s: State, id: Identity, refusal: string)
    requires Sound(s) && ValidIdentity(id)
    ensures Sound(LookUp(validates, s, id, refusal))
  {
    hide ResultName, ValidIdentity, Reload, WellStored, CanonicalFile, RespectsPins, RemovalsJustified, Pinned;
    if ResultName(id) !in s.files {
      PinnedOnlyIfStored(s, id);
      GoodAppend(s.log, ModelRun(id));
      PinsUnmoved(s, ModelRun(id));
    } else if Reload(validates, id, s.files[ResultName(id)]).Ok? {
      ReloadedText(validates, id, s.files);
    }
  }

  lemma PinnedOnlyIfStored(s: State, id: Identity)
    requires PinsStored(s) && ValidIdentity(id) && ResultName(id) !in s.files
    ensures Pinned(s.log, id) == None
  {
    hide ResultName, Pinned, ValidIdentity;
  }

  lemma ReceiptKeepsSound(s: State, matched: Option<bool>)
    requires Sound(s) && s.stage.Reconciling? && ReceiptNext(s, matched).Some?
    ensures Sound(ReceiptNext(s, matched).value)
  {
    hide ResultName, ValidIdentity, CacheIdentity, CanonicalFile, RespectsPins, RemovalsJustified, Pinned, WellStored;
    if s.stage.pending != [] && s.stage.pending[0] in s.files && CacheIdentity(s.stage.pending[0]).Some? && matched == Some(true) {
      var name := s.stage.pending[0];
      var id := CacheIdentity(name).value;
      FileIsNamed(s.files, name);
      GoodAppend(s.log, Receipt(id));
      var log := s.log + [Receipt(id)];
      GoodAppend(log, Removed(id));
      forall other
        ensures Pinned(log, other) == Pinned(s.log, other)
      {
        PinnedAppend(s.log, Receipt(id), other);
      }
      PinsAfterRemoval(s, id, log);
      StoredElsewhere(s.files, name);
      assert log + [Removed(id)] == s.log + [Receipt(id), Removed(id)];
    }
  }

  lemma FileIsNamed(files: map<string, string>, name: string)
    requires WellStored(files) && name in files && CacheIdentity(name).Some?
    ensures ValidIdentity(CacheIdentity(name).value) && ResultName(CacheIdentity(name).value) == name
  {
    hide CacheIdentity, ResultName, CanonicalFile;
  }

  lemma StoreKeepsSound(validates: Validator, s: State, storing: StoreFault)
    requires Sound(s) && s.stage.Storing?
    ensures Sound(Next(validates, s, StoreEnds(storing)).value)
  {
    hide ResultName, ValidIdentity, CanonicalFile, RespectsPins, RemovalsJustified, WellStored, Pinned;
    if !storing.FailsBefore? {
      PinsAfterStore(s, s.stage.id, s.stage.text);
    }
  }

  lemma CheckKeepsSound(validates: Validator, s: State, objection: Option<Raised>)
    requires Sound(s) && Next(validates, s, CheckEnds(objection)).Some?
    ensures Sound(Next(validates, s, CheckEnds(objection)).value)
  {
    hide ResultName, ValidIdentity, CanonicalFile, RespectsPins, RemovalsJustified, WellStored, Pinned;
    if objection == None {
      match s.stage {
        case Checking(id, text) =>
          PinsAfterCompletion(s, id, text);
          GoodAppend(s.log, Complete(id, text));
        case CheckingFailure(id, code) =>
          PinsUnmoved(s, Failed(id, code));
          GoodAppend(s.log, Failed(id, code));
        case _ =>
      }
    }
  }

  lemma ReplyKeepsSound(validates: Validator, s: State, e: Event)
    requires Sound(s) && (e.CompleteReply? || e.FailureReply?) && Next(validates, s, e).Some?
    ensures Sound(Next(validates, s, e).value)
  {
    hide ResultName, ValidIdentity, CanonicalFile, RespectsPins, RemovalsJustified, WellStored, Pinned;
    if e.accepted {
      PinsUnmoved(s, Accepted(s.stage.id));
      GoodAppend(s.log, Accepted(s.stage.id));
    }
  }

  lemma RemovalKeepsSound(validates: Validator, s: State, removal: RemovalFault)
    requires Sound(s) && s.stage.Removing?
    ensures Sound(Next(validates, s, RemoveEnds(removal)).value)
  {
    hide ResultName, ValidIdentity, CanonicalFile, RespectsPins, RemovalsJustified, WellStored, Pinned;
    if !removal.UnsafeFile? {
      PinsAfterRemoval(s, s.stage.id, s.log);
      GoodAppend(s.log, Removed(s.stage.id));
      StoredElsewhere(s.files, ResultName(s.stage.id));
    }
  }

  lemma ExecutedKeepsSound(validates: Validator, s: State, outcome: Result<JSON, string>)
    requires Sound(s) && Next(validates, s, Executed(outcome)).Some?
    ensures Sound(Next(validates, s, Executed(outcome)).value)
  {
    hide ResultName, ValidIdentity, RespectsPins, RemovalsJustified, WellStored, Pinned, Holdable, StoredText;
  }

  /** Every event, deaths included, keeps the cache and the log sound. */
  lemma NextKeepsSound(validates: Validator, s: State, e: Event)
    requires Sound(s) && Next(validates, s, e).Some?
    ensures Sound(Next(validates, s, e).value)
  {
    hide ResultName, ValidIdentity, CanonicalFile, RespectsPins, RemovalsJustified, WellStored, Pinned, LookUp, ReceiptNext, Holdable, StoredText;
    match e {
      case ReceiptReply(matched) => ReceiptKeepsSound(s, matched);
      case Started(trouble, refusal) =>
        if trouble == None {
          LookUpKeepsSound(validates, s, s.stage.id, refusal);
        }
      case Executed(outcome) => ExecutedKeepsSound(validates, s, outcome);
      case StoreEnds(storing) => StoreKeepsSound(validates, s, storing);
      case CheckEnds(objection) => CheckKeepsSound(validates, s, objection);
      case CompleteReply(_) => ReplyKeepsSound(validates, s, e);
      case FailureReply(_) => ReplyKeepsSound(validates, s, e);
      case RemoveEnds(removal) => RemovalKeepsSound(validates, s, removal);
      case CrashLeaving(temporary, partial, linked) =>
        if linked {
          PinsAfterStore(s, s.stage.id, s.stage.text);
          TemporaryKeepsSound(s.(files := s.files[ResultName(s.stage.id) := s.stage.text + "\n"], stage := Idle), temporary, partial);
        } else {
          TemporaryKeepsSound(s.(stage := Idle), temporary, partial);
        }
      case _ =>
    }
  }

  /** A file under a name that is no cache name disturbs no pin. */
  lemma TemporaryKeepsSound(s: State, temporary: string, partial: string)
    requires Sound(s) && s.stage == Idle && CacheIdentity(temporary).None?
    ensures Sound(s.(files := s.files[temporary := partial]))
  {
    hide ResultName, ValidIdentity, CacheIdentity, CanonicalFile, RespectsPins, RemovalsJustified, Pinned;
    forall id | ValidIdentity(id)
      ensures ResultName(id) != temporary
    {
      ResultNameReadsBack(id);
    }
  }

  lemma {:induction false} RunKeepsSound(validates: Validator, start: State, events: seq<Event>)
    requires Sound(start) && RunFrom(validates, start, events).Some?
    ensures Sound(RunFrom(validates, start, events).value)
  {
    hide Next, Sound;
    if events != [] {
      RunKeepsSound(validates, start, events[..|events| - 1]);
      NextKeepsSound(validates, RunFrom(validates, start, events[..|events| - 1]).value, events[|events| - 1]);
    }
  }

  lemma ReachedIsSound(validates: Validator, events: seq<Event>)
    requires Run(validates, events).Some?
    ensures Sound(Run(validates, events).value)
  {
    hide Next;
    StartIsSound();
    RunKeepsSound(validates, EMPTY, events);
  }

  lemma StartIsSound()
    ensures Sound(EMPTY)
  {
  }

  // ----- the promises

  lemma {:induction false} PinHolds(log: seq<Entry>, p: nat, q: nat, id: Identity)
    requires p < q <= |log| && RespectsPins(log) && log[p].Complete? && log[p].id == id
    requires forall r :: p < r < q ==> log[r] != Removed(id)
    ensures Pinned(log[..q], id) == Some(log[p].text)
    decreases q
  {
    hide Pinned;
    assert log[..q] == log[..q - 1] + [log[q - 1]];
    PinnedAppend(log[..q - 1], log[q - 1], id);
    if q - 1 > p {
      PinHolds(log, p, q - 1, id);
    }
  }

  /**
   After a completion was sent for a lease identity, every later completion for it carries the same
   bytes and the model does not run for it, as long as its cache file has not been removed.
   */
  lemma CompletionsRepeatTheBytes(validates: Validator, events: seq<Event>, p: nat, q: nat)
    requires Run(validates, events).Some?
    requires p < q < |Run(validates, events).value.log|
    requires var log := Run(validates, events).value.log;
      log[p].Complete? && log[q].id == log[p].id && forall r :: p < r < q ==> log[r] != Removed(log[p].id)
    ensures var log := Run(validates, events).value.log;
      !log[q].ModelRun? && (log[q].Complete? ==> log[q].text == log[p].text)
  {
    hide Next, Pinned;
    ReachedIsSound(validates, events);
    var log := Run(validates, events).value.log;
    PinHolds(log, p, q, log[p].id);
  }

  /** A cache file is removed only right after an accepted terminal message or a matching receipt. */
  lemma RemovalFollowsAcceptance(validates: Validator, events: seq<Event>, q: nat)
    requires Run(validates, events).Some? && q < |Run(validates, events).value.log|
    requires Run(validates, events).value.log[q].Removed?
    ensures var log := Run(validates, events).value.log;
      q > 0 && log[q - 1] in {Accepted(log[q].id), Receipt(log[q].id)}
  {
    hide Next, Pinned;
    ReachedIsSound(validates, events);
  }

  /** What was sent is still on disk, so a restart can send it again. */
  lemma SentResultIsOnDisk(validates: Validator, events: seq<Event>, p: nat)
    requires Run(validates, events).Some? && p < |Run(validates, events).value.log|
    requires var log := Run(validates, events).value.log;
      log[p].Complete? && forall r :: p < r < |log| ==> log[r] != Removed(log[p].id)
    ensures var s := Run(validates, events).value;
      ResultName(s.log[p].id) in s.files && s.files[ResultName(s.log[p].id)] == s.log[p].text + "\n"
  {
    hide Next, Pinned, ResultName, ValidIdentity;
    ReachedIsSound(validates, events);
    var log := Run(validates, events).value.log;
    PinHolds(log, p, |log|, log[p].id);
    assert log[..|log|] == log;
  }

  // ----- when a failure follows a completion

  /** Errors other than a refused cache file that would turn a claim into a failure. */
  predicate Untroubled(e: Event) {
    && (e.Started? ==> e.trouble in {None, Some(Passing)})
    && (e.CheckEnds? ==> e.objection in {None, Some(Passing)})
    && (e.RemoveEnds? ==> !e.removal.UnsafeFile?)
  }

  ghost predicate Refuses(validates: Validator, id: Identity, pinned: Option<string>) {
    pinned.Some? ==> Reload(validates, id, pinned.value + "\n").Err?
  }

  /** Failures are sent, or about to be sent, for a pinned identity only when its file is refused. */
  ghost predicate FailuresRefused(validates: Validator, s: State) {
    && (forall q :: 0 <= q < |s.log| && s.log[q].Failed? ==> Refuses(validates, s.log[q].id, Pinned(s.log[..q], s.log[q].id)))
    && (s.stage.CheckingFailure? ==> Refuses(validates, s.stage.id, Pinned(s.log, s.stage.id)))
  }

  lemma FailuresAppend(validates: Validator, s: State, e: Entry, stage: Stage)
    requires FailuresRefused(validates, s) && !stage.CheckingFailure?
    requires e.Failed? ==> Refuses(validates, e.id, Pinned(s.log, e.id))
    ensures FailuresRefused(validates, s.(log := s.log + [e], stage := stage))
  {
    hide Pinned, Refuses;
    var after := s.log + [e];
    forall q | 0 <= q < |after| && after[q].Failed?
      ensures Refuses(validates, after[q].id, Pinned(after[..q], after[q].id))
    {
      assert after[..q] == s.log[..q];
      assert s.log[..|s.log|] == s.log;
    }
  }

  lemma LookUpKeepsRefused(validates: Validator, s: State, id: Identity, refusal: string)
    requires Sound(s) && ValidIdentity(id) && FailuresRefused(validates, s)
    ensures FailuresRefused(validates, LookUp(validates, s, id, refusal))
  {
    hide ResultName, ValidIdentity, Reload, WellStored, RespectsPins, RemovalsJustified, Pinned;
    if ResultName(id) !in s.files {
      FailuresAppend(validates, s, ModelRun(id), Executing(id));
    }
  }

  lemma RemovalKeepsRefused(validates: Validator, s: State, removal: RemovalFault)
    requires FailuresRefused(validates, s) && s.stage.Removing? && !removal.UnsafeFile?
    ensures FailuresRefused(validates, Next(validates, s, RemoveEnds(removal)).value)
  {
    hide ResultName, Reload, Pinned;
    var id := s.stage.id;
    FailuresAppend(validates, s, Removed(id), Idle);
    PinnedAppend(s.log, Removed(id), id);
  }

  lemma NextKeepsRefused(validates: Validator, s: State, e: Event)
    requires Sound(s) && FailuresRefused(validates, s) && Untroubled(e) && Next(validates, s, e).Some?
    ensures FailuresRefused(validates, Next(validates, s, e).value)
  {
    hide ResultName, ValidIdentity, CacheIdentity, RespectsPins, RemovalsJustified, WellStored, Pinned, LookUp, Holdable, StoredText, Refuses;
    match e {
      case ReceiptReply(matched) =>
        if Next(validates, s, e).value.log != s.log {
          var id := CacheIdentity(s.stage.pending[0]).value;
          FailuresAppend(validates, s, Receipt(id), Idle);
          FailuresAppend(validates, s.(log := s.log + [Receipt(id)], stage := Idle), Removed(id), Idle);
          assert s.log + [Receipt(id)] + [Removed(id)] == s.log + [Receipt(id), Removed(id)];
        }
      case Started(trouble, refusal) =>
        if trouble == None {
          LookUpKeepsRefused(validates, s, s.stage.id, refusal);
        }
      case Executed(_) => UnstoredNotPinned(validates, s, s.stage.id);
      case StoreEnds(_) => UnstoredNotPinned(validates, s, s.stage.id);
      case CheckEnds(_) =>
        if s.stage.Checking? {
          FailuresAppend(validates, s, Complete(s.stage.id, s.stage.text), Idle);
        } else {
          FailuresAppend(validates, s, Failed(s.stage.id, s.stage.code), Idle);
        }
      case CompleteReply(_) => FailuresAppend(validates, s, Accepted(s.stage.id), Idle);
      case FailureReply(_) => FailuresAppend(validates, s, Accepted(s.stage.id), Idle);
      case RemoveEnds(removal) => RemovalKeepsRefused(validates, s, removal);
      case _ =>
    }
  }

  lemma UnstoredNotPinned(validates: Validator, s: State, id: Identity)
    requires PinsStored(s) && ValidIdentity(id) && ResultName(id) !in s.files
    ensures Refuses(validates, id, Pinned(s.log, id))
  {
    hide ResultName, ValidIdentity;
    PinnedOnlyIfStored(s, id);
  }

  lemma {:induction false} RunKeepsRefused(validates: Validator, events: seq<Event>)
    requires Run(validates, events).Some? && forall e :: e in events ==> Untroubled(e)
    ensures FailuresRefused(validates, Run(validates, events).value)
  {
    hide Next, Sound, Untroubled;
    if events != [] {
      var front := events[..|events| - 1];
      RunKeepsRefused(validates, front);
      ReachedIsSound(validates, front);
      NextKeepsRefused(validates, Run(validates, front).value, events[|events| - 1]);
    }
  }

  /**
   Where nothing else goes wrong, a failure is sent after a completion of the same lease identity,
   its cache file not removed in between, only when the stored result is refused on reload.
   */
  lemma FailureFollowsCompletionOnlyWhenRefused(validates: Validator, events: seq<Event>, p: nat, q: nat)
    requires Run(validates, events).Some? && forall e :: e in events ==> Untroubled(e)
    requires p < q < |Run(validates, events).value.log|
    requires var log := Run(validates, events).value.log;
      log[p].Complete? && log[q].Failed? && log[q].id == log[p].id && forall r :: p < r < q ==> log[r] != Removed(log[p].id)
    ensures var log := Run(validates, events).value.log;
      Reload(validates, log[p].id, log[p].text + "\n").Err?
  {
    hide Next, Pinned, Reload, Untroubled;
    RunKeepsRefused(validates, events);
    ReachedIsSound(validates, events);
    var log := Run(validates, events).value.log;
    PinHolds(log, p, q, log[p].id);
  }

  /** A claim on an identity whose completion was sent is decided by the reload alone. */
  lemma ReclaimIsDecidedByReload(validates: Validator, s: State, id: Identity, text: string, refusal: string)
    requires Sound(s) && s.stage == Leased(id) && Pinned(s.log, id) == Some(text)
    ensures var out := RunFrom(validates, s, [Started(None, refusal), CheckEnds(None)]);
      && out.Some?
      && out.value.log == s.log + [if Reload(validates, id, text + "\n").Ok? then Complete(id, text) else Failed(id, refusal)]
  {
    hide ResultName, ValidIdentity, Reload, WellStored, RespectsPins, RemovalsJustified, Pinned;
    var first := Started(None, refusal);
    assert [first, CheckEnds(None)][..1] == [first] && [first][..0] == [];
    assert ResultName(id) in s.files && s.files[ResultName(id)] == text + "\n";
    if Reload(validates, id, text + "\n").Ok? {
      ReloadedText(validates, id, s.files);
      SameText(text, Reload(validates, id, text + "\n").value);
    }
    assert RunFrom(validates, s, [first]) == Next(validates, s, first);
  }

  /** A run given by the states it goes through. */
  lemma {:induction false} RunThrough(validates: Validator, states: seq<State>, events: seq<Event>)
    requires |states| == |events| + 1
    requires forall k :: 0 <= k < |events| ==> Next(validates, states[k], events[k]) == Some(states[k + 1])
    ensures RunFrom(validates, states[0], events) == Some(states[|events|])
  {
    hide Next;
    if events != [] {
      RunThrough(validates, states[..|events|], events[..|events| - 1]);
    }
  }

  lemma {:induction false} RunSplits(validates: Validator, start: State, a: seq<Event>, b: seq<Event>)
    requires RunFrom(validates, start, a).Some?
    ensures RunFrom(validates, start, a + b) == RunFrom(validates, RunFrom(validates, start, a).value, b)
    decreases |b|
  {
    hide Next;
    if b == [] {
      assert a + b == a;
    } else {
      RunSplits(validates, start, a, b[..|b| - 1]);
      assert (a + b)[..|a + b| - 1] == a + b[..|b| - 1];
    }
  }

  lemma OneName(name: string)
    ensures Listing({name}) == [name] && Listing({}) == []
  {
    hide StringLess;
    ListingIs({name}, [name]);
    ListingIs({}, []);
  }

  /** An empty cache, and a claim on an identity. */
  function Claim(id: Identity): seq<Event> {
    [Begin, ReceiptReply(None), ClaimReply(Some(id))]
  }

  /** The model runs, its result is stored and its completion is sent. */
  function Execute(v: JSON): seq<Event> {
    [Started(None, ""), Executed(Ok(v)), StoreEnds(Stores), CheckEnds(None)]
  }

  /** The acknowledgement is ambiguous and no receipt matches. */
  function Retry(): seq<Event> {
    [CompleteReply(false), Begin, ReceiptReply(Some(false))]
  }

  /** The identity is claimed again. */
  function Reclaim(id: Identity): seq<Event> {
    [ReceiptReply(None), ClaimReply(Some(id))]
  }

  lemma ClaimRuns(validates: Validator, id: Identity)
    requires ValidIdentity(id)
    ensures Run(validates, Claim(id)) == Some(EMPTY.(stage := Leased(id)))
  {
    hide ResultName, ValidIdentity, CacheIdentity, RunFrom, Listing, LookUp, Holdable, StoredText;
    OneName("");
    assert EMPTY.files.Keys == {};
    RunThrough(validates, [EMPTY, EMPTY.(stage := Reconciling([])), EMPTY.(stage := Claiming), EMPTY.(stage := Leased(id))], Claim(id));
  }

  lemma ExecuteRuns(validates: Validator, id: Identity, v: JSON, text: string)
    requires Holdable(v) && StoredText(v) == Ok(text)
    ensures RunFrom(validates, EMPTY.(stage := Leased(id)), Execute(v))
      == Some(State(map[ResultName(id) := text + "\n"], Sent(id), [ModelRun(id), Complete(id, text)]))
  {
    hide ResultName, CacheIdentity, Reload, Holdable, StoredText, RunFrom, ReceiptNext;
    var files := map[ResultName(id) := text + "\n"];
    assert EMPTY.files[ResultName(id) := text + "\n"] == files;
    var ran := EMPTY.log + [ModelRun(id)];
    assert ran == [ModelRun(id)] && ran + [Complete(id, text)] == [ModelRun(id), Complete(id, text)];
    var states := [
      EMPTY.(stage := Leased(id)), State(EMPTY.files, Executing(id), ran), State(EMPTY.files, Storing(id, text), ran),
      State(files, Checking(id, text), ran), State(files, Sent(id), ran + [Complete(id, text)])];
    RunThrough(validates, states, Execute(v));
  }

  lemma RetryRuns(validates: Validator, id: Identity, file: string, log: seq<Entry>)
    requires ValidIdentity(id)
    ensures var files := map[ResultName(id) := file];
      RunFrom(validates, State(files, Sent(id), log), Retry()) == Some(State(files, Reconciling([]), log))
  {
    ResultNameReadsBack(id);
    hide ResultName, ValidIdentity, CacheIdentity, RunFrom, Listing, LookUp, Holdable, StoredText;
    var name := ResultName(id);
    var files := map[name := file];
    OneName(name);
    assert files.Keys == {name};
    assert [name][1..] == [];
    var states := [
      State(files, Sent(id), log), State(files, Idle, log), State(files, Reconciling([name]), log), State(files, Reconciling([]), log)];
    RunThrough(validates, states, Retry());
  }

  lemma ReclaimRuns(validates: Validator, id: Identity, files: map<string, string>, log: seq<Entry>)
    requires ValidIdentity(id)
    ensures RunFrom(validates, State(files, Reconciling([]), log), Reclaim(id)) == Some(State(files, Leased(id), log))
  {
    hide ValidIdentity, RunFrom, LookUp;
    RunThrough(validates, [State(files, Reconciling([]), log), State(files, Claiming, log), State(files, Leased(id), log)], Reclaim(id));
  }

  /**
   The failing case: a completion with an ambiguous acknowledgement, whose stored result is refused on
   reload, is followed by a failure for the same lease identity. No file is removed in between.
   */
  lemma RefusedCompletionBecomesFailure(validates: Validator, id: Identity, v: JSON, text: string, refusal: string)
    requires ValidIdentity(id) && Holdable(v) && StoredText(v) == Ok(text)
    requires Reload(validates, id, text + "\n").Err?
    ensures var out := Run(validates, Claim(id) + Execute(v) + Retry() + Reclaim(id) + [Started(None, refusal), CheckEnds(None)]);
      out.Some? && out.value.log == [ModelRun(id), Complete(id, text), Failed(id, refusal)]
  {
    hide ResultName, ValidIdentity, CacheIdentity, Reload, Holdable, StoredText, RunFrom, Next, Sound, Claim, Execute, Retry, Reclaim;
    var file := text + "\n";
    var log := [ModelRun(id)] + [Complete(id, text)];
    assert log == [ModelRun(id), Complete(id, text)];
    ClaimRuns(validates, id);
    ExecuteRuns(validates, id, v, text);
    RetryRuns(validates, id, file, log);
    ReclaimRuns(validates, id, map[ResultName(id) := file], log);
    RunSplits(validates, EMPTY, Claim(id), Execute(v));
    RunSplits(validates, EMPTY, Claim(id) + Execute(v), Retry());
    RunSplits(validates, EMPTY, Claim(id) + Execute(v) + Retry(), Reclaim(id));
    var claimed := Claim(id) + Execute(v) + Retry() + Reclaim(id);
    ReachedIsSound(validates, claimed);
    PinnedAppend([ModelRun(id)], Complete(id, text), id);
    ReclaimIsDecidedByReload(validates, Run(validates, claimed).value, id, text, refusal);
    RunSplits(validates, EMPTY, claimed, [Started(None, refusal), CheckEnds(None)]);
  }

  // ----- a leftover temporary file

  /** No claim is held and none is about to be asked for before the name is met. */
  predicate Stopped(s: State, temporary: string) {
    temporary in s.files && (s.stage == Idle || (s.stage.Reconciling? && temporary in s.stage.pending))
  }

  /**
   A temporary name left in the results directory stops the worker: whatever happens afterwards, no
   claim is taken, the model never runs and no terminal message is sent.
   */
  lemma {:induction false} TemporaryStopsTheWorker(validates: Validator, start: State, events: seq<Event>, temporary: string)
    requires CacheIdentity(temporary).None? && Stopped(start, temporary)
    requires RunFrom(validates, start, events).Some?
    ensures var after := RunFrom(validates, start, events).value;
      && Stopped(after, temporary) && |start.log| <= |after.log| && after.log[..|start.log|] == start.log
      && forall q :: |start.log| <= q < |after.log| ==> after.log[q].Receipt? || after.log[q].Removed?
  {
    hide Next, CacheIdentity;
    if events != [] {
      var front := events[..|events| - 1];
      TemporaryStopsTheWorker(validates, start, front, temporary);
      StoppedStays(validates, RunFrom(validates, start, front).value, events[|events| - 1], temporary);
    }
  }

  lemma StoppedStays(validates: Validator, s: State, e: Event, temporary: string)
    requires CacheIdentity(temporary).None? && Stopped(s, temporary) && Next(validates, s, e).Some?
    ensures var after := Next(validates, s, e).value;
      && Stopped(after, temporary) && |s.log| <= |after.log| && after.log[..|s.log|] == s.log
      && forall q :: |s.log| <= q < |after.log| ==> after.log[q].Receipt? || after.log[q].Removed?
  {
    hide CacheIdentity, LookUp, StoredText, Holdable;
  }
}

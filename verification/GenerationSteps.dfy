/**
 What each step of the generation worker does to its log and to its files, and when it can happen: the
 stored text and the reloaded text with their refusals, the start of a cycle, the messages sent, the
 files written and removed, and what follows a reply or a removal.
 */
module GenerationSteps {
  import opened Canonical
  import opened Generation
  import opened JsonStrings
  import opened Listings
  import opened Outcomes
  import opened ResultNames

  /** A result is stored exactly when its canonical text has at most 262144 bytes; both refusals exclude each other. */
  lemma StoredExactly(v: JSON)
    ensures var printed, out := CanonicalText(v, Limits(262_145, 32, 65_536)), StoredText(v);
      && (out == Err(Unprintable) <==> printed.Err?)
      && (out == Err(TooLarge) <==> printed.Ok? && 262_145 <= Utf8Length(printed.value))
      && (out.Ok? <==> printed.Ok? && Utf8Length(printed.value) < 262_145)
      && (out.Ok? ==> out.value == printed.value)
  {
    hide CanonicalText, Utf8Length;
  }

  /** A cache file that does not load is refused first, then one that no longer validates, then one that does not print. */
  lemma ReloadedExactly(validates: Validator, id: Identity, file: string)
    ensures var loaded, out := StrictLoads(file, Limits(262_145, 32, 65_536)), Reload(validates, id, file);
      && (out == Err(Unloadable) <==> loaded.Err?)
      && (out == Err(Drifted) <==> loaded.Ok? && !validates(id, loaded.value))
      && (out == Err(Unprintable) <==>
           loaded.Ok? && validates(id, loaded.value) && CanonicalText(loaded.value, Limits(262_145, 32, 65_536)).Err?)
      && (out.Ok? ==> loaded.Ok? && CanonicalText(loaded.value, Limits(262_145, 32, 65_536)) == Ok(out.value))
  {
    hide CanonicalText, StrictLoads;
  }

  /** A cycle begins only when the last one ended, over the sorted names; with nine files or more the worker never gets further. */
  lemma CycleBeginsExactly(validates: Validator, s: State)
    ensures Next(validates, s, Begin).Some? <==> s.stage == Idle
    ensures s.stage == Idle && |Listing(s.files.Keys)| >= 9 ==> Next(validates, s, Begin) == Some(s)
    ensures s.stage == Idle && |Listing(s.files.Keys)| < 9 ==>
      Next(validates, s, Begin) == Some(State(s.files, Reconciling(Listing(s.files.Keys)), s.log))
  {
  }

  /** Which step sends which message: nothing else is ever written to the log. */
  lemma MessagesExactly(validates: Validator, s: State, e: Event)
    requires Next(validates, s, e).Some?
    ensures Next(validates, s, e).value.log == s.log + (match (s.stage, e) {
      case (Checking(id, text), CheckEnds(None)) => [Complete(id, text)]
      case (CheckingFailure(id, code), CheckEnds(None)) => [Failed(id, code)]
      case (Sent(id), CompleteReply(true)) => [Accepted(id)]
      case (FailureSent(id), FailureReply(true)) => [Accepted(id)]
      case (Leased(id), Started(None, _)) => if ResultName(id) in s.files then [] else [ModelRun(id)]
      case (Removing(id, _), RemoveEnds(removal)) => if removal.UnsafeFile? then [] else [Removed(id)]
      case (Reconciling(pending), ReceiptReply(Some(true))) =>
        if pending != [] && pending[0] in s.files && CacheIdentity(pending[0]).Some?
        then [Receipt(CacheIdentity(pending[0]).value), Removed(CacheIdentity(pending[0]).value)]
        else []
      case _ => []
    })
  {
    hide ResultName, CacheIdentity, Reload, StoredText, Holdable, Listing, ValidIdentity;
  }

  /** Which step touches which file: nothing else in the cache ever changes. */
  lemma FilesChangeExactly(validates: Validator, s: State, e: Event)
    requires Next(validates, s, e).Some?
    ensures Next(validates, s, e).value.files == match (s.stage, e) {
      case (Storing(id, text), StoreEnds(storing)) =>
        if storing.FailsBefore? then s.files else s.files[ResultName(id) := text + "\n"]
      case (Storing(id, text), CrashLeaving(temporary, partial, linked)) =>
        (if linked then s.files[ResultName(id) := text + "\n"] else s.files)[temporary := partial]
      case (Removing(id, _), RemoveEnds(removal)) => if removal.UnsafeFile? then s.files else s.files - {ResultName(id)}
      case (Reconciling(pending), ReceiptReply(Some(true))) =>
        if pending != [] && CacheIdentity(pending[0]).Some? then s.files - {pending[0]} else s.files
      case _ => s.files
    }
  {
    hide ResultName, CacheIdentity, Reload, StoredText, Holdable, Listing, ValidIdentity;
  }

  /**
   After an unaccepted message the cycle ends and the file stays. Once a completion was accepted, an unsafe
   file or a failing status sends a failure for the same claim; once a failure was accepted, nothing does.
   */
  lemma WhatFollows(validates: Validator, s: State, id: Identity, code: string)
    ensures s.stage == Sent(id) ==>
      && Next(validates, s, CompleteReply(false)) == Some(State(s.files, Idle, s.log))
      && Next(validates, s, CompleteReply(true)) == Some(State(s.files, Removing(id, false), s.log + [Accepted(id)]))
    ensures s.stage == FailureSent(id) ==>
      && Next(validates, s, FailureReply(false)) == Some(State(s.files, Idle, s.log))
      && Next(validates, s, FailureReply(true)) == Some(State(s.files, Removing(id, true), s.log + [Accepted(id)]))
    ensures s.stage.Removing? && s.stage.id == id ==>
      && Next(validates, s, RemoveEnds(NoFault)) == Some(State(s.files - {ResultName(id)}, Idle, s.log + [Removed(id)]))
      && Next(validates, s, RemoveEnds(UnsafeFile(code))).value.stage == Next(validates, s, RemoveEnds(StatusFails(code))).value.stage
    ensures s.stage == Removing(id, false) ==> Next(validates, s, RemoveEnds(UnsafeFile(code))).value.stage == CheckingFailure(id, code)
    ensures s.stage == Removing(id, true) ==> Next(validates, s, RemoveEnds(UnsafeFile(code))).value.stage == Idle
    ensures s.stage.Storing? && s.stage.id == id ==>
      && Next(validates, s, StoreEnds(Stores)).value.stage == Checking(id, s.stage.text)
      && Next(validates, s, StoreEnds(FailsBefore(code))).value.stage == CheckingFailure(id, code)
      && Next(validates, s, StoreEnds(FailsAfter(code))).value.stage == CheckingFailure(id, code)
  {
    hide ResultName;
  }

  /** Which events can happen: a death always, the rest where the worker stands. */
  lemma EventsHappenExactly(validates: Validator, s: State, e: Event)
    ensures Next(validates, s, e).Some? <==>
      match e {
        case Crash => true
        case CrashLeaving(temporary, _, _) => s.stage.Storing? && CacheIdentity(temporary).None?
        case Begin => s.stage.Idle?
        case ReceiptReply(_) => s.stage.Reconciling?
        case ClaimReply(_) => s.stage.Claiming?
        case Started(_, _) => s.stage.Leased?
        case Executed(outcome) => s.stage.Executing? && (outcome.Ok? ==> Holdable(outcome.value))
        case StoreEnds(_) => s.stage.Storing?
        case CheckEnds(_) => s.stage.Checking? || s.stage.CheckingFailure?
        case CompleteReply(_) => s.stage.Sent?
        case RemoveEnds(_) => s.stage.Removing?
        case FailureReply(_) => s.stage.FailureSent?
      }
  {
    hide ResultName, CacheIdentity, Reload, StoredText, Holdable, Listing, ValidIdentity;
  }
}

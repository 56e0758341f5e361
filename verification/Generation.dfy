/**
 The generation worker's result cache: a durable directory of canonical results, one file for each
 lease identity, and the worker that runs the model, stores, completes, fails, removes, dies and
 starts again. Scout's replies are part of the events.
 */
module Generation {
  import opened Canonical
  import opened CanonicalLaws
  import opened JsonStrings
  import opened Listings
  import opened Outcomes
  import opened ResultNames

  const MAX_RESULT_BYTES: nat := 262_144
  const MAX_CACHED_RESULTS: nat := 8
  const RESULT_LIMITS: Limits := Limits(262_145, 32, 65_536)

  datatype CacheError = Unloadable | Drifted | Unprintable | TooLarge | Occupied

  /** Whether a reloaded result still passes `validate_production_generation_result` for the claim. */
  type Validator = (Identity, JSON) -> bool

  /** A result the program can hold: dictionaries, and numbers with a float's text. */
  ghost predicate Holdable(v: JSON) {
    WellFormed(v) && Every(v, ReadsAgain)
  }

  /** The canonical text stored for a result, if it is small enough. */
  function StoredText(v: JSON): Result<string, CacheError> {
    match CanonicalText(v, RESULT_LIMITS)
    case Err(_) => Err(Unprintable)
    case Ok(text) => if Utf8Length(text) > MAX_RESULT_BYTES then Err(TooLarge) else Ok(text)
  }

  /** The canonical text that `_cached_result` will send for a cache file. */
  function Reload(validates: Validator, id: Identity, file: string): Result<string, CacheError> {
    match StrictLoads(file, RESULT_LIMITS)
    case Err(_) => Err(Unloadable)
    case Ok(v) =>
      if !validates(id, v) then Err(Drifted)
      else match CanonicalText(v, RESULT_LIMITS) {
        case Err(_) => Err(Unprintable)
        case Ok(text) => Ok(text)
      }
  }

  /**
   A cached result is sent again, with the very bytes first sent, exactly when the reloaded value
   still validates and none of its numbers is a large integral one.
   */
  lemma ReloadSendsSameBytes(validates: Validator, id: Identity, v: JSON)
    requires Holdable(v) && StoredText(v).Ok?
    ensures Reload(validates, id, StoredText(v).value + "\n") == Ok(StoredText(v).value)
        <==> validates(id, ReadBack(v)) && Every(v, NotLargeIntegral)
    ensures Reload(validates, id, StoredText(v).value + "\n").Ok? ==>
      Reload(validates, id, StoredText(v).value + "\n") == Ok(StoredText(v).value)
  {
    hide CanonicalText, StrictLoads, ReadBack, Every, WellFormed, Utf8Length;
    CanonicalTextReadsBack(v, RESULT_LIMITS, "\n");
    PrintsTheSameAgain(v, RESULT_LIMITS);
  }

  // ----- the cache files

  class ResultCache {
    var results: map<string, string>

    constructor ()
      ensures results == map[]
    {
      results := map[];
    }

    /** `_store_result`: never overwrites a file, be it the same or another. */
    method Store(id: Identity, v: JSON) returns (out: Result<string, CacheError>)
      modifies this
      ensures out == if StoredText(v).Ok? && ResultName(id) in old(results) then Err(Occupied) else StoredText(v)
      ensures results == if out.Ok? then old(results)[ResultName(id) := out.value + "\n"] else old(results)
    {
      out := StoredText(v);
      if out.Ok? {
        if ResultName(id) in results {
          return Err(Occupied);
        }
        results := results[ResultName(id) := out.value + "\n"];
      }
    }

    /** `_cached_result` */
    method Cached(validates: Validator, id: Identity) returns (out: Option<Result<string, CacheError>>)
      ensures out == if ResultName(id) in results then Some(Reload(validates, id, results[ResultName(id)])) else None
    {
      if ResultName(id) !in results {
        return None;
      }
      return Some(Reload(validates, id, results[ResultName(id)]));
    }

    method Remove(name: string)
      modifies this
      ensures results == old(results) - {name}
    {
      results := results - {name};
    }

    /** `_reconcile_cached_results` when every receipt request is answered. */
    method Reconcile(matched: string -> bool) returns (ok: bool)
      modifies this
      ensures ok == ReconcileOutcome(old(results), matched).complete
      ensures results == ReconcileOutcome(old(results), matched).files
    {
      ghost var before := results;
      ReconcileIs(before, matched);
      hide *;
      var names := ListDirectory(results.Keys);
      if |names| > MAX_CACHED_RESULTS {
        return false;
      }
      SweepStep(before, names, matched, 0);
      for i := 0 to |names|
        invariant Swept(before, names, matched, i) == Sweep(results, true)
      {
        SweepStep(before, names, matched, i + 1);
        if CacheIdentity(names[i]).None? {
          SweepStops(before, names, matched, i + 1);
          return false;
        }
        if matched(names[i]) {
          Remove(names[i]);
        }
      }
      return true;
    }
  }

  /** The files after some names were asked about, and whether every name so far was a cache name. */
  datatype Sweep = Sweep(files: map<string, string>, complete: bool)

  function Swept(files: map<string, string>, names: seq<string>, matched: string -> bool, k: nat): Sweep
    requires k <= |names|
  {
    if k == 0 then Sweep(files, true)
    else
      var before := Swept(files, names, matched, k - 1);
      if !before.complete then before
      else if CacheIdentity(names[k - 1]).None? then Sweep(before.files, false)
      else if matched(names[k - 1]) then Sweep(before.files - {names[k - 1]}, true)
      else before
  }

  lemma SweepStep(files: map<string, string>, names: seq<string>, matched: string -> bool, k: nat)
    requires k <= |names|
    ensures k == 0 ==> Swept(files, names, matched, k) == Sweep(files, true)
    ensures k > 0 && Swept(files, names, matched, k - 1).complete ==>
      var before, name := Swept(files, names, matched, k - 1), names[k - 1];
      Swept(files, names, matched, k)
        == if CacheIdentity(name).None? then Sweep(before.files, false)
           else if matched(name) then Sweep(before.files - {name}, true)
           else before
  {
    hide CacheIdentity;
  }

  lemma ReconcileIs(files: map<string, string>, matched: string -> bool)
    ensures var names := Listing(files.Keys);
      ReconcileOutcome(files, matched)
      == if |names| > MAX_CACHED_RESULTS then Sweep(files, false) else Swept(files, names, matched, |names|)
  {
  }

  ghost function ReconcileOutcome(files: map<string, string>, matched: string -> bool): Sweep {
    var names := Listing(files.Keys);
    if |names| > MAX_CACHED_RESULTS then Sweep(files, false) else Swept(files, names, matched, |names|)
  }

  lemma {:induction false} SweepStops(files: map<string, string>, names: seq<string>, matched: string -> bool, k: nat)
    requires k <= |names| && !Swept(files, names, matched, k).complete
    ensures Swept(files, names, matched, |names|) == Swept(files, names, matched, k)
    decreases |names| - k
  {
    hide CacheIdentity;
    if k < |names| {
      SweepStops(files, names, matched, k + 1);
    }
  }

  /** Sweeping keeps every file whose receipt does not match, byte for byte, and adds none. */
  lemma {:induction false} SweepKeepsUnmatched(files: map<string, string>, names: seq<string>, matched: string -> bool, k: nat)
    requires k <= |names|
    ensures var after := Swept(files, names, matched, k).files;
      && (forall name :: name in after ==> name in files && after[name] == files[name])
      && (forall name :: name in files && !matched(name) ==> name in after)
  {
    hide CacheIdentity;
    if k > 0 {
      SweepKeepsUnmatched(files, names, matched, k - 1);
    }
  }

  lemma {:induction false} SweptNames(files: map<string, string>, names: seq<string>, matched: string -> bool, k: nat)
    requires k <= |names| && Swept(files, names, matched, k).complete
    ensures forall name :: name in Swept(files, names, matched, k).files <==> name in files && !(name in names[..k] && matched(name))
    ensures forall name :: name in names[..k] ==> CacheIdentity(name).Some?
  {
    hide CacheIdentity;
    if k > 0 {
      SweptNames(files, names, matched, k - 1);
      assert names[..k] == names[..k - 1] + [names[k - 1]];
    }
  }

  /**
   A sweep is complete exactly when there are at most eight files and all have cache names; then exactly
   the files without a matching receipt remain, byte for byte.
   */
  lemma CompleteSweepLeavesUnmatched(files: map<string, string>, matched: string -> bool)
    ensures var out := ReconcileOutcome(files, matched);
      && (out.complete <==> |Listing(files.Keys)| <= 8 && forall name :: name in files ==> CacheIdentity(name).Some?)
      && (out.complete ==>
          && (forall name :: name in out.files <==> name in files && !matched(name))
          && (forall name :: name in out.files ==> out.files[name] == files[name]))
  {
    hide CacheIdentity;
    var names := Listing(files.Keys);
    SweepKeepsUnmatched(files, names, matched, |names|);
    assert names[..|names|] == names;
    if |names| <= MAX_CACHED_RESULTS {
      if Swept(files, names, matched, |names|).complete {
        SweptNames(files, names, matched, |names|);
      } else {
        IncompleteSweep(files, names, matched, |names|);
      }
    }
  }

  lemma {:induction false} IncompleteSweep(files: map<string, string>, names: seq<string>, matched: string -> bool, k: nat)
    requires k <= |names| && !Swept(files, names, matched, k).complete
    ensures exists name :: name in names && CacheIdentity(name).None?
  {
    hide CacheIdentity;
    if k > 0 && !Swept(files, names, matched, k - 1).complete {
      IncompleteSweep(files, names, matched, k - 1);
    } else if k > 0 {
      assert names[k - 1] in names;
    }
  }

  // ----- the protocol

  datatype Entry =
    | ModelRun(id: Identity) | Complete(id: Identity, text: string) | Failed(id: Identity, code: string)
    | Accepted(id: Identity) | Receipt(id: Identity) | Removed(id: Identity)

  datatype Stage =
    | Idle
    | Reconciling(pending: seq<string>)
    | Claiming
    | Leased(id: Identity)
    | Executing(id: Identity)
    | Storing(id: Identity, text: string)
    | Checking(id: Identity, text: string)
    | Sent(id: Identity)
    | Removing(id: Identity, handling: bool)
    | CheckingFailure(id: Identity, code: string)
    | FailureSent(id: Identity)

  /** Cache files are durable; the stage dies with the process; the log records what happened. */
  datatype State = State(files: map<string, string>, stage: Stage, log: seq<Entry>)

  /** A remote or other error ends the cycle; a plain Atlas error goes on to fail the claim. */
  datatype Raised = Passing | Atlas(code: string)

  datatype RemovalFault = NoFault | UnsafeFile(code: string) | StatusFails(code: string)

  datatype StoreFault = Stores | FailsBefore(code: string) | FailsAfter(code: string)

  datatype Event =
    | Begin
    | ReceiptReply(matched: Option<bool>)
    | ClaimReply(claim: Option<Identity>)
    | Started(trouble: Option<Raised>, refusal: string)
    | Executed(outcome: Result<JSON, string>)
    | StoreEnds(storing: StoreFault)
    | CheckEnds(objection: Option<Raised>)
    | CompleteReply(accepted: bool)
    | RemoveEnds(removal: RemovalFault)
    | FailureReply(accepted: bool)
    | Crash
    | CrashLeaving(temporary: string, partial: string, linked: bool)

  function Raise(s: State, id: Identity, raised: Raised): State {
    match raised
    case Passing => s.(stage := Idle)
    case Atlas(code) => s.(stage := CheckingFailure(id, code))
  }

  ghost function ReceiptNext(s: State, matched: Option<bool>): Option<State>
    requires s.stage.Reconciling?
  {
    if s.stage.pending == [] then Some(s.(stage := Claiming))
    else
      var name := s.stage.pending[0];
      if name !in s.files then Some(s.(stage := Reconciling(s.stage.pending[1..])))
      else match (CacheIdentity(name), matched)
      case (Some(id), Some(true)) =>
        Some(State(s.files - {name}, Reconciling(s.stage.pending[1..]), s.log + [Receipt(id), Removed(id)]))
      case (Some(id), Some(false)) => Some(s.(stage := Reconciling(s.stage.pending[1..])))
      case _ => Some(s.(stage := Idle))
  }

  /** After a successful start: a cached result is loaded or refused, otherwise the model runs. */
  function LookUp(validates: Validator, s: State, id: Identity, refusal: string): State {
    if ResultName(id) !in s.files then s.(stage := Executing(id), log := s.log + [ModelRun(id)])
    else match Reload(validates, id, s.files[ResultName(id)]) {
      case Err(_) => s.(stage := CheckingFailure(id, refusal))
      case Ok(text) => s.(stage := Checking(id, text))
    }
  }

  ghost function Next(validates: Validator, s: State, e: Event): Option<State> {
    match e
    case Crash => Some(s.(stage := Idle))
    case CrashLeaving(temporary, partial, linked) =>
      if !s.stage.Storing? || CacheIdentity(temporary).Some? then None
      else
        var files := if linked then s.files[ResultName(s.stage.id) := s.stage.text + "\n"] else s.files;
        Some(s.(files := files[temporary := partial], stage := Idle))
    case Begin =>
      if s.stage != Idle then None
      else
        var names := Listing(s.files.Keys);
        Some(if |names| > MAX_CACHED_RESULTS then s else s.(stage := Reconciling(names)))
    case ReceiptReply(matched) => if s.stage.Reconciling? then ReceiptNext(s, matched) else None
    case ClaimReply(claim) =>
      if s.stage != Claiming then None
      else (match claim
            case None => Some(s.(stage := Idle))
            case Some(id) => if ValidIdentity(id) then Some(s.(stage := Leased(id))) else Some(s.(stage := Idle)))
    case Started(trouble, refusal) =>
      if !s.stage.Leased? then None
      else (match trouble
            case Some(raised) => Some(Raise(s, s.stage.id, raised))
            case None => Some(LookUp(validates, s, s.stage.id, refusal)))
    case Executed(outcome) =>
      if !s.stage.Executing? then None
      else (match outcome
            case Err(code) => Some(s.(stage := CheckingFailure(s.stage.id, code)))
            case Ok(v) =>
              if !Holdable(v) then None
              else (match StoredText(v)
                    case Err(_) => Some(s.(stage := CheckingFailure(s.stage.id, "GENERATION_WORKER_RESULT_INVALID")))
                    case Ok(text) => Some(s.(stage := Storing(s.stage.id, text)))))
    case StoreEnds(storing) =>
      if !s.stage.Storing? then None
      else
        var id, text := s.stage.id, s.stage.text;
        var written := s.files[ResultName(id) := text + "\n"];
        (match storing
         case Stores => Some(s.(files := written, stage := Checking(id, text)))
         case FailsBefore(code) => Some(s.(stage := CheckingFailure(id, code)))
         case FailsAfter(code) => Some(s.(files := written, stage := CheckingFailure(id, code))))
    case CheckEnds(objection) =>
      (match s.stage
       case Checking(id, text) =>
         (match objection
          case Some(raised) => Some(Raise(s, id, raised))
          case None => Some(s.(stage := Sent(id), log := s.log + [Complete(id, text)])))
       case CheckingFailure(id, code) =>
         (match objection
          case Some(_) => Some(s.(stage := Idle))
          case None => Some(s.(stage := FailureSent(id), log := s.log + [Failed(id, code)])))
       case _ => None)
    case CompleteReply(accepted) =>
      if !s.stage.Sent? then None
      else Some(if accepted then s.(stage := Removing(s.stage.id, false), log := s.log + [Accepted(s.stage.id)]) else s.(stage := Idle))
    case FailureReply(accepted) =>
      if !s.stage.FailureSent? then None
      else Some(if accepted then s.(stage := Removing(s.stage.id, true), log := s.log + [Accepted(s.stage.id)]) else s.(stage := Idle))
    case RemoveEnds(removal) =>
      if !s.stage.Removing? then None
      else
        var id, handling := s.stage.id, s.stage.handling;
        var gone := State(s.files - {ResultName(id)}, Idle, s.log + [Removed(id)]);
        (match removal
         case NoFault => Some(gone)
         case UnsafeFile(code) => Some(s.(stage := if handling then Idle else CheckingFailure(id, code)))
         case StatusFails(code) => Some(gone.(stage := if handling then Idle else CheckingFailure(id, code))))
  }

  ghost function RunFrom(validates: Validator, start: State, events: seq<Event>): Option<State> {
    if events == [] then Some(start)
    else match RunFrom(validates, start, events[..|events| - 1]) {
      case None => None
      case Some(s) => Next(validates, s, events[|events| - 1])
    }
  }

  const EMPTY: State := State(map[], Idle, [])

  ghost function Run(validates: Validator, events: seq<Event>): Option<State> {
    RunFrom(validates, EMPTY, events)
  }

  // ----- what completes pin down

  /** The bytes of the last completion sent for an identity since its cache file was last removed. */
  function Pinned(log: seq<Entry>, id: Identity): Option<string> {
    if log == [] then None
    else
      var last := log[|log| - 1];
      if last == Removed(id) then None
      else if last.Complete? && last.id == id then Some(last.text)
      else Pinned(log[..|log| - 1], id)
  }

  /** No model run while an identity is pinned, and no completion with other bytes. */
  ghost predicate RespectsPins(log: seq<Entry>) {
    forall q :: 0 <= q < |log| ==>
      && (log[q].ModelRun? ==> Pinned(log[..q], log[q].id) == None)
      && (log[q].Complete? ==> Pinned(log[..q], log[q].id) in {None, Some(log[q].text)})
  }

  /** A cache file is only ever removed right after an accepted terminal message or a matching receipt. */
  ghost predicate RemovalsJustified(log: seq<Entry>) {
    forall q :: 0 <= q < |log| && log[q].Removed? ==> q > 0 && log[q - 1] in {Accepted(log[q].id), Receipt(log[q].id)}
  }

  predicate NamedProperly(name: string) {
    CacheIdentity(name).Some? && ValidIdentity(CacheIdentity(name).value) && ResultName(CacheIdentity(name).value) == name
  }

  ghost predicate CanonicalFile(text: string) {
    exists v :: Holdable(v) && StoredText(v) == Ok(text)
  }

  /** Every file under a cache name belongs to its identity and holds a canonical result. */
  ghost predicate WellStored(files: map<string, string>) {
    forall name :: name in files && CacheIdentity(name).Some? ==>
      NamedProperly(name) && exists text :: files[name] == text + "\n" && CanonicalFile(text)
  }

  ghost predicate PinsStored(s: State) {
    forall id :: ValidIdentity(id) && Pinned(s.log, id).Some? ==>
      ResultName(id) in s.files && s.files[ResultName(id)] == Pinned(s.log, id).value + "\n"
  }

  predicate StageFits(s: State) {
    match s.stage
    case Leased(id) => ValidIdentity(id)
    case Executing(id) => ValidIdentity(id) && ResultName(id) !in s.files
    case Storing(id, text) => ValidIdentity(id) && ResultName(id) !in s.files
    case Checking(id, text) => ValidIdentity(id) && ResultName(id) in s.files && s.files[ResultName(id)] == text + "\n"
    case Sent(id) => ValidIdentity(id)
    case CheckingFailure(id, _) => ValidIdentity(id)
    case FailureSent(id) => ValidIdentity(id)
    case Removing(id, _) => ValidIdentity(id) && s.log != [] && s.log[|s.log| - 1] == Accepted(id)
    case _ => true
  }

  ghost predicate Sound(s: State) {
    && RespectsPins(s.log) && RemovalsJustified(s.log) && WellStored(s.files) && PinsStored(s) && StageFits(s)
    && (s.stage.Storing? ==> CanonicalFile(s.stage.text))
    && (forall q :: 0 <= q < |s.log| ==> ValidIdentity(s.log[q].id))
  }
}

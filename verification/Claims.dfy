/**
 One claim of the remote worker: a main thread that works and ends the claim, a heartbeat thread
 that keeps the lease, and an environment of clocks, cancellations and a stop event. Every
 interleaving is a sequence of events; Scout's replies are part of the events.
 */
module Claims {
  import opened Outcomes

  /** The fields the two threads share. */
  datatype Supervisor = Supervisor(
    sequence: nat, leaseExpiresAt: int, cancelled: bool, failure: Option<Failure>, done: bool)

  /** What a failed heartbeat leaves behind: a bounded remote error, or any other exception. */
  datatype Failure = RemoteFailure | OsFailure | OtherFailure

  /** A raised exception as the claim's handlers tell them apart. */
  datatype Raised =
    | Cancelled(confirmed: bool) | Remote | Os | Atlas(osCause: bool, code: string) | Unexpected

  datatype Reply = Lease(expiresAt: int, cancelled: bool) | Refused(failure: Failure)

  datatype Message = Heartbeat(number: nat) | Complete(digest: string) | Fail(code: string)

  /** Where the heartbeat thread stands: its loop test, its wait, past the wait, or awaiting a reply. */
  datatype Beat = NotStarted | LoopTop | Waiting | Due | Sending | Ended

  /** What a check is for: going on, completing with a digest, or failing with a code. */
  datatype Purpose = GoOn | ToComplete(digest: string) | ToFail(code: string)

  /** The values the last check saw and accepted. */
  datatype Seen = Seen(leaseExpiresAt: int, utc: int, mono: int)

  datatype Main =
    | Starting
    | Working
    | CheckStop(why: Purpose)
    | CheckFlags(why: Purpose)
    | CheckDeadline(why: Purpose, leaseSeen: int)
    | CheckLease(why: Purpose, leaseSeen: int, monoSeen: int)
    | Stopping(why: Purpose)
    | Joining(why: Purpose)
    | Terminal(why: Purpose, seen: Seen)
    | AwaitComplete
    | AfterComplete
    | AwaitFail
    | Finished

  /** `handling` is set once the claim's error handler has been entered. */
  datatype State = State(
    sup: Supervisor, beat: Beat, main: Main, handling: bool, utc: int, mono: int, stopEvent: bool, deadline: int,
    log: seq<Message>)

  datatype Event =
    | Tick(utc: int, elapsed: nat)
    | StopRequested
    | FirstHeartbeat(reply: Reply)
    | BeginCheck
    | WorkRaises(raised: Raised)
    | ResultReady(digest: string)
    | MainStep
    | JoinTimesOut
    | CompleteReply(refusal: Option<Raised>)
    | AfterRaises(raised: Raised)
    | Settled
    | BeatStep
    | WaitOver
    | BeatReply(reply: Reply)

  // ----- the supervisor's operations

  function Recorded(sup: Supervisor, failure: Failure): Supervisor {
    if sup.failure.None? then sup.(failure := Some(failure)) else sup
  }

  /** A heartbeat reply taken: the new lease and cancellation, or the exception that is raised. */
  function Taken(sup: Supervisor, reply: Reply, utc: int): (Supervisor, Option<Failure>) {
    match reply
    case Refused(failure) => (sup, Some(failure))
    case Lease(expiresAt, cancelled) =>
      (sup.(leaseExpiresAt := expiresAt, cancelled := cancelled),
       if !cancelled && expiresAt <= utc then Some(RemoteFailure) else None)
  }

  function RaisedBy(failure: Failure): Raised {
    match failure
    case RemoteFailure => Remote
    case OsFailure => Os
    case OtherFailure => Unexpected
  }

  /** `_ClaimSupervisor.check` on the values it reads, in the order it reads them. */
  function CheckOutcome(sup: Supervisor, deadline: int, stopEvent: bool, mono: int, utc: int): Option<Raised> {
    if stopEvent then Some(Cancelled(false))
    else if sup.cancelled then Some(Cancelled(true))
    else if sup.failure.Some? then Some(RaisedBy(sup.failure.value))
    else if mono >= deadline then Some(Remote)
    else if sup.leaseExpiresAt <= utc then Some(Remote)
    else None
  }

  /** The supervisor object itself, as one thread at a time uses it. */
  class ClaimSupervisor {
    var sequence: nat
    var leaseExpiresAt: int
    var cancelled: bool
    var failure: Option<Failure>
    var done: bool
    const deadline: int

    ghost function View(): Supervisor
      reads this
    {
      Supervisor(sequence, leaseExpiresAt, cancelled, failure, done)
    }

    constructor (lease: int, until: int)
      ensures View() == Supervisor(0, lease, false, None, false) && deadline == until
    {
      sequence, leaseExpiresAt, cancelled, failure, done, deadline := 0, lease, false, None, false, until;
    }

    method RecordFailure(error: Failure)
      modifies this`failure
      ensures View() == Recorded(old(View()), error)
    {
      if failure.None? {
        failure := Some(error);
      }
    }

    /** One heartbeat: the number it sends, and the exception its reply raises, if any. */
    method SendHeartbeat(reply: Reply, utc: int) returns (number: nat, raised: Option<Failure>)
      modifies this
      ensures number == old(sequence) + 1
      ensures (View(), raised) == Taken(old(View()).(sequence := number), reply, utc)
    {
      sequence := sequence + 1;
      number := sequence;
      match reply {
        case Refused(error) => raised := Some(error);
        case Lease(expiresAt, cancel) =>
          leaseExpiresAt, cancelled := expiresAt, cancel;
          raised := None;
          if !cancel && expiresAt <= utc {
            raised := Some(RemoteFailure);
          }
      }
    }

    method Check(stopEvent: bool, mono: int, utc: int) returns (raised: Option<Raised>)
      ensures raised == CheckOutcome(View(), deadline, stopEvent, mono, utc)
    {
      if stopEvent {
        return Some(Cancelled(false));
      }
      if cancelled {
        return Some(Cancelled(true));
      }
      if failure.Some? {
        return Some(RaisedBy(failure.value));
      }
      if mono >= deadline || leaseExpiresAt <= utc {
        return Some(Remote);
      }
      return None;
    }

    /** Setting `done` and joining: a thread that is still alive is recorded as stuck. */
    method Stop(threadAlive: bool)
      modifies this`done, this`failure
      ensures View() == if threadAlive then Recorded(old(View()).(done := true), RemoteFailure) else old(View()).(done := true)
    {
      done := true;
      if threadAlive {
        RecordFailure(RemoteFailure);
      }
    }
  }

  // ----- the main thread

  /** Where an exception takes the main thread: only a plain Atlas error goes on to fail the claim. */
  function Handled(s: State, raised: Raised): State {
    if s.handling then s.(main := Finished)
    else
      match raised
      case Atlas(false, code) => s.(main := Stopping(ToFail(code)), handling := true)
      case _ => s.(main := Finished, handling := true, sup := s.sup.(done := true))
  }

  function MainNext(s: State): Option<State> {
    match s.main
    case CheckStop(why) => Some(if s.stopEvent then Handled(s, Cancelled(false)) else s.(main := CheckFlags(why)))
    case CheckFlags(why) =>
      Some(
        if s.sup.cancelled then Handled(s, Cancelled(true))
        else if s.sup.failure.Some? then Handled(s, RaisedBy(s.sup.failure.value))
        else s.(main := CheckDeadline(why, s.sup.leaseExpiresAt)))
    case CheckDeadline(why, lease) =>
      Some(if s.mono >= s.deadline then Handled(s, Remote) else s.(main := CheckLease(why, lease, s.mono)))
    case CheckLease(why, lease, mono) =>
      Some(
        if lease <= s.utc then Handled(s, Remote)
        else if why.GoOn? then s.(main := Working)
        else s.(main := Terminal(why, Seen(lease, s.utc, mono))))
    case Stopping(why) => Some(s.(main := Joining(why), sup := s.sup.(done := true)))
    case Joining(why) => if s.beat == Ended || s.beat == NotStarted then Some(s.(main := CheckStop(why))) else None
    case Terminal(why, _) =>
      (match why
       case ToComplete(digest) => Some(s.(main := AwaitComplete, log := s.log + [Complete(digest)]))
       case ToFail(code) => Some(s.(main := AwaitFail, log := s.log + [Fail(code)]))
       case GoOn => None)
    case _ => None
  }

  // ----- the heartbeat thread

  function BeatNext(s: State): Option<State> {
    match s.beat
    case LoopTop =>
      Some(s.(beat := if s.sup.done || s.stopEvent || s.sup.cancelled then Ended else Waiting))
    case Waiting => if s.sup.done then Some(s.(beat := Ended)) else None
    case Due =>
      Some(
        if s.mono >= s.deadline then s.(beat := Ended, sup := Recorded(s.sup, RemoteFailure))
        else s.(beat := Sending, sup := s.sup.(sequence := s.sup.sequence + 1), log := s.log + [Heartbeat(s.sup.sequence + 1)]))
    case _ => None
  }

  function Next(s: State, e: Event): Option<State> {
    match e
    case Tick(utc, elapsed) => Some(s.(utc := utc, mono := s.mono + elapsed))
    case StopRequested => Some(s.(stopEvent := true))
    case FirstHeartbeat(reply) =>
      if s.main != Starting then None
      else
        var sent := s.(sup := s.sup.(sequence := s.sup.sequence + 1), log := s.log + [Heartbeat(s.sup.sequence + 1)]);
        var (sup, failure) := Taken(sent.sup, reply, s.utc);
        Some(
          match failure
          case Some(f) => Handled(sent.(sup := sup), RaisedBy(f))
          case None => sent.(sup := sup, main := Working, beat := LoopTop))
    case BeginCheck => if s.main == Working then Some(s.(main := CheckStop(GoOn))) else None
    case WorkRaises(raised) => if s.main == Working && !raised.Cancelled? then Some(Handled(s, raised)) else None
    case ResultReady(digest) => if s.main == Working then Some(s.(main := Stopping(ToComplete(digest)))) else None
    case MainStep => MainNext(s)
    case JoinTimesOut =>
      if s.main.Joining? && s.beat != Ended && s.beat != NotStarted
      then Some(s.(main := CheckStop(s.main.why), sup := Recorded(s.sup, RemoteFailure)))
      else None
    case CompleteReply(refusal) =>
      if s.main != AwaitComplete then None
      else (match refusal
            case None => Some(s.(main := AfterComplete))
            case Some(r) => if r.Atlas? || r.Cancelled? then None else Some(Handled(s, r)))
    case AfterRaises(raised) => if s.main == AfterComplete && !raised.Cancelled? then Some(Handled(s, raised)) else None
    case Settled => if s.main == AfterComplete || s.main == AwaitFail then Some(s.(main := Finished)) else None
    case BeatStep => BeatNext(s)
    case WaitOver => if s.beat == Waiting then Some(s.(beat := Due)) else None
    case BeatReply(reply) =>
      if s.beat != Sending then None
      else
        var (sup, failure) := Taken(s.sup, reply, s.utc);
        Some(
          match failure
          case Some(f) => s.(beat := Ended, sup := Recorded(sup, f))
          case None => s.(beat := LoopTop, sup := sup))
  }

  function Run(s: State, events: seq<Event>): Option<State> {
    if events == [] then Some(s)
    else match Run(s, events[..|events| - 1]) {
      case None => None
      case Some(t) => Next(t, events[|events| - 1])
    }
  }

  /** A claim as it was returned by Scout, before its first heartbeat. */
  function Claimed(lease: int, deadline: int, utc: int, mono: int): State {
    State(Supervisor(0, lease, false, None, false), NotStarted, Starting, false, utc, mono, false, deadline, [])
  }

  // ----- what the message log shows

  function Beats(log: seq<Message>): seq<nat> {
    if log == [] then []
    else Beats(log[..|log| - 1]) + (if log[|log| - 1].Heartbeat? then [log[|log| - 1].number] else [])
  }

  function Terminals(log: seq<Message>): seq<Message> {
    if log == [] then []
    else Terminals(log[..|log| - 1]) + (if log[|log| - 1].Heartbeat? then [] else [log[|log| - 1]])
  }

  function Counting(n: nat): (r: seq<nat>)
    ensures |r| == n && forall i :: 0 <= i < n ==> r[i] == i + 1
  {
    seq(n, i requires 0 <= i < n => i + 1)
  }

  lemma OneMoreMessage(log: seq<Message>, m: Message)
    ensures Beats(log + [m]) == Beats(log) + (if m.Heartbeat? then [m.number] else [])
    ensures Terminals(log + [m]) == Terminals(log) + (if m.Heartbeat? then [] else [m])
  {
    assert (log + [m])[..|log|] == log;
  }

  // ----- the invariant

  /** No heartbeat comes after a terminal message. */
  ghost predicate BeatsFirst(log: seq<Message>) {
    forall i, j :: 0 <= i < j < |log| && log[j].Heartbeat? ==> log[i].Heartbeat?
  }

  predicate Ending(m: Main) {
    m.Terminal? || m == AwaitComplete || m == AfterComplete || m == AwaitFail
  }

  /** Past the join of a stop, the check on the way to a terminal message. */
  predicate Closing(m: Main) {
    (m.CheckStop? || m.CheckFlags? || m.CheckDeadline? || m.CheckLease?) && !m.why.GoOn?
  }

  /** The thread has ended, or has been found stuck, which the check then reports. */
  predicate Quiet(s: State) {
    s.beat == Ended || s.sup.failure.Some?
  }

  ghost predicate Safe(s: State) {
    && Beats(s.log) == Counting(s.sup.sequence)
    && BeatsFirst(s.log)
    && (s.main == Starting ==> s.beat == NotStarted && s.sup == Supervisor(0, s.sup.leaseExpiresAt, false, None, false) && s.log == [])
    && (s.beat == NotStarted ==> s.main == Starting || s.main == Finished)
    && (s.sup.cancelled ==> s.beat == LoopTop || s.beat == Ended || s.beat == NotStarted)
    && (Closing(s.main) ==> Quiet(s))
    && ((s.main.CheckDeadline? || s.main.CheckLease?) && !s.main.why.GoOn? ==> Clear(s) && s.main.leaseSeen == s.sup.leaseExpiresAt)
    && (s.main.CheckLease? ==> s.main.monoSeen < s.deadline)
    && (Ending(s.main) ==> Clear(s))
    && (Terminals(s.log) != [] ==> Clear(s))
    && (s.main.Terminal? ==> Passed(s, s.main.seen) && !s.main.why.GoOn?)
    && (!s.handling && !(s.main == AwaitComplete || s.main == AfterComplete || s.main == Finished) ==> Terminals(s.log) == [])
    && (s.main == AwaitComplete || s.main == AfterComplete ==> !s.handling && |Terminals(s.log)| == 1)
    && (s.main == Working || s.main == Starting ==> !s.handling)
    && PurposeMatches(s)
    && |Terminals(s.log)| <= 2
  }

  /** The heartbeat thread is over and left neither a cancellation nor a failure. */
  predicate Clear(s: State) {
    s.beat == Ended && !s.sup.cancelled && s.sup.failure.None?
  }

  /** The check saw a lease that had not expired and a deadline that had not passed. */
  predicate Passed(s: State, seen: Seen) {
    seen.leaseExpiresAt == s.sup.leaseExpiresAt && seen.leaseExpiresAt > seen.utc && seen.mono < s.deadline
  }

  function WhyOf(m: Main): Option<Purpose> {
    if m.CheckStop? || m.CheckFlags? || m.CheckDeadline? || m.CheckLease? || m.Stopping? || m.Joining? || m.Terminal?
    then Some(m.why)
    else None
  }

  /** Failing is only done by the handler, completing only before it; at most one completion precedes. */
  predicate PurposeMatches(s: State) {
    match WhyOf(s.main)
    case Some(ToFail(_)) => s.handling && |Terminals(s.log)| <= 1
    case Some(ToComplete(_)) => !s.handling
    case Some(GoOn) => !s.handling
    case None => true
  }

  lemma {:induction false} NoTerminals(log: seq<Message>)
    ensures Terminals(log) == [] <==> forall i :: 0 <= i < |log| ==> log[i].Heartbeat?
  {
    if log != [] {
      NoTerminals(log[..|log| - 1]);
    }
  }

  lemma OneMoreBeat(log: seq<Message>, n: nat)
    requires Beats(log) == Counting(n) && Terminals(log) == []
    ensures Beats(log + [Heartbeat(n + 1)]) == Counting(n + 1) && Terminals(log + [Heartbeat(n + 1)]) == []
    ensures BeatsFirst(log + [Heartbeat(n + 1)])
  {
    OneMoreMessage(log, Heartbeat(n + 1));
    NoTerminals(log);
  }

  lemma HandledKeepsSafe(s: State, raised: Raised)
    requires Safe(s) && !s.main.Starting? && !Ending(s.main) && s.main != Finished
    ensures Safe(Handled(s, raised))
  {
    hide Beats, Terminals, Counting, BeatsFirst;
  }

  lemma MainKeepsSafe(s: State)
    requires Safe(s) && !s.main.Terminal? && MainNext(s).Some?
    ensures Safe(MainNext(s).value)
  {
    hide Beats, Terminals, Counting, BeatsFirst, Handled;
    if s.main.CheckStop? || s.main.CheckFlags? || s.main.CheckDeadline? || s.main.CheckLease? {
      forall raised {
        HandledKeepsSafe(s, raised);
      }
    }
  }

  lemma TerminalKeepsSafe(s: State)
    requires Safe(s) && s.main.Terminal? && MainNext(s).Some?
    ensures Safe(MainNext(s).value)
  {
    hide Beats, Terminals, Counting;
    OneMoreMessage(s.log, if s.main.why.ToComplete? then Complete(s.main.why.digest) else Fail(s.main.why.code));
  }

  lemma BeatKeepsSafe(s: State)
    requires Safe(s) && BeatNext(s).Some?
    ensures Safe(BeatNext(s).value)
  {
    hide Beats, Terminals, Counting, BeatsFirst;
    if s.beat == Due {
      OneMoreBeat(s.log, s.sup.sequence);
    }
  }

  lemma FirstKeepsSafe(s: State, reply: Reply)
    requires Safe(s) && s.main == Starting
    ensures Safe(Next(s, FirstHeartbeat(reply)).value)
  {
    hide Beats, Terminals, Counting, BeatsFirst;
    assert Terminals([]) == [] by { NoTerminals([]); }
    OneMoreBeat(s.log, s.sup.sequence);
  }

  lemma ReplyKeepsSafe(s: State, e: Event)
    requires Safe(s) && (e.BeatReply? || e.CompleteReply? || e.AfterRaises?) && Next(s, e).Some?
    ensures Safe(Next(s, e).value)
  {
    hide Beats, Terminals, Counting, BeatsFirst;
  }

  /** Every event of any thread or of the environment keeps the invariant. */
  lemma NextKeepsSafe(s: State, e: Event)
    requires Safe(s) && Next(s, e).Some?
    ensures Safe(Next(s, e).value)
  {
    hide Beats, Terminals, Counting, BeatsFirst, MainNext, BeatNext, Handled;
    match e {
      case FirstHeartbeat(reply) => FirstKeepsSafe(s, reply);
      case MainStep =>
        if s.main.Terminal? {
          TerminalKeepsSafe(s);
        } else {
          MainKeepsSafe(s);
        }
      case BeatStep => BeatKeepsSafe(s);
      case WorkRaises(raised) => HandledKeepsSafe(s, raised);
      case BeatReply(_) => ReplyKeepsSafe(s, e);
      case CompleteReply(_) => ReplyKeepsSafe(s, e);
      case AfterRaises(_) => ReplyKeepsSafe(s, e);
      case _ =>
    }
  }

  // ----- every run

  lemma {:induction false} RunKeepsSafe(s: State, events: seq<Event>)
    requires Safe(s) && Run(s, events).Some?
    ensures Safe(Run(s, events).value)
  {
    hide Safe, Next;
    if events != [] {
      RunKeepsSafe(s, events[..|events| - 1]);
      NextKeepsSafe(Run(s, events[..|events| - 1]).value, events[|events| - 1]);
    }
  }

  lemma ClaimedIsSafe(lease: int, deadline: int, utc: int, mono: int)
    ensures Safe(Claimed(lease, deadline, utc, mono))
  {
    assert Counting(0) == [];
  }

  /** Heartbeats are numbered 1, 2, 3, ... and none comes after a terminal message. */
  lemma HeartbeatsAreNumbered(lease: int, deadline: int, utc: int, mono: int, events: seq<Event>)
    requires Run(Claimed(lease, deadline, utc, mono), events).Some?
    ensures var t := Run(Claimed(lease, deadline, utc, mono), events).value;
      Beats(t.log) == Counting(t.sup.sequence) && BeatsFirst(t.log)
  {
    ClaimedIsSafe(lease, deadline, utc, mono);
    RunKeepsSafe(Claimed(lease, deadline, utc, mono), events);
  }

  /**
   A terminal message is only ever sent after the heartbeat thread has ended, having seen neither a
   cancellation nor a failure, and after a check that saw a live lease and time left.
   */
  lemma TerminalsAreSupervised(lease: int, deadline: int, utc: int, mono: int, events: seq<Event>, e: Event)
    requires Run(Claimed(lease, deadline, utc, mono), events + [e]).Some?
    ensures var before := Run(Claimed(lease, deadline, utc, mono), events);
      && before.Some? && Run(Claimed(lease, deadline, utc, mono), events + [e]) == Next(before.value, e)
      && var s, t := before.value, Next(before.value, e).value;
      Terminals(t.log) != Terminals(s.log) ==>
        && s.main.Terminal? && t.log == s.log + [if s.main.why.ToComplete? then Complete(s.main.why.digest) else Fail(s.main.why.code)]
        && s.beat == Ended && !s.sup.cancelled && s.sup.failure.None?
        && s.main.seen.utc < s.sup.leaseExpiresAt && s.main.seen.mono < s.deadline
  {
    var start := Claimed(lease, deadline, utc, mono);
    hide Next, Safe, Terminals;
    assert (events + [e])[..|events|] == events;
    ClaimedIsSafe(lease, deadline, utc, mono);
    RunKeepsSafe(start, events);
    var s := Run(start, events).value;
    if Terminals(Next(s, e).value.log) != Terminals(s.log) {
      OnlyTerminalSends(s, e);
    }
  }

  lemma OnlyTerminalSends(s: State, e: Event)
    requires Safe(s) && Next(s, e).Some? && Terminals(Next(s, e).value.log) != Terminals(s.log)
    ensures s.main.Terminal? && !s.main.why.GoOn?
    ensures Next(s, e).value.log == s.log + [if s.main.why.ToComplete? then Complete(s.main.why.digest) else Fail(s.main.why.code)]
    ensures s.beat == Ended && !s.sup.cancelled && s.sup.failure.None?
    ensures s.main.seen.utc < s.sup.leaseExpiresAt && s.main.seen.mono < s.deadline
  {
    hide Terminals, Beats, BeatsFirst;
    OneMoreMessage(s.log, Heartbeat(s.sup.sequence + 1));
  }

  // ----- cancellations and failures are final

  lemma CancellationSticks(s: State, e: Event)
    requires Safe(s) && Next(s, e).Some?
    ensures s.sup.cancelled ==> Next(s, e).value.sup.cancelled
    ensures s.sup.failure.Some? ==> Next(s, e).value.sup.failure.Some?
  {
    hide Terminals, Beats, BeatsFirst, Counting;
  }

  lemma {:induction false} CancelledStaysCancelled(s: State, events: seq<Event>)
    requires Safe(s) && Run(s, events).Some? && (s.sup.cancelled || s.sup.failure.Some?)
    ensures Run(s, events).value.sup.cancelled || Run(s, events).value.sup.failure.Some?
  {
    hide Next, Safe;
    if events != [] {
      var front := events[..|events| - 1];
      CancelledStaysCancelled(s, front);
      RunKeepsSafe(s, front);
      CancellationSticks(Run(s, front).value, events[|events| - 1]);
    }
  }

  /** Once a reply has cancelled the claim or the thread has failed, no terminal message is ever sent. */
  lemma CancellationIsFinal(s: State, events: seq<Event>)
    requires Safe(s) && Run(s, events).Some? && (s.sup.cancelled || s.sup.failure.Some?)
    ensures Terminals(s.log) == [] && Terminals(Run(s, events).value.log) == []
  {
    hide Next, Beats, Terminals, BeatsFirst;
    CancelledStaysCancelled(s, events);
    RunKeepsSafe(s, events);
  }

  // ----- an ambiguous acknowledgement is final

  lemma FinishedStays(s: State, e: Event)
    requires s.main == Finished && Next(s, e).Some?
    ensures Next(s, e).value.main == Finished && Terminals(Next(s, e).value.log) == Terminals(s.log)
  {
    hide Terminals;
    OneMoreMessage(s.log, Heartbeat(s.sup.sequence + 1));
  }

  lemma {:induction false} FinishedSendsNothing(s: State, events: seq<Event>)
    requires s.main == Finished && Run(s, events).Some?
    ensures Run(s, events).value.main == Finished && Terminals(Run(s, events).value.log) == Terminals(s.log)
  {
    hide Next, Terminals;
    if events != [] {
      FinishedSendsNothing(s, events[..|events| - 1]);
      FinishedStays(Run(s, events[..|events| - 1]).value, events[|events| - 1]);
    }
  }

  /** A completion whose acknowledgement is refused or ambiguous never becomes a second decision. */
  lemma AmbiguityIsFinal(s: State, refusal: Raised, events: seq<Event>)
    requires Safe(s) && s.main == AwaitComplete && Next(s, CompleteReply(Some(refusal))).Some?
    requires Run(Next(s, CompleteReply(Some(refusal))).value, events).Some?
    ensures |Terminals(s.log)| == 1
    ensures Terminals(Run(Next(s, CompleteReply(Some(refusal))).value, events).value.log) == Terminals(s.log)
  {
    hide Terminals, Run;
    FinishedSendsNothing(Next(s, CompleteReply(Some(refusal))).value, events);
  }

  // ----- at most one terminal message, and exactly when there are two

  /** After an accepted completion, a status write fails without an operating-system cause. */
  ghost predicate LateError(s: State, events: seq<Event>, k: nat) {
    && k < |events| && Run(s, events[..k]).Some?
    && Run(s, events[..k]).value.main == AfterComplete
    && events[k].AfterRaises? && events[k].raised.Atlas? && !events[k].raised.osCause
  }

  ghost predicate AnyLateError(s: State, events: seq<Event>) {
    exists k :: LateError(s, events, k)
  }

  predicate HeadsForSecond(s: State) {
    |Terminals(s.log)| == 2 || (|Terminals(s.log)| == 1 && WhyOf(s.main).Some? && WhyOf(s.main).value.ToFail?)
  }

  lemma SecondStep(s: State, e: Event)
    requires Safe(s) && Next(s, e).Some? && HeadsForSecond(Next(s, e).value)
    ensures HeadsForSecond(s) || (s.main == AfterComplete && e.AfterRaises? && e.raised.Atlas? && !e.raised.osCause)
  {
    hide Beats, Terminals, BeatsFirst, Counting;
    OneMoreMessage(s.log, Heartbeat(s.sup.sequence + 1));
    if s.main.Terminal? && !s.main.why.GoOn? {
      OneMoreMessage(s.log, if s.main.why.ToComplete? then Complete(s.main.why.digest) else Fail(s.main.why.code));
    }
  }

  lemma {:induction false} SecondNeedsLateError(s: State, events: seq<Event>)
    requires Safe(s) && s.main == Starting && Run(s, events).Some? && HeadsForSecond(Run(s, events).value)
    ensures AnyLateError(s, events)
  {
    hide Next, Safe, HeadsForSecond;
    if events == [] {
      StartHeadsNowhere(s);
    } else {
      var n := |events| - 1;
      var front := events[..n];
      RunKeepsSafe(s, front);
      SecondStep(Run(s, front).value, events[n]);
      if HeadsForSecond(Run(s, front).value) {
        SecondNeedsLateError(s, front);
        var k: nat :| LateError(s, front, k);
        assert front[..k] == events[..k];
        assert LateError(s, events, k);
      } else {
        assert LateError(s, events, n);
      }
    }
  }

  lemma StartHeadsNowhere(s: State)
    requires Safe(s) && s.main == Starting
    ensures !HeadsForSecond(s)
  {
  }

  /** A claim sends at most one terminal message unless a status write fails late without an OS cause. */
  lemma AtMostOneTerminal(lease: int, deadline: int, utc: int, mono: int, events: seq<Event>)
    requires Run(Claimed(lease, deadline, utc, mono), events).Some?
    ensures var s := Claimed(lease, deadline, utc, mono);
      |Terminals(Run(s, events).value.log)| <= 2
      && (|Terminals(Run(s, events).value.log)| == 2 ==> AnyLateError(s, events))
  {
    hide Next, LateError;
    var s := Claimed(lease, deadline, utc, mono);
    ClaimedIsSafe(lease, deadline, utc, mono);
    RunKeepsSafe(s, events);
    if |Terminals(Run(s, events).value.log)| == 2 {
      SecondNeedsLateError(s, events);
    }
  }

  /** The main thread alone for n steps. */
  function MainSteps(s: State, n: nat): Option<State>
    decreases n
  {
    if n == 0 then Some(s)
    else match MainNext(s) {
      case None => None
      case Some(t) => MainSteps(t, n - 1)
    }
  }

  lemma OneMainStep(s: State, n: nat)
    requires n > 0
    ensures MainNext(s).Some? ==> MainSteps(s, n) == MainSteps(MainNext(s).value, n - 1)
    ensures MainNext(s).None? ==> MainSteps(s, n) == None
  {
  }

  /**
   And then the second message does go out, exactly when the stop event is clear, the lease is live
   and the deadline has not passed at that moment: an accepted claim is also reported as failed.
   */
  lemma LateErrorFailsAcceptedClaim(s: State, code: string)
    requires Safe(s) && s.main == AfterComplete
    ensures var t := Next(s, AfterRaises(Atlas(false, code))).value;
      MainSteps(t, 7).Some? <==> !s.stopEvent && s.mono < s.deadline && s.utc < s.sup.leaseExpiresAt
    ensures var t := Next(s, AfterRaises(Atlas(false, code))).value;
      MainSteps(t, 7).Some? ==> MainSteps(t, 7).value.log == s.log + [Fail(code)]
  {
    hide Beats, Terminals, BeatsFirst, Counting, MainSteps, MainNext;
    var t := Next(s, AfterRaises(Atlas(false, code))).value;
    var checking := s.(main := CheckStop(ToFail(code)), handling := true, sup := s.sup.(done := true));
    assert MainNext(t) == Some(t.(main := Joining(ToFail(code)), sup := checking.sup)) by { StepOf(t); }
    assert MainNext(MainNext(t).value) == Some(checking) by { StepOf(MainNext(t).value); }
    OneMainStep(t, 7);
    OneMainStep(MainNext(t).value, 6);
    CheckThenSend(checking, ToFail(code));
  }

  lemma StepOf(s: State)
    ensures s.main.Stopping? ==> MainNext(s) == Some(s.(main := Joining(s.main.why), sup := s.sup.(done := true)))
    ensures s.main.Joining? && s.beat == Ended ==> MainNext(s) == Some(s.(main := CheckStop(s.main.why)))
  {
  }

  /** From the check on, with nothing interleaved, the message goes out exactly when the check passes. */
  lemma CheckThenSend(s: State, why: Purpose)
    requires s.main == CheckStop(why) && !why.GoOn? && Clear(s)
    ensures MainSteps(s, 5).Some? <==> CheckOutcome(s.sup, s.deadline, s.stopEvent, s.mono, s.utc).None?
    ensures MainSteps(s, 5).Some? ==> MainSteps(s, 5).value == Sent(s, why)
  {
    hide MainSteps;
    OneMainStep(s, 5);
    if !s.stopEvent {
      OneMainStep(s.(main := CheckFlags(why)), 4);
      var time := s.(main := CheckDeadline(why, s.sup.leaseExpiresAt));
      OneMainStep(time, 3);
      if s.mono < s.deadline {
        var lease := s.(main := CheckLease(why, s.sup.leaseExpiresAt, s.mono));
        OneMainStep(lease, 2);
        if s.utc < s.sup.leaseExpiresAt {
          var ready := s.(main := Terminal(why, Seen(s.sup.leaseExpiresAt, s.utc, s.mono)));
          OneMainStep(ready, 1);
          DoneAt(MainNext(ready).value);
        } else {
          OneMainStep(MainNext(lease).value, 1);
        }
      } else {
        OneMainStep(MainNext(time).value, 2);
      }
    } else {
      OneMainStep(MainNext(s).value, 4);
    }
  }

  /** The state once the terminal message of this purpose has been sent. */
  function Sent(s: State, why: Purpose): State {
    match why
    case ToComplete(digest) => s.(main := AwaitComplete, log := s.log + [Complete(digest)])
    case ToFail(code) => s.(main := AwaitFail, log := s.log + [Fail(code)])
    case GoOn => s
  }

  lemma DoneAt(s: State)
    ensures MainSteps(s, 0) == Some(s)
  {
  }

  lemma RunStep(s: State, events: seq<Event>, e: Event)
    requires Run(s, events).Some?
    ensures Run(s, events + [e]) == Next(Run(s, events).value, e)
  {
    assert (events + [e])[..|events|] == events;
  }

  lemma {:induction false} MainStepsRun(s: State, events: seq<Event>, n: nat) returns (more: seq<Event>)
    requires Run(s, events).Some? && MainSteps(Run(s, events).value, n).Some?
    ensures Run(s, more) == MainSteps(Run(s, events).value, n)
    decreases n
  {
    hide MainNext;
    more := events;
    if n > 0 {
      RunStep(s, events, MainStep);
      more := MainStepsRun(s, events + [MainStep], n - 1);
    }
  }

  /** A claim whose first heartbeat was answered, with its result ready and its thread ended. */
  function ReadyToComplete(digest: string): State {
    State(Supervisor(1, 100, false, None, true), Ended, CheckStop(ToComplete(digest)), false, 0, 0, false, 100, [Heartbeat(1)])
  }

  lemma ReachesCompletion(digest: string) returns (events: seq<Event>)
    ensures Run(Claimed(100, 100, 0, 0), events) == Some(ReadyToComplete(digest))
  {
    hide Run;
    var s := Claimed(100, 100, 0, 0);
    assert Run(s, []) == Some(s) by { RunNothing(s); }
    RunStep(s, [], FirstHeartbeat(Lease(100, false)));
    events := [] + [FirstHeartbeat(Lease(100, false))];
    assert s.log + [Heartbeat(1)] == [Heartbeat(1)];
    RunStep(s, events, ResultReady(digest));
    events := events + [ResultReady(digest)];
    RunStep(s, events, MainStep);
    events := events + [MainStep];
    RunStep(s, events, BeatStep);
    events := events + [BeatStep];
    RunStep(s, events, MainStep);
    events := events + [MainStep];
  }

  /** Such a run exists: the log of an accepted claim can hold a completion and then a failure. */
  lemma AcceptedThenFailed(digest: string, code: string) returns (events: seq<Event>)
    ensures var t := Run(Claimed(100, 100, 0, 0), events);
      t.Some? && t.value.log == [Heartbeat(1), Complete(digest), Fail(code)]
  {
    hide Run, Beats, Terminals, Counting, Safe, MainSteps;
    var s, ready := Claimed(100, 100, 0, 0), ReadyToComplete(digest);
    events := ReachesCompletion(digest);
    CheckThenSend(ready, ToComplete(digest));
    events := MainStepsRun(s, events, 5);
    RunStep(s, events, CompleteReply(None));
    events := events + [CompleteReply(None)];
    var accepted := ready.(main := AfterComplete, log := [Heartbeat(1), Complete(digest)]);
    assert ready.log + [Complete(digest)] == accepted.log;
    assert Run(s, events) == Some(accepted);
    RunStep(s, events, AfterRaises(Atlas(false, code)));
    events := events + [AfterRaises(Atlas(false, code))];
    AcceptedIsSafe(accepted, digest);
    LateErrorFailsAcceptedClaim(accepted, code);
    events := MainStepsRun(s, events, 7);
    assert accepted.log + [Fail(code)] == [Heartbeat(1), Complete(digest), Fail(code)];
  }

  lemma RunNothing(s: State)
    ensures Run(s, []) == Some(s)
  {
  }

  lemma AcceptedIsSafe(s: State, digest: string)
    requires s == State(Supervisor(1, 100, false, None, true), Ended, AfterComplete, false, 0, 0, false, 100, [Heartbeat(1), Complete(digest)])
    ensures Safe(s)
  {
    hide Beats, Terminals;
    assert Beats([]) == [] && Terminals([]) == [] by { EmptyLog(); }
    OneMoreMessage([], Heartbeat(1));
    OneMoreMessage([Heartbeat(1)], Complete(digest));
    assert [] + [Heartbeat(1)] == [Heartbeat(1)] && [Heartbeat(1)] + [Complete(digest)] == [Heartbeat(1), Complete(digest)];
  }

  lemma EmptyLog()
    ensures Beats([]) == [] && Terminals([]) == []
  {
  }
}

/**
 What a claim's supervisor holds after any run: the lease and the cancellation of the last answered
 heartbeat, the first failure, and how the heartbeat thread and the errors of the work end.
 */
module ClaimLaws {
  import opened Claims
  import opened Outcomes

  // ----- the last answer

  /** What the last answered heartbeat said: its lease and whether it cancelled the claim. */
  datatype Answer = Answer(lease: int, cancelled: bool)

  function ReplyIn(e: Event): Option<Reply> {
    match e
    case FirstHeartbeat(reply) => Some(reply)
    case BeatReply(reply) => Some(reply)
    case _ => None
  }

  /** The last answer among the events; before the first one, the claim's own lease. */
  function LastAnswer(lease: int, events: seq<Event>): Answer {
    if events == [] then Answer(lease, false)
    else
      var last := ReplyIn(events[|events| - 1]);
      if last.Some? && last.value.Lease? then Answer(last.value.expiresAt, last.value.cancelled)
      else LastAnswer(lease, events[..|events| - 1])
  }

  lemma NextTakesAnswer(s: State, e: Event)
    requires Next(s, e).Some?
    ensures var sup := Next(s, e).value.sup;
      match ReplyIn(e) {
        case Some(Lease(expiresAt, cancelled)) => sup.leaseExpiresAt == expiresAt && sup.cancelled == cancelled
        case _ => sup.leaseExpiresAt == s.sup.leaseExpiresAt && sup.cancelled == s.sup.cancelled
      }
  {
  }

  /** After every run the supervisor holds the lease and the cancellation of the last answer. */
  lemma {:induction false} LeaseIsLastAnswered(lease: int, deadline: int, utc: int, mono: int, events: seq<Event>)
    requires Run(Claimed(lease, deadline, utc, mono), events).Some?
    ensures var sup := Run(Claimed(lease, deadline, utc, mono), events).value.sup;
      Answer(sup.leaseExpiresAt, sup.cancelled) == LastAnswer(lease, events)
  {
    hide Next;
    if events != [] {
      var front := events[..|events| - 1];
      LeaseIsLastAnswered(lease, deadline, utc, mono, front);
      NextTakesAnswer(Run(Claimed(lease, deadline, utc, mono), front).value, events[|events| - 1]);
    }
  }

  /** A terminal message goes out only under a lease, granted by the last answer, that a check saw alive. */
  lemma TerminalsHoldTheLastLease(lease: int, deadline: int, utc: int, mono: int, events: seq<Event>, e: Event)
    requires Run(Claimed(lease, deadline, utc, mono), events + [e]).Some?
    requires Run(Claimed(lease, deadline, utc, mono), events).Some?
    ensures var s, t := Run(Claimed(lease, deadline, utc, mono), events).value, Run(Claimed(lease, deadline, utc, mono), events + [e]).value;
      Terminals(t.log) != Terminals(s.log) ==>
        && s.main.Terminal? && s.main.seen.utc < LastAnswer(lease, events).lease && !LastAnswer(lease, events).cancelled
        && s.main.seen.mono < deadline && s.beat == Ended && s.sup.failure.None?
  {
    hide Next, Terminals;
    TerminalsAreSupervised(lease, deadline, utc, mono, events, e);
    LeaseIsLastAnswered(lease, deadline, utc, mono, events);
    DeadlineStays(Claimed(lease, deadline, utc, mono), events);
  }

  lemma {:induction false} DeadlineStays(s: State, events: seq<Event>)
    requires Run(s, events).Some?
    ensures Run(s, events).value.deadline == s.deadline
  {
    if events != [] {
      DeadlineStays(s, events[..|events| - 1]);
    }
  }

  /** From any state of a run with the thread ended, an undisturbed check passes exactly under a live last lease. */
  lemma CheckFollowsTheLastAnswer(lease: int, deadline: int, utc: int, mono: int, events: seq<Event>, why: Purpose)
    requires Run(Claimed(lease, deadline, utc, mono), events).Some? && !why.GoOn?
    requires var s := Run(Claimed(lease, deadline, utc, mono), events).value; s.main == CheckStop(why) && Clear(s)
    ensures var s := Run(Claimed(lease, deadline, utc, mono), events).value;
      MainSteps(s, 5).Some? <==> !s.stopEvent && s.mono < deadline && s.utc < LastAnswer(lease, events).lease
  {
    hide Next, MainSteps;
    var s := Run(Claimed(lease, deadline, utc, mono), events).value;
    LeaseIsLastAnswered(lease, deadline, utc, mono, events);
    DeadlineStays(Claimed(lease, deadline, utc, mono), events);
    CheckThenSend(s, why);
  }

  // ----- the first failure

  lemma NextKeepsFailure(s: State, e: Event)
    requires Next(s, e).Some? && s.sup.failure.Some?
    ensures Next(s, e).value.sup.failure == s.sup.failure
  {
  }

  /** A recorded failure is never replaced by a later one. */
  lemma {:induction false} FirstFailureStays(s: State, events: seq<Event>)
    requires Run(s, events).Some? && s.sup.failure.Some?
    ensures Run(s, events).value.sup.failure == s.sup.failure
  {
    hide Next;
    if events != [] {
      var front := events[..|events| - 1];
      FirstFailureStays(s, front);
      NextKeepsFailure(Run(s, front).value, events[|events| - 1]);
    }
  }

  /** The order in which a check objects, and what it raises for each recorded failure. */
  lemma CheckObjectsInOrder(sup: Supervisor, deadline: int, stopEvent: bool, mono: int, utc: int)
    ensures var out := CheckOutcome(sup, deadline, stopEvent, mono, utc);
      && (out == Some(Cancelled(false)) <==> stopEvent)
      && (out == Some(Cancelled(true)) <==> !stopEvent && sup.cancelled)
      && (out == Some(Os) <==> !stopEvent && !sup.cancelled && sup.failure == Some(OsFailure))
      && (out == Some(Unexpected) <==> !stopEvent && !sup.cancelled && sup.failure == Some(OtherFailure))
      && (out == Some(Remote) <==>
          !stopEvent && !sup.cancelled
          && (sup.failure == Some(RemoteFailure) || (sup.failure.None? && (mono >= deadline || utc >= sup.leaseExpiresAt))))
      && (out == None <==> !stopEvent && !sup.cancelled && sup.failure.None? && mono < deadline && utc < sup.leaseExpiresAt)
  {
  }

  // ----- how the heartbeat thread ends

  /** Any step of the heartbeat thread that sends comes before the deadline and sends the next number. */
  lemma BeatsComeBeforeTheDeadline(s: State, e: Event)
    requires (e == BeatStep || e == WaitOver || e.BeatReply?) && Next(s, e).Some? && Next(s, e).value.log != s.log
    ensures e == BeatStep && s.beat == Due && s.mono < s.deadline
    ensures Next(s, e).value.log == s.log + [Heartbeat(s.sup.sequence + 1)]
    ensures Next(s, e).value.beat == Sending && Next(s, e).value.sup.sequence == s.sup.sequence + 1
  {
  }

  /** A thread told to stop, cancelled or out of time ends without another heartbeat. */
  lemma ThreadEndsItself(s: State)
    ensures s.beat == LoopTop && (s.sup.done || s.stopEvent || s.sup.cancelled) ==> Next(s, BeatStep) == Some(s.(beat := Ended))
    ensures s.beat == LoopTop && !s.sup.done && !s.stopEvent && !s.sup.cancelled ==> Next(s, BeatStep) == Some(s.(beat := Waiting))
    ensures s.beat == Waiting && s.sup.done ==> Next(s, BeatStep) == Some(s.(beat := Ended))
    ensures s.beat == Waiting ==> Next(s, WaitOver) == Some(s.(beat := Due))
    ensures s.beat == Due && s.mono >= s.deadline && s.sup.failure.None? ==>
      Next(s, BeatStep) == Some(s.(beat := Ended, sup := s.sup.(failure := Some(RemoteFailure))))
  {
  }

  /** What each answer does to the thread: a live lease or a cancellation goes on, all else ends it as a failure. */
  lemma AnswersEndOrGoOn(s: State, reply: Reply)
    requires s.beat == Sending && s.sup.failure.None?
    ensures var t := Next(s, BeatReply(reply)).value;
      && Next(s, BeatReply(reply)).Some? && t.log == s.log && t.main == s.main
      && (t.beat == LoopTop <==> reply.Lease? && (reply.cancelled || s.utc < reply.expiresAt))
      && (t.beat == LoopTop <==> t.sup.failure.None?) && (t.beat == LoopTop || t.beat == Ended)
      && (reply.Lease? && !reply.cancelled && reply.expiresAt <= s.utc ==> t.sup.failure == Some(RemoteFailure))
      && (reply.Refused? ==> t.sup.failure == Some(reply.failure))
  {
  }

  // ----- how the work ends

  /**
   Of all that the work can raise only a plain Atlas error without an operating-system cause goes on to
   fail the claim; a first heartbeat that is refused or late does not. Everything else ends the run.
   */
  lemma OnlyPlainErrorsFailTheClaim(s: State, raised: Raised, reply: Reply)
    requires !s.handling && !raised.Cancelled?
    ensures s.main == Working ==>
      var t := Next(s, WorkRaises(raised));
      && t.Some? && t.value.log == s.log && t.value.handling
      && (t.value.main == Finished ==> t.value.sup.done)
      && (match raised
          case Atlas(osCause, code) => t.value.main == if osCause then Finished else Stopping(ToFail(code))
          case _ => t.value.main == Finished)
    ensures s.main == Starting ==>
      var t := Next(s, FirstHeartbeat(reply));
      && t.Some? && t.value.log == s.log + [Heartbeat(s.sup.sequence + 1)]
      && (t.value.main == Working <==> reply.Lease? && (reply.cancelled || s.utc < reply.expiresAt))
      && (t.value.main == Working || t.value.main == Finished)
  {
  }

  /** Which events can happen: the clocks and the stop event always, the rest where its thread stands. */
  lemma EventsHappenExactly(s: State, e: Event)
    ensures Next(s, e).Some? <==>
      match e {
        case Tick(_, _) => true
        case StopRequested => true
        case FirstHeartbeat(_) => s.main == Starting
        case BeginCheck => s.main == Working
        case WorkRaises(raised) => s.main == Working && !raised.Cancelled?
        case ResultReady(_) => s.main == Working
        case MainStep => MainNext(s).Some?
        case JoinTimesOut => s.main.Joining? && s.beat in {LoopTop, Waiting, Due, Sending}
        case CompleteReply(refusal) => s.main == AwaitComplete && (refusal.None? || !(refusal.value.Atlas? || refusal.value.Cancelled?))
        case AfterRaises(raised) => s.main == AfterComplete && !raised.Cancelled?
        case Settled => s.main == AfterComplete || s.main == AwaitFail
        case BeatStep => BeatNext(s).Some?
        case WaitOver => s.beat == Waiting
        case BeatReply(_) => s.beat == Sending
      }
  {
  }

  /** Time passes, a stop is requested, a check begins and a claim settles without touching anything else. */
  lemma QuietEvents(s: State, utc: int, elapsed: nat, digest: string)
    ensures Next(s, Tick(utc, elapsed)) == Some(s.(utc := utc, mono := s.mono + elapsed))
    ensures Next(s, StopRequested) == Some(s.(stopEvent := true))
    ensures s.main == Working ==> Next(s, BeginCheck) == Some(s.(main := CheckStop(GoOn)))
    ensures s.main == Working ==> Next(s, ResultReady(digest)) == Some(s.(main := Stopping(ToComplete(digest))))
    ensures s.main == AfterComplete || s.main == AwaitFail ==> Next(s, Settled) == Some(s.(main := Finished))
    ensures s.main == AwaitComplete ==> Next(s, CompleteReply(None)) == Some(s.(main := AfterComplete))
  {
  }

  /** A thread that does not end in time is a failure, and the claim then never sends a terminal message. */
  lemma StuckThreadSilencesTheClaim(s: State, events: seq<Event>)
    requires Safe(s) && s.main.Joining? && s.beat in {LoopTop, Waiting, Due, Sending} && s.sup.failure.None?
    requires Next(s, JoinTimesOut).Some? && Run(Next(s, JoinTimesOut).value, events).Some?
    ensures Next(s, JoinTimesOut) == Some(s.(main := CheckStop(s.main.why), sup := s.sup.(failure := Some(RemoteFailure))))
    ensures Terminals(Run(Next(s, JoinTimesOut).value, events).value.log) == []
  {
    hide Beats, Terminals, BeatsFirst, Run;
    NextKeepsSafe(s, JoinTimesOut);
    CancellationIsFinal(Next(s, JoinTimesOut).value, events);
  }

  // ----- what the messages carry

  /** The cause of a purpose: the digest of a ready result, or the code of an error that the work raised. */
  predicate Caused(why: Purpose, events: seq<Event>) {
    match why
    case GoOn => true
    case ToComplete(digest) => ResultReady(digest) in events
    case ToFail(code) => WorkRaises(Atlas(false, code)) in events || AfterRaises(Atlas(false, code)) in events
  }

  ghost predicate AllCaused(s: State, events: seq<Event>) {
    && (WhyOf(s.main).Some? ==> Caused(WhyOf(s.main).value, events))
    && (forall digest :: Complete(digest) in s.log ==> ResultReady(digest) in events)
    && (forall code :: Fail(code) in s.log ==>
        WorkRaises(Atlas(false, code)) in events || AfterRaises(Atlas(false, code)) in events)
  }

  /** A purpose is kept, or comes from a ready result or from an error that the work raised. */
  lemma PurposeComesFrom(s: State, e: Event)
    requires Next(s, e).Some?
    ensures match WhyOf(Next(s, e).value.main) {
      case Some(ToComplete(digest)) => WhyOf(s.main) == Some(ToComplete(digest)) || e == ResultReady(digest)
      case Some(ToFail(code)) =>
        WhyOf(s.main) == Some(ToFail(code)) || e == WorkRaises(Atlas(false, code)) || e == AfterRaises(Atlas(false, code))
      case _ => true
    }
  {
  }

  /** One step sends at most one message: a heartbeat, or what its purpose says. */
  lemma MessageComesFrom(s: State, e: Event)
    requires Next(s, e).Some?
    ensures var log := Next(s, e).value.log;
      || log == s.log
      || (exists n :: log == s.log + [Heartbeat(n)])
      || (exists digest :: log == s.log + [Complete(digest)] && WhyOf(s.main) == Some(ToComplete(digest)))
      || (exists code :: log == s.log + [Fail(code)] && WhyOf(s.main) == Some(ToFail(code)))
  {
    hide Taken, Recorded;
  }

  lemma NextCarriesCauses(s: State, events: seq<Event>, e: Event)
    requires AllCaused(s, events) && Next(s, e).Some?
    ensures AllCaused(Next(s, e).value, events + [e])
  {
    PurposeComesFrom(s, e);
    MessageComesFrom(s, e);
    hide Next, WhyOf;
    assert e in events + [e];
    forall before | before in events
      ensures before in events + [e]
    {
    }
  }

  lemma NothingToCause(s: State)
    requires s.main == Starting && s.log == []
    ensures AllCaused(s, [])
  {
  }

  /**
   Over every run a completion carries the digest of a result that became ready, and a failure the code of
   an Atlas error without an operating-system cause that the work raised.
   */
  lemma {:induction false} MessagesCarryCauses(lease: int, deadline: int, utc: int, mono: int, events: seq<Event>)
    requires Run(Claimed(lease, deadline, utc, mono), events).Some?
    ensures AllCaused(Run(Claimed(lease, deadline, utc, mono), events).value, events)
  {
    hide Next, AllCaused;
    if events == [] {
      NothingToCause(Claimed(lease, deadline, utc, mono));
    } else {
      var front := events[..|events| - 1];
      MessagesCarryCauses(lease, deadline, utc, mono, front);
      NextCarriesCauses(Run(Claimed(lease, deadline, utc, mono), front).value, front, events[|events| - 1]);
      assert events == front + [events[|events| - 1]];
    }
  }
}

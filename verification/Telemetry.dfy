/**
 Worker telemetry: the bounded parse of Scout's snapshot, the atomic replacement of the local
 projection, and the watermark that keeps the visible timestamp from ever going back. Times are
 microseconds.
 */
module Telemetry {
  import opened Outcomes

  const MAX_COUNTER: int := 9_007_199_254_740_991
  const MAX_HISTORY: nat := 120
  const FRESH: int := 30_000_000
  const MINUTE: int := 60_000_000
  const MAX_TELEMETRY_BYTES: nat := 262_144

  datatype Point = Point(at: int, processed: int, failed: int)

  datatype Snapshot = Snapshot(
    collectedAt: int, pending: int, inFlight: int, queueFailed: int, processed: int, failed: int, history: seq<Point>)

  datatype Refusal = NotFresh | CounterInvalid | TotalsInvalid | HistoryTooLong | HistoryInvalid | HistoryMismatch

  predicate Counter(n: int) {
    0 <= n <= MAX_COUNTER
  }

  function MinuteOf(t: int): int {
    t - t % MINUTE
  }

  predicate Fresh(collectedAt: int, now: int) {
    now - FRESH <= collectedAt <= now + FRESH
  }

  /** The values the history loop carries from one point to the next. */
  datatype Carried = Carried(at: Option<int>, processed: int, failed: int)

  predicate PointFollows(before: Carried, p: Point, s: Snapshot) {
    && Counter(p.processed) && Counter(p.failed) && p.at % MINUTE == 0
    && (before.at.Some? ==> p.at > before.at.value)
    && p.at <= MinuteOf(s.collectedAt)
    && p.processed >= before.processed && p.failed >= before.failed
    && p.failed <= p.processed && p.processed <= s.processed && p.failed <= s.failed
  }

  function HistoryUpTo(s: Snapshot, k: nat): Option<Carried>
    requires k <= |s.history|
  {
    if k == 0 then Some(Carried(None, 0, 0))
    else match HistoryUpTo(s, k - 1) {
      case None => None
      case Some(before) =>
        var p := s.history[k - 1];
        if PointFollows(before, p, s) then Some(Carried(Some(p.at), p.processed, p.failed)) else None
    }
  }

  /** `parse_scout_telemetry` on well-formed fields; None accepts. */
  function ParseFault(s: Snapshot, now: int): Option<Refusal> {
    if !Fresh(s.collectedAt, now) then Some(NotFresh)
    else if !Counter(s.pending) || !Counter(s.inFlight) || !Counter(s.queueFailed) then Some(CounterInvalid)
    else if !Counter(s.processed) || !Counter(s.failed) then Some(CounterInvalid)
    else if s.failed > s.processed then Some(TotalsInvalid)
    else if |s.history| > MAX_HISTORY then Some(HistoryTooLong)
    else match HistoryUpTo(s, |s.history|) {
      case None => Some(HistoryInvalid)
      case Some(last) =>
        if (s.history != []) != (s.processed != 0 || s.failed != 0) then Some(HistoryMismatch)
        else if s.history != [] && (last.processed != s.processed || last.failed != s.failed) then Some(HistoryMismatch)
        else None
    }
  }

  lemma {:induction false} HistorySticks(s: Snapshot, k: nat)
    requires k <= |s.history| && HistoryUpTo(s, k) == None
    ensures HistoryUpTo(s, |s.history|) == None
    decreases |s.history| - k
  {
    if k < |s.history| {
      HistorySticks(s, k + 1);
    }
  }

  method ParseScoutTelemetry(s: Snapshot, now: int) returns (fault: Option<Refusal>)
    ensures fault == ParseFault(s, now)
  {
    if !Fresh(s.collectedAt, now) {
      return Some(NotFresh);
    }
    if !Counter(s.pending) || !Counter(s.inFlight) || !Counter(s.queueFailed) || !Counter(s.processed) || !Counter(s.failed) {
      return Some(CounterInvalid);
    }
    if s.failed > s.processed {
      return Some(TotalsInvalid);
    }
    if |s.history| > MAX_HISTORY {
      return Some(HistoryTooLong);
    }
    var previousAt: Option<int> := None;
    var previousProcessed, previousFailed := 0, 0;
    for k := 0 to |s.history|
      invariant HistoryUpTo(s, k) == Some(Carried(previousAt, previousProcessed, previousFailed))
    {
      var p := s.history[k];
      if !PointFollows(Carried(previousAt, previousProcessed, previousFailed), p, s) {
        HistorySticks(s, k + 1);
        return Some(HistoryInvalid);
      }
      previousAt, previousProcessed, previousFailed := Some(p.at), p.processed, p.failed;
    }
    if (s.history != []) != (s.processed != 0 || s.failed != 0) {
      return Some(HistoryMismatch);
    }
    if s.history != [] && (previousProcessed != s.processed || previousFailed != s.failed) {
      return Some(HistoryMismatch);
    }
    return None;
  }

  // ----- what the history loop accepts

  /** Minute-aligned points no later than the snapshot, strictly later one by one, counters never falling. */
  ghost predicate Chronicle(h: seq<Point>, collectedAt: int) {
    && (forall i :: 0 <= i < |h| ==> h[i].at % MINUTE == 0 && h[i].at <= MinuteOf(collectedAt) && 0 <= h[i].failed <= h[i].processed <= MAX_COUNTER)
    && (forall i, j :: 0 <= i < j < |h| ==> h[i].at < h[j].at && h[i].processed <= h[j].processed && h[i].failed <= h[j].failed)
  }

  lemma {:induction false} HistoryIsChronicle(s: Snapshot, k: nat)
    requires k <= |s.history| && 0 <= s.failed <= s.processed <= MAX_COUNTER
    ensures HistoryUpTo(s, k).Some? <==>
      Chronicle(s.history[..k], s.collectedAt) && (k > 0 ==> s.history[k - 1].processed <= s.processed && s.history[k - 1].failed <= s.failed)
    ensures HistoryUpTo(s, k).Some? && k > 0 ==>
      HistoryUpTo(s, k).value == Carried(Some(s.history[k - 1].at), s.history[k - 1].processed, s.history[k - 1].failed)
  {
    if k > 0 {
      HistoryIsChronicle(s, k - 1);
      assert s.history[..k] == s.history[..k - 1] + [s.history[k - 1]];
      ChronicleStep(s.history[..k - 1], s.history[k - 1], s.collectedAt);
    }
  }

  lemma ChronicleStep(h: seq<Point>, p: Point, collectedAt: int)
    ensures Chronicle(h + [p], collectedAt) <==>
      && Chronicle(h, collectedAt)
      && p.at % MINUTE == 0 && p.at <= MinuteOf(collectedAt) && 0 <= p.failed <= p.processed <= MAX_COUNTER
      && (h != [] ==> h[|h| - 1].at < p.at && h[|h| - 1].processed <= p.processed && h[|h| - 1].failed <= p.failed)
  {
    var after := h + [p];
    assert after[|h|] == p;
    assert forall i :: 0 <= i < |h| ==> after[i] == h[i];
    if Chronicle(after, collectedAt) && h != [] {
      assert after[|h| - 1].at < after[|h|].at;
    }
  }

  /**
   A snapshot is accepted exactly when it was collected within thirty seconds of now, its counters are
   below 2^53, its history is a chronicle of at most 120 points, and the history ends at the totals, or
   both are empty.
   */
  lemma ParseAcceptsExactly(s: Snapshot, now: int)
    ensures ParseFault(s, now) == None <==>
      && now - 30_000_000 <= s.collectedAt <= now + 30_000_000
      && 0 <= s.pending < 0x20_0000_0000_0000 && 0 <= s.inFlight < 0x20_0000_0000_0000
      && 0 <= s.queueFailed < 0x20_0000_0000_0000 && 0 <= s.failed <= s.processed < 0x20_0000_0000_0000
      && |s.history| <= 120 && Chronicle(s.history, s.collectedAt)
      && (s.history == [] ==> s.processed == 0)
      && (s.history != [] ==>
        var last := s.history[|s.history| - 1];
        s.processed > 0 && last.processed == s.processed && last.failed == s.failed)
  {
    hide Chronicle, HistoryUpTo;
    if 0 <= s.failed <= s.processed <= MAX_COUNTER {
      HistoryIsChronicle(s, |s.history|);
      assert s.history[..|s.history|] == s.history;
    }
  }

  /** A chronicle in numbers: whole minutes, none after the minute of the snapshot. */
  lemma ChronicleInMinutes(h: seq<Point>, collectedAt: int, i: nat)
    requires Chronicle(h, collectedAt) && i < |h|
    ensures h[i].at % 60_000_000 == 0 && h[i].at <= collectedAt
    ensures 0 <= h[i].failed <= h[i].processed < 0x20_0000_0000_0000
    ensures i > 0 ==> h[i - 1].at + 60_000_000 <= h[i].at
  {
    if i > 0 {
      WholeMinutesApart(h[i - 1].at, h[i].at);
    }
  }

  lemma WholeMinutesApart(a: int, b: int)
    requires a % MINUTE == 0 && b % MINUTE == 0 && a < b
    ensures a + MINUTE <= b
  {
  }

  predicate TooLarge(n: int) {
    n < 0 || 0x20_0000_0000_0000 <= n
  }

  /** Which refusal a snapshot meets, in order. */
  lemma SnapshotRefusals(s: Snapshot, now: int)
    ensures ParseFault(s, now)
      == if s.collectedAt < now - 30_000_000 || now + 30_000_000 < s.collectedAt then Some(NotFresh)
         else if TooLarge(s.pending) || TooLarge(s.inFlight) || TooLarge(s.queueFailed) || TooLarge(s.processed) || TooLarge(s.failed)
         then Some(CounterInvalid)
         else if s.failed > s.processed then Some(TotalsInvalid)
         else if |s.history| > 120 then Some(HistoryTooLong)
         else if !Chronicle(s.history, s.collectedAt) then Some(HistoryInvalid)
         else if s.history == [] then (if s.processed == 0 then None else Some(HistoryMismatch))
         else
           var last := s.history[|s.history| - 1];
           if last.processed > s.processed || last.failed > s.failed then Some(HistoryInvalid)
           else if s.processed == 0 || last.processed < s.processed || last.failed < s.failed then Some(HistoryMismatch)
           else None
  {
    hide Chronicle, HistoryUpTo;
    if 0 <= s.failed <= s.processed <= MAX_COUNTER {
      HistoryIsChronicle(s, |s.history|);
      assert s.history[..|s.history|] == s.history;
      NoPoints(s.collectedAt);
    }
  }

  lemma NoPoints(collectedAt: int)
    ensures Chronicle([], collectedAt)
  {
  }

  // ----- the projection file

  datatype Projection = Projection(state: string, snapshot: Snapshot)

  /** The destination: nothing, a projection of ours, or a file the writer will not replace. */
  datatype Target = Absent | Visible(projection: Projection) | Foreign

  /** Where one write stops: it fails or the process dies, before or after the rename. */
  datatype Fault = NoFault | FailsBefore | FailsAfter | DiesBefore | DiesAfter

  datatype Written = Committed | Stale(watermark: int) | Ambiguous(watermark: int) | Refused | Died

  function Stamp(p: Projection): int {
    p.snapshot.collectedAt
  }

  /** `write_worker_telemetry` of a projection with its own timestamp as the watermark */
  function WriteOutcome(target: Target, p: Projection, size: nat, fault: Fault): (Target, Written) {
    if size > MAX_TELEMETRY_BYTES || target.Foreign? || fault == FailsBefore then (target, Refused)
    else if fault == DiesBefore then (target, Died)
    else if target.Visible? && Stamp(target.projection) > Stamp(p) then (target, Stale(Stamp(target.projection)))
    else if fault == FailsAfter then (Visible(p), Ambiguous(Stamp(p)))
    else if fault == DiesAfter then (Visible(p), Died)
    else (Visible(p), Committed)
  }

  /** One call of the publisher: what its guards and Scout gave it, and where the write stops. */
  datatype Attempt = Attempt(
    configured: bool, cancelled: bool, locked: bool, sessionLive: bool, snapshot: Option<Snapshot>, cancelledLate: bool,
    state: string, size: nat, fault: Fault)

  predicate Reaches(a: Attempt) {
    a.configured && !a.cancelled && a.locked && a.sessionLive && a.snapshot.Some? && !a.cancelledLate
  }

  function Raised(last: Option<int>, watermark: int): Option<int> {
    if last.None? || watermark > last.value then Some(watermark) else last
  }

  datatype Publisher = Publisher(target: Target, last: Option<int>)

  /** `_publish_telemetry_once`; a process that dies starts again without its watermark. */
  function PublishOutcome(s: Publisher, a: Attempt): (Publisher, bool) {
    if !Reaches(a) then (s, false)
    else if s.last.Some? && a.snapshot.value.collectedAt < s.last.value then (s, false)
    else
      var (target, written) := WriteOutcome(s.target, Projection(a.state, a.snapshot.value), a.size, a.fault);
      match written
      case Committed => (Publisher(target, Some(a.snapshot.value.collectedAt)), true)
      case Stale(watermark) => (Publisher(target, Raised(s.last, watermark)), false)
      case Ambiguous(watermark) => (Publisher(target, Raised(s.last, watermark)), false)
      case Refused => (Publisher(target, s.last), false)
      case Died => (Publisher(target, None), false)
  }

  /** The worker's telemetry state: the destination on disk, a temporary name, the watermark in memory. */
  class TelemetryWriter {
    var target: Target
    var temporary: Option<Projection>
    var last: Option<int>

    ghost function View(): Publisher
      reads this
    {
      Publisher(target, last)
    }

    constructor (existing: Target)
      ensures View() == Publisher(existing, None) && temporary == None
    {
      target, temporary, last := existing, None, None;
    }

    /** The file steps: a temporary is written, the visible watermark compared, the temporary renamed. */
    method Write(p: Projection, size: nat, fault: Fault) returns (written: Written)
      modifies this`target, this`temporary
      ensures (target, written) == WriteOutcome(old(target), p, size, fault)
      ensures written != Died ==> temporary == None
    {
      temporary := None;
      if size > MAX_TELEMETRY_BYTES || target.Foreign? {
        return Refused;
      }
      temporary := Some(p);
      if fault == FailsBefore {
        temporary := None;
        return Refused;
      }
      if fault == DiesBefore {
        return Died;
      }
      if target.Visible? && Stamp(target.projection) > Stamp(p) {
        temporary := None;
        return Stale(Stamp(target.projection));
      }
      target, temporary := Visible(p), None;
      if fault == FailsAfter {
        return Ambiguous(Stamp(p));
      }
      if fault == DiesAfter {
        return Died;
      }
      return Committed;
    }

    method PublishOnce(a: Attempt) returns (published: bool)
      modifies this
      ensures (View(), published) == PublishOutcome(old(View()), a)
    {
      if !Reaches(a) {
        return false;
      }
      var at := a.snapshot.value.collectedAt;
      if last.Some? && at < last.value {
        return false;
      }
      var written := Write(Projection(a.state, a.snapshot.value), a.size, a.fault);
      match written {
        case Committed =>
          last := Some(at);
          return true;
        case Stale(watermark) =>
          last := Raised(last, watermark);
        case Ambiguous(watermark) =>
          last := Raised(last, watermark);
        case Refused =>
        case Died =>
          last := None;
      }
      return false;
    }
  }

  // ----- the watermark

  function VisibleStamp(target: Target): Option<int> {
    match target
    case Visible(p) => Some(Stamp(p))
    case _ => None
  }

  predicate NotLater(a: Option<int>, b: Option<int>) {
    a.Some? ==> b.Some? && a.value <= b.value
  }

  /** The watermark in memory never exceeds the visible one. */
  predicate Bounded(s: Publisher) {
    NotLater(s.last, VisibleStamp(s.target))
  }

  datatype Action = Publishing(attempt: Attempt) | Restarting

  function Act(s: Publisher, a: Action): Publisher {
    match a
    case Publishing(attempt) => PublishOutcome(s, attempt).0
    case Restarting => s.(last := None)
  }

  function ActAll(s: Publisher, actions: seq<Action>): Publisher {
    if actions == [] then s else Act(ActAll(s, actions[..|actions| - 1]), actions[|actions| - 1])
  }

  lemma ActKeepsWatermark(s: Publisher, a: Action)
    requires Bounded(s)
    ensures Bounded(Act(s, a)) && NotLater(VisibleStamp(s.target), VisibleStamp(Act(s, a).target))
  {
  }

  /**
   Over publishes, stale rejections, ambiguous commits, deaths and restarts, the visible timestamp
   never decreases, and the watermark in memory never exceeds it.
   */
  lemma {:induction false} VisibleNeverDecreases(s: Publisher, actions: seq<Action>, k: nat)
    requires Bounded(s) && k <= |actions|
    ensures Bounded(ActAll(s, actions))
    ensures NotLater(VisibleStamp(ActAll(s, actions[..k]).target), VisibleStamp(ActAll(s, actions).target))
    decreases |actions|
  {
    hide Act, Bounded, VisibleStamp;
    if k == |actions| {
      assert actions[..k] == actions;
      if actions != [] {
        VisibleNeverDecreases(s, actions[..|actions| - 1], |actions| - 1);
        ActKeepsWatermark(ActAll(s, actions[..|actions| - 1]), actions[|actions| - 1]);
      }
    } else {
      var front := actions[..|actions| - 1];
      VisibleNeverDecreases(s, front, k);
      assert front[..k] == actions[..k];
      ActKeepsWatermark(ActAll(s, front), actions[|actions| - 1]);
    }
  }

  /** What a write leaves visible and answers at every point of failure. */
  lemma WriteLeavesExactly(target: Target, p: Projection, size: nat, fault: Fault)
    ensures var (now, written) := WriteOutcome(target, p, size, fault);
      if size > 262_144 || target.Foreign? || fault == FailsBefore then now == target && written == Refused
      else if fault == DiesBefore then now == target && written == Died
      else if target.Visible? && target.projection.snapshot.collectedAt > p.snapshot.collectedAt
      then now == target && written == Stale(target.projection.snapshot.collectedAt)
      else
        && now == Visible(p)
        && (written == Committed <==> fault == NoFault) && (written == Died <==> fault == DiesAfter)
        && (written == Ambiguous(p.snapshot.collectedAt) <==> fault == FailsAfter)
  {
  }

  /** An attempt changes nothing unless it is configured, not cancelled, locked, in a live session and has a snapshot. */
  lemma OnlyFullAttemptsWrite(s: Publisher, a: Attempt)
    ensures !a.configured || a.cancelled || !a.locked || !a.sessionLive || a.snapshot.None? || a.cancelledLate ==>
      PublishOutcome(s, a) == (s, false)
    ensures a.snapshot.Some? && s.last.Some? && a.snapshot.value.collectedAt < s.last.value ==> PublishOutcome(s, a) == (s, false)
  {
  }

  /**
   A publish succeeds exactly when it reaches the write, nothing fails, and the visible projection
   is not newer; then its snapshot is what is visible. The check against memory decides nothing the
   check against the file would not.
   */
  lemma PublishesExactly(s: Publisher, a: Attempt)
    requires Bounded(s)
    ensures PublishOutcome(s, a).1 <==>
      && Reaches(a) && a.fault == NoFault && a.size <= MAX_TELEMETRY_BYTES && !s.target.Foreign?
      && NotLater(VisibleStamp(s.target), Some(a.snapshot.value.collectedAt))
    ensures PublishOutcome(s, a).1 ==>
      PublishOutcome(s, a).0 == Publisher(Visible(Projection(a.state, a.snapshot.value)), Some(a.snapshot.value.collectedAt))
    ensures PublishOutcome(s, a).1 == PublishOutcome(s.(last := None), a).1
    ensures PublishOutcome(s, a).0.target == PublishOutcome(s.(last := None), a).0.target
  {
  }

  /**
   The watermark in memory after an attempt: the visible timestamp once a write was answered, be it committed,
   stale or ambiguous; nothing after a death in a write; unchanged otherwise.
   */
  lemma MemoryFollowsTheFile(s: Publisher, a: Attempt)
    ensures var now := PublishOutcome(s, a).0;
      if !Reaches(a) || (s.last.Some? && a.snapshot.value.collectedAt < s.last.value) then now.last == s.last
      else if a.size > 262_144 || s.target.Foreign? || a.fault == FailsBefore then now.last == s.last
      else if a.fault == DiesBefore then now.last == None
      else if a.fault == DiesAfter && !(s.target.Visible? && Stamp(s.target.projection) > a.snapshot.value.collectedAt) then now.last == None
      else now.last == VisibleStamp(now.target) && now.last.Some?
  {
  }

  /** Only the attempt's own projection ever becomes visible, and a success says that it is. */
  lemma OwnProjectionIsPublished(s: Publisher, a: Attempt)
    ensures var (now, published) := PublishOutcome(s, a);
      && (now.target != s.target ==> a.snapshot.Some? && now.target == Visible(Projection(a.state, a.snapshot.value)))
      && (published ==>
          a.snapshot.Some? && now == Publisher(Visible(Projection(a.state, a.snapshot.value)), Some(a.snapshot.value.collectedAt)))
  {
  }
}

/**
 One isolated job: replay a stored result, rebuild it from the log, or evaluate, commit a receipt
 and publish one immutable result. The child process, the clock and storage faults are inputs.
 */
module Worker {
  import opened Outcomes
  import opened Receipts
  import Workspace

  datatype Job = Job(jobId: string, attempt: nat, key: string, created: int, deadline: int, approved: Option<int>, inputs: string)

  datatype Identity = Identity(worker: string, session: string)

  datatype Status = Completed | Rejected | Cancelled | Expired

  /** A digest-pinned reference to an entry of the receipt log. */
  datatype Reference = Reference(name: string, sha: string, size: nat)

  datatype Code =
    | Log(refusal: Refusal) | InternalError | JobExpired | OutputExceeded | ProtocolInvalid | Timeout
    | NotYetValid | NotAuthorized | ProvenanceUnavailable | WorkspaceExceeded | OutputFailed
    | ResultConflict | ReceiptJobConflict | Other(name: string)

  datatype ResultDoc = ResultDoc(
    jobId: string, attempt: nat, key: string, jobDigest: string, status: Status,
    startedAt: int, finishedAt: int, worker: Identity, receipt: Option<Reference>, error: Option<Code>)

  datatype Packet = Packet(startedAt: int, evidence: string)

  datatype Path = EntryFile(name: string) | HeadFile | ResultFile(uri: string) | OtherFile(name: string)

  datatype World = World(log: Store, results: map<string, ResultDoc>, others: map<string, nat>)

  /** Successive readings of the clock during one run. */
  datatype Clock = Clock(started: int, admitted: int, evaluated: int, stamped: int, committing: int, failed: int, judged: int)

  /** Everything the run does not decide: budgets, the child's answer, provenance, time and faults. */
  datatype Env = Env(
    clock: Clock, preliminaryMax: nat, preflight: Result<nat, Code>, child: Result<Packet, Code>,
    provenance: bool, recovery: Result<nat, Code>, fault: Fault, resultFault: Fault)

  datatype Setup = Setup(
    codec: Codec, digestOf: Job -> string, receiptId: (string, nat) -> string,
    resultBytes: ResultDoc -> nat, terminalEvidence: Code -> string, measure: map<Path, nat> -> nat)

  datatype Outcome = Outcome(result: ResultDoc, replayed: bool)

  // ----- documents

  predicate NonReceipt(code: Code) {
    code in {InternalError, JobExpired, OutputExceeded, ProtocolInvalid, Timeout}
  }

  function NotExpired(job: Job, now: int): Option<Code> {
    if now < job.created then Some(NotYetValid)
    else if now > job.deadline then Some(JobExpired)
    else if job.approved.Some? && job.approved.value > now then Some(NotAuthorized)
    else None
  }

  function ReceiptFor(p: Setup, job: Job, packet: Packet, id: Identity, previous: Option<string>, stamped: int): Receipt {
    var digest := p.digestOf(job);
    Receipt(p.receiptId(digest, job.attempt), previous, job.key, digest, job.jobId, job.attempt, job.inputs,
            packet.startedAt, stamped, id.worker, id.session, packet.evidence)
  }

  function CompletedDoc(p: Setup, job: Job, id: Identity, started: int, finished: int, ref: Reference): ResultDoc {
    ResultDoc(job.jobId, job.attempt, job.key, p.digestOf(job), Completed, started, finished, id, Some(ref), None)
  }

  function StatusFor(job: Job, code: Code, judged: int): Status {
    if judged > job.deadline || code == JobExpired then Expired
    else if code in {Timeout, OutputExceeded} then Cancelled
    else Rejected
  }

  function RejectedDoc(p: Setup, job: Job, id: Identity, clock: Clock, code: Code): ResultDoc {
    ResultDoc(job.jobId, job.attempt, job.key, p.digestOf(job), StatusFor(job, code, clock.judged),
              clock.started, clock.failed, id, None, Some(code))
  }

  function RefOf(name: string, sha: string, data: string): Reference {
    Reference(name, sha, |data|)
  }

  /** `validate_result_document`, for documents of the closed result contract. */
  predicate ResultMatches(p: Setup, doc: ResultDoc, job: Job) {
    && doc.jobId == job.jobId && doc.attempt == job.attempt && doc.key == job.key
    && doc.jobDigest == p.digestOf(job)
    && doc.startedAt <= doc.finishedAt && job.created <= doc.startedAt
    && (doc.status == Completed ==> doc.finishedAt <= job.deadline && doc.receipt.Some?)
  }

  /** `_receipt_job_identity`: the stored receipt belongs to the admitted job. */
  predicate ReceiptMatches(p: Setup, r: Receipt, job: Job) {
    && r.jobId == job.jobId && r.attempt == job.attempt && r.key == job.key
    && r.jobDigest == p.digestOf(job) && r.inputs == job.inputs
  }

  // ----- the byte budget

  function Files(w: World): set<Path> {
    (set name | name in w.others :: OtherFile(name))
    + (set name | name in w.log.entries :: EntryFile(name))
    + (if w.log.head.Some? then {HeadFile} else {})
    + (set uri | uri in w.results :: ResultFile(uri))
  }

  function SizeAt(p: Setup, w: World, path: Path): nat {
    match path
    case EntryFile(name) => if name in w.log.entries then |w.log.entries[name]| else 0
    case HeadFile => if w.log.head.Some? then |w.log.head.value| else 0
    case ResultFile(uri) => if uri in w.results then p.resultBytes(w.results[uri]) else 0
    case OtherFile(name) => if name in w.others then w.others[name] else 0
  }

  function Sizes(p: Setup, w: World): map<Path, nat> {
    map path | path in Files(w) :: SizeAt(p, w, path)
  }

  function Writes(p: Setup, uri: string, doc: ResultDoc, commit: Committed, head: Option<string>): seq<(Path, nat)> {
    (if commit.replayed || head.None? then [] else [(EntryFile(commit.name), |commit.data|), (HeadFile, |head.value|)])
    + [(ResultFile(uri), p.resultBytes(doc))]
  }

  predicate Fits(p: Setup, w: World, maximum: nat, writes: seq<(Path, nat)>) {
    Workspace.Accepts(p.measure(Sizes(p, w)), maximum, Sizes(p, w), writes)
  }

  /** `admit_receipt`: the completed result is prepared and its bytes are budgeted with the receipt's. */
  function AdmitReceipt(p: Setup, w: World, job: Job, uri: string, id: Identity, packet: Packet, stamped: int, maximum: nat): Admission {
    (commit: Committed, head: Option<string>) =>
      Fits(p, w, maximum, Writes(p, uri, Prepared(p, job, id, packet, stamped, commit), commit, head))
  }

  function Prepared(p: Setup, job: Job, id: Identity, packet: Packet, stamped: int, commit: Committed): ResultDoc {
    CompletedDoc(p, job, id, packet.startedAt, stamped, RefOf(commit.name, commit.sha, commit.data))
  }

  // ----- the run, as a function on the durable state

  function WriteResultOutcome(p: Setup, w: World, uri: string, doc: ResultDoc, maximum: nat, fault: Fault): (World, Result<Outcome, Code>) {
    if !Fits(p, w, maximum, [(ResultFile(uri), p.resultBytes(doc))]) then (w, Err(WorkspaceExceeded))
    else if uri in w.results then
      (w, if w.results[uri] == doc then Ok(Outcome(w.results[uri], true)) else Err(ResultConflict))
    else
      var published := w.(results := w.results[uri := doc]);
      match fault
      case NoFault => (published, Ok(Outcome(doc, false)))
      case Fails(BeforeLink) => (w, Err(OutputFailed))
      case Dies(BeforeLink) => (w, Err(Log(Killed)))
      case DiesWithTemporary(name) => (w.(others := w.others[name := 0]), Err(Log(Killed)))
      case Fails(_) => (published, Err(OutputFailed))
      case Dies(_) => (published, Err(Log(Killed)))
  }

  /** The child's packet, with admitted failures represented as receipt evidence. */
  function PacketOf(p: Setup, job: Job, env: Env): Result<Packet, Code> {
    match env.child
    case Ok(packet) =>
      if packet.startedAt < job.created || packet.startedAt > job.deadline then Err(ProtocolInvalid) else Ok(packet)
    case Err(code) =>
      if NonReceipt(code) then Err(code) else Ok(Packet(env.clock.started, p.terminalEvidence(code)))
  }

  /** The guarded part of the run: everything between admission and the durable receipt. */
  ghost function ExecuteOutcome(p: Setup, w: World, job: Job, uri: string, id: Identity, env: Env): (World, Result<ResultDoc, Code>) {
    if env.preflight.Err? then (w, Err(env.preflight.error))
    else
      var packet := PacketOf(p, job, env);
      if packet.Err? then (w, Err(packet.error))
      else if NotExpired(job, env.clock.evaluated).Some? then (w, Err(NotExpired(job, env.clock.evaluated).value))
      else if !env.provenance then (w, Err(ProvenanceUnavailable))
      else
        var verified := VerifyOutcome(p.codec, w.log, false, NoFault).1;
        if verified.Err? then (w, Err(Log(verified.error)))
        else if NotExpired(job, env.clock.stamped).Some? then (w, Err(NotExpired(job, env.clock.stamped).value))
        else
          var receipt := ReceiptFor(p, job, packet.value, id, verified.value.head, env.clock.stamped);
          var admit := AdmitReceipt(p, w, job, uri, id, packet.value, env.clock.stamped, env.preflight.value);
          var (log, commit) := CommitOutcome(p.codec, w.log, receipt, env.clock.committing > job.deadline, admit, env.fault);
          (w.(log := log),
           if commit.Err? then Err(Log(commit.error))
           else Ok(Prepared(p, job, id, packet.value, env.clock.stamped, commit.value)))
  }

  ghost function RunOutcome(p: Setup, w: World, job: Job, uri: string, id: Identity, env: Env): (World, Result<Outcome, Code>) {
    var found := FindOutcome(p.codec, w.log, job.key, p.digestOf(job));
    if uri in w.results then (w, ReplayOutcome(p, job, w.results[uri], found))
    else if found.Err? then (w, Err(Log(found.error)))
    else if found.value.Some? then
      var stored := found.value.value;
      if env.recovery.Err? then (w, Err(env.recovery.error))
      else if !ReceiptMatches(p, stored.doc, job) then (w, Err(ReceiptJobConflict))
      else WriteResultOutcome(p, w, uri, Rebuilt(p, job, stored), env.recovery.value, env.resultFault)
    else if NotExpired(job, env.clock.admitted).Some? then (w, Err(NotExpired(job, env.clock.admitted).value))
    else
      var (after, doc) := ExecuteOutcome(p, w, job, uri, id, env);
      var maximum := if env.preflight.Ok? then env.preflight.value else env.preliminaryMax;
      if doc.Ok? then WriteResultOutcome(p, after, uri, doc.value, maximum, env.resultFault)
      else if doc.error in {Log(HeadWriteFailed), Log(Killed)} then (after, Err(doc.error))
      else WriteResultOutcome(p, after, uri, RejectedDoc(p, job, id, env.clock, doc.error), maximum, env.resultFault)
  }

  /** The completed result that a stored receipt gives back. */
  function Rebuilt(p: Setup, job: Job, stored: Stored): ResultDoc {
    CompletedDoc(p, job, Identity(stored.doc.workerId, stored.doc.sessionId), stored.doc.startedAt, stored.doc.finishedAt,
                 RefOf(stored.name, stored.sha, stored.data))
  }

  function ReplayOutcome(p: Setup, job: Job, doc: ResultDoc, found: Result<Option<Stored>, Refusal>): Result<Outcome, Code> {
    if !ResultMatches(p, doc, job) then Err(ResultConflict)
    else if doc.status != Completed then Ok(Outcome(doc, true))
    else match found {
      case Err(e) => Err(Log(e))
      case Ok(None) => Err(ResultConflict)
      case Ok(Some(stored)) =>
        if !ReceiptMatches(p, stored.doc, job) then Err(ReceiptJobConflict)
        else if doc.receipt != Some(RefOf(stored.name, stored.sha, stored.data))
             || doc.worker != Identity(stored.doc.workerId, stored.doc.sessionId)
        then Err(ResultConflict)
        else Ok(Outcome(doc, true))
    }
  }

  // ----- the workspace of one output root

  class OutputRoot {
    const setup: Setup
    const log: ReceiptLog
    var results: map<string, ResultDoc>
    var others: map<string, nat>

    constructor (setup: Setup)
      ensures this.setup == setup && log.codec == setup.codec && fresh(log)
      ensures State() == World(Store(map[], None), map[], map[])
    {
      this.setup := setup;
      log := new ReceiptLog(setup.codec);
      results, others := map[], map[];
    }

    function State(): World
      reads this, log
    {
      World(log.State(), results, others)
    }

    /** `_write_result`: budget again, then one exclusive write; an existing equal document replays. */
    method WriteResult(uri: string, doc: ResultDoc, maximum: nat, fault: Fault) returns (out: Result<Outcome, Code>)
      modifies this`results, this`others
      ensures (State(), out) == WriteResultOutcome(setup, old(State()), uri, doc, maximum, fault)
    {
      if !Fits(setup, State(), maximum, [(ResultFile(uri), setup.resultBytes(doc))]) {
        return Err(WorkspaceExceeded);
      }
      if uri in results {
        if results[uri] != doc {
          return Err(ResultConflict);
        }
        return Ok(Outcome(results[uri], true));
      }
      match fault {
        case Fails(BeforeLink) => return Err(OutputFailed);
        case Dies(BeforeLink) => return Err(Log(Killed));
        case DiesWithTemporary(name) =>
          others := others[name := 0];
          return Err(Log(Killed));
        case _ =>
      }
      results := results[uri := doc];
      match fault {
        case Fails(_) => return Err(OutputFailed);
        case Dies(_) => return Err(Log(Killed));
        case _ => return Ok(Outcome(doc, false));
      }
    }

    /** The guarded part of `run_isolated_job`. */
    method Execute(job: Job, uri: string, id: Identity, env: Env) returns (doc: Result<ResultDoc, Code>)
      requires log.codec == setup.codec
      modifies log
      ensures (State(), doc) == ExecuteOutcome(setup, old(State()), job, uri, id, env)
    {
      hide CommitOutcome, VerifyOutcome, Fits;
      if env.preflight.Err? {
        return Err(env.preflight.error);
      }
      var packet := PacketOf(setup, job, env);
      if packet.Err? {
        return Err(packet.error);
      }
      var late := NotExpired(job, env.clock.evaluated);
      if late.Some? {
        return Err(late.value);
      }
      if !env.provenance {
        return Err(ProvenanceUnavailable);
      }
      ghost var before := State();
      var verified := log.Verify(false, NoFault);
      VerifyOnlyReads(setup.codec, before.log);
      if verified.Err? {
        return Err(Log(verified.error));
      }
      late := NotExpired(job, env.clock.stamped);
      if late.Some? {
        return Err(late.value);
      }
      var receipt := ReceiptFor(setup, job, packet.value, id, verified.value.head, env.clock.stamped);
      var admit := AdmitReceipt(setup, State(), job, uri, id, packet.value, env.clock.stamped, env.preflight.value);
      var commit := log.Commit(receipt, env.clock.committing > job.deadline, admit, env.fault);
      if commit.Err? {
        return Err(Log(commit.error));
      }
      doc := Ok(Prepared(setup, job, id, packet.value, env.clock.stamped, commit.value));
    }

    /** `run_isolated_job`: replay, rebuild, or evaluate and publish. */
    method RunJob(job: Job, uri: string, id: Identity, env: Env) returns (out: Result<Outcome, Code>)
      requires log.codec == setup.codec
      modifies this`results, this`others, log
      ensures (State(), out) == RunOutcome(setup, old(State()), job, uri, id, env)
    {
      hide FindOutcome, ExecuteOutcome, WriteResultOutcome, Fits;
      var digest := setup.digestOf(job);
      if uri in results {
        var doc := results[uri];
        if !ResultMatches(setup, doc, job) {
          return Err(ResultConflict);
        }
        if doc.status == Completed {
          var found := log.Find(job.key, digest);
          if found.Err? {
            return Err(Log(found.error));
          }
          if found.value.None? {
            return Err(ResultConflict);
          }
          var stored := found.value.value;
          if !ReceiptMatches(setup, stored.doc, job) {
            return Err(ReceiptJobConflict);
          }
          if doc.receipt != Some(RefOf(stored.name, stored.sha, stored.data))
             || doc.worker != Identity(stored.doc.workerId, stored.doc.sessionId) {
            return Err(ResultConflict);
          }
        }
        return Ok(Outcome(doc, true));
      }
      var found := log.Find(job.key, digest);
      if found.Err? {
        return Err(Log(found.error));
      }
      if found.value.Some? {
        var stored := found.value.value;
        if env.recovery.Err? {
          return Err(env.recovery.error);
        }
        if !ReceiptMatches(setup, stored.doc, job) {
          return Err(ReceiptJobConflict);
        }
        out := WriteResult(uri, Rebuilt(setup, job, stored), env.recovery.value, env.resultFault);
        return;
      }
      var late := NotExpired(job, env.clock.admitted);
      if late.Some? {
        return Err(late.value);
      }
      var doc := Execute(job, uri, id, env);
      var maximum := if env.preflight.Ok? then env.preflight.value else env.preliminaryMax;
      if doc.Err? {
        // A durable receipt may exist: no contradicting result is published.
        if doc.error == Log(HeadWriteFailed) || doc.error == Log(Killed) {
          return Err(doc.error);
        }
        out := WriteResult(uri, RejectedDoc(setup, job, id, env.clock, doc.error), maximum, env.resultFault);
      } else {
        out := WriteResult(uri, doc.value, maximum, env.resultFault);
      }
    }
  }

  lemma VerifyOnlyReads(c: Codec, s: Store)
    ensures VerifyOutcome(c, s, false, NoFault).0 == s
  {
  }
}

/**
 What one run of a job decides, in the job's own fields: when it is admitted, what its receipt and
 its completed result say, which refusal it ends in and what a rejection says.
 */
module Admission {
  import opened EntryNames
  import opened Outcomes
  import opened ReceiptRuns
  import opened Receipts
  import opened Worker
  import opened WorkerRuns
  import Workspace

  /** A run at a free URI of a key without an entry, in a consistent output root with a matching HEAD. */
  ghost predicate Fresh(p: Setup, w: World, job: Job, uri: string, env: Env, es: seq<Stored>) {
    && LawfulSetup(p) && Consistent(p, w, es) && HeadMatches(p.codec, w.log.head, es) && ForeignErrors(p, job, env)
    && uri !in w.results && job.key !in Keys(es)
  }

  /** Inside the window of a job, and not before its approval. */
  predicate Inside(job: Job, now: int) {
    job.created <= now <= job.deadline && (job.approved.Some? ==> job.approved.value <= now)
  }

  /** The one refusal outside the window: too early, else too late, else not yet approved. */
  function Outside(job: Job, now: int): Code
    requires !Inside(job, now)
  {
    if job.created > now then NotYetValid else if now > job.deadline then JobExpired else NotAuthorized
  }

  /** Outside the window of its job a run changes nothing and says why. */
  lemma OutsideTheWindowNothingHappens(p: Setup, w: World, job: Job, uri: string, id: Identity, env: Env, es: seq<Stored>)
    requires Fresh(p, w, job, uri, env, es) && !Inside(job, env.clock.admitted)
    ensures RunOutcome(p, w, job, uri, id, env) == (w, Err(Outside(job, env.clock.admitted)))
  {
    hide Scan, HeadMatches, Keys, LawfulSetup, ExecuteOutcome, WriteResultOutcome;
    FoundKey(es, job.key);
  }

  /**
   A run that changes anything was admitted inside the window of its job; a run that adds an entry was
   also inside it when evaluated and when stamped, and committed before the deadline.
   */
  lemma ChangesComeFromTheWindow(p: Setup, w: World, job: Job, uri: string, id: Identity, env: Env, es: seq<Stored>)
    requires Fresh(p, w, job, uri, env, es)
    ensures var now := RunOutcome(p, w, job, uri, id, env).0;
      && (now != w ==> Inside(job, env.clock.admitted))
      && (now.log != w.log ==>
          Inside(job, env.clock.evaluated) && Inside(job, env.clock.stamped) && env.clock.committing <= job.deadline)
  {
    hide Scan, HeadMatches, Keys, LawfulSetup, ExecuteOutcome, WriteResultOutcome, RejectedDoc, Fits;
    FoundKey(es, job.key);
    ExecuteShape(p, w, job, uri, id, env, es);
    var (middle, doc) := ExecuteOutcome(p, w, job, uri, id, env);
    var maximum := if env.preflight.Ok? then env.preflight.value else env.preliminaryMax;
    PublishesOnly(p, middle, uri, if doc.Ok? then doc.value else RejectedDoc(p, job, id, env.clock, doc.error), maximum, env.resultFault);
  }

  // ----- which refusal an admitted run ends in

  /** The evaluation gives something to commit: a packet of the job's window, or an error to record. */
  predicate Recordable(job: Job, env: Env) {
    match env.child
    case Ok(packet) => job.created <= packet.startedAt <= job.deadline
    case Err(code) =>
      code != InternalError && code != JobExpired && code != OutputExceeded && code != ProtocolInvalid && code != Timeout
  }

  /** The guarded part of a run refuses in this order, and writes nothing when it does. */
  lemma RefusalsInOrder(p: Setup, w: World, job: Job, uri: string, id: Identity, env: Env, es: seq<Stored>)
    requires Fresh(p, w, job, uri, env, es)
    ensures var out := ExecuteOutcome(p, w, job, uri, id, env);
      if env.preflight.Err? then out == (w, Err(env.preflight.error))
      else if !Recordable(job, env) then out == (w, Err(if env.child.Err? then env.child.error else ProtocolInvalid))
      else if !Inside(job, env.clock.evaluated) then out == (w, Err(Outside(job, env.clock.evaluated)))
      else if !env.provenance then out == (w, Err(ProvenanceUnavailable))
      else if !Inside(job, env.clock.stamped) then out == (w, Err(Outside(job, env.clock.stamped)))
      else
        && PacketOf(p, job, env).Ok?
        && var r := ReceiptOf(p, job, id, env, es);
           var e := NewEntry(p.codec, es, r);
           var doc := Prepared(p, job, id, PacketOf(p, job, env).value, env.clock.stamped, Committed(e.name, e.data, e.sha, false));
           var head := p.codec.encodeHead(HeadOf(es + [e]));
           if !p.codec.accepts(r) then out == (w, Err(Log(ReceiptInvalid)))
           else if |p.codec.encode(r)| > 1_048_576 then out == (w, Err(Log(ReceiptTooLarge)))
           else if env.clock.committing > job.deadline then out == (w, Err(Log(DeadlineExpired)))
           else if !Fits(p, w, env.preflight.value,
                         [(EntryFile(e.name), |e.data|), (HeadFile, |head|), (ResultFile(uri), p.resultBytes(doc))])
           then out == (w, Err(Log(NotAdmitted)))
           else out.0.log == WriteOutcome(w.log, e, head, env.fault).0
  {
    hide Scan, HeadMatches, Keys, LawfulSetup, Fits, WriteOutcome, Prepared;
    FoundKey(es, job.key);
    VerifyFinds(p.codec, w.log, es);
    if env.preflight.Ok? && PacketOf(p, job, env).Ok? {
      var e := NewEntry(p.codec, es, ReceiptOf(p, job, id, env, es));
      var doc := Prepared(p, job, id, PacketOf(p, job, env).value, env.clock.stamped, Committed(e.name, e.data, e.sha, false));
      var head := p.codec.encodeHead(HeadOf(es + [e]));
      assert Writes(p, uri, doc, Committed(e.name, e.data, e.sha, false), Some(head))
        == [(EntryFile(e.name), |e.data|), (HeadFile, |head|), (ResultFile(uri), p.resultBytes(doc))];
    }
  }

  // ----- what is committed and published

  /** The receipt of a run, field by field. */
  ghost predicate RecordsRun(p: Setup, r: Receipt, job: Job, id: Identity, env: Env) {
    && r.id == p.receiptId(p.digestOf(job), job.attempt)
    && r.key == job.key && r.jobDigest == p.digestOf(job) && r.jobId == job.jobId && r.attempt == job.attempt
    && r.inputs == job.inputs && r.workerId == id.worker && r.sessionId == id.session
    && r.finishedAt == env.clock.stamped
    && match env.child {
       case Ok(packet) => r.startedAt == packet.startedAt && r.evidence == packet.evidence
       case Err(code) => r.startedAt == env.clock.started && r.evidence == p.terminalEvidence(code)
    }
  }

  /** A completed result, field by field, with the entry it names. */
  predicate RecordsEntry(doc: ResultDoc, e: Stored) {
    && doc.jobId == e.doc.jobId && doc.attempt == e.doc.attempt && doc.key == e.doc.key && doc.jobDigest == e.doc.jobDigest
    && doc.status == Completed && doc.error == None
    && doc.startedAt == e.doc.startedAt && doc.finishedAt == e.doc.finishedAt
    && doc.worker.worker == e.doc.workerId && doc.worker.session == e.doc.sessionId
    && doc.receipt == Some(Reference(e.name, e.sha, |e.data|))
  }

  /** A run without faults that adds an entry records itself in it, and publishes the result that names it. */
  lemma CommittedRunRecordsItself(p: Setup, w: World, job: Job, uri: string, id: Identity, env: Env, es: seq<Stored>)
    requires Fresh(p, w, job, uri, env, es) && env.fault == NoFault && env.resultFault == NoFault
    requires RunOutcome(p, w, job, uri, id, env).0.log != w.log
    ensures PacketOf(p, job, env).Ok?
    ensures var (now, out) := RunOutcome(p, w, job, uri, id, env);
      var e := NewEntry(p.codec, es, ReceiptOf(p, job, id, env, es));
      && RecordsRun(p, e.doc, job, id, env) && e.doc.previous == LastSha(es)
      && now.log.entries == w.log.entries[e.name := e.data] && now.others == w.others
      && uri in now.results && now.results == w.results[uri := now.results[uri]]
      && RecordsEntry(now.results[uri], e) && out == Ok(Outcome(now.results[uri], false))
  {
    hide Scan, HeadMatches, Keys, LawfulSetup, ExecuteOutcome, WriteResultOutcome, Fits, NotExpired, Consistent;
    ChangedLogCommits(p, w, job, uri, id, env, es);
    AdmittedRunPublishes(p, w, job, uri, id, env, es);
  }

  lemma ChangedLogCommits(p: Setup, w: World, job: Job, uri: string, id: Identity, env: Env, es: seq<Stored>)
    requires Fresh(p, w, job, uri, env, es) && RunOutcome(p, w, job, uri, id, env).0.log != w.log
    ensures CommitBegins(p, w, job, uri, id, env, es) && PacketOf(p, job, env).Ok? && NotExpired(job, env.clock.admitted).None?
  {
    hide Scan, HeadMatches, Keys, LawfulSetup, ExecuteOutcome, WriteResultOutcome, RejectedDoc, Fits, NotExpired;
    FoundKey(es, job.key);
    ExecuteShape(p, w, job, uri, id, env, es);
    var (middle, doc) := ExecuteOutcome(p, w, job, uri, id, env);
    var maximum := if env.preflight.Ok? then env.preflight.value else env.preliminaryMax;
    PublishesOnly(p, middle, uri, if doc.Ok? then doc.value else RejectedDoc(p, job, id, env.clock, doc.error), maximum, env.resultFault);
  }

  /** What a published rejection says: the refusal, the clock's readings, and the status of each refusal. */
  lemma RejectionRecordsRefusal(p: Setup, w: World, job: Job, uri: string, id: Identity, env: Env, es: seq<Stored>)
    requires Fresh(p, w, job, uri, env, es)
    requires var now := RunOutcome(p, w, job, uri, id, env).0; uri in now.results && now.results[uri].status != Completed
    ensures ExecuteOutcome(p, w, job, uri, id, env).1.Err?
    ensures var code := ExecuteOutcome(p, w, job, uri, id, env).1.error;
      var doc := RunOutcome(p, w, job, uri, id, env).0.results[uri];
      && doc.jobId == job.jobId && doc.attempt == job.attempt && doc.key == job.key && doc.jobDigest == p.digestOf(job)
      && doc.worker == id && doc.receipt == None && doc.error == Some(code)
      && doc.startedAt == env.clock.started && doc.finishedAt == env.clock.failed
      && (doc.status == Expired <==> job.deadline < env.clock.judged || code == JobExpired)
      && (doc.status == Cancelled <==> env.clock.judged <= job.deadline && (code == Timeout || code == OutputExceeded))
      && (doc.status == Rejected <==>
          env.clock.judged <= job.deadline && code != JobExpired && code != Timeout && code != OutputExceeded)
  {
    hide Scan, HeadMatches, Keys, LawfulSetup, ExecuteOutcome, WriteResultOutcome, Fits, NotExpired;
    FoundKey(es, job.key);
    ExecuteShape(p, w, job, uri, id, env, es);
    var (middle, doc) := ExecuteOutcome(p, w, job, uri, id, env);
    var maximum := if env.preflight.Ok? then env.preflight.value else env.preliminaryMax;
    PublishesOnly(p, middle, uri, if doc.Ok? then doc.value else RejectedDoc(p, job, id, env.clock, doc.error), maximum, env.resultFault);
  }

  // ----- bound keys and stored results

  /** The budget check accepts exactly when every intermediate total of the writes stays within it. */
  lemma FitsExactlyWhenWithin(p: Setup, w: World, maximum: nat, writes: seq<(Path, nat)>)
    requires LawfulSetup(p) && Workspace.DistinctPaths(writes)
    ensures Fits(p, w, maximum, writes) <==> Workspace.StaysWithin(Sizes(p, w), maximum, writes)
  {
    hide Lawful, Sizes;
    Workspace.AdmittedExactlyWhenWithin(Sizes(p, w), maximum, writes);
  }

  /** A key with an entry is never evaluated again: the result is rebuilt from the entry, or refused. */
  lemma BoundKeyIsRebuilt(p: Setup, w: World, job: Job, uri: string, id: Identity, env: Env, es: seq<Stored>, e: Stored)
    requires LawfulSetup(p) && Consistent(p, w, es) && HeadMatches(p.codec, w.log.head, es)
    requires uri !in w.results && e in es && e.doc.key == job.key && env.resultFault == NoFault
    ensures var (now, out) := RunOutcome(p, w, job, uri, id, env);
      if e.doc.jobDigest != p.digestOf(job) then now == w && out == Err(Log(JobConflict))
      else if env.recovery.Err? then now == w && out == Err(env.recovery.error)
      else if !Fits(p, w, env.recovery.value, [(ResultFile(uri), p.resultBytes(Rebuilt(p, job, e)))])
      then now == w && out == Err(WorkspaceExceeded)
      else
        && now == w.(results := now.results) && uri in now.results && now.results == w.results[uri := now.results[uri]]
        && RecordsEntry(now.results[uri], e) && out == Ok(Outcome(now.results[uri], false))
  {
    hide Scan, HeadMatches, Keys, Lawful, ExecuteOutcome, Fits, Chain;
    ScanAcceptsExactlyLayouts(p.codec, w.log.entries, es);
    ChainKeysDistinct(p.codec, es);
    KeyFoundAtEntry(es, e);
    assert WrittenFor(p, e.doc);
    var writer :| WrittenForJob(p, e.doc, writer);
    assert p.digestOf(writer) == p.digestOf(job) ==> writer == job;
  }

  /** A document that is not the job's own is a conflict for it, whatever else the output root holds. */
  lemma OthersDocumentConflicts(p: Setup, w: World, job: Job, uri: string, id: Identity, env: Env)
    requires uri in w.results
    requires var doc := w.results[uri];
      doc.jobId != job.jobId || doc.attempt != job.attempt || doc.key != job.key || doc.jobDigest != p.digestOf(job)
      || doc.startedAt > doc.finishedAt || doc.startedAt < job.created || (doc.status == Completed && doc.finishedAt > job.deadline)
    ensures RunOutcome(p, w, job, uri, id, env) == (w, Err(ResultConflict))
  {
    hide FindOutcome, ExecuteOutcome;
  }

  /**
   In any output root, consistent or not: a completed result is only ever returned where the log scans,
   HEAD matches, and the entry under its key is the job's own and the very one the result names.
   */
  lemma ReturnedResultIsBacked(p: Setup, w: World, job: Job, uri: string, id: Identity, env: Env) returns (e: Stored)
    requires uri in w.results && w.results[uri].status == Completed && RunOutcome(p, w, job, uri, id, env).1.Ok?
    ensures Scan(p.codec, w.log.entries).Ok? && e in Scan(p.codec, w.log.entries).value
    ensures HeadMatches(p.codec, w.log.head, Scan(p.codec, w.log.entries).value)
    ensures e.doc.key == job.key && e.doc.jobDigest == p.digestOf(job) && e.doc.jobId == job.jobId
    ensures e.doc.attempt == job.attempt && e.doc.inputs == job.inputs
    ensures w.results[uri].receipt == Some(Reference(e.name, e.sha, |e.data|))
    ensures w.results[uri].worker.worker == e.doc.workerId && w.results[uri].worker.session == e.doc.sessionId
    ensures RunOutcome(p, w, job, uri, id, env) == (w, Ok(Outcome(w.results[uri], true)))
  {
    hide Scan, HeadMatches, ExecuteOutcome;
    var found := FindOutcome(p.codec, w.log, job.key, p.digestOf(job));
    e := found.value.value;
  }

  /** A completed document of the job itself is judged by the log: no answer of the log, no entry, another entry. */
  lemma CompletedResultIsJudged(p: Setup, w: World, job: Job, uri: string, id: Identity, env: Env)
    requires uri in w.results && w.results[uri].status == Completed && w.results[uri].receipt.Some?
    requires var doc := w.results[uri];
      && doc.jobId == job.jobId && doc.attempt == job.attempt && doc.key == job.key && doc.jobDigest == p.digestOf(job)
      && job.created <= doc.startedAt <= doc.finishedAt <= job.deadline
    ensures var doc, (now, out) := w.results[uri], RunOutcome(p, w, job, uri, id, env);
      && now == w
      && match FindOutcome(p.codec, w.log, job.key, p.digestOf(job)) {
           case Err(refusal) => out == Err(Log(refusal))
           case Ok(None) => out == Err(ResultConflict)
           case Ok(Some(e)) =>
             if e.doc.jobId != job.jobId || e.doc.attempt != job.attempt || e.doc.inputs != job.inputs then out == Err(ReceiptJobConflict)
             else if doc.receipt != Some(Reference(e.name, e.sha, |e.data|)) || doc.worker != Identity(e.doc.workerId, e.doc.sessionId)
             then out == Err(ResultConflict)
             else out == Ok(Outcome(doc, true))
         }
  {
    hide ExecuteOutcome, Scan, HeadMatches;
  }

  /** What a fault of the result write leaves: the result exactly past its link, never another file. */
  lemma ResultWriteFaults(p: Setup, w: World, uri: string, doc: ResultDoc, maximum: nat, fault: Fault)
    requires Fits(p, w, maximum, [(ResultFile(uri), p.resultBytes(doc))]) && uri !in w.results
    ensures var (now, out) := WriteResultOutcome(p, w, uri, doc, maximum, fault);
      && now.log == w.log
      && (uri in now.results <==> fault != Fails(BeforeLink) && fault != Dies(BeforeLink) && !fault.DiesWithTemporary?)
      && (now.results == if uri in now.results then w.results[uri := doc] else w.results)
      && (now.others != w.others ==> fault.DiesWithTemporary?)
      && (out.Ok? <==> fault == NoFault) && (out.Ok? ==> out.value == Outcome(doc, false))
      && (out == Err(OutputFailed) <==> fault.Fails?)
  {
    hide Fits;
  }

  /** A result file is never overwritten: the same document replays, another conflicts, and nothing changes. */
  lemma ResultsAreNeverOverwritten(p: Setup, w: World, uri: string, doc: ResultDoc, maximum: nat, fault: Fault)
    requires uri in w.results
    ensures WriteResultOutcome(p, w, uri, doc, maximum, fault)
      == (w, if !Fits(p, w, maximum, [(ResultFile(uri), p.resultBytes(doc))]) then Err(WorkspaceExceeded)
             else if w.results[uri] == doc then Ok(Outcome(doc, true)) else Err(ResultConflict))
  {
    hide Fits;
  }

  /** The size the budget gives each file of the output root. */
  lemma SizesByFile(p: Setup, w: World)
    ensures forall name :: OtherFile(name) in Sizes(p, w) <==> name in w.others
    ensures forall name :: EntryFile(name) in Sizes(p, w) <==> name in w.log.entries
    ensures forall uri :: ResultFile(uri) in Sizes(p, w) <==> uri in w.results
    ensures HeadFile in Sizes(p, w) <==> w.log.head.Some?
    ensures forall name :: name in w.others ==> Sizes(p, w)[OtherFile(name)] == w.others[name]
    ensures forall name :: name in w.log.entries ==> Sizes(p, w)[EntryFile(name)] == |w.log.entries[name]|
    ensures forall uri :: uri in w.results ==> Sizes(p, w)[ResultFile(uri)] == p.resultBytes(w.results[uri])
    ensures w.log.head.Some? ==> Sizes(p, w)[HeadFile] == |w.log.head.value|
  {
  }

  /** An entry under the job's key and digest that is still not the job's own is never rebuilt from. */
  lemma ForeignEntryIsRefused(p: Setup, w: World, job: Job, uri: string, id: Identity, env: Env, e: Stored)
    requires uri !in w.results && env.recovery.Ok?
    requires FindOutcome(p.codec, w.log, job.key, p.digestOf(job)) == Ok(Some(e))
    requires e.doc.jobId != job.jobId || e.doc.attempt != job.attempt || e.doc.inputs != job.inputs
    ensures RunOutcome(p, w, job, uri, id, env) == (w, Err(ReceiptJobConflict))
  {
    hide FindOutcome, ExecuteOutcome;
  }
}

/**
 What every run of the worker keeps between the receipt log and the published results, which runs
 contradict the log, and how a run resumes after a failure.
 */
module WorkerRuns {
  import opened Outcomes
  import opened EntryNames
  import opened Receipts
  import opened ReceiptRuns
  import opened Worker
  import Workspace

  /** Lawful codec, collision-free job digests and receipt IDs, and a walk that counts every byte. */
  ghost predicate LawfulSetup(p: Setup) {
    && Lawful(p.codec)
    && (forall a, b :: p.digestOf(a) == p.digestOf(b) ==> a == b)
    && (forall d, n, e, m :: p.receiptId(d, n) == p.receiptId(e, m) ==> d == e && n == m)
    && (forall sizes: map<Path, nat> :: p.measure(sizes) == Workspace.Sum(sizes))
  }

  /** A receipt that some run of this worker wrote for some job. */
  ghost predicate WrittenFor(p: Setup, r: Receipt) {
    exists job :: WrittenForJob(p, r, job)
  }

  ghost predicate WrittenForJob(p: Setup, r: Receipt, job: Job) {
    && ReceiptMatches(p, r, job) && r.id == p.receiptId(p.digestOf(job), job.attempt)
    && r.finishedAt <= job.deadline
  }

  /** The entry a completed result must name: same job, worker and times, and exact bytes. */
  ghost predicate Names(doc: ResultDoc, e: Stored) {
    && doc.jobId == e.doc.jobId && doc.attempt == e.doc.attempt
    && doc.startedAt == e.doc.startedAt && doc.finishedAt == e.doc.finishedAt
    && doc.key == e.doc.key && doc.jobDigest == e.doc.jobDigest
    && doc.worker == Identity(e.doc.workerId, e.doc.sessionId)
    && doc.receipt == Some(RefOf(e.name, e.sha, e.data))
  }

  ghost predicate Backed(doc: ResultDoc, es: seq<Stored>) {
    doc.status == Completed ==> exists e :: e in es && Names(doc, e)
  }

  ghost predicate Consistent(p: Setup, w: World, es: seq<Stored>) {
    && Sound(p.codec, w.log, es)
    && (forall e :: e in es ==> WrittenFor(p, e.doc))
    && (forall uri :: uri in w.results ==> Backed(w.results[uri], es))
  }

  // ----- the commit inside a run

  /** The guards between admission and the commit all pass. */
  ghost predicate ReachesCommit(p: Setup, w: World, job: Job, env: Env) {
    && env.preflight.Ok? && PacketOf(p, job, env).Ok? && env.provenance
    && NotExpired(job, env.clock.evaluated).None? && NotExpired(job, env.clock.stamped).None?
    && VerifyOutcome(p.codec, w.log, false, NoFault).1.Ok?
  }

  /** The receipt of a run that extends these entries. */
  function ReceiptOf(p: Setup, job: Job, id: Identity, env: Env, es: seq<Stored>): Receipt
    requires PacketOf(p, job, env).Ok?
  {
    ReceiptFor(p, job, PacketOf(p, job, env).value, id, LastSha(es), env.clock.stamped)
  }

  /** The commit's own guards pass, so its writes begin. */
  ghost predicate CommitBegins(p: Setup, w: World, job: Job, uri: string, id: Identity, env: Env, es: seq<Stored>) {
    && ReachesCommit(p, w, job, env)
    && var r := ReceiptOf(p, job, id, env, es);
       var e := NewEntry(p.codec, es, r);
       && p.codec.accepts(r) && |e.data| <= MAX_JOB_BYTES && env.clock.committing <= job.deadline
       && AdmitReceipt(p, w, job, uri, id, PacketOf(p, job, env).value, env.clock.stamped, env.preflight.value)(
            Committed(e.name, e.data, e.sha, false), Some(p.codec.encodeHead(HeadOf(es + [e]))))
  }

  /** The preflight and the child never report the log's own exempt codes. */
  ghost predicate ForeignErrors(p: Setup, job: Job, env: Env) {
    && (env.preflight.Err? ==> env.preflight.error !in {Log(HeadWriteFailed), Log(Killed)})
    && (PacketOf(p, job, env).Err? ==> PacketOf(p, job, env).error !in {Log(HeadWriteFailed), Log(Killed)})
  }

  /** With a matching HEAD and an unbound key, the guarded part either writes nothing or commits. */
  lemma ExecuteShape(p: Setup, w: World, job: Job, uri: string, id: Identity, env: Env, es: seq<Stored>)
    requires Scan(p.codec, w.log.entries) == Ok(es) && HeadMatches(p.codec, w.log.head, es)
    requires job.key !in Keys(es) && ForeignErrors(p, job, env)
    ensures !CommitBegins(p, w, job, uri, id, env, es) ==>
      var (after, doc) := ExecuteOutcome(p, w, job, uri, id, env);
      && after == w && doc.Err? && doc.error != Log(HeadWriteFailed) && doc.error != Log(Killed)
    ensures CommitBegins(p, w, job, uri, id, env, es) ==>
      var e := NewEntry(p.codec, es, ReceiptOf(p, job, id, env, es));
      var (log, commit) := WriteOutcome(w.log, e, p.codec.encodeHead(HeadOf(es + [e])), env.fault);
      ExecuteOutcome(p, w, job, uri, id, env)
      == (w.(log := log),
          if commit.Err? then Err(Log(commit.error))
          else Ok(Prepared(p, job, id, PacketOf(p, job, env).value, env.clock.stamped, commit.value)))
  {
    hide Scan, HeadMatches, PacketOf, AdmitReceipt, WriteOutcome, Prepared, Keys;
    FoundKey(es, job.key);
    VerifyFinds(p.codec, w.log, es);
  }

  lemma VerifyFinds(c: Codec, s: Store, es: seq<Stored>)
    requires Scan(c, s.entries) == Ok(es) && HeadMatches(c, s.head, es)
    ensures VerifyOutcome(c, s, false, NoFault).1 == Ok(Verification(|es|, LastSha(es), false))
  {
  }

  // ----- every run keeps results and log consistent

  /** A key without an entry has a receipt ID without an entry: the freshness the log relies on. */
  lemma WorkerReceiptsAreFresh(p: Setup, job: Job, id: Identity, env: Env, es: seq<Stored>)
    requires LawfulSetup(p) && PacketOf(p, job, env).Ok?
    requires forall e :: e in es ==> WrittenFor(p, e.doc)
    requires job.key !in Keys(es)
    ensures ReceiptOf(p, job, id, env, es).id !in Ids(es)
  {
  }

  lemma KeysAre(es: seq<Stored>)
    ensures Keys(es) == set e | e in es :: e.doc.key
    ensures Ids(es) == set e | e in es :: e.doc.id
  {
  }

  lemma BackedLater(doc: ResultDoc, es: seq<Stored>, e: Stored)
    requires Backed(doc, es)
    ensures Backed(doc, es + [e])
  {
  }

  lemma WriteResultKeeps(p: Setup, w: World, es: seq<Stored>, uri: string, doc: ResultDoc, maximum: nat, fault: Fault)
    requires Consistent(p, w, es) && Backed(doc, es)
    ensures var after := WriteResultOutcome(p, w, uri, doc, maximum, fault).0;
      && Consistent(p, after, es) && after.log == w.log
      && (forall u :: u in w.results ==> u in after.results && after.results[u] == w.results[u])
      && (forall u :: u in after.results && u !in w.results ==> u == uri && after.results[u] == doc)
  {
    hide Sound, WrittenFor, Backed, Fits;
  }

  /** The state after the guarded part of a run: the same log, or one new entry of this job. */
  lemma ExecuteKeeps(p: Setup, w: World, job: Job, uri: string, id: Identity, env: Env, es: seq<Stored>) returns (after: seq<Stored>)
    requires LawfulSetup(p) && Consistent(p, w, es) && HeadMatches(p.codec, w.log.head, es)
    requires job.key !in Keys(es) && ForeignErrors(p, job, env)
    requires !env.fault.DiesWithTemporary? && |es| + 1 < SEQUENCE_BOUND
    ensures var (now, doc) := ExecuteOutcome(p, w, job, uri, id, env);
      && Consistent(p, now, after) && now.results == w.results
      && (after == es || (CommitBegins(p, w, job, uri, id, env, es) && after == es + [NewEntry(p.codec, es, ReceiptOf(p, job, id, env, es))]))
      && (doc.Ok? ==> Backed(doc.value, after) && doc.value.status == Completed && after != es && now.log.head == ProperHead(p.codec, after))
      && (doc.Err? && after != es ==> doc.error in {Log(HeadWriteFailed), Log(Killed)} || env.fault == Fails(AfterLink))
      && (env.fault == Fails(AfterLink) && CommitBegins(p, w, job, uri, id, env, es) ==> after != es && doc == Err(Log(EntryWriteFailed)))
  {
    hide Scan, HeadMatches, PacketOf, AdmitReceipt, WrittenFor, Keys, Ids, Backed, ExecuteOutcome, Lawful, Extends;
    ExecuteShape(p, w, job, uri, id, env, es);
    SoundHeadMatches(p.codec, w.log, es);
    after := es;
    if CommitBegins(p, w, job, uri, id, env, es) {
      var r := ReceiptOf(p, job, id, env, es);
      var e := NewEntry(p.codec, es, r);
      CommitWritesExtension(p, w, job, id, env, es);
      assert (es + [e])[..|es|] == es;
      var (now, doc) := ExecuteOutcome(p, w, job, uri, id, env);
      if now.log.entries != w.log.entries {
        after := es + [e];
        forall u | u in w.results
          ensures Backed(w.results[u], after)
        {
          BackedLater(w.results[u], es, e);
        }
      }
      if doc.Ok? {
        NewEntryBacks(p, job, id, env, es);
      }
      assert e !in es;
    }
  }

  lemma NewEntryBacks(p: Setup, job: Job, id: Identity, env: Env, es: seq<Stored>)
    requires PacketOf(p, job, env).Ok?
    ensures var e := NewEntry(p.codec, es, ReceiptOf(p, job, id, env, es));
      Backed(Prepared(p, job, id, PacketOf(p, job, env).value, env.clock.stamped, Committed(e.name, e.data, e.sha, false)), es + [e])
  {
    hide PacketOf;
    var e := NewEntry(p.codec, es, ReceiptOf(p, job, id, env, es));
    var doc := Prepared(p, job, id, PacketOf(p, job, env).value, env.clock.stamped, Committed(e.name, e.data, e.sha, false));
    assert e in es + [e] && Names(doc, e);
  }

  lemma CommitWritesExtension(p: Setup, w: World, job: Job, id: Identity, env: Env, es: seq<Stored>)
    requires LawfulSetup(p) && Consistent(p, w, es) && PacketOf(p, job, env).Ok?
    requires job.key !in Keys(es) && |es| + 1 < SEQUENCE_BOUND
    requires p.codec.accepts(ReceiptOf(p, job, id, env, es)) && |p.codec.encode(ReceiptOf(p, job, id, env, es))| <= MAX_JOB_BYTES
    requires NotExpired(job, env.clock.stamped).None?
    ensures var e := NewEntry(p.codec, es, ReceiptOf(p, job, id, env, es));
      && Scan(p.codec, w.log.entries[e.name := e.data]) == Ok(es + [e])
      && e.name !in w.log.entries && e !in es && WrittenFor(p, e.doc)
      && p.codec.encodeHead(HeadOf(es + [e])) == ProperHead(p.codec, es + [e]).value
  {
    hide Scan, PacketOf, Keys, Ids, Backed, Extends, Lawful;
    var r := ReceiptOf(p, job, id, env, es);
    WorkerReceiptsAreFresh(p, job, id, env, es);
    NewEntryExtends(p.codec, es, r);
    var e := NewEntry(p.codec, es, r);
    LinkedScan(p.codec, w.log.entries, es, e);
    assert WrittenForJob(p, r, job);
    KeysAre(es);
  }

  /**
   Every run, whatever fails, keeps results and log consistent: earlier results and entries stay as
   they are, and every completed result names an entry with its key, digest, worker and bytes.
   */
  lemma RunKeepsConsistent(p: Setup, w: World, job: Job, uri: string, id: Identity, env: Env, es: seq<Stored>) returns (after: seq<Stored>)
    requires LawfulSetup(p) && Consistent(p, w, es) && ForeignErrors(p, job, env)
    requires !env.fault.DiesWithTemporary? && |es| + 1 < SEQUENCE_BOUND
    ensures var now := RunOutcome(p, w, job, uri, id, env).0;
      && Consistent(p, now, after) && es <= after && |after| <= |es| + 1
      && (forall u :: u in w.results ==> u in now.results && now.results[u] == w.results[u])
  {
    hide Scan, HeadMatches, WrittenFor, Keys, Backed, ExecuteOutcome, CommitBegins, LawfulSetup, ReplayOutcome, WriteResultOutcome;
    after := es;
    var found := FindOutcome(p.codec, w.log, job.key, p.digestOf(job));
    if uri !in w.results && found.Ok? {
      FoundKey(es, job.key);
      if found.value.Some? {
        if env.recovery.Ok? && ReceiptMatches(p, found.value.value.doc, job) {
          RebuiltIsBacked(p, job, es, found.value.value);
          WriteResultKeeps(p, w, es, uri, Rebuilt(p, job, found.value.value), env.recovery.value, env.resultFault);
        }
      } else if NotExpired(job, env.clock.admitted).None? {
        after := ExecuteKeeps(p, w, job, uri, id, env, es);
        var (now, doc) := ExecuteOutcome(p, w, job, uri, id, env);
        var maximum := if env.preflight.Ok? then env.preflight.value else env.preliminaryMax;
        if doc.Ok? {
          WriteResultKeeps(p, now, after, uri, doc.value, maximum, env.resultFault);
        } else {
          RejectedIsBacked(p, job, id, env.clock, doc.error, after);
          WriteResultKeeps(p, now, after, uri, RejectedDoc(p, job, id, env.clock, doc.error), maximum, env.resultFault);
        }
      }
    }
  }

  lemma RejectedIsBacked(p: Setup, job: Job, id: Identity, clock: Clock, code: Code, es: seq<Stored>)
    ensures Backed(RejectedDoc(p, job, id, clock, code), es)
  {
  }

  lemma RebuiltIsBacked(p: Setup, job: Job, es: seq<Stored>, e: Stored)
    requires e in es && ReceiptMatches(p, e.doc, job)
    ensures Backed(Rebuilt(p, job, e), es)
  {
  }

  datatype WorkerAction =
    | RunningJob(job: Job, uri: string, id: Identity, env: Env)
    | Recovering(fault: Fault)

  ghost function Perform(p: Setup, w: World, a: WorkerAction): World {
    match a
    case RunningJob(job, uri, id, env) => RunOutcome(p, w, job, uri, id, env).0
    case Recovering(fault) => w.(log := VerifyOutcome(p.codec, w.log, true, fault).0)
  }

  ghost function PerformAll(p: Setup, w: World, actions: seq<WorkerAction>): World {
    if actions == [] then w else Perform(p, PerformAll(p, w, actions[..|actions| - 1]), actions[|actions| - 1])
  }

  ghost predicate InModel(p: Setup, a: WorkerAction) {
    a.RunningJob? ==> ForeignErrors(p, a.job, a.env) && !a.env.fault.DiesWithTemporary?
  }

  /** Over every sequence of runs and recoveries no completed result ever loses the entry it names. */
  lemma {:induction false} EveryRunKeepsConsistent(p: Setup, w: World, es: seq<Stored>, actions: seq<WorkerAction>) returns (after: seq<Stored>)
    requires LawfulSetup(p) && Consistent(p, w, es) && |es| + |actions| < SEQUENCE_BOUND
    requires forall a :: a in actions ==> InModel(p, a)
    ensures Consistent(p, PerformAll(p, w, actions), after) && es <= after && |after| <= |es| + |actions|
    ensures forall u :: u in w.results ==> u in PerformAll(p, w, actions).results && PerformAll(p, w, actions).results[u] == w.results[u]
  {
    hide Consistent, RunOutcome, VerifyOutcome, ForeignErrors, LawfulSetup;
    if actions == [] {
      after := es;
    } else {
      var k := |actions| - 1;
      var a, before := actions[k], PerformAll(p, w, actions[..k]);
      assert a in actions && InModel(p, a);
      var middle := EveryRunKeepsConsistent(p, w, es, actions[..k]);
      match a {
        case RunningJob(job, uri, id, env) =>
          after := RunKeepsConsistent(p, before, job, uri, id, env, middle);
        case Recovering(fault) =>
          RecoveryKeepsConsistent(p, before, middle, fault);
          after := middle;
      }
    }
  }

  /** The empty output root, from which every sequence of runs starts, is consistent. */
  lemma EmptyRootIsConsistent(p: Setup, others: map<string, nat>)
    requires LawfulSetup(p)
    ensures Consistent(p, World(Store(map[], None), map[], others), [])
  {
    EmptyLogIsSound(p.codec);
  }

  lemma RecoveryKeepsConsistent(p: Setup, w: World, es: seq<Stored>, fault: Fault)
    requires LawfulSetup(p) && Consistent(p, w, es)
    ensures Consistent(p, w.(log := VerifyOutcome(p.codec, w.log, true, fault).0), es)
  {
    hide Sound, Backed, WrittenFor, VerifyOutcome;
    VerifyKeepsSound(p.codec, w.log, es, true, fault);
  }

  // ----- which runs contradict the log

  ghost predicate HoldsKey(p: Setup, w: World, key: string) {
    Scan(p.codec, w.log.entries).Ok? && key in Keys(Scan(p.codec, w.log.entries).value)
  }

  /**
   A result that is not completed is published while the log holds an entry for its key exactly when
   the commit failed after the entry link with an error of the program's own: the one failure that
   the exemption for HEAD writes does not cover.
   */
  lemma RejectionContradictsExactlyAfterLink(p: Setup, w: World, job: Job, uri: string, id: Identity, env: Env, es: seq<Stored>)
    requires LawfulSetup(p) && Consistent(p, w, es) && ForeignErrors(p, job, env)
    requires !env.fault.DiesWithTemporary? && |es| + 1 < SEQUENCE_BOUND
    requires uri !in w.results
    requires var now := RunOutcome(p, w, job, uri, id, env).0; uri in now.results && now.results[uri].status != Completed
    ensures HoldsKey(p, RunOutcome(p, w, job, uri, id, env).0, job.key)
        <==> env.fault == Fails(AfterLink) && CommitBegins(p, w, job, uri, id, env, es)
  {
    hide Scan, HeadMatches, WrittenFor, Keys, Backed, ExecuteOutcome, CommitBegins, LawfulSetup, WriteResultOutcome;
    FoundKey(es, job.key);
    assert Scan(p.codec, w.log.entries) == Ok(es);
    var found := FindOutcome(p.codec, w.log, job.key, p.digestOf(job));
    if found.Ok? && found.value.Some? && env.recovery.Ok? {
      PublishesOnly(p, w, uri, Rebuilt(p, job, found.value.value), env.recovery.value, env.resultFault);
    }
    var after := ExecuteKeeps(p, w, job, uri, id, env, es);
    var (middle, doc) := ExecuteOutcome(p, w, job, uri, id, env);
    var published := if doc.Ok? then doc.value else RejectedDoc(p, job, id, env.clock, doc.error);
    PublishesOnly(p, middle, uri, published, if env.preflight.Ok? then env.preflight.value else env.preliminaryMax, env.resultFault);
    assert RunOutcome(p, w, job, uri, id, env).0.log == middle.log;
    if after != es {
      KeysGrow(p, w, job, uri, id, env, es);
    }
  }

  /**
   The failing input: a commit that fails right after its entry link, and room for the rejection. The
   run publishes a result that is not completed while the log holds an entry for the key.
   */
  lemma FailureAfterLinkContradicts(p: Setup, w: World, job: Job, uri: string, id: Identity, env: Env, es: seq<Stored>)
    requires LawfulSetup(p) && Consistent(p, w, es) && HeadMatches(p.codec, w.log.head, es) && ForeignErrors(p, job, env)
    requires uri !in w.results && job.key !in Keys(es) && |es| + 1 < SEQUENCE_BOUND && NotExpired(job, env.clock.admitted).None?
    requires CommitBegins(p, w, job, uri, id, env, es) && env.fault == Fails(AfterLink) && env.resultFault == NoFault
    requires Fits(p, ExecuteOutcome(p, w, job, uri, id, env).0, env.preflight.value,
                  [(ResultFile(uri), p.resultBytes(RejectedDoc(p, job, id, env.clock, Log(EntryWriteFailed))))])
    ensures var (now, out) := RunOutcome(p, w, job, uri, id, env);
      && out == Ok(Outcome(RejectedDoc(p, job, id, env.clock, Log(EntryWriteFailed)), false))
      && uri in now.results && now.results[uri] == out.value.result && now.results[uri].status != Completed
      && HoldsKey(p, now, job.key)
  {
    hide Scan, HeadMatches, WrittenFor, Keys, Backed, ExecuteOutcome, LawfulSetup, Fits, NotExpired, AdmitReceipt, PacketOf;
    var after := ExecuteKeeps(p, w, job, uri, id, env, es);
    FoundKey(es, job.key);
    KeysGrow(p, w, job, uri, id, env, es);
  }

  lemma PublishesOnly(p: Setup, w: World, uri: string, doc: ResultDoc, maximum: nat, fault: Fault)
    ensures var after := WriteResultOutcome(p, w, uri, doc, maximum, fault).0;
      after.log == w.log && (uri in after.results && uri !in w.results ==> after.results[uri] == doc)
  {
  }

  lemma KeysGrow(p: Setup, w: World, job: Job, uri: string, id: Identity, env: Env, es: seq<Stored>)
    requires CommitBegins(p, w, job, uri, id, env, es)
    ensures job.key in Keys(es + [NewEntry(p.codec, es, ReceiptOf(p, job, id, env, es))])
  {
    hide PacketOf, AdmitReceipt, Keys;
    IdentitiesGrow(es, NewEntry(p.codec, es, ReceiptOf(p, job, id, env, es)));
  }

  // ----- replay

  /**
   Wherever the log and the results are consistent and HEAD matches, a rerun with a completed result
   at its URI changes no file, and returns that result exactly when it is the job's own and its start
   is not before the job's creation. Any other rerun is a conflict.
   */
  lemma RerunReturnsTheStoredResult(p: Setup, w: World, job: Job, uri: string, id: Identity, env: Env, es: seq<Stored>)
    requires LawfulSetup(p) && Consistent(p, w, es) && w.log.head == ProperHead(p.codec, es)
    requires uri in w.results && w.results[uri].status == Completed
    ensures var doc := w.results[uri];
      RunOutcome(p, w, job, uri, id, env)
      == (w, if doc.jobDigest == p.digestOf(job) && job.created <= doc.startedAt then Ok(Outcome(doc, true)) else Err(ResultConflict))
  {
    hide Scan, Keys, Lawful, Chain;
    var doc := w.results[uri];
    var e :| e in es && Names(doc, e);
    if doc.jobDigest == p.digestOf(job) {
      NamedEntryFits(p, w, job, doc, e, es);
      SoundHeadMatches(p.codec, w.log, es);
      ScanAcceptsExactlyLayouts(p.codec, w.log.entries, es);
      ChainKeysDistinct(p.codec, es);
      KeyFoundAtEntry(es, e);
    }
  }

  /** The entry a completed result names was written for the one job with the result's digest. */
  lemma NamedEntryFits(p: Setup, w: World, job: Job, doc: ResultDoc, e: Stored, es: seq<Stored>)
    requires LawfulSetup(p) && Consistent(p, w, es) && e in es && Names(doc, e)
    requires doc.status == Completed && doc.jobDigest == p.digestOf(job)
    ensures ReceiptMatches(p, e.doc, job)
    ensures ResultMatches(p, doc, job) <==> job.created <= doc.startedAt
  {
    hide Scan, Keys, Lawful, Chain, EntryName, ValidId;
    var writer :| WrittenForJob(p, e.doc, writer);
    assert p.digestOf(writer) == p.digestOf(job) && writer == job;
    ScanAcceptsExactlyLayouts(p.codec, w.log.entries, es);
    var i :| 0 <= i < |es| && es[i] == e;
    LinkAccepted(p.codec, es, i);
  }

  lemma LinkAccepted(c: Codec, es: seq<Stored>, i: nat)
    requires Lawful(c) && Chain(c, es) && i < |es|
    ensures es[i].doc.startedAt <= es[i].doc.finishedAt
  {
    hide EntryName, ValidId, Lawful;
    assert Link(c, es, i);
    AcceptedReceipt(c, es[i].doc);
  }

  lemma ChainKeysDistinct(c: Codec, es: seq<Stored>)
    requires Chain(c, es)
    ensures forall i, j :: 0 <= i < j < |es| ==> es[i].doc.key != es[j].doc.key
  {
  }

  /** When the packet of a run starts within the job's window: a child's own packet always does. */
  predicate StartsInWindow(job: Job, env: Env) {
    env.child.Ok? || job.created <= env.clock.started
  }

  /** The start a run puts into a completed result: that of the bound entry, or of its own packet. */
  predicate PublishesReplayable(job: Job, env: Env, es: seq<Stored>) {
    var bound := FirstWithKey(es, job.key);
    if bound.Some? then job.created <= bound.value.doc.startedAt else StartsInWindow(job, env)
  }

  /** A run that publishes a completed result leaves a consistent log with its proper HEAD. */
  lemma PublishedCompleted(p: Setup, w: World, job: Job, uri: string, id: Identity, env: Env, es: seq<Stored>) returns (after: seq<Stored>)
    requires LawfulSetup(p) && Consistent(p, w, es) && ForeignErrors(p, job, env)
    requires !env.fault.DiesWithTemporary? && |es| + 1 < SEQUENCE_BOUND
    requires uri !in w.results
    requires var now := RunOutcome(p, w, job, uri, id, env).0; uri in now.results && now.results[uri].status == Completed
    ensures var now := RunOutcome(p, w, job, uri, id, env).0;
      && Consistent(p, now, after) && now.log.head == ProperHead(p.codec, after)
      && now.results[uri].jobDigest == p.digestOf(job)
      && (job.created <= now.results[uri].startedAt <==> PublishesReplayable(job, env, es))
  {
    hide Scan, HeadMatches, WrittenFor, Keys, Backed, ExecuteOutcome, CommitBegins, LawfulSetup, WriteResultOutcome, ReplayOutcome, NotExpired;
    after := RunKeepsConsistent(p, w, job, uri, id, env, es);
    FoundKey(es, job.key);
    SoundHeadMatches(p.codec, w.log, es) by { LawfulCodec(p); }
    var found := FindOutcome(p.codec, w.log, job.key, p.digestOf(job));
    if found.value.Some? {
      PublishesOnly(p, w, uri, Rebuilt(p, job, found.value.value), env.recovery.value, env.resultFault);
      SameScan(p, RunOutcome(p, w, job, uri, id, env).0, w, after, es);
    } else {
      var committed := ExecuteKeeps(p, w, job, uri, id, env, es);
      var (middle, doc) := ExecuteOutcome(p, w, job, uri, id, env);
      var published := if doc.Ok? then doc.value else RejectedDoc(p, job, id, env.clock, doc.error);
      PublishesOnly(p, middle, uri, published, if env.preflight.Ok? then env.preflight.value else env.preliminaryMax, env.resultFault);
      SameScan(p, RunOutcome(p, w, job, uri, id, env).0, middle, after, committed);
      ExecutedStart(p, w, job, uri, id, env);
    }
  }

  lemma LawfulCodec(p: Setup)
    requires LawfulSetup(p)
    ensures Lawful(p.codec)
  {
  }

  lemma SameScan(p: Setup, now: World, w: World, after: seq<Stored>, es: seq<Stored>)
    requires Consistent(p, now, after) && Consistent(p, w, es) && now.log == w.log
    ensures after == es
  {
    hide Scan;
  }

  lemma ExecutedStart(p: Setup, w: World, job: Job, uri: string, id: Identity, env: Env)
    requires ExecuteOutcome(p, w, job, uri, id, env).1.Ok?
    ensures var doc := ExecuteOutcome(p, w, job, uri, id, env).1.value;
      doc.jobDigest == p.digestOf(job) && (job.created <= doc.startedAt <==> StartsInWindow(job, env))
  {
    hide CommitOutcome, VerifyOutcome, AdmitReceipt;
  }

  /**
   A completed result that a run published is returned by every later rerun exactly when its start is
   not before the job's creation. A child's packet never starts earlier; an evaluation error turned
   into a receipt carries the time read before admission, which can.
   */
  lemma CompletedResultReplaysExactly(p: Setup, w: World, job: Job, uri: string, id: Identity, env: Env, other: Identity, again: Env, es: seq<Stored>)
    requires LawfulSetup(p) && Consistent(p, w, es) && ForeignErrors(p, job, env)
    requires !env.fault.DiesWithTemporary? && |es| + 1 < SEQUENCE_BOUND
    requires uri !in w.results
    requires var now := RunOutcome(p, w, job, uri, id, env).0; uri in now.results && now.results[uri].status == Completed
    ensures var now := RunOutcome(p, w, job, uri, id, env).0;
      RunOutcome(p, now, job, uri, other, again)
      == (now, if PublishesReplayable(job, env, es) then Ok(Outcome(now.results[uri], true)) else Err(ResultConflict))
  {
    hide Consistent, RunOutcome, LawfulSetup, ProperHead, PublishesReplayable, ForeignErrors;
    var after := PublishedCompleted(p, w, job, uri, id, env, es);
    RerunReturnsTheStoredResult(p, RunOutcome(p, w, job, uri, id, env).0, job, uri, other, again, after);
  }

  /**
   The failing input: started before the job's creation, admitted after it, and an evaluation error
   that becomes a receipt. The completed result is published, and every rerun refuses it.
   */
  lemma EarlyStartNeverReplays(p: Setup, w: World, job: Job, uri: string, id: Identity, env: Env, other: Identity, again: Env, es: seq<Stored>)
    requires LawfulSetup(p) && Consistent(p, w, es) && HeadMatches(p.codec, w.log.head, es) && |es| + 1 < SEQUENCE_BOUND
    requires uri !in w.results && job.key !in Keys(es) && NotExpired(job, env.clock.admitted).None?
    requires CommitBegins(p, w, job, uri, id, env, es) && env.fault == NoFault && env.resultFault == NoFault
    requires env.child.Err? && !NonReceipt(env.child.error) && env.clock.started < job.created
    ensures var (now, out) := RunOutcome(p, w, job, uri, id, env);
      && out.Ok? && uri in now.results && out.value.result == now.results[uri] && now.results[uri].status == Completed
      && RunOutcome(p, now, job, uri, other, again) == (now, Err(ResultConflict))
  {
    hide Scan, HeadMatches, WrittenFor, Keys, Backed, ExecuteOutcome, LawfulSetup, RunOutcome, Consistent, NotExpired, AdmitReceipt;
    AdmittedRunPublishes(p, w, job, uri, id, env, es);
    FoundKey(es, job.key);
    CompletedResultReplaysExactly(p, w, job, uri, id, env, other, again, es);
  }

  /**
   A rejection carries the time read before admission, so it replays exactly when that reading was
   not earlier than the job's creation, nor later than the end; any other is a conflict for ever.
   */
  lemma RejectionReplaysExactlyWhenStartedInWindow(p: Setup, w: World, job: Job, uri: string, id: Identity, env: Env, again: Env, code: Code)
    requires uri in w.results && w.results[uri] == RejectedDoc(p, job, id, env.clock, code)
    ensures RunOutcome(p, w, job, uri, id, again)
      == (w, if job.created <= env.clock.started <= env.clock.failed then Ok(Outcome(w.results[uri], true)) else Err(ResultConflict))
  {
  }

  /** A run whose commit never begins, with room for the rejection, stores its rejection. */
  lemma RefusedRunStoresRejection(p: Setup, w: World, job: Job, uri: string, id: Identity, env: Env, es: seq<Stored>)
    requires LawfulSetup(p) && Consistent(p, w, es) && HeadMatches(p.codec, w.log.head, es) && ForeignErrors(p, job, env)
    requires uri !in w.results && job.key !in Keys(es) && NotExpired(job, env.clock.admitted).None?
    requires !CommitBegins(p, w, job, uri, id, env, es) && env.resultFault == NoFault
    ensures ExecuteOutcome(p, w, job, uri, id, env).1.Err?
    ensures var doc := RejectedDoc(p, job, id, env.clock, ExecuteOutcome(p, w, job, uri, id, env).1.error);
      Fits(p, w, if env.preflight.Ok? then env.preflight.value else env.preliminaryMax, [(ResultFile(uri), p.resultBytes(doc))]) ==>
        RunOutcome(p, w, job, uri, id, env) == (w.(results := w.results[uri := doc]), Ok(Outcome(doc, false)))
  {
    hide Scan, HeadMatches, WrittenFor, Keys, Backed, ExecuteOutcome, CommitBegins, LawfulSetup, Fits, RejectedDoc, NotExpired;
    ExecuteShape(p, w, job, uri, id, env, es);
    FoundKey(es, job.key);
  }

  /**
   The failing input for rejections: a run that starts before the job's creation, is admitted after
   it and is refused stores a rejection that every rerun refuses.
   */
  lemma EarlyRejectionNeverReplays(p: Setup, w: World, job: Job, uri: string, id: Identity, env: Env, again: Env, es: seq<Stored>, code: Code)
    requires LawfulSetup(p) && Consistent(p, w, es) && HeadMatches(p.codec, w.log.head, es)
    requires uri !in w.results && job.key !in Keys(es) && env.resultFault == NoFault
    requires env.clock.started < job.created && NotExpired(job, env.clock.admitted).None?
    requires ForeignErrors(p, job, env) && env.preflight == Err(code)
    requires Fits(p, w, env.preliminaryMax, [(ResultFile(uri), p.resultBytes(RejectedDoc(p, job, id, env.clock, code)))])
    ensures var (now, out) := RunOutcome(p, w, job, uri, id, env);
      && out == Ok(Outcome(RejectedDoc(p, job, id, env.clock, code), false))
      && uri in now.results && now.results[uri] == out.value.result
      && RunOutcome(p, now, job, uri, id, again) == (now, Err(ResultConflict))
  {
    hide Scan, HeadMatches, WrittenFor, Keys, Backed, LawfulSetup, Fits, RejectedDoc, NotExpired, Consistent, RunOutcome, PacketOf;
    RefusedRunStoresRejection(p, w, job, uri, id, env, es);
    RejectionReplaysExactlyWhenStartedInWindow(p, RunOutcome(p, w, job, uri, id, env).0, job, uri, id, env, again, code);
  }

  // ----- budget

  lemma SizesWithEntry(p: Setup, w: World, name: string, data: string)
    ensures Sizes(p, w.(log := w.log.(entries := w.log.entries[name := data])))
         == Sizes(p, w)[EntryFile(name) := |data|]
  {
    var after := w.(log := w.log.(entries := w.log.entries[name := data]));
    assert Files(after) == Files(w) + {EntryFile(name)};
    forall path
      ensures SizeAt(p, after, path) == if path == EntryFile(name) then |data| else SizeAt(p, w, path)
    {
    }
    hide SizeAt, Files;
  }

  lemma SizesWithHead(p: Setup, w: World, head: string)
    ensures Sizes(p, w.(log := w.log.(head := Some(head)))) == Sizes(p, w)[HeadFile := |head|]
  {
    assert Files(w.(log := w.log.(head := Some(head)))) == Files(w) + {HeadFile};
  }

  /** The files after the log part of a commit are the files before with its two writes applied. */
  lemma SizesAfterCommit(p: Setup, w: World, name: string, data: string, head: string)
    ensures Sizes(p, w.(log := Store(w.log.entries[name := data], Some(head))))
         == Workspace.AfterWrites(Sizes(p, w), [(EntryFile(name), |data|), (HeadFile, |head|)])
  {
    hide Sizes;
    var linked := w.(log := w.log.(entries := w.log.entries[name := data]));
    SizesWithEntry(p, w, name, data);
    SizesWithHead(p, linked, head);
    Workspace.TwoWrites(Sizes(p, w), (EntryFile(name), |data|), (HeadFile, |head|));
  }

  /**
   Once the commit begins, its admission already covered the result: every intermediate total stays
   within the maximum, and without faults the run publishes the completed result.
   */
  lemma AdmittedRunPublishes(p: Setup, w: World, job: Job, uri: string, id: Identity, env: Env, es: seq<Stored>)
    requires LawfulSetup(p) && Consistent(p, w, es) && HeadMatches(p.codec, w.log.head, es) && ForeignErrors(p, job, env)
    requires uri !in w.results && job.key !in Keys(es) && NotExpired(job, env.clock.admitted).None?
    requires CommitBegins(p, w, job, uri, id, env, es) && env.fault == NoFault && env.resultFault == NoFault
    ensures var e := NewEntry(p.codec, es, ReceiptOf(p, job, id, env, es));
      var commit := Committed(e.name, e.data, e.sha, false);
      var head := p.codec.encodeHead(HeadOf(es + [e]));
      var doc := Prepared(p, job, id, PacketOf(p, job, env).value, env.clock.stamped, commit);
      && RunOutcome(p, w, job, uri, id, env)
         == (World(Store(w.log.entries[e.name := e.data], Some(head)), w.results[uri := doc], w.others), Ok(Outcome(doc, false)))
      && Workspace.StaysWithin(Sizes(p, w), env.preflight.value, Writes(p, uri, doc, commit, Some(head)))
  {
    hide Scan, HeadMatches, PacketOf, WrittenFor, Keys, Backed, ExecuteOutcome, Lawful, Sizes, Prepared;
    ExecuteShape(p, w, job, uri, id, env, es);
    FoundKey(es, job.key);
    var e := NewEntry(p.codec, es, ReceiptOf(p, job, id, env, es));
    var commit := Committed(e.name, e.data, e.sha, false);
    var head := p.codec.encodeHead(HeadOf(es + [e]));
    var doc := Prepared(p, job, id, PacketOf(p, job, env).value, env.clock.stamped, commit);
    FittingCommitFitsResult(p, w, uri, doc, commit, head, env.preflight.value);
  }

  lemma FittingCommitFitsResult(p: Setup, w: World, uri: string, doc: ResultDoc, commit: Committed, head: string, maximum: nat)
    requires LawfulSetup(p) && !commit.replayed
    requires Fits(p, w, maximum, Writes(p, uri, doc, commit, Some(head)))
    ensures Fits(p, w.(log := Store(w.log.entries[commit.name := commit.data], Some(head))), maximum, [(ResultFile(uri), p.resultBytes(doc))])
    ensures Workspace.StaysWithin(Sizes(p, w), maximum, Writes(p, uri, doc, commit, Some(head)))
  {
    hide Lawful, Sizes;
    var first: seq<(Path, nat)> := [(EntryFile(commit.name), |commit.data|), (HeadFile, |head|)];
    var last: (Path, nat) := (ResultFile(uri), p.resultBytes(doc));
    assert Writes(p, uri, doc, commit, Some(head)) == first + [last];
    Workspace.AdmittedExactlyWhenWithin(Sizes(p, w), maximum, first + [last]);
    Workspace.LaterCheckCannotFail(Sizes(p, w), maximum, first, last);
    SizesAfterCommit(p, w, commit.name, commit.data, head);
  }

  // ----- resuming after a failure

  /** The failures after which a durable receipt exists and no result was published. */
  predicate Interrupted(env: Env) {
    || env.fault in {Fails(BeforeReplace), Fails(AfterReplace), Dies(AfterLink), Dies(BeforeReplace), Dies(AfterReplace)}
    || (env.fault == NoFault && env.resultFault in {Fails(BeforeLink), Dies(BeforeLink)})
  }

  lemma BegunCommitFits(p: Setup, w: World, job: Job, uri: string, id: Identity, env: Env, es: seq<Stored>)
    requires CommitBegins(p, w, job, uri, id, env, es)
    ensures env.preflight.Ok? && PacketOf(p, job, env).Ok? && NotExpired(job, env.clock.stamped).None?
    ensures p.codec.accepts(ReceiptOf(p, job, id, env, es)) && |p.codec.encode(ReceiptOf(p, job, id, env, es))| <= MAX_JOB_BYTES
    ensures var e := NewEntry(p.codec, es, ReceiptOf(p, job, id, env, es));
      var commit := Committed(e.name, e.data, e.sha, false);
      Fits(p, w, env.preflight.value,
           Writes(p, uri, Prepared(p, job, id, PacketOf(p, job, env).value, env.clock.stamped, commit), commit, Some(p.codec.encodeHead(HeadOf(es + [e])))))
  {
    hide PacketOf, Fits, VerifyOutcome;
  }

  /** What an interrupted run leaves: the entry, HEAD old or new, and no result. */
  lemma InterruptedRunLeavesEntry(p: Setup, w: World, job: Job, uri: string, id: Identity, env: Env, es: seq<Stored>)
    requires LawfulSetup(p) && Consistent(p, w, es) && HeadMatches(p.codec, w.log.head, es) && ForeignErrors(p, job, env)
    requires uri !in w.results && job.key !in Keys(es) && NotExpired(job, env.clock.admitted).None?
    requires CommitBegins(p, w, job, uri, id, env, es) && Interrupted(env)
    ensures var e := NewEntry(p.codec, es, ReceiptOf(p, job, id, env, es));
      var broken := RunOutcome(p, w, job, uri, id, env).0;
      && broken == w.(log := Store(w.log.entries[e.name := e.data], broken.log.head))
      && broken.log.head in {w.log.head, Some(p.codec.encodeHead(HeadOf(es + [e])))}
  {
    hide Scan, HeadMatches, PacketOf, WrittenFor, Keys, Backed, ExecuteOutcome, LawfulSetup, Prepared, CommitBegins, NotExpired, RejectedDoc, Fits, NewEntry, ReceiptOf, ForeignErrors, FirstWithKey;
    ExecuteShape(p, w, job, uri, id, env, es);
    FoundKey(es, job.key);
  }

  /**
   Interrupt a run anywhere between the entry link and the link of the result, recover HEAD, and
   run the job again at the same URI: log and results end up exactly as in the undisturbed run.
   */
  lemma InterruptedRunResumes(p: Setup, w: World, job: Job, uri: string, id: Identity, env: Env, other: Identity, again: Env, es: seq<Stored>)
    requires LawfulSetup(p) && Consistent(p, w, es) && HeadMatches(p.codec, w.log.head, es) && ForeignErrors(p, job, env)
    requires uri !in w.results && job.key !in Keys(es) && NotExpired(job, env.clock.admitted).None?
    requires CommitBegins(p, w, job, uri, id, env, es) && Interrupted(env) && |es| + 1 < SEQUENCE_BOUND
    requires again.resultFault == NoFault && again.recovery == env.preflight
    ensures var broken := RunOutcome(p, w, job, uri, id, env).0;
      var recovered := broken.(log := VerifyOutcome(p.codec, broken.log, true, NoFault).0);
      && broken.results == w.results
      && RunOutcome(p, recovered, job, uri, other, again)
         == RunOutcome(p, w, job, uri, id, env.(fault := NoFault, resultFault := NoFault))
  {
    hide Scan, HeadMatches, PacketOf, Keys, Lawful, Fits, VerifyOutcome, CommitBegins, Consistent, RunOutcome, Interrupted, LawfulSetup;
    var smooth := env.(fault := NoFault, resultFault := NoFault);
    SameButFaults(p, w, job, uri, id, env, smooth, es);
    AdmittedRunPublishes(p, w, job, uri, id, smooth, es);
    BegunCommitFits(p, w, job, uri, id, env, es);
    InterruptedRunLeavesEntry(p, w, job, uri, id, env, es);
    var e := NewEntry(p.codec, es, ReceiptOf(p, job, id, env, es));
    RebuildPublishes(p, w, job, uri, id, env, other, again, es, RunOutcome(p, w, job, uri, id, env).0.log.head);
  }

  lemma RebuildPublishes(p: Setup, w: World, job: Job, uri: string, id: Identity, env: Env, other: Identity, again: Env, es: seq<Stored>, head: Option<string>)
    requires LawfulSetup(p) && Consistent(p, w, es) && HeadMatches(p.codec, w.log.head, es)
    requires PacketOf(p, job, env).Ok? && head in {w.log.head, Some(p.codec.encodeHead(HeadOf(es + [NewEntry(p.codec, es, ReceiptOf(p, job, id, env, es))])))}
    requires uri !in w.results && job.key !in Keys(es) && |es| + 1 < SEQUENCE_BOUND
    requires CommitBegins(p, w, job, uri, id, env, es)
    requires again.resultFault == NoFault && again.recovery == env.preflight
    ensures env.preflight.Ok? && PacketOf(p, job, env).Ok?
    ensures var e := NewEntry(p.codec, es, ReceiptOf(p, job, id, env, es));
      var proper := p.codec.encodeHead(HeadOf(es + [e]));
      var broken := w.(log := Store(w.log.entries[e.name := e.data], head));
      var doc := Prepared(p, job, id, PacketOf(p, job, env).value, env.clock.stamped, Committed(e.name, e.data, e.sha, false));
      RunOutcome(p, broken.(log := VerifyOutcome(p.codec, broken.log, true, NoFault).0), job, uri, other, again)
      == (World(Store(w.log.entries[e.name := e.data], Some(proper)), w.results[uri := doc], w.others), Ok(Outcome(doc, false)))
  {
    hide Scan, PacketOf, HeadMatches, WrittenFor, Keys, Backed, Lawful, Fits, VerifyOutcome, CommitBegins, FindOutcome, ExecuteOutcome;
    BegunCommitFits(p, w, job, uri, id, env, es);
    SoundHeadMatches(p.codec, w.log, es);
    CommitWritesExtension(p, w, job, id, env, es);
    var e := NewEntry(p.codec, es, ReceiptOf(p, job, id, env, es));
    var broken := w.(log := Store(w.log.entries[e.name := e.data], head));
    RecoveryRestoresHead(p.codec, broken.log, es + [e]);
    var recovered := broken.(log := VerifyOutcome(p.codec, broken.log, true, NoFault).0);
    FoundAfterRecovery(p, recovered.log, job, es, e);
    var commit := Committed(e.name, e.data, e.sha, false);
    var doc := Prepared(p, job, id, PacketOf(p, job, env).value, env.clock.stamped, commit);
    FittingCommitFitsResult(p, w, uri, doc, commit, p.codec.encodeHead(HeadOf(es + [e])), env.preflight.value);
    assert Rebuilt(p, job, e) == doc;
  }

  lemma SameButFaults(p: Setup, w: World, job: Job, uri: string, id: Identity, env: Env, smooth: Env, es: seq<Stored>)
    requires smooth == env.(fault := smooth.fault, resultFault := smooth.resultFault)
    ensures PacketOf(p, job, env) == PacketOf(p, job, smooth)
    ensures ForeignErrors(p, job, env) <==> ForeignErrors(p, job, smooth)
    ensures CommitBegins(p, w, job, uri, id, env, es) <==> CommitBegins(p, w, job, uri, id, smooth, es)
  {
    hide VerifyOutcome, AdmitReceipt;
  }

  lemma FoundAfterRecovery(p: Setup, log: Store, job: Job, es: seq<Stored>, e: Stored)
    requires LawfulSetup(p) && Scan(p.codec, log.entries) == Ok(es + [e]) && log.head == ProperHead(p.codec, es + [e])
    requires e.doc.key == job.key && e.doc.jobDigest == p.digestOf(job)
    ensures FindOutcome(p.codec, log, job.key, p.digestOf(job)) == Ok(Some(e))
  {
    hide Scan, Lawful, Chain;
    SoundHeadMatches(p.codec, log, es + [e]);
    ScanAcceptsExactlyLayouts(p.codec, log.entries, es + [e]);
    ChainKeysDistinct(p.codec, es + [e]);
    KeyFoundAtEntry(es + [e], e);
  }
}

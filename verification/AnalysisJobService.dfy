/** The analysis-job service as it runs: it edits its session, records status changes in
    its outbox, and then commits and publishes, or rolls back and mostly forgets. */
module AnalysisJobServices {
  import opened Options
  import opened Lifecycle
  import opened Records
  import opened JobRules
  import opened DocumentEvents
  import opened Services

  /** What the database may do to one transaction: nothing; raise before a status has been
      recorded; raise in the insert or in `set_current_job`; refuse the insert by a unique
      index, `seen` being what the second look reads; fail the commit. Only a creation has
      statements behind the recorded status, so elsewhere raising is raising before it. */
  datatype Fault =
    | NoFault
    | EarlyCrash
    | LateCrash
    | Conflict(seen: Database)
    | CommitFails

  datatype Reply = Made(job: JobId) | Known(jobs: set<JobId>) | NotMade(ending: Ending)

  // ---------------------------------------------------------------------------
  // What every call does to the instance
  // ---------------------------------------------------------------------------

  function DraftChange(db: Database, d: DocumentId): seq<StatusChange>
    requires d in db.documents
  {
    var row := db.documents[d];
    if row.status == Draft then [] else [StatusChange(d, row.project, Draft, row.currentJob)]
  }

  function MoveChange(db: Database, j: JobId, target: JobStatus): seq<StatusChange>
    requires j in db.jobs && db.jobs[j].document in db.documents
  {
    var d := db.jobs[j].document;
    if db.documents[d].currentJob == Some(j)
    then [StatusChange(d, db.documents[d].project, DocumentStatusFor(target, false), Some(j))] else []
  }

  /** The checks of a creation are behind it. A caller can tell before the call. */
  predicate ReachesInsert(db: Database, p: ProjectId, d: DocumentId, key: Option<string>, force: bool) {
    db.InProject(d, p) && (key.Some? ==> WithKey(db, d, key.value) == {}) && MayCreate(db, d, force)
  }

  /** `_raise_create_conflict` */
  function SecondLook(seen: Database, d: DocumentId, key: Option<string>): Reply {
    if key.Some? && WithKey(seen, d, key.value) != {} then Known(WithKey(seen, d, key.value))
    else NotMade(Denied(AlreadyRunning))
  }

  /** Behind the checks: the status is recorded, then the job inserted and made current. */
  function AtInsert(s: Service, d: DocumentId, key: Option<string>, id: JobId, fault: Fault): (Service, Reply)
    requires d in s.db.documents
  {
    if !KeyFits(key) || fault.LateCrash? then (s.(waiting := s.waiting + DraftChange(s.db, d)), NotMade(Raised))
    else if fault.Conflict? then (Service(fault.seen, [], s.log), SecondLook(fault.seen, d, key))
    else if fault.CommitFails? then (s.(waiting := []), NotMade(Raised))
    else (s.Committed(Inserted(s.db, d, key, id), DraftChange(s.db, d)), Made(id))
  }

  function AfterCreate(
    s: Service, p: ProjectId, d: DocumentId, key: Option<string>, force: bool, id: JobId, fault: Fault)
    : (Service, Reply)
  {
    if fault.EarlyCrash? then (s, NotMade(Raised))
    else
      match CreateJob(s.db, p, d, key, force, id)
      case Done(_, Existing(jobs)) => (s, Known(jobs))
      case Done(_, Created(_)) => AtInsert(s, d, key, id, fault)
      case Refused(error) =>
        if error == StorageFailed then AtInsert(s, d, key, id, fault) else (s, NotMade(Denied(error)))
  }

  function AfterMove(s: Service, j: JobId, target: JobStatus, fault: Fault): (Service, Ending)
    requires j in s.db.jobs && s.db.jobs[j].document in s.db.documents
  {
    match SetJobStatus(s.db, j, target)
    case Refused(error) => (s, Denied(error))
    case Done(moved, _) =>
      match fault
      case NoFault => (s.Committed(moved, MoveChange(s.db, j, target)), Finished)
      case CommitFails => (s.(waiting := []), Raised)
      case _ => (s, Raised)
  }

  /** The transaction behind the queue: it keeps the id the queue gave, which changes nothing
      else, or marks the job failed. A job that is gone by then cannot be written. */
  function AfterQueue(s: Service, j: JobId, queueUp: bool, fault: Fault): (Service, Ending) {
    if j !in s.db.jobs then (s, Raised)
    else if queueUp then (s, if fault.NoFault? then Finished else Raised)
    else if s.db.jobs[j].document !in s.db.documents then (s, Denied(Error.DocumentNotFound))
    else AfterMove(s, j, JobStatus.Failed, fault)
  }

  /** The two transactions, between which others may commit. */
  function AtDispatch(
    s: Service, j: JobId, queueUp: bool, first: Fault, others: Option<Database>, second: Fault): (Service, Ending)
    requires j in s.db.jobs && s.db.jobs[j].document in s.db.documents
  {
    var (sent, ending) := AfterMove(s, j, JobStatus.Dispatched, first);
    if ending.Finished? then AfterQueue(sent.Seeing(others), j, queueUp, second) else (sent, ending)
  }

  function AfterDispatch(
    s: Service, j: JobId, queueUp: bool, first: Fault, others: Option<Database>, second: Fault): (Service, Ending)
  {
    if j !in s.db.jobs then (s, Denied(Error.DocumentNotFound))
    else if !s.db.jobs[j].status.Pending? then (s, Denied(InvalidStatus))
    else if s.db.jobs[j].document !in s.db.documents then (s, Denied(Error.DocumentNotFound))
    else AtDispatch(s, j, queueUp, first, others, second)
  }

  function AfterCancel(s: Service, p: ProjectId, d: DocumentId, j: JobId, fault: Fault): (Service, Ending) {
    if !s.db.InProject(d, p) then (s, Denied(Error.DocumentNotFound))
    else if j !in s.db.jobs || s.db.jobs[j].document != d then (s, Denied(JobNotFound))
    else if s.db.jobs[j].status.Cancelled? then (s, Finished)
    else if !IsActive(s.db.jobs[j].status) then (s, Denied(NotCancellable))
    else AfterMove(s, j, JobStatus.Cancelled, fault)
  }

  function AfterReset(s: Service, p: ProjectId, d: DocumentId, fault: Fault): (Service, Ending) {
    match ResetAnalysis(s.db, p, d)
    case Refused(error) => (s, Denied(error))
    case Done(reset, _) =>
      match fault
      case NoFault =>
        (s.Committed(reset, [StatusChange(d, p, AwaitingApproval, s.db.documents[d].currentJob)]), Finished)
      case CommitFails => (s.(waiting := []), Raised)
      case _ => (s, Raised)
  }

  /** A call on the instance, or a commit of somebody else. */
  datatype Call =
    | Create(p: ProjectId, d: DocumentId, key: Option<string>, force: bool, id: JobId, fault: Fault)
    | Dispatch(j: JobId, queueUp: bool, fault: Fault, others: Option<Database>, second: Fault)
    | Cancel(p: ProjectId, d: DocumentId, j: JobId, fault: Fault)
    | Reset(p: ProjectId, d: DocumentId, fault: Fault)
    | Elsewhere(db: Database)

  function Serve(s: Service, call: Call): Service {
    match call
    case Create(p, d, key, force, id, fault) => AfterCreate(s, p, d, key, force, id, fault).0
    case Dispatch(j, queueUp, first, others, second) => AfterDispatch(s, j, queueUp, first, others, second).0
    case Cancel(p, d, j, fault) => AfterCancel(s, p, d, j, fault).0
    case Reset(p, d, fault) => AfterReset(s, p, d, fault).0
    case Elsewhere(db) => s.(db := db)
  }

  // The bulk loop.

  datatype Skip = NotFoundSkip | ConfirmationSkip | RunningSkip | StatusSkip

  datatype BulkOutcome = Started(document: DocumentId, job: JobId) | Skipped(document: DocumentId, reason: Skip)

  /** What happens to the transactions of one document, and what others commit before each
      of them. */
  datatype Luck = Luck(
    before: Option<Database>, create: Fault,
    between: Option<Database>, queueUp: bool, first: Fault,
    meanwhile: Option<Database>, second: Fault)
  {
    predicate Alone() {
      before.None? && !create.Conflict? && between.None? && meanwhile.None?
    }
  }

  /** The exceptions the loop catches. */
  function Reason(error: Error): Option<Skip> {
    match error
    case DocumentNotFound => Some(NotFoundSkip)
    case ConfirmationRequired => Some(ConfirmationSkip)
    case AlreadyRunning => Some(RunningSkip)
    case InvalidStatus => Some(StatusSkip)
    case _ => None
  }

  /** One document: create, then dispatch at once. Without an outcome the loop has raised. */
  function BulkStep(s: Service, p: ProjectId, d: DocumentId, force: bool, id: JobId, luck: Luck)
    : (Service, Option<BulkOutcome>)
  {
    var (made, reply) := AfterCreate(s.Seeing(luck.before), p, d, None, force, id, luck.create);
    match reply
    case Made(j) =>
      var (sent, ending) := AfterDispatch(
        made.Seeing(luck.between), j, luck.queueUp, luck.first, luck.meanwhile, luck.second);
      (sent, if ending.Finished? then Some(Started(d, j)) else None)
    case NotMade(Denied(error)) =>
      (made, if Reason(error).Some? then Some(Skipped(d, Reason(error).value)) else None)
    case _ => (made, None)
  }

  datatype BulkRun = BulkRun(service: Service, outcomes: seq<BulkOutcome>, raised: bool)

  /** One more turn of the loop. */
  function Next(run: BulkRun, after: Service, outcome: Option<BulkOutcome>): BulkRun {
    if outcome.None? then BulkRun(after, run.outcomes, true)
    else BulkRun(after, run.outcomes + [outcome.value], false)
  }

  /** The first n turns; the loop ends with the first that raises. */
  function Turns(s: Service, turn: (Service, nat) -> (Service, Option<BulkOutcome>), n: nat): BulkRun {
    if n == 0 then BulkRun(s, [], false)
    else
      var run := Turns(s, turn, n - 1);
      if run.raised then run
      else
        var (after, outcome) := turn(run.service, n - 1);
        Next(run, after, outcome)
  }

  function TurnOf(p: ProjectId, targets: seq<DocumentId>, force: bool, ids: seq<JobId>, luck: seq<Luck>)
    : (Service, nat) -> (Service, Option<BulkOutcome>)
    requires |targets| == |ids| == |luck|
  {
    (s: Service, i: nat) =>
      if i < |targets| then BulkStep(s, p, targets[i], force, ids[i], luck[i]) else (s, None)
  }

  /** The first n documents. */
  function Bulk(
    s: Service, p: ProjectId, targets: seq<DocumentId>, force: bool, ids: seq<JobId>, luck: seq<Luck>, n: nat): BulkRun
    requires n <= |targets| == |ids| == |luck|
  {
    Turns(s, TurnOf(p, targets, force, ids, luck), n)
  }

  lemma BulkUnfolds(
    s: Service, p: ProjectId, targets: seq<DocumentId>, force: bool, ids: seq<JobId>, luck: seq<Luck>, n: nat)
    requires n < |targets| == |ids| == |luck|
    ensures var run := Bulk(s, p, targets, force, ids, luck, n);
            var (after, outcome) := BulkStep(run.service, p, targets[n], force, ids[n], luck[n]);
      Bulk(s, p, targets, force, ids, luck, n + 1) == if run.raised then run else Next(run, after, outcome)
  {
  }

  lemma {:induction false} RaisedStaysRaised(
    s: Service, turn: (Service, nat) -> (Service, Option<BulkOutcome>), n: nat, m: nat)
    requires n <= m && Turns(s, turn, n).raised
    ensures Turns(s, turn, m) == Turns(s, turn, n)
  {
    if n < m {
      RaisedStaysRaised(s, turn, n, m - 1);
    }
  }

  class AnalysisJobService {
    var db: Database
    const outbox: DocumentEventOutbox
    /** What has been recorded and neither published nor forgotten, publisher or not. */
    ghost var waiting: seq<StatusChange>
    ghost var log: seq<LogEntry>

    constructor (db: Database, outbox: DocumentEventOutbox)
      requires outbox.pending == [] && outbox.published == []
      ensures this.outbox == outbox && Synced() && View() == Service(db, [], [])
    {
      this.db, this.outbox, waiting, log := db, outbox, [], [];
    }

    ghost function View(): Service
      reads this
    {
      Service(db, waiting, log)
    }

    /** Subscribers were told what was sent, and the outbox holds what waits; without a
        publisher neither happens. */
    ghost predicate Synced()
      reads this, outbox
    {
      if outbox.hasPublisher
      then outbox.pending == waiting && outbox.published == Announced(Sent(log), outbox.owners, outbox.arrives)
      else outbox.pending == [] && outbox.published == []
    }

    /** `_commit`: a failing one rolls back to `saved` and forgets what waits. */
    method Commit(saved: Database, fails: bool) returns (ok: bool)
      requires Synced()
      modifies this, outbox
      ensures Synced() && ok == !fails
      ensures View() == if fails then Service(saved, [], old(log))
        else Service(old(db), [], old(log) + [LogEntry(saved, old(db), old(waiting))])
    {
      if fails {
        outbox.Discard();
        db, waiting := saved, [];
        return false;
      }
      outbox.Flush();
      ghost var entry := LogEntry(saved, db, waiting);
      AnnouncedConcat(Sent(log), waiting, outbox.owners, outbox.arrives);
      assert (log + [entry])[..|log|] == log;
      log, waiting := log + [entry], [];
      ok := true;
    }

    /** What others have committed is there to be read. */
    method See(others: Option<Database>)
      requires Synced()
      modifies this`db
      ensures Synced() && View() == old(View()).Seeing(others)
    {
      if others.Some? {
        db := others.value;
      }
    }

    method SetDocumentStatus(d: DocumentId, target: DocumentStatus) returns (ok: bool)
      requires d in db.documents && Synced()
      modifies this`db, this`waiting, outbox`pending
      ensures Synced() && (ok <==> target in DocumentTargets(old(db).documents[d].status))
      ensures !ok ==> db == old(db) && waiting == old(waiting)
      ensures ok ==>
        && db == old(db).SetDocument(d, old(db).documents[d].(status := target))
        && waiting == old(waiting) + [StatusChange(d, db.documents[d].project, target, db.documents[d].currentJob)]
    {
      var row := db.documents[d];
      if target !in DocumentTargets(row.status) {
        return false;
      }
      db := db.SetDocument(d, row.(status := target));
      outbox.Record(StatusChange(d, row.project, target, row.currentJob));
      waiting := waiting + [StatusChange(d, row.project, target, row.currentJob)];
      ok := true;
    }

    /** The insert, `set_current_job` and the commit. */
    method MakeCurrent(saved: Database, d: DocumentId, key: Option<string>, id: JobId, fails: bool)
      returns (reply: Reply)
      requires Synced() && d in saved.documents
      requires db == saved.SetDocument(d, saved.documents[d].(status := Draft))
      modifies this, outbox
      ensures Synced() && reply == if fails then NotMade(Raised) else Made(id)
      ensures View() == if fails then Service(saved, [], old(log))
        else
          var entry := LogEntry(saved, Inserted(saved, d, key, id), old(waiting));
          Service(entry.after, [], old(log) + [entry])
    {
      db := db.SetJob(id, Job(d, JobStatus.Pending, key));
      db := db.SetDocument(d, db.documents[d].(currentJob := Some(id)));
      assert db == Inserted(saved, d, key, id);
      var ok := Commit(saved, fails);
      reply := if ok then Made(id) else NotMade(Raised);
    }

    /** The second half of `_create_job_once`, behind its checks. A conflict forgets what
        waits, a failing commit does, and any other exception leaves it to `__aexit__`, which
        only rolls back. */
    method InsertJob(d: DocumentId, key: Option<string>, id: JobId, fault: Fault) returns (reply: Reply)
      requires Synced() && d in db.documents && CanStartAnalysis(db.documents[d].status)
      modifies this, outbox
      ensures Synced() && (View(), reply) == AtInsert(old(View()), d, key, id, fault)
    {
      var saved := db;
      if db.documents[d].status != Draft {
        var moved := SetDocumentStatus(d, Draft);
        assert moved;
      }
      assert waiting == old(waiting) + DraftChange(saved, d);
      if !KeyFits(key) || fault.LateCrash? {
        db := saved;
        return NotMade(Raised);
      }
      if fault.Conflict? {
        outbox.Discard();
        db, waiting := fault.seen, [];
        reply := LookAgain(d, key);
        return;
      }
      reply := MakeCurrent(saved, d, key, id, fault.CommitFails?);
    }

    /** `_raise_create_conflict` */
    method LookAgain(d: DocumentId, key: Option<string>) returns (reply: Reply)
      ensures reply == SecondLook(db, d, key)
    {
      if key.Some? {
        var existing := WithKey(db, d, key.value);
        if existing != {} {
          return Known(existing);
        }
      }
      reply := NotMade(Denied(AlreadyRunning));
    }

    method CreateOnce(
      p: ProjectId, d: DocumentId, key: Option<string>, force: bool, id: JobId, fault: Fault)
      returns (reply: Reply)
      requires Synced()
      modifies this, outbox
      ensures Synced() && (View(), reply) == AfterCreate(old(View()), p, d, key, force, id, fault)
    {
      if fault.EarlyCrash? {
        return NotMade(Raised);
      }
      if !db.InProject(d, p) {
        return NotMade(Denied(Error.DocumentNotFound));
      }
      if key.Some? {
        var existing := WithKey(db, d, key.value);
        if existing != {} {
          return Known(existing);
        }
      }
      if !CanStartAnalysis(db.documents[d].status) {
        return NotMade(Denied(InvalidStatus));
      }
      var active := ActiveJobs(db, d);
      if active != {} {
        return NotMade(Denied(AlreadyRunning));
      }
      if NeedsConfirmation(db.documents[d].status) && !force {
        return NotMade(Denied(ConfirmationRequired));
      }
      reply := InsertJob(d, key, id, fault);
    }

    /** `_set_job_status` inside an open transaction; false means it raised. */
    method SetStatus(j: JobId, target: JobStatus) returns (ok: bool)
      requires Synced() && j in db.jobs && db.jobs[j].document in db.documents
      modifies this`db, this`waiting, outbox`pending
      ensures Synced()
      ensures var out := SetJobStatus(old(db), j, target);
        && ok == out.Done?
        && (ok ==> db == out.db && waiting == old(waiting) + MoveChange(old(db), j, target))
        && (!ok ==> waiting == old(waiting))
    {
      var d := db.jobs[j].document;
      if target !in JobTargets(db.jobs[j].status) {
        return false;
      }
      db := db.SetJob(j, db.jobs[j].(status := target));
      if db.documents[d].currentJob == Some(j) {
        ok := SetDocumentStatus(d, DocumentStatusFor(target, false));
      } else {
        ok := true;
      }
    }

    /** One status change of a job as one transaction. */
    method ChangeStatus(j: JobId, target: JobStatus, fault: Fault) returns (ending: Ending)
      requires Synced() && j in db.jobs && db.jobs[j].document in db.documents
      modifies this, outbox
      ensures Synced() && (View(), ending) == AfterMove(old(View()), j, target, fault)
    {
      var saved := db;
      if !fault.NoFault? && !fault.CommitFails? && SetJobStatus(db, j, target).Done? {
        return Raised;
      }
      var moved := SetStatus(j, target);
      if !moved {
        db := saved;
        return Denied(InvalidStatus);
      }
      var ok := Commit(saved, fault.CommitFails?);
      ending := if ok then Finished else Raised;
    }

    /** The rest of `dispatch_job`, or `_mark_queue_unavailable`. */
    method Enqueued(j: JobId, queueUp: bool, fault: Fault) returns (ending: Ending)
      requires Synced()
      modifies this, outbox
      ensures Synced() && (View(), ending) == AfterQueue(old(View()), j, queueUp, fault)
    {
      if j !in db.jobs {
        return Raised;
      }
      if queueUp {
        return if fault.NoFault? then Finished else Raised;
      }
      if db.jobs[j].document !in db.documents {
        return Denied(Error.DocumentNotFound);
      }
      ending := ChangeStatus(j, JobStatus.Failed, fault);
    }

    method DispatchPending(j: JobId, queueUp: bool, first: Fault, others: Option<Database>, second: Fault)
      returns (ending: Ending)
      requires Synced() && j in db.jobs && db.jobs[j].document in db.documents
      modifies this, outbox
      ensures Synced() && (View(), ending) == AtDispatch(old(View()), j, queueUp, first, others, second)
    {
      ending := ChangeStatus(j, JobStatus.Dispatched, first);
      if ending.Finished? {
        See(others);
        ending := Enqueued(j, queueUp, second);
      }
    }

    method Dispatch(j: JobId, queueUp: bool, first: Fault, others: Option<Database>, second: Fault)
      returns (ending: Ending)
      requires Synced()
      modifies this, outbox
      ensures Synced() && (View(), ending) == AfterDispatch(old(View()), j, queueUp, first, others, second)
    {
      if j !in db.jobs {
        return Denied(Error.DocumentNotFound);
      }
      if !db.jobs[j].status.Pending? {
        return Denied(InvalidStatus);
      }
      if db.jobs[j].document !in db.documents {
        return Denied(Error.DocumentNotFound);
      }
      ending := DispatchPending(j, queueUp, first, others, second);
    }

    method Cancel(p: ProjectId, d: DocumentId, j: JobId, fault: Fault) returns (ending: Ending)
      requires Synced()
      modifies this, outbox
      ensures Synced() && (View(), ending) == AfterCancel(old(View()), p, d, j, fault)
    {
      if !db.InProject(d, p) {
        return Denied(Error.DocumentNotFound);
      }
      if j !in db.jobs || db.jobs[j].document != d {
        return Denied(JobNotFound);
      }
      if db.jobs[j].status.Cancelled? {
        return Finished;
      }
      if !IsActive(db.jobs[j].status) {
        return Denied(NotCancellable);
      }
      ending := ChangeStatus(j, JobStatus.Cancelled, fault);
    }

    method Reset(p: ProjectId, d: DocumentId, fault: Fault) returns (count: nat, ending: Ending)
      requires Synced()
      modifies this, outbox
      ensures Synced() && (View(), ending) == AfterReset(old(View()), p, d, fault)
      ensures ending.Finished? ==> count == ResetAnalysis(old(db), p, d).answer
    {
      var saved := db;
      if !db.InProject(d, p) {
        return 0, Denied(Error.DocumentNotFound);
      }
      if !CanResetReview(db.documents[d].status) {
        return 0, Denied(InvalidStatus);
      }
      if db.documents[d].currentJob.None? {
        return 0, Denied(JobNotFound);
      }
      if !fault.NoFault? && !fault.CommitFails? {
        return 0, Raised;
      }
      var chosen := Resettable(db, db.documents[d].currentJob.value, None);
      db := ResetRows(db, chosen);
      var moved := SetDocumentStatus(d, AwaitingApproval);
      assert moved;
      var ok := Commit(saved, fault.CommitFails?);
      count, ending := |chosen|, if ok then Finished else Raised;
    }

    method BulkOne(p: ProjectId, d: DocumentId, force: bool, id: JobId, luck: Luck)
      returns (outcome: Option<BulkOutcome>)
      requires Synced()
      modifies this, outbox
      ensures Synced() && (View(), outcome) == BulkStep(old(View()), p, d, force, id, luck)
    {
      See(luck.before);
      var reply := CreateOnce(p, d, None, force, id, luck.create);
      match reply {
        case Made(j) =>
          See(luck.between);
          var ending := Dispatch(j, luck.queueUp, luck.first, luck.meanwhile, luck.second);
          outcome := if ending.Finished? then Some(Started(d, j)) else None;
        case NotMade(Denied(error)) =>
          outcome := if Reason(error).Some? then Some(Skipped(d, Reason(error).value)) else None;
        case _ =>
          outcome := None;
      }
    }

    /** One turn of the bulk loop, seen from its start. */
    method BulkNext(
      ghost start: Service, p: ProjectId, targets: seq<DocumentId>, force: bool, ids: seq<JobId>, luck: seq<Luck>,
      i: nat, so: seq<BulkOutcome>)
      returns (outcomes: seq<BulkOutcome>, raised: bool)
      requires Synced() && i < |targets| == |ids| == |luck|
      requires BulkRun(View(), so, false) == Bulk(start, p, targets, force, ids, luck, i)
      modifies this, outbox
      ensures Synced()
      ensures BulkRun(View(), outcomes, raised) == Bulk(start, p, targets, force, ids, luck, i + 1)
    {
      BulkUnfolds(start, p, targets, force, ids, luck, i);
      var outcome := BulkOne(p, targets[i], force, ids[i], luck[i]);
      raised := outcome.None?;
      outcomes := so + if raised then [] else [outcome.value];
    }

    /** A document that cannot be started is skipped; any other exception ends the loop. */
    method BulkCreate(p: ProjectId, targets: seq<DocumentId>, force: bool, ids: seq<JobId>, luck: seq<Luck>)
      returns (outcomes: seq<BulkOutcome>, raised: bool)
      requires Synced() && |targets| == |ids| == |luck|
      modifies this, outbox
      ensures Synced()
      ensures BulkRun(View(), outcomes, raised) == Bulk(old(View()), p, targets, force, ids, luck, |targets|)
    {
      outcomes, raised := [], false;
      ghost var start := View();
      var i := 0;
      while i < |targets| && !raised
        invariant i <= |targets| && Synced()
        invariant BulkRun(View(), outcomes, raised) == Bulk(start, p, targets, force, ids, luck, i)
        decreases |targets| - i
      {
        outcomes, raised := BulkNext(start, p, targets, force, ids, luck, i, outcomes);
        i := i + 1;
      }
      if i < |targets| {
        RaisedStaysRaised(start, TurnOf(p, targets, force, ids, luck), i, |targets|);
      }
    }
  }
}

/** What every call of the analysis-job service answers and commits, case by case and written
    out on the tables, and that it is what the rules of `JobRules` say. */
module JobCalls {
  import opened Options
  import opened Lifecycle
  import opened Records
  import opened JobRules
  import opened DocumentEvents
  import opened Services
  import opened AnalysisJobServices

  /** How a transaction ends that has passed its checks: committed and published with all that
      waits, rolled back and forgotten by a failing commit, or rolled back by anything else. */
  predicate Ends(
    s: Service, after: Database, own: seq<StatusChange>, fault: Fault, t: Service, ending: Ending)
  {
    match fault
    case NoFault => ending == Finished && t == Service(after, [], s.log + [LogEntry(s.db, after, s.waiting + own)])
    case CommitFails => ending == Raised && t == Service(s.db, [], s.log)
    case _ => ending == Raised && t == s
  }

  predicate IsCurrent(db: Database, j: JobId)
    requires j in db.jobs && db.jobs[j].document in db.documents
  {
    db.documents[db.jobs[j].document].currentJob == Some(j)
  }

  /** The tables with the job in another status, and its document too if the job is current. */
  function Together(db: Database, j: JobId, job: JobStatus, document: DocumentStatus): Database
    requires j in db.jobs && db.jobs[j].document in db.documents
  {
    var d := db.jobs[j].document;
    Database(
      if IsCurrent(db, j) then db.documents[d := db.documents[d].(status := document)] else db.documents,
      db.jobs[j := Job(d, job, db.jobs[j].key)],
      db.suggestions)
  }

  function Told(db: Database, j: JobId, document: DocumentStatus): seq<StatusChange>
    requires j in db.jobs && db.jobs[j].document in db.documents
  {
    var d := db.jobs[j].document;
    if IsCurrent(db, j) then [StatusChange(d, db.documents[d].project, document, Some(j))] else []
  }

  predicate IsOf(db: Database, p: ProjectId, d: DocumentId) {
    d in db.documents && db.documents[d].project == p
  }

  // ---------------------------------------------------------------------------
  // Cancelling, dispatching, the queue
  // ---------------------------------------------------------------------------

  /** A pending job, current for a draft. */
  predicate MayBeSent(db: Database, j: JobId) {
    && j in db.jobs && db.jobs[j].status == JobStatus.Pending && db.jobs[j].document in db.documents
    && IsCurrent(db, j) && db.documents[db.jobs[j].document].status == Draft
  }

  /** The instance once the dispatch is committed. */
  function Dispatched(s: Service, j: JobId): Service
    requires MayBeSent(s.db, j)
  {
    var after := Together(s.db, j, JobStatus.Dispatched, InProgress);
    Service(after, [], s.log + [LogEntry(s.db, after, s.waiting + Told(s.db, j, InProgress))])
  }

  /** The one transaction of a status change that its tables allow. */
  lemma MoveEnds(s: Service, j: JobId, target: JobStatus, document: DocumentStatus, fault: Fault)
    requires j in s.db.jobs && s.db.jobs[j].document in s.db.documents
    requires document == if target == JobStatus.Dispatched then InProgress else Draft
    requires target in {JobStatus.Dispatched, JobStatus.Failed, JobStatus.Cancelled}
    ensures var (t, ending) := AfterMove(s, j, target, fault);
            var allowed := match s.db.jobs[j].status
                           case Pending => true
                           case Dispatched => target != JobStatus.Dispatched
                           case Processing => target != JobStatus.Dispatched
                           case _ => false;
            var free := target == JobStatus.Dispatched && IsCurrent(s.db, j) ==>
                          s.db.documents[s.db.jobs[j].document].status == Draft;
      if allowed && free then Ends(s, Together(s.db, j, target, document), Told(s.db, j, document), fault, t, ending)
      else t == s && ending == Denied(InvalidStatus)
  {
  }

  /** Cancelling: an active job is cancelled and its document a draft again, a cancelled one is
      left as it is, a finished one is refused. */
  lemma CancelIsExact(s: Service, p: ProjectId, d: DocumentId, j: JobId, fault: Fault)
    ensures var (t, ending) := AfterCancel(s, p, d, j, fault);
      && (!IsOf(s.db, p, d) ==> t == s && ending == Denied(Error.DocumentNotFound))
      && (IsOf(s.db, p, d) && (j !in s.db.jobs || s.db.jobs[j].document != d) ==>
            t == s && ending == Denied(JobNotFound))
      && (IsOf(s.db, p, d) && j in s.db.jobs && s.db.jobs[j].document == d ==>
            match s.db.jobs[j].status
            case Cancelled => t == s && ending == Finished
            case Success => t == s && ending == Denied(NotCancellable)
            case PartialSuccess => t == s && ending == Denied(NotCancellable)
            case Failed => t == s && ending == Denied(NotCancellable)
            case _ =>
              Ends(s, Together(s.db, j, JobStatus.Cancelled, Draft), Told(s.db, j, Draft), fault, t, ending))
  {
    if j in s.db.jobs && s.db.jobs[j].document == d && IsOf(s.db, p, d) {
      MoveEnds(s, j, JobStatus.Cancelled, Draft, fault);
    }
  }

  /** Behind the queue: a job that is gone raises, the queue's id changes nothing, and without a
      queue an active job fails, with its document a draft again. */
  lemma QueueIsExact(s: Service, j: JobId, queueUp: bool, fault: Fault)
    ensures var (t, ending) := AfterQueue(s, j, queueUp, fault);
      && (j !in s.db.jobs ==> t == s && ending == Raised)
      && (j in s.db.jobs && queueUp ==> t == s && ending == if fault.NoFault? then Finished else Raised)
      && (j in s.db.jobs && !queueUp && s.db.jobs[j].document !in s.db.documents ==>
            t == s && ending == Denied(Error.DocumentNotFound))
      && (j in s.db.jobs && !queueUp && s.db.jobs[j].document in s.db.documents ==>
            if s.db.jobs[j].status in {JobStatus.Pending, JobStatus.Dispatched, JobStatus.Processing}
            then Ends(s, Together(s.db, j, JobStatus.Failed, Draft), Told(s.db, j, Draft), fault, t, ending)
            else t == s && ending == Denied(InvalidStatus))
  {
    if j in s.db.jobs && s.db.jobs[j].document in s.db.documents {
      MoveEnds(s, j, JobStatus.Failed, Draft, fault);
    }
  }

  /** Dispatching: only a pending job, whose document is a draft if the job is current; it is
      committed as dispatched, with the document in progress, before the queue is tried, and
      what the queue does comes on top of what others have committed by then. */
  lemma DispatchIsExact(
    s: Service, j: JobId, queueUp: bool, first: Fault, others: Option<Database>, second: Fault)
    ensures var (t, ending) := AfterDispatch(s, j, queueUp, first, others, second);
      && (j !in s.db.jobs ==> t == s && ending == Denied(Error.DocumentNotFound))
      && (j in s.db.jobs && s.db.jobs[j].status != JobStatus.Pending ==> t == s && ending == Denied(InvalidStatus))
      && (j in s.db.jobs && s.db.jobs[j].status == JobStatus.Pending ==>
            if s.db.jobs[j].document !in s.db.documents then t == s && ending == Denied(Error.DocumentNotFound)
            else if IsCurrent(s.db, j) && s.db.documents[s.db.jobs[j].document].status != Draft
            then t == s && ending == Denied(InvalidStatus)
            else
              var after, own := Together(s.db, j, JobStatus.Dispatched, InProgress), Told(s.db, j, InProgress);
              if first.NoFault? then
                var sent := Service(if others.Some? then others.value else after, [],
                                    s.log + [LogEntry(s.db, after, s.waiting + own)]);
                (t, ending) == AfterQueue(sent, j, queueUp, second)
              else Ends(s, after, own, first, t, ending))
  {
    if j in s.db.jobs && s.db.jobs[j].document in s.db.documents {
      MoveEnds(s, j, JobStatus.Dispatched, InProgress, first);
    }
  }

  lemma QueueTakesIt(s: Service, j: JobId)
    requires MayBeSent(s.db, j)
    ensures AfterDispatch(s, j, true, NoFault, None, NoFault) == (Dispatched(s, j), Finished)
  {
    DispatchIsExact(s, j, true, NoFault, None, NoFault);
    QueueIsExact(Dispatched(s, j), j, true, NoFault);
  }

  lemma FailedFromDispatched(db: Database, j: JobId)
    requires MayBeSent(db, j)
    ensures var sent := Together(db, j, JobStatus.Dispatched, InProgress);
      && Together(sent, j, JobStatus.Failed, Draft) == Together(db, j, JobStatus.Failed, Draft)
      && Told(sent, j, Draft) == Told(db, j, Draft)
  {
    var sent := Together(db, j, JobStatus.Dispatched, InProgress);
    assert Together(sent, j, JobStatus.Failed, Draft).documents == Together(db, j, JobStatus.Failed, Draft).documents;
    assert Together(sent, j, JobStatus.Failed, Draft).jobs == Together(db, j, JobStatus.Failed, Draft).jobs;
  }

  lemma QueueIsDown(s: Service, j: JobId)
    requires MayBeSent(s.db, j)
    ensures var sent, failed := Dispatched(s, j), Together(s.db, j, JobStatus.Failed, Draft);
      AfterDispatch(s, j, false, NoFault, None, NoFault) ==
      (Service(failed, [], sent.log + [LogEntry(sent.db, failed, Told(s.db, j, Draft))]), Finished)
  {
    DispatchIsExact(s, j, false, NoFault, None, NoFault);
    QueueIsExact(Dispatched(s, j), j, false, NoFault);
    FailedFromDispatched(s.db, j);
    assert [] + Told(s.db, j, Draft) == Told(s.db, j, Draft);
  }

  lemma SentOn(log: seq<LogEntry>, entry: LogEntry)
    ensures Sent(log + [entry]) == Sent(log) + entry.sent
  {
    assert (log + [entry])[..|log|] == log;
  }

  /** Without faults and others: a queue that takes the job leaves it dispatched, one that is
      down leaves it failed, announced as in progress and as a draft. */
  lemma DispatchAlone(s: Service, j: JobId, queueUp: bool)
    requires MayBeSent(s.db, j)
    ensures var (t, ending) := AfterDispatch(s, j, queueUp, NoFault, None, NoFault);
            var d := s.db.jobs[j].document;
            var change := StatusChange(d, s.db.documents[d].project, InProgress, Some(j));
      && ending == Finished && t.waiting == []
      && t.db == Together(s.db, j, if queueUp then JobStatus.Dispatched else JobStatus.Failed,
                          if queueUp then InProgress else Draft)
      && Sent(t.log) == Sent(s.log) + s.waiting + if queueUp then [change] else [change, change.(status := Draft)]
  {
    var sent := Dispatched(s, j);
    SentOn(s.log, LogEntry(s.db, sent.db, s.waiting + Told(s.db, j, InProgress)));
    if queueUp {
      QueueTakesIt(s, j);
    } else {
      QueueIsDown(s, j);
      SentOn(sent.log, LogEntry(sent.db, Together(s.db, j, JobStatus.Failed, Draft), Told(s.db, j, Draft)));
    }
  }

  // ---------------------------------------------------------------------------
  // Resetting
  // ---------------------------------------------------------------------------

  /** Every decided row of the job pending again, without any trace of the decision. */
  function Cleared(db: Database, j: JobId): map<SuggestionId, Suggestion> {
    map sid | sid in db.suggestions ::
      var row := db.suggestions[sid];
      if row.job == j && row.status != SuggestionStatus.Pending
      then Suggestion(row.job, row.document, SuggestionStatus.Pending, None, None, None) else row
  }

  /** Resetting an analysis: a reviewed document with a current job awaits approval again, and
      the decisions about that job's rows are gone. */
  lemma ResetIsExact(s: Service, p: ProjectId, d: DocumentId, fault: Fault)
    ensures var (t, ending) := AfterReset(s, p, d, fault);
      && (!IsOf(s.db, p, d) ==> t == s && ending == Denied(Error.DocumentNotFound))
      && (IsOf(s.db, p, d) && s.db.documents[d].status in {Draft, InProgress} ==>
            t == s && ending == Denied(InvalidStatus))
      && (IsOf(s.db, p, d) && s.db.documents[d].status in {AwaitingApproval, Ready} ==>
            match s.db.documents[d].currentJob
            case None => t == s && ending == Denied(JobNotFound)
            case Some(j) =>
              var after := Database(
                s.db.documents[d := s.db.documents[d].(status := AwaitingApproval)], s.db.jobs, Cleared(s.db, j));
              Ends(s, after, [StatusChange(d, p, AwaitingApproval, Some(j))], fault, t, ending))
  {
    if IsOf(s.db, p, d) && s.db.documents[d].currentJob.Some? {
      var j := s.db.documents[d].currentJob.value;
      assert ResetRows(s.db, Resettable(s.db, j, None)).suggestions == Cleared(s.db, j);
    }
  }

  /** And the count answered is the number of rows that were decided. */
  lemma ResetCounts(db: Database, p: ProjectId, d: DocumentId)
    requires ResetAnalysis(db, p, d).Done?
    ensures var decided := set sid | sid in db.suggestions && db.suggestions[sid].status != SuggestionStatus.Pending
                                     && db.documents[d].currentJob == Some(db.suggestions[sid].job);
      ResetAnalysis(db, p, d).answer == |decided|
  {
    var j := db.documents[d].currentJob.value;
    assert Resettable(db, j, None) == set sid | sid in db.suggestions
      && db.suggestions[sid].status != SuggestionStatus.Pending
      && db.documents[d].currentJob == Some(db.suggestions[sid].job);
  }

  // ---------------------------------------------------------------------------
  // Creating
  // ---------------------------------------------------------------------------

  /** The jobs of the document that have this key. */
  function JobsWithKey(db: Database, d: DocumentId, key: Option<string>): set<JobId> {
    if key.None? then {} else set j | j in db.jobs && db.jobs[j].document == d && db.jobs[j].key == key
  }

  predicate HasActiveJob(db: Database, d: DocumentId) {
    exists j :: j in db.jobs && db.jobs[j].document == d
                && db.jobs[j].status in {JobStatus.Pending, JobStatus.Dispatched, JobStatus.Processing}
  }

  /** What stands in the way of a new job, in the order in which it is told. */
  function Obstacle(db: Database, p: ProjectId, d: DocumentId, force: bool): Option<Error> {
    if !IsOf(db, p, d) then Some(Error.DocumentNotFound)
    else if db.documents[d].status == InProgress then Some(InvalidStatus)
    else if HasActiveJob(db, d) then Some(AlreadyRunning)
    else if db.documents[d].status == Ready && !force then Some(ConfirmationRequired)
    else None
  }

  lemma ActiveIsFound(db: Database, d: DocumentId)
    ensures ActiveJobs(db, d) != {} <==> HasActiveJob(db, d)
  {
    NoneActive(db, d);
  }

  /** Before the insert: an existing job of the key is answered, an obstacle is told. */
  lemma CreateChecksExactly(
    s: Service, p: ProjectId, d: DocumentId, key: Option<string>, force: bool, id: JobId, fault: Fault)
    requires !fault.EarlyCrash?
    ensures var (t, reply) := AfterCreate(s, p, d, key, force, id, fault);
            var known := JobsWithKey(s.db, d, key);
      && (!IsOf(s.db, p, d) ==> t == s && reply == NotMade(Denied(Error.DocumentNotFound)))
      && (IsOf(s.db, p, d) && known != {} ==> t == s && reply == Known(known))
      && (IsOf(s.db, p, d) && known == {} && Obstacle(s.db, p, d, force).Some? ==>
            t == s && reply == NotMade(Denied(Obstacle(s.db, p, d, force).value)))
  {
    ActiveIsFound(s.db, d);
    if key.Some? {
      assert JobsWithKey(s.db, d, key) == WithKey(s.db, d, key.value);
    }
  }

  /** The tables with one more pending job, current for its document, which is a draft. */
  function OneMoreJob(db: Database, d: DocumentId, key: Option<string>, id: JobId): Database
    requires d in db.documents
  {
    var row := db.documents[d];
    Database(
      db.documents[d := Document(row.project, Draft, Some(id), row.reviewVersion)],
      db.jobs[id := Job(d, JobStatus.Pending, key)],
      db.suggestions)
  }

  /** Behind the checks: the job is made, or one of the failures has its own effect. A key of
      more than 128 characters raises with the recorded draft left waiting, as any crash there
      does; losing to a unique index forgets it and looks again by key. */
  lemma CreateInsertsExactly(
    s: Service, p: ProjectId, d: DocumentId, key: Option<string>, force: bool, id: JobId, fault: Fault)
    requires Obstacle(s.db, p, d, force).None? && JobsWithKey(s.db, d, key) == {}
    ensures var (t, reply) := AfterCreate(s, p, d, key, force, id, fault);
            var row := s.db.documents[d];
            var own := if row.status == Draft then [] else [StatusChange(d, p, Draft, row.currentJob)];
            var after := OneMoreJob(s.db, d, key, id);
      if fault.EarlyCrash? then t == s && reply == NotMade(Raised)
      else if (key.Some? && |key.value| > 128) || fault.LateCrash? then
        t == Service(s.db, s.waiting + own, s.log) && reply == NotMade(Raised)
      else if fault.Conflict? then
        && t == Service(fault.seen, [], s.log)
        && reply == if JobsWithKey(fault.seen, d, key) != {} then Known(JobsWithKey(fault.seen, d, key))
                    else NotMade(Denied(AlreadyRunning))
      else if fault.CommitFails? then t == Service(s.db, [], s.log) && reply == NotMade(Raised)
      else t == Service(after, [], s.log + [LogEntry(s.db, after, s.waiting + own)]) && reply == Made(id)
  {
    ActiveIsFound(s.db, d);
    if key.Some? {
      assert JobsWithKey(s.db, d, key) == WithKey(s.db, d, key.value);
      if fault.Conflict? {
        assert JobsWithKey(fault.seen, d, key) == WithKey(fault.seen, d, key.value);
      }
    }
    assert OneMoreJob(s.db, d, key, id) == Inserted(s.db, d, key, id);
  }

  // ---------------------------------------------------------------------------
  // The loop over documents
  // ---------------------------------------------------------------------------

  /** One document of the loop: four errors are reasons to skip it, any other ending of its
      creation ends the loop, and so does a dispatch that is not finished. */
  lemma BulkStepIsExact(s: Service, p: ProjectId, d: DocumentId, force: bool, id: JobId, luck: Luck)
    ensures var (t, outcome) := BulkStep(s, p, d, force, id, luck);
            var (made, reply) := AfterCreate(s.Seeing(luck.before), p, d, None, force, id, luck.create);
      match reply
      case Made(j) =>
        var (sent, ending) := AfterDispatch(
          made.Seeing(luck.between), j, luck.queueUp, luck.first, luck.meanwhile, luck.second);
        t == sent && outcome == if ending == Finished then Some(Started(d, j)) else None
      case NotMade(Denied(DocumentNotFound)) => t == made && outcome == Some(Skipped(d, NotFoundSkip))
      case NotMade(Denied(ConfirmationRequired)) => t == made && outcome == Some(Skipped(d, ConfirmationSkip))
      case NotMade(Denied(AlreadyRunning)) => t == made && outcome == Some(Skipped(d, RunningSkip))
      case NotMade(Denied(InvalidStatus)) => t == made && outcome == Some(Skipped(d, StatusSkip))
      case _ => t == made && outcome == None
  {
  }

  function SkipFor(obstacle: Error): Skip {
    match obstacle
    case DocumentNotFound => NotFoundSkip
    case ConfirmationRequired => ConfirmationSkip
    case AlreadyRunning => RunningSkip
    case _ => StatusSkip
  }

  const UNDISTURBED := Luck(None, NoFault, None, true, NoFault, None, NoFault)

  /** Undisturbed, every document is skipped for what stands in its way, or has a new job that
      is dispatched, with the document in progress. */
  lemma BulkStepAlone(s: Service, p: ProjectId, d: DocumentId, force: bool, id: JobId)
    ensures var (t, outcome) := BulkStep(s, p, d, force, id, UNDISTURBED);
      match Obstacle(s.db, p, d, force)
      case Some(obstacle) => t == s && outcome == Some(Skipped(d, SkipFor(obstacle)))
      case None =>
        && outcome == Some(Started(d, id)) && t.waiting == []
        && t.db == Together(OneMoreJob(s.db, d, None, id), id, JobStatus.Dispatched, InProgress)
  {
    BulkStepIsExact(s, p, d, force, id, UNDISTURBED);
    if Obstacle(s.db, p, d, force).Some? {
      CreateChecksExactly(s, p, d, None, force, id, NoFault);
    } else {
      CreateInsertsExactly(s, p, d, None, force, id, NoFault);
      var made := AfterCreate(s, p, d, None, force, id, NoFault).0;
      DispatchAlone(made, id, true);
    }
  }

  lemma {:induction false} TurnsRunThrough(
    s: Service, turn: (Service, nat) -> (Service, Option<BulkOutcome>), n: nat)
    ensures var run := Turns(s, turn, n);
            var k := |run.outcomes|;
      && k <= n && (run.raised <==> k < n)
      && (forall i: nat :: i < k ==>
            turn(Turns(s, turn, i).service, i) == (Turns(s, turn, i + 1).service, Some(run.outcomes[i])))
      && (run.raised ==> turn(Turns(s, turn, k).service, k) == (run.service, None))
  {
    if n > 0 {
      TurnsRunThrough(s, turn, n - 1);
    }
  }

  /** The whole loop: as long as it does not raise, each document is taken where the one before
      left the tables, and its outcome is in its place; the first that raises ends it. */
  lemma BulkRunsThrough(
    s: Service, p: ProjectId, targets: seq<DocumentId>, force: bool, ids: seq<JobId>, luck: seq<Luck>)
    requires |targets| == |ids| == |luck|
    ensures var run := Bulk(s, p, targets, force, ids, luck, |targets|);
            var k := |run.outcomes|;
      && k <= |targets| && (run.raised <==> k < |targets|)
      && Bulk(s, p, targets, force, ids, luck, 0) == BulkRun(s, [], false)
      && (forall i: nat :: i < k ==>
            BulkStep(Bulk(s, p, targets, force, ids, luck, i).service, p, targets[i], force, ids[i], luck[i])
            == (Bulk(s, p, targets, force, ids, luck, i + 1).service, Some(run.outcomes[i])))
      && (run.raised ==>
            BulkStep(Bulk(s, p, targets, force, ids, luck, k).service, p, targets[k], force, ids[k], luck[k])
            == (run.service, None))
  {
    TurnsRunThrough(s, TurnOf(p, targets, force, ids, luck), |targets|);
  }

  // ---------------------------------------------------------------------------
  // The rules
  // ---------------------------------------------------------------------------

  /** The call answers as the rule decides, and commits what the rule says. */
  predicate Follows<T>(s: Service, out: Outcome<T>, t: Service, ending: Ending) {
    && ending == (if out.Done? then Finished else Denied(out.error))
    && t.db == if out.Done? then out.db else s.db
  }

  lemma CancelFollowsItsRule(s: Service, p: ProjectId, d: DocumentId, j: JobId)
    ensures var (t, ending) := AfterCancel(s, p, d, j, NoFault); Follows(s, CancelJob(s.db, p, d, j), t, ending)
  {
  }

  lemma DispatchFollowsItsRule(s: Service, j: JobId)
    ensures var (t, ending) := AfterDispatch(s, j, true, NoFault, None, NoFault);
      Follows(s, DispatchJob(s.db, j), t, ending)
  {
  }

  /** A queue that is down makes it two rules, one after the other. */
  lemma FailedQueueFollowsItsRule(s: Service, j: JobId)
    requires DispatchJob(s.db, j).Done?
    ensures var (t, ending) := AfterDispatch(s, j, false, NoFault, None, NoFault);
            var sent := DispatchJob(s.db, j).db;
      Follows(s.(db := sent), QueueUnavailable(sent, j), t, ending) && QueueUnavailable(sent, j).Done?
  {
    DispatchIsExact(s, j, false, NoFault, None, NoFault);
    var sent := Service(DispatchJob(s.db, j).db, [], AfterMove(s, j, JobStatus.Dispatched, NoFault).0.log);
    QueueIsExact(sent, j, false, NoFault);
  }

  lemma ResetFollowsItsRule(s: Service, p: ProjectId, d: DocumentId)
    ensures var (t, ending) := AfterReset(s, p, d, NoFault); Follows(s, ResetAnalysis(s.db, p, d), t, ending)
  {
  }

  lemma CreateFollowsItsRule(s: Service, p: ProjectId, d: DocumentId, key: Option<string>, force: bool, id: JobId)
    ensures var (t, reply) := AfterCreate(s, p, d, key, force, id, NoFault);
            var out := CreateJob(s.db, p, d, key, force, id);
      && t.db == (if out.Done? then out.db else s.db)
      && match out
         case Done(_, Created(j)) => reply == Made(j)
         case Done(_, Existing(jobs)) => reply == Known(jobs)
         case Refused(StorageFailed) => reply == NotMade(Raised)
         case Refused(error) => reply == NotMade(Denied(error))
  {
  }
}

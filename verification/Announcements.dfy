/** What the analysis-job service publishes: each call, the loop over documents, and the
    call that leaves something behind. */
module Announcements {
  import opened Options
  import opened Lifecycle
  import opened Records
  import opened JobRules
  import opened DocumentEvents
  import opened Services
  import opened Telling
  import opened AnalysisJobServices

  // ---------------------------------------------------------------------------
  // Every transaction's own change is honest
  // ---------------------------------------------------------------------------

  lemma InsertionIsHonest(db: Database, d: DocumentId, key: Option<string>, id: JobId)
    requires d in db.documents
    ensures Honest(LogEntry(db, Inserted(db, d, key, id), DraftChange(db, d)))
  {
    var after, own := Inserted(db, d, key, id), DraftChange(db, d);
    if own != [] {
      OneChange(Statuses(db), own[0]);
    }
    assert Replay(Statuses(db), own) == Statuses(after);
  }

  lemma MoveIsHonest(db: Database, j: JobId, target: JobStatus)
    requires j in db.jobs && db.jobs[j].document in db.documents && SetJobStatus(db, j, target).Done?
    ensures Honest(LogEntry(db, SetJobStatus(db, j, target).db, MoveChange(db, j, target)))
  {
    var after, own := SetJobStatus(db, j, target).db, MoveChange(db, j, target);
    if own != [] {
      OneChange(Statuses(db), own[0]);
    }
    assert Replay(Statuses(db), own) == Statuses(after);
  }

  lemma ResetIsHonest(db: Database, p: ProjectId, d: DocumentId)
    requires ResetAnalysis(db, p, d).Done?
    ensures Honest(LogEntry(
      db, ResetAnalysis(db, p, d).db, [StatusChange(d, p, AwaitingApproval, db.documents[d].currentJob)]))
  {
    var change := StatusChange(d, p, AwaitingApproval, db.documents[d].currentJob);
    OneChange(Statuses(db), change);
    assert Replay(Statuses(db), [change]) == Statuses(ResetAnalysis(db, p, d).db);
  }

  // ---------------------------------------------------------------------------
  // What a call adds to the log
  // ---------------------------------------------------------------------------

  lemma MoveTells(s: Service, j: JobId, target: JobStatus, fault: Fault)
    requires s.waiting == [] && j in s.db.jobs && s.db.jobs[j].document in s.db.documents
    ensures var t := AfterMove(s, j, target, fault).0; ToldAlone(s, t) && t.waiting == []
  {
    var (t, _) := AfterMove(s, j, target, fault);
    if t.log == s.log {
      NothingNew(s, t);
    } else {
      MoveIsHonest(s.db, j, target);
      OneEntry(s, SetJobStatus(s.db, j, target).db, MoveChange(s.db, j, target));
    }
  }

  lemma QueueTells(s: Service, j: JobId, queueUp: bool, fault: Fault)
    requires s.waiting == []
    ensures var t := AfterQueue(s, j, queueUp, fault).0; ToldAlone(s, t) && t.waiting == []
  {
    NothingNew(s, s);
    if j in s.db.jobs && s.db.jobs[j].document in s.db.documents && !queueUp {
      MoveTells(s, j, JobStatus.Failed, fault);
    }
  }

  lemma AtDispatchTells(
    s: Service, j: JobId, queueUp: bool, first: Fault, others: Option<Database>, second: Fault)
    requires s.waiting == [] && j in s.db.jobs && s.db.jobs[j].document in s.db.documents
    ensures var t := AtDispatch(s, j, queueUp, first, others, second).0;
      Told(s, t) && (others.None? ==> ToldAlone(s, t)) && t.waiting == []
  {
    var (sent, ending) := AfterMove(s, j, JobStatus.Dispatched, first);
    MoveTells(s, j, JobStatus.Dispatched, first);
    if ending.Finished? {
      var t := AfterQueue(sent.Seeing(others), j, queueUp, second).0;
      QueueTells(sent.Seeing(others), j, queueUp, second);
      ToldAfterOthers(sent, others, t);
      ToldOn(s, sent, t);
    }
  }

  lemma DispatchTells(
    s: Service, j: JobId, queueUp: bool, first: Fault, others: Option<Database>, second: Fault)
    requires s.waiting == []
    ensures var t := AfterDispatch(s, j, queueUp, first, others, second).0;
      Told(s, t) && (others.None? ==> ToldAlone(s, t)) && t.waiting == []
  {
    if j in s.db.jobs && s.db.jobs[j].status.Pending? && s.db.jobs[j].document in s.db.documents {
      AtDispatchTells(s, j, queueUp, first, others, second);
    } else {
      NothingNew(s, s);
    }
  }

  lemma CancelTells(s: Service, p: ProjectId, d: DocumentId, j: JobId, fault: Fault)
    requires s.waiting == []
    ensures var t := AfterCancel(s, p, d, j, fault).0; ToldAlone(s, t) && t.waiting == []
  {
    if s.db.InProject(d, p) && s.db.ActiveOn(j, d) {
      MoveTells(s, j, JobStatus.Cancelled, fault);
    } else {
      NothingNew(s, s);
    }
  }

  lemma ResetTells(s: Service, p: ProjectId, d: DocumentId, fault: Fault)
    requires s.waiting == []
    ensures var t := AfterReset(s, p, d, fault).0; ToldAlone(s, t) && t.waiting == []
  {
    var (t, _) := AfterReset(s, p, d, fault);
    if t.log == s.log {
      NothingNew(s, t);
    } else {
      ResetIsHonest(s.db, p, d);
      OneEntry(s, ResetAnalysis(s.db, p, d).db, [StatusChange(d, p, AwaitingApproval, s.db.documents[d].currentJob)]);
    }
  }

  /** A creation that records the draft and then fails with no conflict: it gets past its
      checks, the document is not a draft, and the insert or `set_current_job` raises, as the
      insert of a key wider than its column does. */
  predicate Leaks(db: Database, call: Call) {
    && call.Create? && !call.fault.EarlyCrash?
    && ReachesInsert(db, call.p, call.d, call.key, call.force) && db.documents[call.d].status != Draft
    && (call.fault.LateCrash? || !KeyFits(call.key))
  }

  /** The database after the call is not only the instance's own doing. */
  predicate FromOutside(call: Call) {
    || call.Elsewhere?
    || (call.Create? && call.fault.Conflict?)
    || (call.Dispatch? && call.others.Some?)
  }

  lemma ChecksPassed(s: Service, p: ProjectId, d: DocumentId, key: Option<string>, force: bool, id: JobId, fault: Fault)
    ensures var (t, reply) := AfterCreate(s, p, d, key, force, id, fault);
      if !fault.EarlyCrash? && ReachesInsert(s.db, p, d, key, force) then (t, reply) == AtInsert(s, d, key, id, fault)
      else t == s && !reply.Made?
  {
    if d in s.db.documents {
      NoneActive(s.db, d);
    }
  }

  lemma CreateTells(s: Service, p: ProjectId, d: DocumentId, key: Option<string>, force: bool, id: JobId, fault: Fault)
    requires s.waiting == []
    ensures var t := AfterCreate(s, p, d, key, force, id, fault).0;
      && Told(s, t) && (!fault.Conflict? ==> ToldAlone(s, t))
      && (t.waiting != [] <==> Leaks(s.db, Create(p, d, key, force, id, fault)))
  {
    ChecksPassed(s, p, d, key, force, id, fault);
    var (t, _) := AfterCreate(s, p, d, key, force, id, fault);
    if t.log == s.log {
      NothingNew(s, t);
    } else {
      InsertionIsHonest(s.db, d, key, id);
      OneEntry(s, Inserted(s.db, d, key, id), DraftChange(s.db, d));
    }
  }

  /** From an instance with nothing waiting, every call commits honest entries only, and
      leaves something waiting exactly if it leaks. */
  lemma CallTells(s: Service, call: Call)
    requires s.waiting == []
    ensures var t := Serve(s, call);
      && Told(s, t) && (!FromOutside(call) ==> ToldAlone(s, t))
      && (t.waiting != [] <==> Leaks(s.db, call))
  {
    match call
    case Create(p, d, key, force, id, fault) => CreateTells(s, p, d, key, force, id, fault);
    case Dispatch(j, queueUp, first, others, second) => DispatchTells(s, j, queueUp, first, others, second);
    case Cancel(p, d, j, fault) => CancelTells(s, p, d, j, fault);
    case Reset(p, d, fault) => ResetTells(s, p, d, fault);
    case Elsewhere(_) => NothingNew(s, Serve(s, call));
  }

  // ---------------------------------------------------------------------------
  // Whole runs
  // ---------------------------------------------------------------------------

  lemma CallsTell()
    ensures Tells(Serve, Leaks, FromOutside)
  {
    forall s: Service, call: Call | s.waiting == []
      ensures var t := Serve(s, call);
        && Told(s, t) && (!FromOutside(call) ==> ToldAlone(s, t))
        && (t.waiting != [] <==> Leaks(s.db, call))
    {
      CallTells(s, call);
    }
  }

  /** Nothing waits before any call, nor after the last one, exactly if no call leaks. */
  lemma NothingWaitsExactly(s: Service, calls: seq<Call>)
    requires s.waiting == []
    ensures (forall i :: 0 <= i <= |calls| ==> ServeAll(Serve, s, calls[..i]).waiting == [])
      <==> (forall i :: 0 <= i < |calls| ==> !LeaksAt(Serve, Leaks, s, calls, i))
  {
    CallsTell();
    NothingWaits(Serve, Leaks, FromOutside, s, calls);
  }

  /** Over any calls on one instance, whatever fails and whatever others commit in between,
      also within a call: if none of them leaks, every transaction is told exactly. */
  lemma OnlyCommittedStatusesAreAnnounced(s: Service, calls: seq<Call>)
    requires s.waiting == [] && forall i :: 0 <= i < |calls| ==> !LeaksAt(Serve, Leaks, s, calls, i)
    ensures Told(s, ServeAll(Serve, s, calls))
  {
    CallsTell();
    KeepsUp(Serve, Leaks, FromOutside, s, calls);
  }

  /** A subscriber keeps up: who applies everything the instance sent to the statuses it
      started from has the statuses of the committed database. */
  lemma SubscribersKeepUp(s: Service, calls: seq<Call>)
    requires s.waiting == []
    requires forall i :: 0 <= i < |calls| ==> !LeaksAt(Serve, Leaks, s, calls, i) && !FromOutside(calls[i])
    ensures var t := ServeAll(Serve, s, calls);
      s.log <= t.log && Replay(Statuses(s.db), Sent(Since(s, t))) == Statuses(t.db)
  {
    CallsTell();
    KeepsUp(Serve, Leaks, FromOutside, s, calls);
  }

  // ---------------------------------------------------------------------------
  // The leak
  // ---------------------------------------------------------------------------

  /** What a leak leaves is false: nothing was committed, and the document is no draft. */
  lemma LeakedIsFalse(s: Service, call: Call)
    requires s.waiting == [] && Leaks(s.db, call)
    ensures var t := Serve(s, call);
      && t == s.(waiting := [StatusChange(call.d, call.p, Draft, s.db.documents[call.d].currentJob)])
      && !IsTrue(t.db, t.waiting[0])
  {
    ChecksPassed(s, call.p, call.d, call.key, call.force, call.id, call.fault);
  }

  /** The next transaction that commits publishes it, whichever it is and whatever others have
      committed by then; that tells the truth exactly if the document is a draft, in the
      same project, in what this transaction commits. */
  lemma LeakIsPublished(s: Service, leak: Call, before: Database, after: Database, own: seq<StatusChange>)
    requires s.waiting == [] && Leaks(s.db, leak) && Honest(LogEntry(before, after, own))
    ensures var stale := StatusChange(leak.d, leak.p, Draft, s.db.documents[leak.d].currentJob);
            var entry := LogEntry(before, after, [stale] + own);
      && Serve(s, leak).Seeing(Some(before)).Committed(after, own) == Service(after, [], s.log + [entry])
      && (Honest(entry) <==> after.InProject(leak.d, leak.p) && after.documents[leak.d].status == Draft)
  {
    LeakedIsFalse(s, leak);
    var left := Serve(s, leak).Seeing(Some(before));
    WaitingIsPublished(left, after, own);
    assert left.waiting[0] in left.waiting;
  }

  const LONG_KEY: string := seq(129, i => 'k')

  const AWAITING := Database(
    map[5 := Document(0, AwaitingApproval, Some(3), 0)],
    map[3 := Job(5, Success, None)],
    map[])

  lemma LongKeyLeaks()
    ensures var failed := Create(0, 5, Some(LONG_KEY), false, 9, NoFault);
      && Leaks(AWAITING, failed)
      && Serve(Service(AWAITING, [], []), failed) == Service(AWAITING, [StatusChange(5, 0, Draft, Some(3))], [])
  {
    assert |LONG_KEY| == 129;
    assert WithKey(AWAITING, 5, LONG_KEY) == {};
    assert Leaks(AWAITING, Create(0, 5, Some(LONG_KEY), false, 9, NoFault));
    ChecksPassed(Service(AWAITING, [], []), 0, 5, Some(LONG_KEY), false, 9, NoFault);
  }

  lemma ResetPublishes(left: Service)
    requires left == Service(AWAITING, [StatusChange(5, 0, Draft, Some(3))], [])
    ensures var t := Serve(left, Reset(0, 5, NoFault));
      && |t.log| == 1 && t.log[0].before == AWAITING && Statuses(t.db) == Statuses(AWAITING) && !Honest(t.log[0])
      && t.log[0].sent == [StatusChange(5, 0, Draft, Some(3)), StatusChange(5, 0, AwaitingApproval, Some(3))]
  {
    var t := Serve(left, Reset(0, 5, NoFault));
    assert ResetAnalysis(AWAITING, 0, 5).Done?;
    assert StatusChange(5, 0, Draft, Some(3)) in t.log[0].sent;
  }

  /** The leak is real, and takes no broken database: a request whose key has 129 characters
      fails, and the next commit of the instance announces a draft that never was. */
  lemma LongKeyAnnouncesFalseDraft()
    ensures var s := Service(AWAITING, [], []);
            var failed := Create(0, 5, Some(LONG_KEY), false, 9, NoFault);
            var t := ServeAll(Serve, s, [failed, Reset(0, 5, NoFault)]);
      && Leaks(AWAITING, failed) && |t.log| == 1 && t.log[0].before == AWAITING
      && t.log[0].sent == [StatusChange(5, 0, Draft, Some(3)), StatusChange(5, 0, AwaitingApproval, Some(3))]
      && Statuses(t.db) == Statuses(AWAITING) && !Honest(t.log[0])
  {
    var s := Service(AWAITING, [], []);
    var failed, reset := Create(0, 5, Some(LONG_KEY), false, 9, NoFault), Reset(0, 5, NoFault);
    LongKeyLeaks();
    var left := Serve(s, failed);
    assert [failed, reset][..1] == [failed] && [failed][..0] == [];
    assert ServeAll(Serve, s, [failed]) == left;
    ResetPublishes(left);
  }

  // ---------------------------------------------------------------------------
  // The bulk loop
  // ---------------------------------------------------------------------------

  lemma BulkStepTells(s: Service, p: ProjectId, d: DocumentId, force: bool, id: JobId, luck: Luck)
    requires s.waiting == []
    ensures var (t, outcome) := BulkStep(s, p, d, force, id, luck);
      && Told(s, t) && (luck.Alone() ==> ToldAlone(s, t)) && (outcome.Some? ==> t.waiting == [])
  {
    var first := s.Seeing(luck.before);
    var (made, reply) := AfterCreate(first, p, d, None, force, id, luck.create);
    CreateTells(first, p, d, None, force, id, luck.create);
    ChecksPassed(first, p, d, None, force, id, luck.create);
    if reply.Made? {
      var next := made.Seeing(luck.between);
      var t := AfterDispatch(next, id, luck.queueUp, luck.first, luck.meanwhile, luck.second).0;
      DispatchTells(next, id, luck.queueUp, luck.first, luck.meanwhile, luck.second);
      assert Told(made, t) && (luck.Alone() ==> ToldAlone(made, t));
      ToldOn(s, made, t);
    }
  }

  /** A skipped document contributes no write and no change; only what others committed
      before it, or the lost race, is seen. */
  lemma SkippedLeavesNothing(s: Service, p: ProjectId, d: DocumentId, force: bool, id: JobId, luck: Luck)
    ensures var (t, outcome) := BulkStep(s, p, d, force, id, luck);
      outcome.Some? && outcome.value.Skipped? ==>
        && outcome.value.document == d && t.log == s.log
        && (t == s.Seeing(luck.before) || (luck.create.Conflict? && t.db == luck.create.seen && t.waiting == []))
  {
    ChecksPassed(s.Seeing(luck.before), p, d, None, force, id, luck.create);
  }

  /** What every turn of a loop does: it tells, and leaves nothing waiting unless it raises. */
  ghost predicate EachTurnTells(turn: (Service, nat) -> (Service, Option<BulkOutcome>), alone: nat -> bool) {
    forall s: Service, i: nat :: s.waiting == [] ==>
      && Told(s, turn(s, i).0) && (alone(i) ==> ToldAlone(s, turn(s, i).0))
      && (turn(s, i).1.Some? ==> turn(s, i).0.waiting == [])
  }

  lemma {:induction false} TurnsAreTold(
    s: Service, turn: (Service, nat) -> (Service, Option<BulkOutcome>), alone: nat -> bool, n: nat)
    requires s.waiting == [] && EachTurnTells(turn, alone)
    ensures var run := Turns(s, turn, n);
      && Told(s, run.service) && (!run.raised ==> run.service.waiting == [])
      && ((forall i: nat :: i < n ==> alone(i)) ==> ToldAlone(s, run.service))
  {
    if n == 0 {
      NothingNew(s, s);
    } else {
      TurnsAreTold(s, turn, alone, n - 1);
      var run := Turns(s, turn, n - 1);
      if !run.raised {
        ToldOn(s, run.service, turn(run.service, n - 1).0);
      }
    }
  }

  /** Over the whole loop, with documents skipped, races lost, transactions failing and others
      committing before any of them, every commit is told exactly, and unless the loop ends
      with an exception nothing waits. */
  lemma BulkIsToldExactly(
    s: Service, p: ProjectId, targets: seq<DocumentId>, force: bool, ids: seq<JobId>, luck: seq<Luck>, n: nat)
    requires s.waiting == [] && n <= |targets| == |ids| == |luck|
    ensures var run := Bulk(s, p, targets, force, ids, luck, n);
      && Told(s, run.service) && (!run.raised ==> run.service.waiting == [])
      && ((forall i :: 0 <= i < n ==> luck[i].Alone()) ==> ToldAlone(s, run.service))
  {
    var turn, alone := TurnOf(p, targets, force, ids, luck), (i: nat) => i < |luck| ==> luck[i].Alone();
    forall s: Service, i: nat | s.waiting == []
      ensures Told(s, turn(s, i).0) && (alone(i) ==> ToldAlone(s, turn(s, i).0))
      ensures turn(s, i).1.Some? ==> turn(s, i).0.waiting == []
    {
      if i < |targets| {
        BulkStepTells(s, p, targets[i], force, ids[i], luck[i]);
      } else {
        NothingNew(s, s);
      }
    }
    TurnsAreTold(s, turn, alone, n);
  }

  /** And a subscriber keeps up with a loop beside which nobody else commits. */
  lemma SubscribersKeepUpWithBulk(
    s: Service, p: ProjectId, targets: seq<DocumentId>, force: bool, ids: seq<JobId>, luck: seq<Luck>)
    requires s.waiting == [] && |targets| == |ids| == |luck|
    requires forall i :: 0 <= i < |luck| ==> luck[i].Alone()
    ensures var t := Bulk(s, p, targets, force, ids, luck, |targets|).service;
      s.log <= t.log && Replay(Statuses(s.db), Sent(Since(s, t))) == Statuses(t.db)
  {
    BulkIsToldExactly(s, p, targets, force, ids, luck, |targets|);
    var t := Bulk(s, p, targets, force, ids, luck, |targets|).service;
    ReplaySent(s.db, Since(s, t), t.db);
  }

  // ---------------------------------------------------------------------------
  // The job an announcement names
  // ---------------------------------------------------------------------------

  predicate NamesOtherJob(db: Database, change: StatusChange) {
    change.document in db.documents && change.currentJob != db.documents[change.document].currentJob
  }

  /** The one thing the announcement of a creation gets wrong: it is recorded before the new
      job becomes current, so it still names the job the document had before. */
  lemma CreationAnnouncesTheOldJob(
    s: Service, p: ProjectId, d: DocumentId, key: Option<string>, force: bool, id: JobId)
    requires s.waiting == [] && (d in s.db.documents ==> s.db.documents[d].currentJob != Some(id))
    ensures var t := AfterCreate(s, p, d, key, force, id, NoFault).0;
      (|t.log| > |s.log| && exists change :: change in t.log[|s.log|].sent && NamesOtherJob(t.db, change))
      <==> ReachesInsert(s.db, p, d, key, force) && KeyFits(key) && s.db.documents[d].status != Draft
  {
    ChecksPassed(s, p, d, key, force, id, NoFault);
    var t := AfterCreate(s, p, d, key, force, id, NoFault).0;
    if ReachesInsert(s.db, p, d, key, force) && KeyFits(key) {
      assert t.log[|s.log|].sent == DraftChange(s.db, d);
      if s.db.documents[d].status != Draft {
        assert DraftChange(s.db, d)[0] in t.log[|s.log|].sent;
      }
    }
  }
}

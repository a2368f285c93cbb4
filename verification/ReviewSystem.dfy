/** The whole state machine of documents, jobs and suggestions: any sequence of service
    calls and worker transactions, each one atomic. */
module ReviewSystem {
  import opened Options
  import opened Lifecycle
  import opened Records
  import opened JobRules
  import opened ReviewRules

  /** The ids ever handed out: every new row gets an id nobody had before. */
  datatype Used = Used(documents: set<DocumentId>, jobs: set<JobId>, suggestions: set<SuggestionId>)

  /** `queued` are the jobs whose dispatched status was committed, the only ones the
      queue ever delivers. */
  datatype System = System(db: Database, used: Used, queued: set<JobId>)

  datatype Event =
    | AddDocument(d: DocumentId, p: ProjectId)
    | Create(p: ProjectId, d: DocumentId, key: Option<string>, force: bool, id: JobId)
    | Dispatch(j: JobId)
    | QueueFails(j: JobId)
    | Cancel(p: ProjectId, d: DocumentId, j: JobId)
    | ResetAll(p: ProjectId, d: DocumentId)
    | Mark(j: JobId)
    | Store(j: JobId, ids: set<SuggestionId>)
    | Finalize(j: JobId, target: JobStatus)
    | Delete(p: ProjectId, d: DocumentId)
    | Drop(d: DocumentId)
    | DropProject(p: ProjectId)
    | Patch(p: ProjectId, d: DocumentId, user: UserId, decision: SuggestionStatus, pick: Selection, now: int)
    | ResetOne(p: ProjectId, d: DocumentId, sid: SuggestionId)
    | FinishReview(p: ProjectId, d: DocumentId)
    | SaveReview(p: ProjectId, d: DocumentId, user: UserId, version: int,
                 accepted: seq<SuggestionId>, rejected: seq<SuggestionId>, edits: map<SuggestionId, string>,
                 finalize: bool, now: int)

  predicate IsReview(e: Event) {
    e.Patch? || e.ResetOne? || e.FinishReview? || e.SaveReview?
  }

  predicate Enabled(s: System, e: Event) {
    match e
    case AddDocument(d, _) => d !in s.used.documents
    case Create(_, _, _, _, id) => id !in s.used.jobs
    case QueueFails(j) => j in s.queued
    case Mark(j) => j in s.queued
    case Store(j, ids) => j in s.queued && ids !! s.used.suggestions
    case Finalize(j, target) =>
      j in s.queued && target in {JobStatus.Success, JobStatus.PartialSuccess, JobStatus.Failed}
    case _ => true
  }

  function NewDatabase(db: Database, e: Event): Database {
    match e
    case AddDocument(d, p) => db.SetDocument(d, Document(p, Draft, None, 0))
    case Create(p, d, key, force, id) => CreateJob(db, p, d, key, force, id).After(db)
    case Dispatch(j) => DispatchJob(db, j).After(db)
    case QueueFails(j) => QueueUnavailable(db, j).After(db)
    case Cancel(p, d, j) => CancelJob(db, p, d, j).After(db)
    case ResetAll(p, d) => ResetAnalysis(db, p, d).After(db)
    case Mark(j) => MarkProcessing(db, j)
    case Store(j, ids) => StoreBatch(db, j, ids)
    case Finalize(j, target) => FinalizeJob(db, j, target).After(db)
    case Delete(p, d) => DeleteDocument(db, p, d).After(db)
    case Drop(d) => Without(db, {d})
    case DropProject(p) => DeleteProject(db, p)
    case Patch(p, d, user, target, pick, now) => PatchSuggestions(db, p, d, user, target, pick, now).After(db)
    case ResetOne(p, d, sid) => ResetSuggestion(db, p, d, sid).After(db)
    case FinishReview(p, d) => FinalizeReview(db, p, d).After(db)
    case SaveReview(p, d, user, version, accepted, rejected, edits, finalize, now) =>
      AtomicReviewSave(db, p, d, user, version, accepted, rejected, edits, finalize, now).After(db)
  }

  function Step(s: System, e: Event): System {
    System(NewDatabase(s.db, e),
           Used(if e.AddDocument? then s.used.documents + {e.d} else s.used.documents,
                if e.Create? then s.used.jobs + {e.id} else s.used.jobs,
                if e.Store? then s.used.suggestions + e.ids else s.used.suggestions),
           if e.Dispatch? && DispatchJob(s.db, e.j).Done? then s.queued + {e.j} else s.queued)
  }

  predicate Leads(s: System, events: seq<Event>, t: System)
    decreases |events|
  {
    if events == [] then s == t else Enabled(s, events[0]) && Leads(Step(s, events[0]), events[1..], t)
  }

  const EMPTY := System(Database(map[], map[], map[]), Used({}, {}, {}), {})

  ghost predicate Reachable(s: System) {
    exists events :: Leads(EMPTY, events, s)
  }

  // ---------------------------------------------------------------------------
  // The invariant
  // ---------------------------------------------------------------------------

  predicate StatusAgrees(job: JobStatus, document: DocumentStatus) {
    match job
    case Dispatched => document == InProgress
    case Processing => document == InProgress
    case Success => document in {AwaitingApproval, Ready}
    case PartialSuccess => document in {AwaitingApproval, Ready}
    case _ => document == Draft
  }

  ghost predicate References(db: Database) {
    && (forall j :: j in db.jobs ==> db.jobs[j].document in db.documents)
    && (forall d :: d in db.documents && db.documents[d].currentJob.Some? ==>
          db.documents[d].currentJob.value in db.jobs && db.jobs[db.documents[d].currentJob.value].document == d)
    && (forall sid :: sid in db.suggestions ==>
          && db.suggestions[sid].job in db.jobs
          && db.jobs[db.suggestions[sid].job].document == db.suggestions[sid].document)
  }

  /** The document's status, as far as its current job determines it. */
  ghost predicate Coupled(db: Database, d: DocumentId)
    requires References(db) && d in db.documents
  {
    match db.documents[d].currentJob
    case None => db.documents[d].status == Draft
    case Some(j) => StatusAgrees(db.jobs[j].status, db.documents[d].status)
  }

  predicate SameKey(a: Job, b: Job) {
    a.key == b.key && a.document == b.document
  }

  ghost predicate Coupling(db: Database)
    requires References(db)
  {
    && (forall d :: d in db.documents ==> Coupled(db, d))
    && (forall j :: j in db.jobs && IsActive(db.jobs[j].status) ==>
          db.documents[db.jobs[j].document].currentJob == Some(j))
    && (forall i, j :: i in db.jobs && j in db.jobs && db.jobs[i].key.Some? && SameKey(db.jobs[i], db.jobs[j]) ==>
          i == j)
  }

  predicate RowSound(row: Suggestion) {
    && (row.status.Pending? <==> row.decidedBy.None?)
    && (row.status.Pending? <==> row.decidedAt.None?)
    && (row.editedText.Some? ==> row.status.Accepted?)
  }

  ghost predicate Reviewed(db: Database)
    requires References(db)
  {
    && (forall sid :: sid in db.suggestions ==> RowSound(db.suggestions[sid]))
    && (forall sid :: sid in db.suggestions && db.suggestions[sid].status.Pending? ==>
          var d := db.documents[db.suggestions[sid].document];
          d.status.Ready? ==> d.currentJob != Some(db.suggestions[sid].job))
    && (forall sid :: sid in db.suggestions && IsActive(db.jobs[db.suggestions[sid].job].status) ==>
          db.suggestions[sid].status.Pending?)
  }

  ghost predicate Sound(db: Database) {
    References(db) && Coupling(db) && Reviewed(db)
  }

  ghost predicate Inv(s: System) {
    && Sound(s.db)
    && s.db.documents.Keys <= s.used.documents
    && s.db.jobs.Keys <= s.used.jobs
    && s.db.suggestions.Keys <= s.used.suggestions
    && s.queued <= s.used.jobs
    && (forall j :: j in s.queued && j in s.db.jobs ==> !s.db.jobs[j].status.Pending?)
  }

  // Two shapes of change cover most transactions: a job and its document move together,
  // or rows of a job that is over are rewritten in place.

  function Moved(db: Database, j: JobId, status: JobStatus, document: DocumentStatus): Database
    requires j in db.jobs && db.jobs[j].document in db.documents
  {
    var d := db.jobs[j].document;
    db.SetJob(j, db.jobs[j].(status := status)).SetDocument(d, db.documents[d].(status := document))
  }

  lemma MovedReferences(db: Database, j: JobId, status: JobStatus, document: DocumentStatus)
    requires References(db) && j in db.jobs
    ensures References(Moved(db, j, status, document))
  {
  }

  lemma MovedCoupling(db: Database, j: JobId, status: JobStatus, document: DocumentStatus)
    requires References(db) && Coupling(db)
    requires j in db.jobs && db.documents[db.jobs[j].document].currentJob == Some(j)
    requires References(Moved(db, j, status, document))
    requires StatusAgrees(status, document) && (IsActive(status) ==> IsActive(db.jobs[j].status))
    ensures Coupling(Moved(db, j, status, document))
  {
    var after := Moved(db, j, status, document);
    forall x | x in after.documents ensures Coupled(after, x) {
      assert Coupled(db, x);
    }
  }

  lemma MovedReviewed(db: Database, j: JobId, status: JobStatus, document: DocumentStatus)
    requires References(db) && Reviewed(db)
    requires j in db.jobs && db.documents[db.jobs[j].document].currentJob == Some(j)
    requires References(Moved(db, j, status, document))
    requires IsActive(status) ==> IsActive(db.jobs[j].status)
    requires document.Ready? ==> db.OfJob(j, SuggestionStatus.Pending) == {}
    ensures Reviewed(Moved(db, j, status, document))
  {
    var after := Moved(db, j, status, document);
    forall sid | sid in after.suggestions && after.suggestions[sid].status.Pending?
      ensures var row := after.documents[after.suggestions[sid].document];
        row.status.Ready? ==> row.currentJob != Some(after.suggestions[sid].job)
    {
      assert sid in db.OfJob(db.suggestions[sid].job, SuggestionStatus.Pending);
    }
  }

  lemma MovedTogether(db: Database, j: JobId, status: JobStatus, document: DocumentStatus)
    requires Sound(db) && j in db.jobs && db.documents[db.jobs[j].document].currentJob == Some(j)
    requires StatusAgrees(status, document) && (IsActive(status) ==> IsActive(db.jobs[j].status))
    requires document.Ready? ==> db.OfJob(j, SuggestionStatus.Pending) == {}
    ensures Sound(Moved(db, j, status, document))
  {
    MovedReferences(db, j, status, document);
    MovedCoupling(db, j, status, document);
    MovedReviewed(db, j, status, document);
  }

  lemma SameTablesCoupled(db: Database, after: Database)
    requires References(db) && References(after) && Coupling(db)
    requires after.documents == db.documents && after.jobs == db.jobs
    ensures Coupling(after)
  {
    forall x | x in after.documents ensures Coupled(after, x) {
      assert Coupled(db, x);
    }
  }

  lemma RowsRewritten(db: Database, after: Database)
    requires Sound(db) && after.documents == db.documents && after.jobs == db.jobs
    requires after.suggestions.Keys == db.suggestions.Keys
    requires forall sid :: sid in db.suggestions ==>
      var old', new' := db.suggestions[sid], after.suggestions[sid];
      && new'.job == old'.job && new'.document == old'.document && RowSound(new')
      && (new' == old' || (
        && !IsActive(db.jobs[old'.job].status)
        && (new'.status.Pending? ==> !db.documents[old'.document].status.Ready?)))
    ensures Sound(after)
  {
    assert References(after);
    SameTablesCoupled(db, after);
  }

  // Each transaction keeps the tables sound.

  lemma AddedReferences(db: Database, d: DocumentId, id: JobId, key: Option<string>)
    requires References(db) && d in db.documents && id !in db.jobs
    ensures References(Inserted(db, d, key, id))
  {
  }

  lemma AddedCoupling(db: Database, d: DocumentId, id: JobId, key: Option<string>)
    requires d in db.documents && id !in db.jobs
    requires References(db) && References(Inserted(db, d, key, id)) && Coupling(db)
    requires forall j :: j in db.jobs && db.jobs[j].document == d ==>
      !IsActive(db.jobs[j].status) && (key.Some? ==> db.jobs[j].key != key)
    ensures Coupling(Inserted(db, d, key, id))
  {
    var after := Inserted(db, d, key, id);
    forall x | x in after.documents ensures Coupled(after, x) {
      assert Coupled(db, x);
    }
  }

  lemma AddedReviewed(db: Database, d: DocumentId, id: JobId, key: Option<string>)
    requires d in db.documents && id !in db.jobs
    requires References(db) && References(Inserted(db, d, key, id)) && Reviewed(db)
    ensures Reviewed(Inserted(db, d, key, id))
  {
  }

  lemma AddedIsSound(db: Database, d: DocumentId, id: JobId, key: Option<string>)
    requires Sound(db) && d in db.documents && id !in db.jobs
    requires forall j :: j in db.jobs && db.jobs[j].document == d ==>
      !IsActive(db.jobs[j].status) && (key.Some? ==> db.jobs[j].key != key)
    ensures Sound(Inserted(db, d, key, id))
  {
    AddedReferences(db, d, id, key);
    AddedCoupling(db, d, id, key);
    AddedReviewed(db, d, id, key);
  }

  lemma CreateIsSound(db: Database, p: ProjectId, d: DocumentId, key: Option<string>, force: bool, id: JobId)
    requires Sound(db) && id !in db.jobs
    ensures Sound(CreateJob(db, p, d, key, force, id).After(db))
  {
    var out := CreateJob(db, p, d, key, force, id);
    if out.Done? && out.answer.Created? {
      forall j | j in db.jobs && db.jobs[j].document == d ensures !IsActive(db.jobs[j].status) {
        assert j !in ActiveJobs(db, d);
      }
      forall j | j in db.jobs && db.jobs[j].document == d && key.Some? ensures db.jobs[j].key != key {
        assert j !in WithKey(db, d, key.value);
      }
      AddedIsSound(db, d, id, key);
    }
  }

  lemma SetJobStatusIsSound(db: Database, j: JobId, target: JobStatus)
    requires Sound(db) && j in db.jobs && IsActive(db.jobs[j].status)
    requires target in {JobStatus.Dispatched, JobStatus.Failed, JobStatus.Cancelled}
    ensures Sound(SetJobStatus(db, j, target).After(db))
    ensures target in JobTargets(db.jobs[j].status) ==> SetJobStatus(db, j, target).Done?
  {
    assert Coupled(db, db.jobs[j].document);
    MovedTogether(db, j, target, DocumentStatusFor(target, false));
  }

  lemma MarkIsSound(db: Database, j: JobId)
    requires Sound(db) && (j in db.jobs ==> !db.jobs[j].status.Pending?)
    ensures Sound(MarkProcessing(db, j))
  {
    if j in db.jobs && IsActive(db.jobs[j].status) {
      assert Coupled(db, db.jobs[j].document);
      MovedTogether(db, j, JobStatus.Processing, InProgress);
      assert MarkProcessing(db, j).documents == Moved(db, j, JobStatus.Processing, InProgress).documents;
    }
  }

  /** New rows of an active job touch neither documents nor jobs. */
  lemma StoredReviewed(db: Database, j: JobId, ids: set<SuggestionId>)
    requires References(db) && Coupling(db) && Reviewed(db) && ids !! db.suggestions.Keys
    requires j in db.jobs && IsActive(db.jobs[j].status) && References(StoreBatch(db, j, ids))
    ensures Reviewed(StoreBatch(db, j, ids))
  {
    assert Coupled(db, db.jobs[j].document);
  }

  lemma StoreIsSound(db: Database, j: JobId, ids: set<SuggestionId>)
    requires Sound(db) && ids !! db.suggestions.Keys
    ensures Sound(StoreBatch(db, j, ids))
  {
    if j in db.jobs && IsActive(db.jobs[j].status) {
      var after := StoreBatch(db, j, ids);
      assert References(after);
      SameTablesCoupled(db, after);
      StoredReviewed(db, j, ids);
    }
  }

  lemma FinalizeIsSound(db: Database, j: JobId, target: JobStatus)
    requires Sound(db) && (j in db.jobs ==> !db.jobs[j].status.Pending?)
    requires target in {JobStatus.Success, JobStatus.PartialSuccess, JobStatus.Failed}
    ensures FinalizeJob(db, j, target).Done? && Sound(FinalizeJob(db, j, target).db)
  {
    if j in db.jobs && !IsTerminal(db.jobs[j].status) {
      ActiveXorTerminal(db.jobs[j].status);
      assert Coupled(db, db.jobs[j].document);
      var pending := db.OfJob(j, SuggestionStatus.Pending);
      MovedTogether(db, j, target, DocumentStatusFor(target, |pending| > 0));
    }
  }

  /** Documents may go at any time, with everything that hangs on them, also while they are
      analysed. */
  lemma DeleteIsSound(db: Database, gone: set<DocumentId>)
    requires Sound(db)
    ensures Sound(Without(db, gone))
  {
    var after := Without(db, gone);
    assert References(after);
    forall x | x in after.documents ensures Coupled(after, x) {
      assert Coupled(db, x);
    }
    assert Coupling(after);
  }

  /** A document under review has a current job that is over. */
  lemma ReviewedJobIsOver(db: Database, d: DocumentId, j: JobId)
    requires Sound(db) && d in db.documents && db.documents[d].currentJob == Some(j)
    requires CanResetReview(db.documents[d].status)
    ensures j in db.jobs && db.jobs[j].status in {JobStatus.Success, JobStatus.PartialSuccess}
    ensures !IsActive(db.jobs[j].status)
  {
    assert Coupled(db, d);
  }

  lemma ReopenedIsSound(db: Database, d: DocumentId, j: JobId)
    requires Sound(db) && d in db.documents && db.documents[d].currentJob == Some(j)
    requires CanResetReview(db.documents[d].status)
    ensures Sound(Reopened(db, d)) && Reopened(db, d).documents[d].status == AwaitingApproval
  {
    ReviewedJobIsOver(db, d, j);
    MovedTogether(db, j, db.jobs[j].status, AwaitingApproval);
    assert db.SetJob(j, db.jobs[j].(status := db.jobs[j].status)) == db;
  }

  /** Reopening and resetting rows do not interfere. */
  lemma ReopenedOrReset(db: Database, d: DocumentId, chosen: set<SuggestionId>)
    requires d in db.documents
    ensures Reopened(ResetRows(db, chosen), d) == ResetRows(Reopened(db, d), chosen)
  {
  }

  lemma ResetUnderReview(db: Database, d: DocumentId, j: JobId, chosen: set<SuggestionId>)
    requires Sound(db) && d in db.documents && db.documents[d].currentJob == Some(j)
    requires db.documents[d].status == AwaitingApproval
    requires forall sid :: sid in chosen ==> sid in db.suggestions && db.suggestions[sid].job == j
    ensures Sound(ResetRows(db, chosen))
  {
    ReviewedJobIsOver(db, d, j);
    RowsRewritten(db, ResetRows(db, chosen));
  }

  lemma ResetRowsIsSound(db: Database, d: DocumentId, j: JobId, chosen: set<SuggestionId>)
    requires Sound(db) && d in db.documents && db.documents[d].currentJob == Some(j)
    requires CanResetReview(db.documents[d].status)
    requires forall sid :: sid in chosen ==> sid in db.suggestions && db.suggestions[sid].job == j
    ensures Sound(ResetRows(Reopened(db, d), chosen))
    ensures Reopened(ResetRows(db, chosen), d) == ResetRows(Reopened(db, d), chosen)
  {
    ReopenedIsSound(db, d, j);
    ResetUnderReview(Reopened(db, d), d, j, chosen);
    ReopenedOrReset(db, d, chosen);
  }

  /** Resetting an analysis is reopening the review and resetting all its rows. */
  lemma ResetAnalysisReopens(db: Database, p: ProjectId, d: DocumentId)
    requires ResetAnalysis(db, p, d).Done?
    ensures ResetAnalysis(db, p, d).db ==
      ResetRows(Reopened(db, d), Resettable(db, db.documents[d].currentJob.value, None))
  {
    var after := ResetAnalysis(db, p, d).db;
    assert after.documents == Reopened(db, d).documents;
  }

  lemma ResetAnalysisIsSound(db: Database, p: ProjectId, d: DocumentId)
    requires Sound(db)
    ensures Sound(ResetAnalysis(db, p, d).After(db))
  {
    if ResetAnalysis(db, p, d).Done? {
      var j := db.documents[d].currentJob.value;
      ResetAnalysisReopens(db, p, d);
      ResetRowsIsSound(db, d, j, Resettable(db, j, None));
    }
  }

  lemma DecisionsAreSound(
    db: Database, d: DocumentId, j: JobId, decisions: seq<Decision>, user: UserId, now: int)
    requires Sound(db) && d in db.documents && db.documents[d].currentJob == Some(j)
    requires db.documents[d].status == AwaitingApproval
    requires forall sid :: sid in Decidable(db, d, j, decisions) && EditFor(decisions, sid).Some? ==>
      AcceptedIn(decisions, sid)
    ensures Sound(DecideRows(db, d, j, decisions, user, now))
  {
    ReviewedJobIsOver(db, d, j);
    RowsRewritten(db, DecideRows(db, d, j, decisions, user, now));
  }

  lemma DecideAllIsSound(db: Database, d: DocumentId, j: JobId, accept: bool, user: UserId, now: int)
    requires Sound(db) && d in db.documents && db.documents[d].currentJob == Some(j)
    requires db.documents[d].status == AwaitingApproval
    ensures Sound(DecideAll(db, j, accept, user, now))
  {
    ReviewedJobIsOver(db, d, j);
    RowsRewritten(db, DecideAll(db, j, accept, user, now));
  }

  /** An edit is written exactly when some decision about the row carries one. */
  lemma {:induction false} EditsComeFromDecisions(decisions: seq<Decision>, sid: SuggestionId)
    ensures EditFor(decisions, sid).Some? ==> exists i ::
      0 <= i < |decisions| && decisions[i].suggestion == sid && decisions[i].editedText == EditFor(decisions, sid)
    ensures EditFor(decisions, sid).None? ==> forall i ::
      0 <= i < |decisions| && decisions[i].suggestion == sid ==> decisions[i].editedText.None?
  {
    if decisions != [] && !(decisions[0].suggestion == sid && decisions[0].editedText.Some?) {
      EditsComeFromDecisions(decisions[1..], sid);
      assert forall i :: 0 < i < |decisions| ==> decisions[i] == decisions[1..][i - 1];
      if EditFor(decisions, sid).Some? {
        var i :| 0 <= i < |decisions[1..]| && decisions[1..][i].suggestion == sid
          && decisions[1..][i].editedText == EditFor(decisions, sid);
        assert decisions[i + 1] == decisions[1..][i];
      }
    }
  }

  lemma PatchIsSound(
    db: Database, p: ProjectId, d: DocumentId, user: UserId, target: SuggestionStatus, pick: Selection, now: int)
    requires Sound(db)
    ensures Sound(PatchSuggestions(db, p, d, user, target, pick, now).After(db))
  {
    var out := PatchSuggestions(db, p, d, user, target, pick, now);
    if out.Done? {
      var j := db.documents[d].currentJob.value;
      if target.Pending? {
        ResetRowsIsSound(db, d, j, out.answer);
      } else if pick.ByIds? {
        var decisions := Plain(pick.ids, target.Accepted?);
        forall sid | EditFor(decisions, sid).Some? ensures false {
          EditsComeFromDecisions(decisions, sid);
        }
        DecisionsAreSound(db, d, j, decisions, user, now);
      } else {
        DecideAllIsSound(db, d, j, target.Accepted?, user, now);
      }
    }
  }

  lemma ResetOneIsSound(db: Database, p: ProjectId, d: DocumentId, sid: SuggestionId)
    requires Sound(db)
    ensures Sound(ResetSuggestion(db, p, d, sid).After(db))
  {
    if ResetSuggestion(db, p, d, sid).Done? {
      ResetRowsIsSound(db, d, db.suggestions[sid].job, {sid});
    }
  }

  lemma FinishedIsSound(db: Database, d: DocumentId, j: JobId)
    requires Sound(db) && d in db.documents && db.documents[d].currentJob == Some(j)
    requires db.documents[d].status == AwaitingApproval && db.OfJob(j, SuggestionStatus.Pending) == {}
    ensures Sound(db.SetDocument(d, db.documents[d].(status := Ready)))
  {
    ReviewedJobIsOver(db, d, j);
    MovedTogether(db, j, db.jobs[j].status, Ready);
    assert db.SetJob(j, db.jobs[j].(status := db.jobs[j].status)) == db;
  }

  lemma VersionIsSound(db: Database, d: DocumentId, version: int)
    requires Sound(db) && d in db.documents
    ensures Sound(db.SetDocument(d, db.documents[d].(reviewVersion := version)))
  {
    var after := db.SetDocument(d, db.documents[d].(reviewVersion := version));
    assert References(after);
    forall x | x in after.documents ensures Coupled(after, x) {
      assert Coupled(db, x);
    }
    assert Coupling(after);
  }

  lemma SaveIsSound(
    db: Database, p: ProjectId, d: DocumentId, user: UserId, version: int,
    accepted: seq<SuggestionId>, rejected: seq<SuggestionId>, edits: map<SuggestionId, string>,
    finalize: bool, now: int)
    requires Sound(db)
    ensures Sound(AtomicReviewSave(db, p, d, user, version, accepted, rejected, edits, finalize, now).After(db))
  {
    var out := AtomicReviewSave(db, p, d, user, version, accepted, rejected, edits, finalize, now);
    if out.Done? {
      var j := db.documents[d].currentJob.value;
      var decisions := Decisions(accepted, rejected, edits);
      var locked := db.SetDocument(d, db.documents[d].(reviewVersion := version + 1));
      VersionIsSound(db, d, version + 1);
      forall sid | EditFor(decisions, sid).Some? ensures AcceptedIn(decisions, sid) {
        EditsComeFromDecisions(decisions, sid);
      }
      DecisionsAreSound(locked, d, j, decisions, user, now);
      if finalize {
        FinishedIsSound(DecideRows(locked, d, j, decisions, user, now), d, j);
      }
    }
  }

  lemma StepIsSound(s: System, e: Event)
    requires Inv(s) && Enabled(s, e)
    ensures Sound(Step(s, e).db)
  {
    var db := s.db;
    match e {
      case AddDocument(_, _) =>
      case Create(p, d, key, force, id) => CreateIsSound(db, p, d, key, force, id);
      case Dispatch(j) =>
        if DispatchJob(db, j).Done? {
          SetJobStatusIsSound(db, j, JobStatus.Dispatched);
        }
      case QueueFails(j) =>
        if QueueUnavailable(db, j).Done? {
          ActiveXorTerminal(db.jobs[j].status);
          SetJobStatusIsSound(db, j, JobStatus.Failed);
        }
      case Cancel(p, d, j) =>
        if CancelJob(db, p, d, j).Done? && !db.jobs[j].status.Cancelled? {
          SetJobStatusIsSound(db, j, JobStatus.Cancelled);
        }
      case ResetAll(p, d) => ResetAnalysisIsSound(db, p, d);
      case Mark(j) => MarkIsSound(db, j);
      case Store(j, ids) => StoreIsSound(db, j, ids);
      case Finalize(j, target) => FinalizeIsSound(db, j, target);
      case Delete(p, d) => DeleteIsSound(db, {d});
      case Drop(d) => DeleteIsSound(db, {d});
      case DropProject(p) => DeleteIsSound(db, set d | d in db.documents && db.documents[d].project == p);
      case Patch(p, d, user, target, pick, now) => PatchIsSound(db, p, d, user, target, pick, now);
      case ResetOne(p, d, sid) => ResetOneIsSound(db, p, d, sid);
      case FinishReview(p, d) =>
        if FinalizeReview(db, p, d).Done? {
          FinishedIsSound(db, d, db.documents[d].currentJob.value);
        }
      case SaveReview(p, d, user, version, accepted, rejected, edits, finalize, now) =>
        SaveIsSound(db, p, d, user, version, accepted, rejected, edits, finalize, now);
    }
  }

  // How one step may change the jobs table: statuses move along the life cycle, nothing
  // else changes, and only a creation adds a row.

  ghost predicate Forward(before: map<JobId, Job>, after: map<JobId, Job>) {
    && after.Keys <= before.Keys
    && forall j :: j in after ==>
         && after[j].(status := before[j].status) == before[j]
         && (after[j].status == before[j].status || after[j].status in JobTargets(before[j].status))
  }

  lemma SetJobStatusForward(db: Database, j: JobId, target: JobStatus)
    requires References(db) && j in db.jobs
    ensures Forward(db.jobs, SetJobStatus(db, j, target).After(db).jobs)
  {
  }

  lemma ReviewKeepsJobs(db: Database, e: Event)
    requires IsReview(e)
    ensures NewDatabase(db, e).jobs == db.jobs
  {
  }

  lemma MarkForward(db: Database, j: JobId)
    requires j in db.jobs ==>
      db.jobs[j].status in {JobStatus.Dispatched, JobStatus.Processing} || IsTerminal(db.jobs[j].status)
    ensures Forward(db.jobs, MarkProcessing(db, j).jobs)
  {
  }

  lemma FinalizeForward(db: Database, j: JobId, target: JobStatus)
    ensures Forward(db.jobs, FinalizeJob(db, j, target).After(db).jobs)
  {
  }

  lemma JobsMoveForward(s: System, e: Event)
    requires Inv(s) && Enabled(s, e) && !e.Create?
    ensures Forward(s.db.jobs, Step(s, e).db.jobs)
  {
    var db := s.db;
    match e {
      case AddDocument(_, _) =>
      case Dispatch(j) =>
        if DispatchJob(db, j).Done? {
          SetJobStatusForward(db, j, JobStatus.Dispatched);
        }
      case QueueFails(j) =>
        if QueueUnavailable(db, j).Done? {
          SetJobStatusForward(db, j, JobStatus.Failed);
        }
      case Cancel(p, d, j) =>
        if CancelJob(db, p, d, j).Done? && !db.jobs[j].status.Cancelled? {
          SetJobStatusForward(db, j, JobStatus.Cancelled);
        }
      case ResetAll(_, _) =>
      case Delete(_, _) =>
      case Drop(_) =>
      case DropProject(_) =>
      case Mark(j) =>
        if j in db.jobs {
          ActiveXorTerminal(db.jobs[j].status);
        }
        MarkForward(db, j);
      case Store(_, _) =>
      case Finalize(j, target) => FinalizeForward(db, j, target);
      case _ => ReviewKeepsJobs(db, e);
    }
  }

  lemma DispatchQueues(db: Database, j: JobId)
    requires References(db) && DispatchJob(db, j).Done?
    ensures j in db.jobs && j in DispatchJob(db, j).db.jobs && DispatchJob(db, j).db.jobs[j].status.Dispatched?
  {
  }

  lemma NeverBackToPending(before: map<JobId, Job>, after: map<JobId, Job>, j: JobId)
    requires Forward(before, after) && j in after && !before[j].status.Pending?
    ensures !after[j].status.Pending?
  {
  }

  lemma ReviewAddsNoRows(db: Database, e: Event)
    requires IsReview(e)
    ensures NewDatabase(db, e).documents.Keys == db.documents.Keys
    ensures NewDatabase(db, e).suggestions.Keys == db.suggestions.Keys
  {
    match e
    case Patch(p, d, user, decision, pick, now) =>
      if PatchSuggestions(db, p, d, user, decision, pick, now).Done? && decision.Pending? {
        var out := PatchToPending(db, d, db.documents[d].currentJob.value, pick);
        assert out.db.suggestions.Keys == db.suggestions.Keys;
      }
    case _ =>
  }

  lemma NewRowsAreRecorded(db: Database, e: Event)
    ensures NewDatabase(db, e).documents.Keys <= db.documents.Keys + (if e.AddDocument? then {e.d} else {})
    ensures NewDatabase(db, e).suggestions.Keys <= db.suggestions.Keys + (if e.Store? then e.ids else {})
  {
    if IsReview(e) {
      ReviewAddsNoRows(db, e);
    } else {
      match e
      case AddDocument(_, _) =>
      case Create(_, _, _, _, _) =>
      case Dispatch(_) =>
      case QueueFails(_) =>
      case Cancel(_, _, _) =>
      case ResetAll(_, _) =>
      case Store(_, _) =>
      case Finalize(_, _) =>
      case Delete(_, _) =>
      case Drop(_) =>
      case DropProject(_) =>
      case _ =>
    }
  }

  lemma QueueStaysDispatched(s: System, e: Event)
    requires Inv(s) && Enabled(s, e) && !e.Create?
    ensures var t := Step(s, e);
      && t.db.jobs.Keys <= t.used.jobs && t.queued <= t.used.jobs
      && forall j :: j in t.queued && j in t.db.jobs ==> !t.db.jobs[j].status.Pending?
  {
    var before, after := s.db.jobs, NewDatabase(s.db, e).jobs;
    JobsMoveForward(s, e);
    if e.Dispatch? && DispatchJob(s.db, e.j).Done? {
      DispatchQueues(s.db, e.j);
    }
    forall j | j in s.queued && j in after ensures !after[j].status.Pending? {
      NeverBackToPending(before, after, j);
    }
  }

  lemma CreationAddsOneJob(db: Database, p: ProjectId, d: DocumentId, key: Option<string>, force: bool, id: JobId)
    ensures var after := CreateJob(db, p, d, key, force, id).After(db).jobs;
      after == db.jobs || after == db.jobs[id := Job(d, JobStatus.Pending, key)]
  {
  }

  lemma StepInv(s: System, e: Event)
    requires Inv(s) && Enabled(s, e)
    ensures Inv(Step(s, e))
  {
    StepIsSound(s, e);
    NewRowsAreRecorded(s.db, e);
    if e.Create? {
      CreationAddsOneJob(s.db, e.p, e.d, e.key, e.force, e.id);
      assert Step(s, e).db.jobs == NewDatabase(s.db, e).jobs;
    } else {
      QueueStaysDispatched(s, e);
    }
  }

  lemma {:induction false} LeadsInv(s: System, events: seq<Event>, t: System)
    requires Inv(s) && Leads(s, events, t)
    ensures Inv(t)
    decreases |events|
  {
    if events != [] {
      StepInv(s, events[0]);
      LeadsInv(Step(s, events[0]), events[1..], t);
    }
  }
}

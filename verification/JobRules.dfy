/** What each call of the analysis-job service, and the worker's own writes to the job
    and the document, do to the database as one transaction. */
module JobRules {
  import opened Options
  import opened Lifecycle
  import opened Records

  /** A job a document already has under this idempotency key. */
  function WithKey(db: Database, d: DocumentId, key: string): set<JobId> {
    set j | j in db.jobs && db.jobs[j].document == d && db.jobs[j].key == Some(key)
  }

  function ActiveJobs(db: Database, d: DocumentId): set<JobId> {
    set j | j in db.jobs && db.jobs[j].document == d && IsActive(db.jobs[j].status)
  }

  predicate MayCreate(db: Database, d: DocumentId, force: bool)
    requires d in db.documents
  {
    && db.documents[d].status != InProgress && (db.documents[d].status == Ready ==> force)
    && forall j :: j in db.jobs ==> !(db.jobs[j].document == d && IsActive(db.jobs[j].status))
  }

  lemma NoneActive(db: Database, d: DocumentId)
    ensures ActiveJobs(db, d) == {} <==>
      forall j :: j in db.jobs ==> !(db.jobs[j].document == d && IsActive(db.jobs[j].status))
  {
    if j :| j in db.jobs && db.jobs[j].document == d && IsActive(db.jobs[j].status) {
      assert j in ActiveJobs(db, d);
    }
  }

  datatype Creation = Created(job: JobId) | Existing(jobs: set<JobId>)

  /** The width of the key column. The request header has no limit of its own. */
  const KEY_LIMIT: nat := 128

  predicate KeyFits(key: Option<string>) {
    key.Some? ==> |key.value| <= KEY_LIMIT
  }

  /** The document is a draft again, and the new job its current one. */
  function Inserted(db: Database, d: DocumentId, key: Option<string>, id: JobId): Database
    requires d in db.documents
  {
    var row := db.documents[d].(status := Draft, currentJob := Some(id));
    db.SetDocument(d, row).SetJob(id, Job(d, JobStatus.Pending, key))
  }

  /** `create_job` without interference. The row found by key, or the active row, is
      answered as the set of candidates: the unique indexes make it a singleton. */
  function CreateJob(
    db: Database, p: ProjectId, d: DocumentId, key: Option<string>, force: bool, id: JobId): Outcome<Creation>
  {
    if !db.InProject(d, p) then Refused(Error.DocumentNotFound)
    else if key.Some? && WithKey(db, d, key.value) != {} then Done(db, Existing(WithKey(db, d, key.value)))
    else if !CanStartAnalysis(db.documents[d].status) then Refused(InvalidStatus)
    else if ActiveJobs(db, d) != {} then Refused(AlreadyRunning)
    else if NeedsConfirmation(db.documents[d].status) && !force then Refused(ConfirmationRequired)
    else if !KeyFits(key) then Refused(StorageFailed)
    else Done(Inserted(db, d, key, id), Created(id))
  }

  /** `_set_job_status`: the document follows only its current job. */
  function SetJobStatus(db: Database, j: JobId, target: JobStatus): Outcome<JobId>
    requires j in db.jobs && db.jobs[j].document in db.documents
  {
    var job := db.jobs[j];
    var document := db.documents[job.document];
    if target !in JobTargets(job.status) then Refused(InvalidStatus)
    else
      var moved := db.SetJob(j, job.(status := target));
      if document.currentJob != Some(j) then Done(moved, j)
      else
        var status := DocumentStatusFor(target, false);
        if status !in DocumentTargets(document.status) then Refused(InvalidStatus)
        else Done(moved.SetDocument(job.document, document.(status := status)), j)
  }

  function DispatchJob(db: Database, j: JobId): Outcome<JobId> {
    if j !in db.jobs then Refused(Error.DocumentNotFound)
    else if !db.jobs[j].status.Pending? then Refused(InvalidStatus)
    else if db.jobs[j].document !in db.documents then Refused(Error.DocumentNotFound)
    else SetJobStatus(db, j, JobStatus.Dispatched)
  }

  function QueueUnavailable(db: Database, j: JobId): Outcome<JobId> {
    if j !in db.jobs then Refused(StorageFailed)
    else if db.jobs[j].document !in db.documents then Refused(Error.DocumentNotFound)
    else SetJobStatus(db, j, JobStatus.Failed)
  }

  function CancelJob(db: Database, p: ProjectId, d: DocumentId, j: JobId): Outcome<JobId> {
    if !db.InProject(d, p) then Refused(Error.DocumentNotFound)
    else if j !in db.jobs || db.jobs[j].document != d then Refused(JobNotFound)
    else if db.jobs[j].status.Cancelled? then Done(db, j)
    else if !IsActive(db.jobs[j].status) then Refused(NotCancellable)
    else SetJobStatus(db, j, JobStatus.Cancelled)
  }

  function Undecided(row: Suggestion): Suggestion {
    row.(status := SuggestionStatus.Pending, decidedBy := None, decidedAt := None, editedText := None)
  }

  /** `reset_to_pending`: the decided rows of the job, all of them or those listed. */
  function Resettable(db: Database, j: JobId, ids: Option<seq<SuggestionId>>): set<SuggestionId> {
    set sid | sid in db.suggestions && db.suggestions[sid].job == j && !db.suggestions[sid].status.Pending?
              && (ids.Some? ==> sid in ids.value)
  }

  function ResetRows(db: Database, chosen: set<SuggestionId>): Database {
    db.(suggestions := map sid | sid in db.suggestions ::
          if sid in chosen then Undecided(db.suggestions[sid]) else db.suggestions[sid])
  }

  function ResetAnalysis(db: Database, p: ProjectId, d: DocumentId): Outcome<nat> {
    if !db.InProject(d, p) then Refused(Error.DocumentNotFound)
    else if !CanResetReview(db.documents[d].status) then Refused(InvalidStatus)
    else if db.documents[d].currentJob.None? then Refused(JobNotFound)
    else
      var chosen := Resettable(db, db.documents[d].currentJob.value, None);
      if AwaitingApproval !in DocumentTargets(db.documents[d].status) then Refused(InvalidStatus)
      else Done(ResetRows(db, chosen).SetDocument(d, db.documents[d].(status := AwaitingApproval)), |chosen|)
  }

  // The worker's side of the same rows.

  function MarkProcessing(db: Database, j: JobId): Database {
    if j in db.jobs && IsActive(db.jobs[j].status)
    then db.SetJob(j, db.jobs[j].(status := JobStatus.Processing))
    else db
  }

  /** One batch of a source, stored while the job is active. */
  function StoreBatch(db: Database, j: JobId, ids: set<SuggestionId>): Database {
    if j in db.jobs && IsActive(db.jobs[j].status) then
      db.(suggestions := map sid | sid in db.suggestions.Keys + ids ::
            if sid in db.suggestions then db.suggestions[sid]
            else Suggestion(j, db.jobs[j].document, SuggestionStatus.Pending, None, None, None))
    else db
  }

  /** `_finalize`, given the status the results fold into. */
  function FinalizeJob(db: Database, j: JobId, target: JobStatus): Outcome<JobId> {
    if j !in db.jobs then Done(db, j)
    else if IsTerminal(db.jobs[j].status) || db.jobs[j].document !in db.documents then Done(db, j)
    else
      var job := db.jobs[j];
      var document := db.documents[job.document];
      var pending := |db.OfJob(j, SuggestionStatus.Pending)|;
      if target !in JobTargets(job.status) then Refused(InvalidStatus)
      else
        var moved := db.SetJob(j, job.(status := target));
        if document.currentJob != Some(j) then Done(moved, j)
        else
          var status := DocumentStatusFor(target, pending > 0);
          if status !in DocumentTargets(document.status) then Refused(InvalidStatus)
          else Done(moved.SetDocument(job.document, document.(status := status)), j)
  }

  /** Deletion cascades from documents to their jobs and suggestions. */
  function Without(db: Database, gone: set<DocumentId>): Database {
    Database(db.documents - gone,
             map j | j in db.jobs && db.jobs[j].document !in gone :: db.jobs[j],
             map sid | sid in db.suggestions && db.suggestions[sid].document !in gone :: db.suggestions[sid])
  }

  /** `delete_document_by_id` */
  function DeleteDocument(db: Database, p: ProjectId, d: DocumentId): Outcome<DocumentId> {
    if !db.InProject(d, p) then Refused(Error.DocumentNotFound)
    else if !CanDelete(db.documents[d].status) then Refused(InvalidStatus)
    else Done(Without(db, {d}), d)
  }

  /** `delete_project` asks no document for its status. */
  function DeleteProject(db: Database, p: ProjectId): Database {
    Without(db, set d | d in db.documents && db.documents[d].project == p)
  }
}

/** Rows of the documents, analysis jobs and suggestions tables. */
module Records {
  import opened Options
  import opened Lifecycle

  type ProjectId = nat
  type DocumentId = nat
  type JobId = nat
  type SuggestionId = nat
  type UserId = nat

  datatype SuggestionStatus = Pending | Accepted | Rejected

  datatype Document = Document(
    project: ProjectId,
    status: DocumentStatus,
    currentJob: Option<JobId>,
    reviewVersion: int)

  datatype Job = Job(document: DocumentId, status: JobStatus, key: Option<string>)

  datatype Suggestion = Suggestion(
    job: JobId,
    document: DocumentId,
    status: SuggestionStatus,
    decidedBy: Option<UserId>,
    decidedAt: Option<int>,
    editedText: Option<string>)

  datatype Error =
    | DocumentNotFound
    | JobNotFound
    | SuggestionNotFound
    | StaleSuggestionJob
    | InvalidStatus
    | AlreadyRunning
    | ConfirmationRequired
    | NotCancellable
    | AlreadyDecided
    | ResetNotAllowed
    | ReviewNotComplete
    | OptimisticLock
    | StorageFailed

  datatype Database = Database(
    documents: map<DocumentId, Document>,
    jobs: map<JobId, Job>,
    suggestions: map<SuggestionId, Suggestion>)
  {
    predicate InProject(d: DocumentId, p: ProjectId) {
      d in documents && documents[d].project == p
    }

    function SetDocument(d: DocumentId, row: Document): Database {
      this.(documents := documents[d := row])
    }

    function SetJob(j: JobId, row: Job): Database {
      this.(jobs := jobs[j := row])
    }

    ghost predicate ActiveOn(j: JobId, d: DocumentId) {
      j in jobs && jobs[j].document == d && IsActive(jobs[j].status)
    }

    function OfJob(j: JobId, status: SuggestionStatus): set<SuggestionId> {
      set sid | sid in suggestions && suggestions[sid].job == j && suggestions[sid].status == status
    }
  }

  /** A service call either commits a new database and answers, or rolls back. */
  datatype Outcome<+T> = Done(db: Database, answer: T) | Refused(error: Error)
  {
    function After(before: Database): Database {
      if Done? then db else before
    }

    /** What the caller is told went wrong. */
    function Problem(): Option<Error> {
      if Done? then None else Some(error)
    }
  }
}

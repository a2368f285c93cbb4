/** The database transactions of the worker task: what each of them does to the
    job, the source rows and the stored suggestions, and what the worker does next. */
module AnalysisTransactions {
  import opened Options
  import opened Lifecycle
  import opened SourceRuns

  datatype ErrorCode =
    | JobNotFound
    | SourceNotFound
    | DocumentNotFound
    | LlmInputTooLarge
    | LlmUnavailable
    | LlmInvalidResponse
    | DocumentParse
    | GenerationError
    | SourceBusy

  datatype Result =
    | Ok(count: nat)
    | Failed(code: ErrorCode)
    | Cancelled
    | Busy
    | Retryable(code: ErrorCode)

  /** Where one run of a worker stands between its transactions. */
  datatype Phase =
    | Begun
    | Marked
    | Checked
    | Generating(token: Token)
    | Generated(token: Token, produced: nat)
    | Releasing(token: Token, verdict: Result)
    | Overtaken
    | Returned(result: Result)

  /** The rows of one job. `job` is None once the document, and with it the job, is
      deleted; `suggestions` counts the stored suggestions of each source. */
  datatype Db = Db(
    job: Option<JobStatus>,
    sources: set<SourceId>,
    runs: map<SourceId, Run>,
    suggestions: multiset<SourceId>)
  {
    predicate Active() {
      job.Some? && IsActive(job.value)
    }
  }

  const SECOND := 1_000_000
  const SOURCE_LEASE := 600 * SECOND
  const TASK_TIME_LIMIT := 570 * SECOND

  function MarkTx(db: Db): (Db, Phase) {
    if db.job.None? then (db, Returned(Result.Failed(JobNotFound)))
    else if !db.Active() then (db, Returned(Result.Cancelled))
    else (db.(job := Some(JobStatus.Processing)), Marked)
  }

  function EnsuredRuns(db: Db, source: SourceId): map<SourceId, Run> {
    if source in db.runs then db.runs else db.runs[source := NEW_RUN]
  }

  function LookTx(db: Db, source: SourceId): (Db, Phase) {
    if source !in db.sources then (db, Returned(Result.Failed(SourceNotFound)))
    else if db.job.None? then (db, Returned(Result.Failed(DocumentNotFound)))
    else
      var ensured := db.(runs := EnsuredRuns(db, source));
      if ensured.runs[source].status.Completed?
      then (ensured, Returned(Ok(ensured.runs[source].count)))
      else (ensured, Checked)
  }

  function ClaimTx(db: Db, source: SourceId, now: int, token: Token): (Db, Phase) {
    if source in db.runs && Claimable(db.runs[source], now, SOURCE_LEASE) then
      var claimed := db.runs[source].(status := RunStatus.Processing, lockedAt := Some(now), lockToken := Some(token));
      (db.(runs := db.runs[source := claimed]), Generating(token))
    else
      (db, Returned(Busy))
  }

  function ReleaseTx(db: Db, source: SourceId, token: Token): Db {
    if source in db.runs && HeldBy(db.runs[source], token)
    then db.(runs := db.runs[source := NEW_RUN.(count := db.runs[source].count)])
    else db
  }

  function StoreTx(db: Db, source: SourceId, token: Token, produced: nat): (Db, Phase) {
    if !db.Active() then (ReleaseTx(db, source, token), Returned(Result.Cancelled))
    else if source !in db.runs || !HeldBy(db.runs[source], token) then (db, Overtaken)
    else if source !in db.sources then (db, Returned(Result.Failed(SourceNotFound)))
    else
      (db.(runs := db.runs[source := Run(Completed, None, None, produced)],
           suggestions := db.suggestions[source := db.suggestions[source] + produced]),
       Returned(Ok(produced)))
  }

  function RereadTx(db: Db, source: SourceId): Phase {
    if source in db.runs && db.runs[source].status.Completed?
    then Returned(Ok(db.runs[source].count))
    else Returned(Busy)
  }

  /** The status `_finalize` gives the job for the results of all its sources. */
  function FinalStatus(results: seq<Result>): JobStatus {
    if exists i :: 0 <= i < |results| && results[i].Cancelled? then JobStatus.Cancelled
    else if exists i :: 0 <= i < |results| && results[i].Failed? then
      if exists i :: 0 <= i < |results| && results[i].Ok? then PartialSuccess else JobStatus.Failed
    else Success
  }

  /** New job status and, for a job that is still current, new document status; None when
      the job is gone or already over, or its life cycle refuses the folded status. */
  function FinalizeTx(db: Db, results: seq<Result>): Option<(JobStatus, DocumentStatus)> {
    if !db.Active() || FinalStatus(results) !in JobTargets(db.job.value) then None
    else
      var status := FinalStatus(results);
      Some((status, DocumentStatusFor(status, |db.suggestions| > 0)))
  }

  /** The worker's body, transaction by transaction, as it edits the session and then
      commits it or rolls it back. */
  class AnalysisTasks {
    var job: Option<JobStatus>
    var sources: set<SourceId>
    var suggestions: multiset<SourceId>
    const rows: AnalysisJobSourceRepository

    constructor (job: Option<JobStatus>, sources: set<SourceId>, rows: AnalysisJobSourceRepository)
      ensures this.job == job && this.sources == sources && this.rows == rows
      ensures suggestions == multiset{}
    {
      this.job, this.sources, this.rows := job, sources, rows;
      suggestions := multiset{};
    }

    ghost function View(): Db
      reads this, rows
    {
      Db(job, sources, rows.runs, suggestions)
    }

    method MarkProcessing() returns (next: Phase)
      modifies this`job
      ensures (View(), next) == MarkTx(old(View()))
    {
      if job.None? {
        return Returned(Result.Failed(JobNotFound));
      }
      if !IsActive(job.value) {
        return Returned(Result.Cancelled);
      }
      job := Some(JobStatus.Processing);
      next := Marked;
    }

    method LookUp(source: SourceId) returns (next: Phase)
      modifies rows
      ensures (View(), next) == LookTx(old(View()), source)
    {
      if source !in sources {
        return Returned(Result.Failed(SourceNotFound));
      }
      if job.None? {
        return Returned(Result.Failed(DocumentNotFound));
      }
      var found := rows.Ensure(source, true);
      var done := rows.GetCompletedCount(source);
      next := if done.Some? then Returned(Ok(done.value)) else Checked;
    }

    method ClaimSource(source: SourceId, now: int, uuid: Token) returns (next: Phase)
      modifies rows
      ensures (View(), next) == ClaimTx(old(View()), source, now, uuid)
    {
      var token := rows.Claim(source, now, SOURCE_LEASE, uuid);
      next := if token.None? then Returned(Busy) else Generating(token.value);
    }

    method ReleaseSource(source: SourceId, token: Token)
      modifies rows
      ensures View() == ReleaseTx(old(View()), source, token)
    {
      rows.Release(source, token);
    }

    /** `mark_completed` comes before the source is looked up again, so a source that
        is gone by then rolls the whole transaction back. */
    method StoreBatch(source: SourceId, token: Token, produced: nat) returns (next: Phase)
      modifies this`suggestions, rows
      ensures (View(), next) == StoreTx(old(View()), source, token, produced)
    {
      var savedRuns, savedSuggestions := rows.runs, suggestions;
      if job.None? || !IsActive(job.value) {
        rows.Release(source, token);
        return Returned(Result.Cancelled);
      }
      var won := rows.MarkCompleted(source, token, produced);
      if !won {
        rows.runs, suggestions := savedRuns, savedSuggestions;
        return Overtaken;
      }
      if source !in sources {
        rows.runs, suggestions := savedRuns, savedSuggestions;
        return Returned(Result.Failed(SourceNotFound));
      }
      var written := 0;
      while written < produced
        modifies this`suggestions
        invariant written <= produced
        invariant suggestions == old(suggestions)[source := old(suggestions[source]) + written]
      {
        suggestions := suggestions + multiset{source};
        written := written + 1;
      }
      next := Returned(Ok(produced));
    }

    method Reread(source: SourceId) returns (next: Phase)
      ensures next == RereadTx(View(), source)
    {
      var stored := rows.GetCompletedCount(source);
      next := if stored.Some? then Returned(Ok(stored.value)) else Returned(Busy);
    }

    /** Folds the results of all sources into the end of the job. */
    method Finalize(results: seq<Result>) returns (document: Option<DocumentStatus>)
      modifies this`job
      ensures var end := FinalizeTx(old(View()), results);
        && (end.None? ==> document.None? && View() == old(View()))
        && (end.Some? ==> document == Some(end.value.1) && View() == old(View()).(job := Some(end.value.0)))
    {
      var failed, cancelled, succeeded := 0, 0, 0;
      for i := 0 to |results|
        invariant failed >= 0 && cancelled >= 0 && succeeded >= 0
        invariant failed > 0 <==> exists j :: 0 <= j < i && results[j].Failed?
        invariant cancelled > 0 <==> exists j :: 0 <= j < i && results[j].Cancelled?
        invariant succeeded > 0 <==> exists j :: 0 <= j < i && results[j].Ok?
      {
        match results[i]
        case Failed(_) => failed := failed + 1;
        case Cancelled => cancelled := cancelled + 1;
        case Ok(_) => succeeded := succeeded + 1;
        case _ =>
      }
      if job.None? {
        return None;
      }
      ActiveXorTerminal(job.value);
      if IsTerminal(job.value) {
        return None;
      }
      var status;
      if cancelled > 0 {
        status := JobStatus.Cancelled;
      } else if failed > 0 && succeeded == 0 {
        status := JobStatus.Failed;
      } else if failed > 0 {
        status := PartialSuccess;
      } else {
        status := Success;
      }
      if status !in JobTargets(job.value) {
        return None;
      }
      var pending := |suggestions|;
      job := Some(status);
      document := Some(DocumentStatusFor(status, pending > 0));
    }
  }
}

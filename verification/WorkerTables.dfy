/** The worker's transactions are modelled twice: over the rows and counts of one job, where
    many workers meet, and over all the tables, where the job meets its document and the
    review. Here both are the same transactions. */
module WorkerTables {
  import opened Options
  import opened Lifecycle
  import opened Records
  import opened JobRules
  import opened SourceRuns
  import opened AnalysisTransactions
  import SourceProtocol
  import ReviewSystem
  import ReviewTheorems

  function RowsOf(db: Database, j: JobId): set<SuggestionId> {
    set sid | sid in db.suggestions && db.suggestions[sid].job == j
  }

  /** Both sides tell the same of a job: its status, if it exists, and how many suggestions
      it has. */
  ghost predicate Agree(db: Database, j: JobId, rows: Db) {
    && rows.job == (if j in db.jobs then Some(db.jobs[j].status) else None)
    && |rows.suggestions| == |RowsOf(db, j)|
  }

  lemma MarkAgrees(db: Database, j: JobId, rows: Db)
    requires Agree(db, j, rows)
    ensures Agree(MarkProcessing(db, j), j, MarkTx(rows).0)
  {
    assert RowsOf(MarkProcessing(db, j), j) == RowsOf(db, j);
  }

  lemma RaisedSize<T>(m: multiset<T>, x: T, n: nat)
    ensures |m[x := m[x] + n]| == |m| + n
  {
    assert m[x := m[x] + n] == m + multiset{}[x := n];
  }

  lemma StoredRows(db: Database, j: JobId, ids: set<SuggestionId>)
    requires j in db.jobs && IsActive(db.jobs[j].status) && ids !! db.suggestions.Keys
    ensures |RowsOf(StoreBatch(db, j, ids), j)| == |RowsOf(db, j)| + |ids|
    ensures StoreBatch(db, j, ids).jobs == db.jobs
  {
    assert RowsOf(StoreBatch(db, j, ids), j) == RowsOf(db, j) + ids;
  }

  /** The worker still owns the source of a live job. */
  predicate Stores(rows: Db, source: SourceId, token: Token) {
    rows.Active() && source in rows.runs && HeldBy(rows.runs[source], token) && source in rows.sources
  }

  /** A batch is stored as so many rows, or not at all. */
  lemma StoreAgrees(
    db: Database, j: JobId, rows: Db, source: SourceId, token: Token, produced: nat, ids: set<SuggestionId>)
    requires Agree(db, j, rows) && ids !! db.suggestions.Keys && |ids| == produced
    ensures var (after, next) := StoreTx(rows, source, token, produced);
      && (next == Returned(Ok(produced)) <==> Stores(rows, source, token))
      && if Stores(rows, source, token) then Agree(StoreBatch(db, j, ids), j, after) else Agree(db, j, after)
  {
    if Stores(rows, source, token) {
      RaisedSize(rows.suggestions, source, produced);
      StoredRows(db, j, ids);
    }
  }

  /** The pending rows of an active job are all its rows. */
  lemma AllPending(db: Database, j: JobId)
    requires ReviewSystem.Sound(db) && j in db.jobs && IsActive(db.jobs[j].status)
    ensures db.OfJob(j, SuggestionStatus.Pending) == RowsOf(db, j)
  {
  }

  /** `_finalize` over the counts decides as it does over the tables: it commits for the same
      jobs, with the same status, and sends the document where the tables send it. */
  lemma FinalizeAgrees(db: Database, j: JobId, rows: Db, results: seq<Result>)
    requires ReviewSystem.Sound(db) && Agree(db, j, rows)
    ensures var end := FinalizeTx(rows, results);
            var after := FinalizeJob(db, j, FinalStatus(results)).After(db);
      && Agree(after, j, if end.Some? then rows.(job := Some(end.value.0)) else rows)
      && (end.None? ==> after == db)
      && (end.Some? ==>
            var d := db.jobs[j].document;
            && d in db.documents && db.documents[d].currentJob == Some(j)
            && after.documents == db.documents[d := db.documents[d].(status := end.value.1)])
  {
    var end, out := FinalizeTx(rows, results), FinalizeJob(db, j, FinalStatus(results));
    if j in db.jobs {
      ActiveXorTerminal(db.jobs[j].status);
    }
    if end.Some? {
      AllPending(db, j);
      assert ReviewSystem.Coupled(db, db.jobs[j].document);
    }
    assert RowsOf(out.After(db), j) == RowsOf(db, j);
  }

  // ---------------------------------------------------------------------------
  // Everything else that may happen to the job
  // ---------------------------------------------------------------------------

  predicate IsOwn(e: ReviewSystem.Event, j: JobId) {
    (e.Mark? && e.j == j) || (e.Store? && e.j == j) || (e.Finalize? && e.j == j)
  }

  /** What an event of the tables is to the workers of one job. */
  function SeenAs(after: Database, j: JobId, rows: Db): Option<SourceProtocol.Event> {
    if j in after.jobs then
      if rows.job == Some(after.jobs[j].status) then None else Some(SourceProtocol.EndJob(after.jobs[j].status))
    else if rows.job.Some? then Some(SourceProtocol.DeleteJob)
    else None
  }

  /** The rows of a job stay, or go with it. */
  ghost predicate RowsStay(before: Database, after: Database, j: JobId) {
    RowsOf(after, j) == if j in before.jobs && j !in after.jobs then {} else RowsOf(before, j)
  }

  lemma DeletionRows(db: Database, gone: set<DocumentId>, j: JobId)
    requires ReviewSystem.References(db)
    ensures RowsStay(db, Without(db, gone), j)
    ensures j in db.jobs && j in Without(db, gone).jobs ==> Without(db, gone).jobs[j] == db.jobs[j]
  {
    var after := Without(db, gone);
    if j in db.jobs && j in after.jobs {
      assert forall sid :: sid in RowsOf(db, j) ==> db.suggestions[sid].document == db.jobs[j].document;
      assert RowsOf(after, j) == RowsOf(db, j);
    }
  }

  lemma SameRows(before: Database, after: Database, j: JobId)
    requires after.suggestions.Keys == before.suggestions.Keys
    requires forall sid :: sid in before.suggestions ==> after.suggestions[sid].job == before.suggestions[sid].job
    ensures RowsOf(after, j) == RowsOf(before, j)
  {
  }

  lemma ReviewRows(db: Database, e: ReviewSystem.Event, j: JobId)
    requires ReviewSystem.IsReview(e)
    ensures RowsOf(ReviewSystem.NewDatabase(db, e), j) == RowsOf(db, j)
    ensures ReviewSystem.NewDatabase(db, e).jobs == db.jobs
  {
    SameRows(db, ReviewSystem.NewDatabase(db, e), j);
  }

  lemma StoreRowsOfOther(db: Database, k: JobId, ids: set<SuggestionId>, j: JobId)
    requires k != j
    ensures RowsOf(StoreBatch(db, k, ids), j) == RowsOf(db, j)
    ensures StoreBatch(db, k, ids).jobs == db.jobs
  {
  }

  /** A dispatched job is moved by others only to its end. */
  predicate OnlyEnded(before: Database, after: Database, j: JobId) {
    j in before.jobs && j in after.jobs ==>
      || after.jobs[j].status == before.jobs[j].status
      || (IsActive(before.jobs[j].status) && after.jobs[j].status in {JobStatus.Cancelled, JobStatus.Failed})
  }

  predicate IsDeletion(e: ReviewSystem.Event) {
    e.Delete? || e.Drop? || e.DropProject?
  }

  lemma DeletedRows(db: Database, e: ReviewSystem.Event, j: JobId)
    requires ReviewSystem.References(db) && IsDeletion(e)
    ensures var after := ReviewSystem.NewDatabase(db, e);
      RowsStay(db, after, j) && OnlyEnded(db, after, j) && (j in after.jobs ==> j in db.jobs)
  {
    match e
    case Drop(d) => DeletionRows(db, {d}, j);
    case Delete(p, d) => DeletionRows(db, {d}, j);
    case DropProject(p) => DeletionRows(db, (set d | d in db.documents && db.documents[d].project == p), j);
  }

  /** Rows are only added by a worker, and never change their job. */
  lemma StatusRows(db: Database, e: ReviewSystem.Event, j: JobId)
    requires !ReviewSystem.IsReview(e) && !IsDeletion(e) && !e.Store?
    ensures RowsOf(ReviewSystem.NewDatabase(db, e), j) == RowsOf(db, j)
  {
    SameRows(db, ReviewSystem.NewDatabase(db, e), j);
  }

  lemma StatusEnds(db: Database, e: ReviewSystem.Event, j: JobId)
    requires !ReviewSystem.IsReview(e) && !IsDeletion(e) && !IsOwn(e, j)
    requires j in db.jobs ==> !db.jobs[j].status.Pending?
    requires e.Create? ==> e.id != j
    ensures var after := ReviewSystem.NewDatabase(db, e);
      OnlyEnded(db, after, j) && (j in after.jobs <==> j in db.jobs)
  {
  }

  lemma OutsideKeepsRows(s: ReviewSystem.System, e: ReviewSystem.Event, j: JobId)
    requires ReviewSystem.Inv(s) && ReviewSystem.Enabled(s, e) && j in s.queued && !IsOwn(e, j)
    ensures var after := ReviewSystem.NewDatabase(s.db, e);
      RowsStay(s.db, after, j) && OnlyEnded(s.db, after, j) && (j in after.jobs ==> j in s.db.jobs)
  {
    if ReviewSystem.IsReview(e) {
      ReviewRows(s.db, e, j);
    } else if IsDeletion(e) {
      DeletedRows(s.db, e, j);
    } else {
      StatusEnds(s.db, e, j);
      if e.Store? {
        StoreRowsOfOther(s.db, e.j, e.ids, j);
      } else {
        StatusRows(s.db, e, j);
      }
    }
  }

  /** Nothing else surprises the workers: whatever service call or worker of another job
      comes in between is to them no event, the end of the job from outside, or its deletion. */
  lemma OutsideAgrees(
    s: ReviewSystem.System, e: ReviewSystem.Event, j: JobId, workers: SourceProtocol.State)
    requires ReviewSystem.Inv(s) && ReviewSystem.Enabled(s, e) && j in s.queued && !IsOwn(e, j)
    requires Agree(s.db, j, workers.db)
    ensures var after := ReviewSystem.NewDatabase(s.db, e);
      match SeenAs(after, j, workers.db)
      case None => Agree(after, j, workers.db)
      case Some(seen) => SourceProtocol.Enabled(workers, seen) && Agree(after, j, SourceProtocol.Step(workers, seen).db)
  {
    OutsideKeepsRows(s, e, j);
  }

  /** A job that ends `success` has exactly the reported number of rows in the tables, and its
      document goes to review exactly if that is not zero. */
  lemma ReportedRowsAreThere(
    timing: Option<nat>, s: SourceProtocol.State, results: seq<Result>, db: Database, j: JobId)
    requires SourceProtocol.Reachable(timing, s) && SourceProtocol.Collected(s, results)
    requires ReviewSystem.Sound(db) && Agree(db, j, s.db)
    requires s.db.Active() && FinalStatus(results) == Success
    ensures var after := FinalizeJob(db, j, Success).After(db);
            var d := db.jobs[j].document;
      && |RowsOf(after, j)| == SourceProtocol.SumOk(results)
      && after.jobs[j].status == Success
      && after.documents[d].status == if SourceProtocol.SumOk(results) > 0 then AwaitingApproval else Ready
  {
    SourceProtocol.FinalizationNeverRefuses(timing, s, results);
    SourceProtocol.FinalizationConservesCounts(timing, s, results);
    FinalizeAgrees(db, j, s.db, results);
  }

  // ---------------------------------------------------------------------------
  // Both at once
  // ---------------------------------------------------------------------------

  datatype Joint = Joint(tables: ReviewSystem.System, workers: SourceProtocol.State)

  /** A step of a worker, with the ids its batch would get, or anything around. */
  datatype Event = Work(step: SourceProtocol.Event, ids: set<SuggestionId>) | Around(event: ReviewSystem.Event)

  /** What a worker's step writes to the tables. */
  function Written(j: JobId, s: SourceProtocol.State, step: SourceProtocol.Event, ids: set<SuggestionId>)
    : Option<ReviewSystem.Event>
    requires SourceProtocol.Enabled(s, step)
  {
    match step
    case Mark(_) => Some(ReviewSystem.Mark(j))
    case Store(w) =>
      if Stores(s.db, s.workers[w].source, s.workers[w].phase.token) then Some(ReviewSystem.Store(j, ids)) else None
    case Finalize(results) =>
      if FinalizeTx(s.db, results).Some? then Some(ReviewSystem.Finalize(j, FinalStatus(results))) else None
    case _ => None
  }

  predicate Enabled(j: JobId, x: Joint, e: Event) {
    match e
    case Work(step, ids) =>
      && !step.EndJob? && !step.DeleteJob? && SourceProtocol.Enabled(x.workers, step)
      && (step.Store? ==> ids !! x.tables.used.suggestions && |ids| == x.workers.workers[step.w].phase.produced)
    case Around(event) => ReviewSystem.Enabled(x.tables, event) && !IsOwn(event, j)
  }

  function Step(j: JobId, x: Joint, e: Event): Joint
    requires Enabled(j, x, e)
  {
    match e
    case Work(step, ids) =>
      var written := Written(j, x.workers, step, ids);
      Joint(if written.Some? then ReviewSystem.Step(x.tables, written.value) else x.tables,
            SourceProtocol.Step(x.workers, step))
    case Around(event) =>
      var tables := ReviewSystem.Step(x.tables, event);
      var seen := SeenAs(tables.db, j, x.workers.db);
      Joint(tables,
            if seen.Some? && SourceProtocol.Enabled(x.workers, seen.value)
            then SourceProtocol.Step(x.workers, seen.value) else x.workers)
  }

  predicate Leads(j: JobId, x: Joint, events: seq<Event>, y: Joint)
    decreases |events|
  {
    if events == [] then x == y
    else Enabled(j, x, events[0]) && Leads(j, Step(j, x, events[0]), events[1..], y)
  }

  ghost predicate Inv(j: JobId, x: Joint) {
    && ReviewSystem.Inv(x.tables) && j in x.tables.queued
    && SourceProtocol.Inv(x.workers)
    && Agree(x.tables.db, j, x.workers.db)
  }

  /** A cancelled result belongs to a job that is over, so that nothing is finalised. */
  lemma NothingCancelled(s: SourceProtocol.State, results: seq<Result>)
    requires SourceProtocol.Inv(s) && SourceProtocol.Collected(s, results) && FinalizeTx(s.db, results).Some?
    ensures FinalStatus(results) != JobStatus.Cancelled
  {
    ActiveXorTerminal(s.db.job.value);
    forall i | 0 <= i < |results| ensures !results[i].Cancelled? {
      var r := (s.header[i], results[i]);
      assert r in s.finals;
      assert r in s.returned ==> SourceProtocol.Backed(s.db, r.0, r.1);
    }
  }

  /** Both sides agree after what one of them did, given what was written to the other. */
  ghost predicate WrittenRight(j: JobId, db: Database, written: Option<ReviewSystem.Event>, after: Db) {
    match written
    case None => Agree(db, j, after)
    case Some(event) => Agree(ReviewSystem.NewDatabase(db, event), j, after)
  }

  lemma BatchIsWritten(j: JobId, db: Database, stores: bool, ids: set<SuggestionId>, after: Db)
    requires if stores then Agree(StoreBatch(db, j, ids), j, after) else Agree(db, j, after)
    ensures WrittenRight(j, db, if stores then Some(ReviewSystem.Store(j, ids)) else None, after)
  {
  }

  lemma StoreStep(s: SourceProtocol.State, w: SourceProtocol.WorkerId)
    requires SourceProtocol.Enabled(s, SourceProtocol.Store(w))
    ensures var worker := s.workers[w];
      SourceProtocol.Step(s, SourceProtocol.Store(w)).db ==
      StoreTx(s.db, worker.source, worker.phase.token, worker.phase.produced).0
  {
  }

  lemma StoreIsWritten(
    j: JobId, db: Database, s: SourceProtocol.State, w: SourceProtocol.WorkerId, ids: set<SuggestionId>)
    requires Agree(db, j, s.db) && SourceProtocol.Enabled(s, SourceProtocol.Store(w))
    requires ids !! db.suggestions.Keys && |ids| == s.workers[w].phase.produced
    ensures var store := SourceProtocol.Store(w);
      WrittenRight(j, db, Written(j, s, store, ids), SourceProtocol.Step(s, store).db)
  {
    var worker := s.workers[w];
    StoreStep(s, w);
    StoreAgrees(db, j, s.db, worker.source, worker.phase.token, worker.phase.produced, ids);
    var after := SourceProtocol.Step(s, SourceProtocol.Store(w)).db;
    BatchIsWritten(j, db, Stores(s.db, worker.source, worker.phase.token), ids, after);
  }

  lemma FinalizeIsWritten(
    j: JobId, db: Database, s: SourceProtocol.State, results: seq<Result>, ids: set<SuggestionId>)
    requires ReviewSystem.Sound(db) && Agree(db, j, s.db)
    requires SourceProtocol.Enabled(s, SourceProtocol.Finalize(results))
    ensures var finalize := SourceProtocol.Finalize(results);
      WrittenRight(j, db, Written(j, s, finalize, ids), SourceProtocol.Step(s, finalize).db)
  {
    FinalizeAgrees(db, j, s.db, results);
  }

  /** A worker's step and what it writes to the tables leave both sides in agreement. */
  lemma WorkIsWritten(
    j: JobId, db: Database, s: SourceProtocol.State, step: SourceProtocol.Event, ids: set<SuggestionId>)
    requires ReviewSystem.Sound(db) && Agree(db, j, s.db)
    requires SourceProtocol.Enabled(s, step) && !step.EndJob? && !step.DeleteJob?
    requires step.Store? ==> ids !! db.suggestions.Keys && |ids| == s.workers[step.w].phase.produced
    ensures WrittenRight(j, db, Written(j, s, step, ids), SourceProtocol.Step(s, step).db)
  {
    match step
    case Mark(_) => MarkAgrees(db, j, s.db);
    case Store(w) => StoreIsWritten(j, db, s, w, ids);
    case Finalize(results) => FinalizeIsWritten(j, db, s, results, ids);
    case _ =>
  }

  lemma WrittenIsEnabled(j: JobId, x: Joint, step: SourceProtocol.Event, ids: set<SuggestionId>)
    requires j in x.tables.queued && SourceProtocol.Inv(x.workers) && Enabled(j, x, Work(step, ids))
    ensures var written := Written(j, x.workers, step, ids);
      written.Some? ==> ReviewSystem.Enabled(x.tables, written.value)
  {
    if step.Finalize? && FinalizeTx(x.workers.db, step.results).Some? {
      NothingCancelled(x.workers, step.results);
    }
  }

  lemma WorkInv(j: JobId, x: Joint, step: SourceProtocol.Event, ids: set<SuggestionId>)
    requires Inv(j, x) && Enabled(j, x, Work(step, ids))
    ensures Inv(j, Step(j, x, Work(step, ids)))
  {
    WorkIsWritten(j, x.tables.db, x.workers, step, ids);
    WrittenIsEnabled(j, x, step, ids);
    SourceProtocol.StepInv(x.workers, step);
    var written := Written(j, x.workers, step, ids);
    if written.Some? {
      ReviewSystem.StepInv(x.tables, written.value);
    }
  }

  lemma AroundInv(j: JobId, x: Joint, event: ReviewSystem.Event)
    requires Inv(j, x) && Enabled(j, x, Around(event))
    ensures Inv(j, Step(j, x, Around(event)))
  {
    OutsideAgrees(x.tables, event, j, x.workers);
    ReviewSystem.StepInv(x.tables, event);
    var seen := SeenAs(ReviewSystem.Step(x.tables, event).db, j, x.workers.db);
    if seen.Some? {
      SourceProtocol.StepInv(x.workers, seen.value);
    }
  }

  /** Every step of a worker and every event around keeps both sides in agreement. */
  lemma StepInv(j: JobId, x: Joint, e: Event)
    requires Inv(j, x) && Enabled(j, x, e)
    ensures Inv(j, Step(j, x, e))
  {
    match e
    case Work(step, ids) => WorkInv(j, x, step, ids);
    case Around(event) => AroundInv(j, x, event);
  }

  lemma {:induction false} RunInv(j: JobId, x: Joint, events: seq<Event>, y: Joint)
    requires Inv(j, x) && Leads(j, x, events, y)
    ensures Inv(j, y)
    decreases |events|
  {
    if events != [] {
      StepInv(j, x, events[0]);
      RunInv(j, Step(j, x, events[0]), events[1..], y);
    }
  }

  /** The counts of the completed sources, in the order of the header. */
  function Counts(s: SourceProtocol.State): seq<Result> {
    seq(|s.header|, i requires 0 <= i < |s.header| => Ok(SourceProtocol.Owed(s.db, s.header[i])))
  }

  /** Rows keep their job, and new ones come from its workers. */
  ghost predicate RowsKeepJobs(before: Database, after: Database, j: Option<JobId>) {
    forall sid :: sid in after.suggestions ==>
      || (sid in before.suggestions && after.suggestions[sid].job == before.suggestions[sid].job)
      || Some(after.suggestions[sid].job) == j
  }

  lemma EventRows(db: Database, e: ReviewSystem.Event)
    ensures RowsKeepJobs(db, ReviewSystem.NewDatabase(db, e), if e.Store? then Some(e.j) else None)
  {
  }

  /** No job has suggestions before it was dispatched. */
  ghost predicate StartedFirst(db: Database) {
    forall sid :: sid in db.suggestions && db.suggestions[sid].job in db.jobs ==>
      !db.jobs[db.suggestions[sid].job].status.Pending?
  }

  lemma CreateKeepsStarted(db: Database, e: ReviewSystem.Event)
    requires ReviewSystem.References(db) && e.Create? && e.id !in db.jobs && StartedFirst(db)
    ensures StartedFirst(ReviewSystem.NewDatabase(db, e))
  {
  }

  lemma StartedMoves(before: Database, after: Database, j: Option<JobId>)
    requires StartedFirst(before) && RowsKeepJobs(before, after, j) && ReviewSystem.Forward(before.jobs, after.jobs)
    requires j.Some? && j.value in after.jobs ==> !after.jobs[j.value].status.Pending?
    ensures StartedFirst(after)
  {
  }

  lemma StoringJobHasStarted(s: ReviewSystem.System, e: ReviewSystem.Event)
    requires ReviewSystem.Inv(s) && ReviewSystem.Enabled(s, e) && e.Store?
    ensures var after := ReviewSystem.NewDatabase(s.db, e);
      e.j in after.jobs ==> !after.jobs[e.j].status.Pending?
  {
  }

  lemma StartedStep(s: ReviewSystem.System, e: ReviewSystem.Event)
    requires ReviewSystem.Inv(s) && ReviewSystem.Enabled(s, e) && StartedFirst(s.db)
    ensures StartedFirst(ReviewSystem.NewDatabase(s.db, e))
  {
    var after := ReviewSystem.NewDatabase(s.db, e);
    if e.Create? {
      CreateKeepsStarted(s.db, e);
    } else {
      ReviewSystem.JobsMoveForward(s, e);
      EventRows(s.db, e);
      if e.Store? {
        StoringJobHasStarted(s, e);
      }
      StartedMoves(s.db, after, if e.Store? then Some(e.j) else None);
    }
  }

  lemma {:induction false} StartedRun(
    s: ReviewSystem.System, events: seq<ReviewSystem.Event>, t: ReviewSystem.System)
    requires ReviewSystem.Inv(s) && StartedFirst(s.db) && ReviewSystem.Leads(s, events, t)
    ensures StartedFirst(t.db)
    decreases |events|
  {
    if events != [] {
      StartedStep(s, events[0]);
      ReviewSystem.StepInv(s, events[0]);
      StartedRun(ReviewSystem.Step(s, events[0]), events[1..], t);
    }
  }

  /** The tables with the job just dispatched, and no worker yet. */
  ghost predicate BeginsAfter(j: JobId, before: ReviewSystem.System, x: Joint) {
    && ReviewSystem.Reachable(before) && DispatchJob(before.db, j).Done?
    && x.tables == ReviewSystem.Step(before, ReviewSystem.Dispatch(j))
    && x.workers == SourceProtocol.Initial(x.workers.header, x.workers.db.sources)
    && SourceProtocol.Distinct(x.workers.header)
  }

  ghost predicate Begins(j: JobId, x: Joint) {
    exists before: ReviewSystem.System :: BeginsAfter(j, before, x)
  }

  lemma DispatchAgrees(db: Database, j: JobId, header: seq<SourceId>, sources: set<SourceId>)
    requires StartedFirst(db) && DispatchJob(db, j).Done?
    ensures Agree(DispatchJob(db, j).db, j, SourceProtocol.Initial(header, sources).db)
  {
    var after := DispatchJob(db, j).db;
    StatusRows(db, ReviewSystem.Dispatch(j), j);
    assert RowsOf(after, j) == {};
  }

  lemma DispatchedTables(before: ReviewSystem.System, j: JobId)
    requires ReviewSystem.Reachable(before) && DispatchJob(before.db, j).Done?
    ensures StartedFirst(before.db)
    ensures var after := ReviewSystem.Step(before, ReviewSystem.Dispatch(j));
      ReviewSystem.Inv(after) && j in after.queued && after.db == DispatchJob(before.db, j).db
  {
    var events :| ReviewSystem.Leads(ReviewSystem.EMPTY, events, before);
    ReviewTheorems.ReachableIsSound(before);
    StartedRun(ReviewSystem.EMPTY, events, before);
    ReviewSystem.StepInv(before, ReviewSystem.Dispatch(j));
  }

  lemma InitialInv(header: seq<SourceId>, sources: set<SourceId>)
    requires SourceProtocol.Distinct(header)
    ensures SourceProtocol.Inv(SourceProtocol.Initial(header, sources))
  {
  }

  lemma BeginsInv(j: JobId, before: ReviewSystem.System, x: Joint)
    requires BeginsAfter(j, before, x)
    ensures Inv(j, x)
  {
    DispatchedTables(before, j);
    InitialInv(x.workers.header, x.workers.db.sources);
    DispatchAgrees(before.db, j, x.workers.header, x.workers.db.sources);
  }

  /** From the dispatch of a job on, whatever its workers do, whoever cancels, deletes or
      reviews, and whatever happens to other jobs: the tables hold for it exactly as many
      suggestions as its completed sources count together, and the status its workers see. */
  lemma TablesHoldTheCounts(j: JobId, x: Joint, events: seq<Event>, y: Joint)
    requires Begins(j, x) && Leads(j, x, events, y)
    ensures |RowsOf(y.tables.db, j)| == SourceProtocol.SumOk(Counts(y.workers))
    ensures y.workers.db.job == if j in y.tables.db.jobs then Some(y.tables.db.jobs[j].status) else None
  {
    var before :| BeginsAfter(j, before, x);
    BeginsInv(j, before, x);
    RunInv(j, x, events, y);
    SourceProtocol.SuggestionsOfHeader(y.workers);
    SourceProtocol.SumOverHeader(y.workers.db.suggestions, y.workers.header, Counts(y.workers));
  }
}

/** What every transaction of a worker answers and writes, row by row, in any state of the
    protocol; and what a redelivered worker hears in the states that can be reached. */
module WorkerSteps {
  import opened Options
  import opened Lifecycle
  import opened SourceRuns
  import opened AnalysisTransactions
  import opened RetryPolicy
  import opened SourceProtocol
  import opened TimedExclusion

  /** The worker goes on to `next`, and the records get what it returns; other workers, the
      clock and the header stay. */
  predicate GoesOn(s: State, t: State, w: WorkerId, next: Phase) {
    && w in s.workers && t.workers == s.workers[w := s.workers[w].(phase := next)]
    && t.header == s.header && t.now == s.now && t.finals == s.finals
    && t.returned == s.returned + if next.Returned? then {(s.workers[w].source, next.result)} else {}
  }

  predicate IsCompleted(db: Db, source: SourceId) {
    source in db.runs && db.runs[source].status == RunStatus.Completed
  }

  predicate OwnedBy(db: Db, source: SourceId, token: Token) {
    source in db.runs && db.runs[source].status == RunStatus.Processing && db.runs[source].lockToken == Some(token)
  }

  predicate IsOver(db: Db) {
    db.job in {None, Some(Success), Some(PartialSuccess), Some(JobStatus.Failed), Some(JobStatus.Cancelled)}
  }

  /** The rows with the lock given back by its owner. */
  function GivenBack(db: Db, source: SourceId, token: Token): map<SourceId, Run> {
    if OwnedBy(db, source, token)
    then db.runs[source := Run(RunStatus.Pending, None, None, db.runs[source].count)] else db.runs
  }

  lemma OverOrActive(db: Db)
    ensures IsOver(db) <==> !db.Active()
  {
    if db.job.Some? {
      ActiveXorTerminal(db.job.value);
    }
  }

  /** A missing job fails, a finished one cancels, an active one is processing from then on. */
  lemma MarkIsExact(s: State, w: WorkerId)
    requires Enabled(s, Mark(w))
    ensures var t := Step(s, Mark(w));
      && t.nextToken == s.nextToken
      && (s.db.job.None? ==> GoesOn(s, t, w, Returned(Result.Failed(JobNotFound))) && t.db == s.db)
      && (s.db.job.Some? && IsOver(s.db) ==> GoesOn(s, t, w, Returned(Result.Cancelled)) && t.db == s.db)
      && (!IsOver(s.db) ==> GoesOn(s, t, w, Marked) && t.db == s.db.(job := Some(JobStatus.Processing)))
  {
    OverOrActive(s.db);
  }

  /** The look: a missing source or job has its own failure, a completed row answers with its
      count and sends nobody on, any other row is there afterwards and sends the worker on. */
  lemma LookIsExact(s: State, w: WorkerId)
    requires Enabled(s, Look(w))
    ensures var t, source := Step(s, Look(w)), s.workers[w].source;
      && t.nextToken == s.nextToken
      && (source !in s.db.sources ==> GoesOn(s, t, w, Returned(Result.Failed(SourceNotFound))) && t.db == s.db)
      && (source in s.db.sources && s.db.job.None? ==>
            GoesOn(s, t, w, Returned(Result.Failed(DocumentNotFound))) && t.db == s.db)
      && (source in s.db.sources && s.db.job.Some? && IsCompleted(s.db, source) ==>
            GoesOn(s, t, w, Returned(Ok(s.db.runs[source].count))) && t.db == s.db)
      && (source in s.db.sources && s.db.job.Some? && !IsCompleted(s.db, source) ==>
            && GoesOn(s, t, w, Checked)
            && t.db == s.db.(runs := if source in s.db.runs then s.db.runs
                                     else s.db.runs[source := Run(RunStatus.Pending, None, None, 0)]))
  {
  }

  /** The claim: the lock is taken exactly from a pending row, or one whose lease of ten
      minutes ran out strictly before the worker's own time; otherwise the worker is busy. */
  lemma ClaimIsExact(s: State, w: WorkerId)
    requires Enabled(s, Claim(w))
    ensures var t, source, time := Step(s, Claim(w)), s.workers[w].source, s.now + s.workers[w].skew;
            var taken := source in s.db.runs && (
              || s.db.runs[source].status == RunStatus.Pending
              || (&& s.db.runs[source].status == RunStatus.Processing && s.db.runs[source].lockedAt.Some?
                  && s.db.runs[source].lockedAt.value + 600_000_000 < time));
      && t.nextToken == s.nextToken + 1
      && (taken ==>
            && GoesOn(s, t, w, Generating(s.nextToken))
            && t.db == s.db.(runs := s.db.runs[source := Run(
                 RunStatus.Processing, Some(time), Some(s.nextToken), s.db.runs[source].count)]))
      && (!taken ==> GoesOn(s, t, w, Returned(Busy)) && t.db == s.db)
  {
  }

  /** The lock is given back exactly by its owner, if the database can be reached, and the
      verdict is returned all the same. */
  lemma ReleaseIsExact(s: State, w: WorkerId, reachable: bool)
    requires Enabled(s, Release(w, reachable))
    ensures var t, worker := Step(s, Release(w, reachable)), s.workers[w];
      && GoesOn(s, t, w, Returned(worker.phase.verdict)) && t.nextToken == s.nextToken
      && t.db == s.db.(
           runs := if reachable then GivenBack(s.db, worker.source, worker.phase.token) else s.db.runs)
  {
  }

  /** The batch is stored, and the row completed with its size, exactly by the owner of a
      source that is still there, for a job that is not over; each other case has its own
      answer, and only the end of the job gives the lock back. */
  lemma StoreIsExact(s: State, w: WorkerId)
    requires Enabled(s, Store(w))
    ensures var t, source, token := Step(s, Store(w)), s.workers[w].source, s.workers[w].phase.token;
            var produced := s.workers[w].phase.produced;
      && t.nextToken == s.nextToken
      && (IsOver(s.db) ==>
            GoesOn(s, t, w, Returned(Result.Cancelled)) && t.db == s.db.(runs := GivenBack(s.db, source, token)))
      && (!IsOver(s.db) && !OwnedBy(s.db, source, token) ==> GoesOn(s, t, w, Overtaken) && t.db == s.db)
      && (!IsOver(s.db) && OwnedBy(s.db, source, token) && source !in s.db.sources ==>
            GoesOn(s, t, w, Returned(Result.Failed(SourceNotFound))) && t.db == s.db)
      && (!IsOver(s.db) && OwnedBy(s.db, source, token) && source in s.db.sources ==>
            && GoesOn(s, t, w, Returned(Ok(produced)))
            && t.db.job == s.db.job && t.db.sources == s.db.sources
            && t.db.runs == s.db.runs[source := Run(RunStatus.Completed, None, None, produced)]
            && (forall x :: t.db.suggestions[x] == s.db.suggestions[x] + if x == source then produced else 0))
  {
    OverOrActive(s.db);
  }

  /** Once overtaken, the stored count is the answer if the row is completed, busy if not. */
  lemma RereadIsExact(s: State, w: WorkerId)
    requires Enabled(s, Reread(w))
    ensures var t, source := Step(s, Reread(w)), s.workers[w].source;
      && t.db == s.db && t.nextToken == s.nextToken
      && GoesOn(s, t, w, Returned(if IsCompleted(s.db, source) then Ok(s.db.runs[source].count) else Busy))
  {
  }

  /** In a reachable state whose job is not deleted: a worker that looks, or looks again,
      hears `ok` exactly if the source was completed before, and the count it hears is the
      number of suggestions that are stored for it. Without that it never hears `ok`. */
  lemma CompletedIsHeard(timing: Option<nat>, s: State, w: WorkerId)
    requires Reachable(timing, s) && s.db.job.Some? && w in s.workers
    requires s.workers[w].phase.Overtaken? || (s.workers[w].phase.Marked? && s.workers[w].source in s.db.sources)
    ensures var again := s.workers[w].phase.Overtaken?;
            var next := Step(s, if again then Reread(w) else Look(w)).workers[w].phase;
            var source := s.workers[w].source;
      && (IsCompleted(s.db, source) ==> next == Returned(Ok(s.db.suggestions[source])))
      && (!IsCompleted(s.db, source) ==>
            s.db.suggestions[source] == 0 && next == if again then Returned(Busy) else Checked)
  {
    ExactlyOnceStorage(timing, s, s.workers[w].source);
    if s.workers[w].phase.Overtaken? {
      RereadIsExact(s, w);
    } else {
      LookIsExact(s, w);
    }
  }

  /** A task delivered once more for a completed source: it is told the stored count at its
      second step, whatever else the state holds, and no lock is touched. */
  lemma RedeliveryIsAnswered(timing: Option<nat>, s: State, w: WorkerId, source: SourceId, skew: int)
    requires Reachable(timing, s) && !IsOver(s.db) && IsCompleted(s.db, source)
    requires w !in s.workers && source in s.header && source in s.db.sources
    ensures var started := Step(s, Start(w, source, skew, 0, 0, 0));
      && Enabled(started, Mark(w)) && Enabled(Step(started, Mark(w)), Look(w))
      && var t := Step(Step(started, Mark(w)), Look(w));
         && t.workers[w].phase == Returned(Ok(s.db.suggestions[source]))
         && t.db.runs == s.db.runs && t.db.suggestions == s.db.suggestions
  {
    var started := Step(s, Start(w, source, skew, 0, 0, 0));
    ExactlyOnceStorage(timing, s, source);
    MarkIsExact(started, w);
    LookIsExact(Step(started, Mark(w)), w);
  }

  /** The model's answer: a batch is held to be stored, anything else releases the source. */
  lemma GenerateIsExact(s: State, w: WorkerId, answer: Result)
    requires Enabled(s, Generate(w, answer))
    ensures var t, token := Step(s, Generate(w, answer)), s.workers[w].phase.token;
      && t.db == s.db && t.nextToken == s.nextToken
      && GoesOn(s, t, w, match answer case Ok(n) => Generated(token, n) case _ => Releasing(token, answer))
  {
  }

  /** The end of a run: the worker is gone, and the value its chain ends with, if it ends, is
      what finalisation will be given for its source. */
  lemma WrapIsExact(s: State, w: WorkerId)
    requires Enabled(s, Wrap(w))
    ensures var t, worker := Step(s, Wrap(w)), s.workers[w];
            var verdict := AfterRun(worker.phase.result, worker.busy, worker.llm, worker.retries, 23);
      t == s.(workers := s.workers - {w},
              finals := s.finals + if verdict.Return? then {(worker.source, verdict.result)} else {})
  {
  }

  // ---------------------------------------------------------------------------
  // The end of the job
  // ---------------------------------------------------------------------------

  /** What the results of all sources fold into. */
  lemma FoldIsExact(results: seq<Result>)
    ensures var cancelled := exists i :: 0 <= i < |results| && results[i].Cancelled?;
            var failed := exists i :: 0 <= i < |results| && results[i].Failed?;
            var stored := exists i :: 0 <= i < |results| && results[i].Ok?;
      && (FinalStatus(results) == JobStatus.Cancelled <==> cancelled)
      && (FinalStatus(results) == JobStatus.Failed <==> !cancelled && failed && !stored)
      && (FinalStatus(results) == PartialSuccess <==> !cancelled && failed && stored)
      && (FinalStatus(results) == Success <==> !cancelled && !failed)
  {
  }

  /** Finalisation ends a started job with the folded status, and sends the document to
      review, to ready or back to draft; nothing else in the rows changes. */
  lemma FinalizeIsExact(s: State, results: seq<Result>)
    requires Enabled(s, Finalize(results)) && s.db.job != Some(JobStatus.Pending)
    ensures Step(s, Finalize(results)) ==
      if IsOver(s.db) then s else s.(db := s.db.(job := Some(FinalStatus(results))))
    ensures FinalizeTx(s.db, results).Some? <==> !IsOver(s.db)
    ensures var document := if FinalStatus(results) in {JobStatus.Failed, JobStatus.Cancelled} then Draft
                            else if s.db.suggestions == multiset{} then Ready
                            else AwaitingApproval;
      !IsOver(s.db) ==> FinalizeTx(s.db, results) == Some((FinalStatus(results), document))
  {
    OverOrActive(s.db);
    assert |s.db.suggestions| == 0 <==> s.db.suggestions == multiset{};
  }

  // ---------------------------------------------------------------------------
  // A run that ends well
  // ---------------------------------------------------------------------------

  /** What one worker does once it generates, and then the callback of the job. */
  function RestOf(n: nat): seq<Event> {
    [Generate(0, Ok(n)), Store(0), Wrap(0), Finalize([Ok(n)])]
  }

  /** The worker has stored its batch and returned. */
  predicate Stored(s: State, source: SourceId, n: nat) {
    && s.header == [source] && s.finals == {}
    && s.db == Db(Some(JobStatus.Processing), {source}, map[source := Run(RunStatus.Completed, None, None, n)],
                  multiset{}[source := n])
    && s.workers == map[0 := Worker(source, 0, 0, 0, 0, 0, Returned(Ok(n)))]
  }

  predicate EndsWell(t: State, source: SourceId, n: nat) {
    && t.db.job == Some(Success) && t.db.suggestions == multiset{}[source := n]
    && t.workers == map[] && t.finals == {(source, Ok(n))}
  }

  lemma GenerateAndStore(source: SourceId, s: State, n: nat)
    requires s == Entered(Initial([source], {source}), 0, source, 0)
    ensures Enabled(s, Generate(0, Ok(n))) && Enabled(Step(s, Generate(0, Ok(n))), Store(0))
    ensures Stored(Step(Step(s, Generate(0, Ok(n))), Store(0)), source, n)
  {
    GenerateIsExact(s, 0, Ok(n));
    var t := Step(s, Generate(0, Ok(n)));
    StoreIsExact(t, 0);
    assert Step(t, Store(0)).db.suggestions == multiset{}[source := n];
  }

  lemma WrapAndFinalize(source: SourceId, s: State, n: nat)
    requires Stored(s, source, n)
    ensures Enabled(s, Wrap(0)) && Enabled(Step(s, Wrap(0)), Finalize([Ok(n)]))
    ensures EndsWell(Step(Step(s, Wrap(0)), Finalize([Ok(n)])), source, n)
  {
    WrapIsExact(s, 0);
    assert (source, Ok(n)) in Step(s, Wrap(0)).finals;
    FoldIsExact([Ok(n)]);
    FinalizeIsExact(Step(s, Wrap(0)), [Ok(n)]);
  }

  lemma GeneratingWorkSucceeds(source: SourceId, s: State, n: nat)
    requires s == Entered(Initial([source], {source}), 0, source, 0)
    ensures exists t :: Leads(None, s, RestOf(n), t) && EndsWell(t, source, n)
  {
    GenerateAndStore(source, s, n);
    var s1 := Step(s, Generate(0, Ok(n)));
    var s2 := Step(s1, Store(0));
    WrapAndFinalize(source, s2, n);
    var s3 := Step(s2, Wrap(0));
    var t := Step(s3, Finalize([Ok(n)]));
    Prepend(None, s3, Finalize([Ok(n)]), [], t);
    Prepend(None, s2, Wrap(0), [Finalize([Ok(n)])], t);
    Prepend(None, s1, Store(0), [Wrap(0), Finalize([Ok(n)])], t);
    Prepend(None, s, Generate(0, Ok(n)), [Store(0), Wrap(0), Finalize([Ok(n)])], t);
  }

  /** A job of one source that nobody disturbs: its worker stores what the model answers, and
      finalisation ends it in success with exactly that many suggestions. */
  lemma UndisturbedWorkSucceeds(source: SourceId, n: nat)
    ensures var s := Initial([source], {source});
      exists t :: Leads(None, s, Entry(0, source, 0) + RestOf(n), t) && EndsWell(t, source, n)
  {
    var s := Initial([source], {source});
    var middle := Entered(s, 0, source, 0);
    WalksIn(None, s, 0, source, 0);
    GeneratingWorkSucceeds(source, middle, n);
    var t :| Leads(None, middle, RestOf(n), t) && EndsWell(t, source, n);
    Chained(None, s, Entry(0, source, 0), middle, RestOf(n), t);
  }
}

/** Many workers over the rows of one job. Deliveries, redeliveries and retries start
    workers at any time with any counters; workers crash anywhere; sources and the job
    itself may vanish; the job may be ended from outside. Every transaction is one step. */
module SourceProtocol {
  import opened Options
  import opened Lifecycle
  import opened SourceRuns
  import opened AnalysisTransactions
  import opened RetryPolicy

  type WorkerId = nat

  /** `skew` is how far the worker's clock runs ahead of the reference clock. */
  datatype Worker = Worker(source: SourceId, started: int, skew: int, busy: nat, llm: nat, retries: nat, phase: Phase)

  /** `returned` and `finals` record every result a run returned and every result a
      chain handed to finalisation; `nextToken` is the supply of unique tokens. */
  datatype State = State(
    header: seq<SourceId>,
    db: Db,
    workers: map<WorkerId, Worker>,
    now: int,
    nextToken: Token,
    returned: set<(SourceId, Result)>,
    finals: set<(SourceId, Result)>)

  datatype Event =
    | Start(w: WorkerId, source: SourceId, skew: int, busy: nat, llm: nat, retries: nat)
    | Mark(w: WorkerId)
    | Look(w: WorkerId)
    | Claim(w: WorkerId)
    | Generate(w: WorkerId, answer: Result)
    | Release(w: WorkerId, reachable: bool)
    | Store(w: WorkerId)
    | Reread(w: WorkerId)
    | Wrap(w: WorkerId)
    | Crash(w: WorkerId)
    | Tick(elapsed: nat)
    | EndJob(status: JobStatus)
    | DeleteSource(source: SourceId)
    | DeleteJob
    | Finalize(results: seq<Result>)

  function Initial(header: seq<SourceId>, sources: set<SourceId>): State {
    State(header, Db(Some(JobStatus.Dispatched), sources, map[], multiset{}), map[], 0, 0, {}, {})
  }

  /** Results offered to finalisation, one per source of the header. */
  predicate Collected(s: State, results: seq<Result>) {
    |results| == |s.header| && forall i :: 0 <= i < |results| ==> (s.header[i], results[i]) in s.finals
  }

  predicate Enabled(s: State, e: Event) {
    match e
    case Start(w, source, _, busy, llm, _) =>
      w !in s.workers && source in s.header && busy <= BUSY_RETRY_LIMIT && llm <= LLM_RETRY_LIMIT
    case Mark(w) => w in s.workers && s.workers[w].phase.Begun?
    case Look(w) => w in s.workers && s.workers[w].phase.Marked?
    case Claim(w) => w in s.workers && s.workers[w].phase.Checked?
    case Generate(w, answer) =>
      w in s.workers && s.workers[w].phase.Generating? && (answer.Ok? || answer.Retryable? || answer.Failed?)
    case Release(w, _) => w in s.workers && s.workers[w].phase.Releasing?
    case Store(w) => w in s.workers && s.workers[w].phase.Generated?
    case Reread(w) => w in s.workers && s.workers[w].phase.Overtaken?
    case Wrap(w) => w in s.workers && s.workers[w].phase.Returned?
    case Crash(w) => w in s.workers
    case Tick(_) => true
    case EndJob(status) => s.db.Active() && status in {JobStatus.Cancelled, JobStatus.Failed}
    case DeleteSource(_) => true
    case DeleteJob => s.db.job.Some?
    case Finalize(results) => Collected(s, results)
  }

  /** Under `Some(bound)`: the hard time limit kills workers, and no two clocks ever
      differ by more than `bound`. */
  predicate Timely(timing: Option<nat>, s: State, e: Event) {
    timing.Some? ==>
      && (e.Tick? ==> forall w :: w in s.workers ==>
            s.now + e.elapsed <= s.workers[w].started + TASK_TIME_LIMIT)
      && (e.Start? ==> 0 <= e.skew <= timing.value)
  }

  /** The worker moves on, and what it returns is recorded. */
  function Move(s: State, w: WorkerId, db: Db, next: Phase): State
    requires w in s.workers
  {
    var worker := s.workers[w];
    s.(db := db,
       workers := s.workers[w := worker.(phase := next)],
       returned := if next.Returned? then s.returned + {(worker.source, next.result)} else s.returned)
  }

  function Step(s: State, e: Event): State
    requires Enabled(s, e)
  {
    match e
    case Start(w, source, skew, busy, llm, retries) =>
      s.(workers := s.workers[w := Worker(source, s.now, skew, busy, llm, retries, Begun)])
    case Mark(w) =>
      var (db, next) := MarkTx(s.db);
      Move(s, w, db, next)
    case Look(w) =>
      var (db, next) := LookTx(s.db, s.workers[w].source);
      Move(s, w, db, next)
    case Claim(w) =>
      var worker := s.workers[w];
      var (db, next) := ClaimTx(s.db, worker.source, s.now + worker.skew, s.nextToken);
      Move(s, w, db, next).(nextToken := s.nextToken + 1)
    case Generate(w, answer) =>
      var token := s.workers[w].phase.token;
      Move(s, w, s.db, if answer.Ok? then Generated(token, answer.count) else Releasing(token, answer))
    case Release(w, reachable) =>
      var worker := s.workers[w];
      Move(s, w,
           if reachable then ReleaseTx(s.db, worker.source, worker.phase.token) else s.db,
           Returned(worker.phase.verdict))
    case Store(w) =>
      var worker := s.workers[w];
      var (db, next) := StoreTx(s.db, worker.source, worker.phase.token, worker.phase.produced);
      Move(s, w, db, next)
    case Reread(w) =>
      Move(s, w, s.db, RereadTx(s.db, s.workers[w].source))
    case Wrap(w) =>
      var worker := s.workers[w];
      var verdict := AfterRun(worker.phase.result, worker.busy, worker.llm, worker.retries, TASK_MAX_RETRIES);
      s.(workers := s.workers - {w},
         finals := if verdict.Return? then s.finals + {(worker.source, verdict.result)} else s.finals)
    case Crash(w) => s.(workers := s.workers - {w})
    case Tick(elapsed) => s.(now := s.now + elapsed)
    case EndJob(status) => s.(db := s.db.(job := Some(status)))
    case DeleteSource(source) => s.(db := s.db.(sources := s.db.sources - {source}))
    case DeleteJob => s.(db := Db(None, s.db.sources, map[], multiset{}))
    case Finalize(results) =>
      var end := FinalizeTx(s.db, results);
      if end.None? then s else s.(db := s.db.(job := Some(end.value.0)))
  }

  /** `events` leads from `s` to `t`. */
  predicate Leads(timing: Option<nat>, s: State, events: seq<Event>, t: State)
    decreases |events|
  {
    if events == [] then s == t
    else
      && Enabled(s, events[0])
      && Timely(timing, s, events[0])
      && Leads(timing, Step(s, events[0]), events[1..], t)
  }

  ghost predicate Distinct(header: seq<SourceId>) {
    forall i, j :: 0 <= i < j < |header| ==> header[i] != header[j]
  }

  ghost predicate Reachable(timing: Option<nat>, t: State) {
    exists header, sources, events ::
      Distinct(header) && Leads(timing, Initial(header, sources), events, t)
  }

  // ---------------------------------------------------------------------------
  // Exactly-once storage
  // ---------------------------------------------------------------------------

  predicate CompletedWith(db: Db, source: SourceId, count: nat) {
    source in db.runs && db.runs[source].status.Completed? && db.runs[source].count == count
  }

  /** What the table of suggestions should hold for a source, read off its row. */
  function Owed(db: Db, source: SourceId): nat {
    if source in db.runs && db.runs[source].status.Completed? then db.runs[source].count else 0
  }

  ghost predicate StoredOnce(db: Db) {
    forall source :: db.suggestions[source] == Owed(db, source)
  }

  ghost predicate JobOver(db: Db) {
    db.job.None? || IsTerminal(db.job.value)
  }

  /** What a recorded result still says about the database. */
  ghost predicate Backed(db: Db, source: SourceId, result: Result) {
    match result
    case Ok(n) => db.job.Some? ==> CompletedWith(db, source, n)
    case Cancelled => JobOver(db)
    case _ => true
  }

  ghost predicate OneCount(results: set<(SourceId, Result)>) {
    forall a, b :: a in results && b in results && a.0 == b.0 && a.1.Ok? && b.1.Ok? ==> a.1 == b.1
  }

  ghost predicate Inv(s: State) {
    && Distinct(s.header)
    && StoredOnce(s.db)
    && (s.db.job.None? ==> s.db.runs == map[])
    && s.db.job != Some(JobStatus.Pending)
    && (forall source :: source in s.db.runs ==> source in s.header)
    && (forall w :: w in s.workers ==> s.workers[w].source in s.header)
    && (forall w :: w in s.workers && s.workers[w].phase.Returned? ==>
          (s.workers[w].source, s.workers[w].phase.result) in s.returned)
    && (forall w :: w in s.workers && s.workers[w].phase.Releasing? ==>
          s.workers[w].phase.verdict.Retryable? || s.workers[w].phase.verdict.Failed?)
    && (forall r :: r in s.returned ==> Backed(s.db, r.0, r.1))
    && OneCount(s.returned)
    && (forall r :: r in s.finals ==> Conclusive(r.1) && (r.1.Failed? || r in s.returned))
  }

  /** A transaction keeps what earlier results were backed by. */
  ghost predicate Keeps(before: Db, after: Db) {
    && (after.job.Some? ==> before.job.Some?)
    && (JobOver(before) ==> JobOver(after))
    && (after.job.Some? ==> forall source :: source in before.runs && before.runs[source].status.Completed? ==>
          source in after.runs && after.runs[source] == before.runs[source])
  }

  lemma KeepsBacked(before: Db, after: Db, source: SourceId, result: Result)
    requires Keeps(before, after) && Backed(before, source, result)
    ensures Backed(after, source, result)
  {
  }

  /** The shared part of every worker transaction. */
  lemma MoveKeepsInv(s: State, w: WorkerId, db: Db, next: Phase)
    requires Inv(s) && w in s.workers
    requires Keeps(s.db, db) && StoredOnce(db) && (db.job.None? ==> db.runs == map[])
    requires db.job != Some(JobStatus.Pending)
    requires forall source :: source in db.runs ==> source in s.header
    requires next.Releasing? ==> next.verdict.Retryable? || next.verdict.Failed?
    requires next.Returned? ==> Backed(db, s.workers[w].source, next.result)
    requires next.Returned? && next.result.Ok? ==>
      forall r :: r in s.returned && r.0 == s.workers[w].source && r.1.Ok? ==> r.1 == next.result
    ensures Inv(Move(s, w, db, next))
  {
    var t := Move(s, w, db, next);
    forall r | r in t.returned ensures Backed(t.db, r.0, r.1) {
      if r in s.returned {
        KeepsBacked(s.db, db, r.0, r.1);
      }
    }
  }

  /** An `ok` result about to be returned agrees with every earlier one. */
  lemma SameCount(s: State, source: SourceId, count: nat)
    requires Inv(s) && s.db.job.Some? && CompletedWith(s.db, source, count)
    ensures forall r :: r in s.returned && r.0 == source && r.1.Ok? ==> r.1 == Ok(count)
  {
    forall r | r in s.returned && r.0 == source && r.1.Ok? ensures r.1 == Ok(count) {
      assert Backed(s.db, r.0, r.1);
    }
  }

  lemma NoneYet(s: State, source: SourceId)
    requires Inv(s) && s.db.job.Some? && Owed(s.db, source) == 0
    requires !(source in s.db.runs && s.db.runs[source].status.Completed?)
    ensures forall r :: r in s.returned && r.0 == source ==> !r.1.Ok?
  {
    forall r | r in s.returned && r.0 == source ensures !r.1.Ok? {
      assert Backed(s.db, r.0, r.1);
    }
  }

  lemma MarkInv(s: State, w: WorkerId)
    requires Inv(s) && Enabled(s, Mark(w))
    ensures Inv(Step(s, Mark(w)))
  {
    var (db, next) := MarkTx(s.db);
    if s.db.job.Some? {
      ActiveXorTerminal(s.db.job.value);
    }
    assert forall source :: Owed(db, source) == Owed(s.db, source);
    MoveKeepsInv(s, w, db, next);
  }

  lemma LookInv(s: State, w: WorkerId)
    requires Inv(s) && Enabled(s, Look(w))
    ensures Inv(Step(s, Look(w)))
  {
    var source := s.workers[w].source;
    var (db, next) := LookTx(s.db, source);
    assert forall x :: Owed(db, x) == Owed(s.db, x);
    if next.Returned? && next.result.Ok? {
      SameCount(s, source, next.result.count);
    }
    MoveKeepsInv(s, w, db, next);
  }

  lemma ClaimKeeps(db: Db, source: SourceId, now: int, token: Token)
    requires StoredOnce(db)
    ensures var (after, next) := ClaimTx(db, source, now, token);
      && Keeps(db, after) && StoredOnce(after) && after.job == db.job && after.runs.Keys == db.runs.Keys
      && (next.Returned? ==> next.result == Busy && after == db)
      && (next.Returned? || next == Generating(token))
  {
    var (after, _) := ClaimTx(db, source, now, token);
    forall x ensures after.suggestions[x] == Owed(after, x) {
      assert db.suggestions[x] == Owed(db, x);
    }
  }

  lemma TokensAreFree(s: State, token: Token)
    requires Inv(s)
    ensures Inv(s.(nextToken := token))
  {
  }

  lemma ClaimMoves(s: State, w: WorkerId, db: Db, next: Phase)
    requires Inv(s) && w in s.workers && s.workers[w].phase.Checked?
    requires (db, next) == ClaimTx(s.db, s.workers[w].source, s.now + s.workers[w].skew, s.nextToken)
    ensures Inv(Move(s, w, db, next))
  {
    ClaimKeeps(s.db, s.workers[w].source, s.now + s.workers[w].skew, s.nextToken);
    MoveKeepsInv(s, w, db, next);
  }

  lemma ClaimStep(s: State, w: WorkerId)
    requires Enabled(s, Claim(w))
    ensures var (db, next) := ClaimTx(s.db, s.workers[w].source, s.now + s.workers[w].skew, s.nextToken);
      Step(s, Claim(w)) == Move(s, w, db, next).(nextToken := s.nextToken + 1)
  {
  }

  lemma ClaimInv(s: State, w: WorkerId)
    requires Inv(s) && Enabled(s, Claim(w))
    ensures Inv(Step(s, Claim(w)))
  {
    var (db, next) := ClaimTx(s.db, s.workers[w].source, s.now + s.workers[w].skew, s.nextToken);
    ClaimStep(s, w);
    ClaimMoves(s, w, db, next);
    TokensAreFree(Move(s, w, db, next), s.nextToken + 1);
  }

  lemma GenerateInv(s: State, w: WorkerId, answer: Result)
    requires Inv(s) && Enabled(s, Generate(w, answer))
    ensures Inv(Step(s, Generate(w, answer)))
  {
    var token := s.workers[w].phase.token;
    MoveKeepsInv(s, w, s.db, if answer.Ok? then Generated(token, answer.count) else Releasing(token, answer));
  }

  lemma ReleaseInv(s: State, w: WorkerId, reachable: bool)
    requires Inv(s) && Enabled(s, Release(w, reachable))
    ensures Inv(Step(s, Release(w, reachable)))
  {
    var worker := s.workers[w];
    var db := if reachable then ReleaseTx(s.db, worker.source, worker.phase.token) else s.db;
    assert forall x :: Owed(db, x) == Owed(s.db, x);
    MoveKeepsInv(s, w, db, Returned(worker.phase.verdict));
  }

  lemma StoreKeeps(db: Db, source: SourceId, token: Token, produced: nat)
    requires StoredOnce(db) && (db.job.None? ==> db.runs == map[])
    ensures var (after, next) := StoreTx(db, source, token, produced);
      && Keeps(db, after) && after.job == db.job && after.runs.Keys == db.runs.Keys && StoredOnce(after)
  {
    var (after, _) := StoreTx(db, source, token, produced);
    forall x ensures after.suggestions[x] == Owed(after, x) {
      assert db.suggestions[x] == Owed(db, x);
    }
  }

  lemma StoreMoves(s: State, w: WorkerId, db: Db, next: Phase)
    requires Inv(s) && w in s.workers && s.workers[w].phase.Generated?
    requires (db, next) == StoreTx(s.db, s.workers[w].source, s.workers[w].phase.token, s.workers[w].phase.produced)
    ensures Inv(Move(s, w, db, next))
  {
    StoreKeeps(s.db, s.workers[w].source, s.workers[w].phase.token, s.workers[w].phase.produced);
    if s.db.job.Some? {
      ActiveXorTerminal(s.db.job.value);
    }
    if next.Returned? && next.result.Ok? {
      NoneYet(s, s.workers[w].source);
    }
    MoveKeepsInv(s, w, db, next);
  }

  lemma StoreInv(s: State, w: WorkerId)
    requires Inv(s) && Enabled(s, Store(w))
    ensures Inv(Step(s, Store(w)))
  {
    var worker := s.workers[w];
    var (db, next) := StoreTx(s.db, worker.source, worker.phase.token, worker.phase.produced);
    StoreMoves(s, w, db, next);
  }

  lemma RereadInv(s: State, w: WorkerId)
    requires Inv(s) && Enabled(s, Reread(w))
    ensures Inv(Step(s, Reread(w)))
  {
    var source := s.workers[w].source;
    var next := RereadTx(s.db, source);
    if next.result.Ok? {
      SameCount(s, source, next.result.count);
    }
    MoveKeepsInv(s, w, s.db, next);
  }

  lemma WrapInv(s: State, w: WorkerId)
    requires Inv(s) && Enabled(s, Wrap(w))
    ensures Inv(Step(s, Wrap(w)))
  {
    var worker := s.workers[w];
    ReturnIsConclusive(worker.phase.result, worker.busy, worker.llm, worker.retries, TASK_MAX_RETRIES);
  }

  /** Everything that is not a worker's transaction. */
  lemma OutsideInv(s: State, e: Event)
    requires Inv(s) && Enabled(s, e)
    requires e.EndJob? || e.DeleteSource? || e.DeleteJob? || e.Finalize?
    ensures Inv(Step(s, e))
  {
    var t := Step(s, e);
    if s.db.job.Some? {
      ActiveXorTerminal(s.db.job.value);
    }
    assert Keeps(s.db, t.db);
    forall r | r in t.returned ensures Backed(t.db, r.0, r.1) {
      KeepsBacked(s.db, t.db, r.0, r.1);
    }
    if !e.DeleteJob? {
      assert forall x :: Owed(t.db, x) == Owed(s.db, x);
    }
  }

  lemma StepInv(s: State, e: Event)
    requires Inv(s) && Enabled(s, e)
    ensures Inv(Step(s, e))
  {
    match e {
      case Start(_, _, _, _, _, _) =>
      case Mark(w) => MarkInv(s, w);
      case Look(w) => LookInv(s, w);
      case Claim(w) => ClaimInv(s, w);
      case Generate(w, answer) => GenerateInv(s, w, answer);
      case Release(w, reachable) => ReleaseInv(s, w, reachable);
      case Store(w) => StoreInv(s, w);
      case Reread(w) => RereadInv(s, w);
      case Wrap(w) => WrapInv(s, w);
      case Crash(_) =>
      case Tick(_) =>
      case _ => OutsideInv(s, e);
    }
  }

  lemma {:induction false} RunInv(timing: Option<nat>, s: State, events: seq<Event>, t: State)
    requires Inv(s) && Leads(timing, s, events, t)
    ensures Inv(t) && t.header == s.header
    decreases |events|
  {
    if events != [] {
      StepInv(s, events[0]);
      RunInv(timing, Step(s, events[0]), events[1..], t);
    }
  }

  lemma ReachableInv(timing: Option<nat>, t: State)
    requires Reachable(timing, t)
    ensures Inv(t)
  {
    var header, sources, events :| Distinct(header) && Leads(timing, Initial(header, sources), events, t);
    RunInv(timing, Initial(header, sources), events, t);
  }

  /** In every reachable state, whatever the clocks do: the suggestions stored for a
      source number exactly its `suggestions_count` once its row is completed and none
      before, and every `ok` ever returned for it carries one and the same count. */
  lemma ExactlyOnceStorage(timing: Option<nat>, s: State, source: SourceId)
    requires Reachable(timing, s)
    ensures s.db.suggestions[source] ==
      if source in s.db.runs && s.db.runs[source].status.Completed? then s.db.runs[source].count else 0
    ensures forall n :: (source, Ok(n)) in s.returned && s.db.job.Some? ==> s.db.suggestions[source] == n
    ensures forall m, n :: (source, Ok(m)) in s.returned && (source, Ok(n)) in s.returned ==> m == n
  {
    ReachableInv(timing, s);
    forall n | (source, Ok(n)) in s.returned && s.db.job.Some? ensures s.db.suggestions[source] == n {
      assert Backed(s.db, source, Ok(n));
    }
    forall m, n | (source, Ok(m)) in s.returned && (source, Ok(n)) in s.returned ensures m == n {
      var a, b := (source, Ok(m)), (source, Ok(n));
      assert a.1 == b.1;
    }
  }

  // ---------------------------------------------------------------------------
  // Finalisation
  // ---------------------------------------------------------------------------

  function SumOk(results: seq<Result>): nat {
    if results == [] then 0
    else (if results[0].Ok? then results[0].count else 0) + SumOk(results[1..])
  }

  /** The suggestions of a job are those of its sources, one source after another. */
  lemma {:induction false} SumOverHeader(stored: multiset<SourceId>, header: seq<SourceId>, results: seq<Result>)
    requires |header| == |results| && Distinct(header)
    requires forall source :: source in stored ==> source in header
    requires forall i :: 0 <= i < |results| ==> results[i] == Ok(stored[header[i]])
    ensures |stored| == SumOk(results)
  {
    if header == [] {
      assert stored == multiset{} by {
        forall x ensures stored[x] == 0 {
          assert x !in stored;
        }
      }
    } else {
      var rest := stored[header[0] := 0];
      forall source | source in rest ensures source in header[1..] {
        assert source in stored;
      }
      assert stored == rest + multiset{}[header[0] := stored[header[0]]];
      SumOverHeader(rest, header[1..], results[1..]);
    }
  }

  lemma SuggestionsOfHeader(s: State)
    requires Inv(s)
    ensures forall source :: source in s.db.suggestions ==> source in s.header
  {
    forall source | source in s.db.suggestions ensures source in s.header {
      assert s.db.suggestions[source] == Owed(s.db, source);
    }
  }

  /** A `cancelled` result in the collected results means the job is already over, so
      finalisation returns before it reaches its `cancelled` branch. */
  lemma CancelledBranchUnreachable(timing: Option<nat>, s: State, results: seq<Result>)
    requires Reachable(timing, s) && Collected(s, results)
    ensures FinalizeTx(s.db, results).Some? ==>
      forall i :: 0 <= i < |results| ==> results[i].Ok? || results[i].Failed?
    ensures FinalizeTx(s.db, results).Some? ==>
      FinalizeTx(s.db, results).value.0 in {Success, PartialSuccess, JobStatus.Failed}
  {
    ReachableInv(timing, s);
    if FinalizeTx(s.db, results).Some? {
      ActiveXorTerminal(s.db.job.value);
      forall i | 0 <= i < |results| ensures results[i].Ok? || results[i].Failed? {
        var r := (s.header[i], results[i]);
        assert r in s.finals;
        if r in s.returned {
          assert Backed(s.db, r.0, r.1);
        }
      }
    }
  }

  /** The job's life cycle never refuses the folded status: finalisation of a live job
      always ends it. */
  lemma FinalizationNeverRefuses(timing: Option<nat>, s: State, results: seq<Result>)
    requires Reachable(timing, s) && Collected(s, results)
    ensures FinalizeTx(s.db, results).Some? <==> s.db.Active()
  {
    ReachableInv(timing, s);
  }

  /** The folded status, read off results that are all conclusive. */
  lemma StatusOfResults(results: seq<Result>)
    requires forall i :: 0 <= i < |results| ==> results[i].Ok? || results[i].Failed?
    ensures FinalStatus(results) == Success <==> forall i :: 0 <= i < |results| ==> results[i].Ok?
    ensures FinalStatus(results) == JobStatus.Failed <==>
      |results| > 0 && forall i :: 0 <= i < |results| ==> results[i].Failed?
  {
    if forall i :: 0 <= i < |results| ==> results[i].Failed? {
      assert |results| > 0 ==> results[0].Failed?;
    } else {
      var i :| 0 <= i < |results| && !results[i].Failed?;
      assert results[i].Ok?;
    }
  }

  lemma CountsAreStored(s: State, results: seq<Result>)
    requires Inv(s) && Collected(s, results) && s.db.Active()
    ensures forall i :: 0 <= i < |results| && results[i].Ok? ==> results[i] == Ok(s.db.suggestions[s.header[i]])
  {
    forall i | 0 <= i < |results| && results[i].Ok?
      ensures results[i] == Ok(s.db.suggestions[s.header[i]])
    {
      var r := (s.header[i], results[i]);
      assert r in s.finals && r in s.returned;
      assert Backed(s.db, r.0, r.1);
    }
  }

  /** Finalisation conserves counts: a job that ends `success` has stored exactly the
      sum of the reported counts, a failed one was told of no success, and a finished
      one sends the document to review exactly when something is stored. */
  lemma FinalizationConservesCounts(timing: Option<nat>, s: State, results: seq<Result>)
    requires Reachable(timing, s) && Collected(s, results) && FinalizeTx(s.db, results).Some?
    ensures var (status, document) := FinalizeTx(s.db, results).value;
      && (status == Success <==> forall i :: 0 <= i < |results| ==> results[i].Ok?)
      && (status == JobStatus.Failed <==> |results| > 0 && forall i :: 0 <= i < |results| ==> results[i].Failed?)
      && (status == Success ==> |s.db.suggestions| == SumOk(results))
      && (status in {Success, PartialSuccess} ==>
            document == if |s.db.suggestions| > 0 then AwaitingApproval else Ready)
      && (status == JobStatus.Failed ==> document == Draft)
    ensures forall i :: 0 <= i < |results| && results[i].Ok? ==> s.db.suggestions[s.header[i]] == results[i].count
  {
    ReachableInv(timing, s);
    CancelledBranchUnreachable(timing, s, results);
    StatusOfResults(results);
    CountsAreStored(s, results);
    if forall i :: 0 <= i < |results| ==> results[i].Ok? {
      SuggestionsOfHeader(s);
      SumOverHeader(s.db.suggestions, s.header, results);
    }
  }
}

/** With workers killed at the hard time limit, the lease keeps two workers out of the
    generation section of one source exactly when their clocks agree closely enough. */
module TimedExclusion {
  import opened Options
  import opened Lifecycle
  import opened SourceRuns
  import opened AnalysisTransactions
  import opened RetryPolicy
  import opened SourceProtocol

  /** What the lease leaves over the time limit: the clock difference it tolerates. */
  const TOLERANCE := SOURCE_LEASE - TASK_TIME_LIMIT

  predicate InGeneration(p: Phase) {
    p.Generating? || p.Generated?
  }

  predicate Holding(p: Phase) {
    InGeneration(p) || p.Releasing?
  }

  ghost predicate Exclusive(s: State) {
    forall v, w :: v in s.workers && w in s.workers && v != w
      && InGeneration(s.workers[v].phase) && InGeneration(s.workers[w].phase)
      ==> s.workers[v].source != s.workers[w].source
  }

  /** The row is locked by this token, no earlier than `since`. */
  predicate LockedSince(db: Db, source: SourceId, token: Token, since: int) {
    source in db.runs && HeldBy(db.runs[source], token)
    && db.runs[source].lockedAt.Some? && db.runs[source].lockedAt.value >= since
  }

  ghost predicate InTime(bound: nat, s: State, worker: Worker) {
    worker.started <= s.now <= worker.started + TASK_TIME_LIMIT && 0 <= worker.skew <= bound
  }

  ghost predicate OneHolder(s: State) {
    forall v, w :: v in s.workers && w in s.workers && v != w
      && Holding(s.workers[v].phase) && Holding(s.workers[w].phase)
      ==> s.workers[v].source != s.workers[w].source
  }

  ghost predicate TimedInv(bound: nat, s: State) {
    && (s.db.job.None? ==> s.db.runs == map[])
    && (forall w :: w in s.workers ==> InTime(bound, s, s.workers[w]))
    && (forall w :: w in s.workers ==> !s.workers[w].phase.Overtaken?)
    && OneHolder(s)
    && (s.db.job.Some? ==> forall w :: w in s.workers && Holding(s.workers[w].phase) ==>
          LockedSince(s.db, s.workers[w].source, s.workers[w].phase.token, s.workers[w].started + s.workers[w].skew))
  }

  /** A live holder's lease has not run out on any clock within the tolerance. */
  lemma LeaseOutlivesHolder(bound: nat, s: State, holder: WorkerId, other: WorkerId)
    requires bound <= TOLERANCE && TimedInv(bound, s) && s.db.job.Some?
    requires holder in s.workers && Holding(s.workers[holder].phase) && other in s.workers
    ensures !Claimable(s.db.runs[s.workers[holder].source], s.now + s.workers[other].skew, SOURCE_LEASE)
  {
    var h, o := s.workers[holder], s.workers[other];
    assert InTime(bound, s, h) && InTime(bound, s, o);
    assert LockedSince(s.db, h.source, h.phase.token, h.started + h.skew);
  }

  lemma ClaimIsExclusive(bound: nat, s: State, w: WorkerId)
    requires bound <= TOLERANCE && TimedInv(bound, s) && Enabled(s, Claim(w))
    ensures TimedInv(bound, Step(s, Claim(w)))
  {
    var worker := s.workers[w];
    var (db, next) := ClaimTx(s.db, worker.source, s.now + worker.skew, s.nextToken);
    assert InTime(bound, s, worker);
    if next.Generating? {
      forall v | v in s.workers && Holding(s.workers[v].phase) ensures s.workers[v].source != worker.source {
        LeaseOutlivesHolder(bound, s, v, w);
      }
    }
    var t := Step(s, Claim(w));
    assert forall v :: v in t.workers ==> InTime(bound, t, t.workers[v]) by {
      forall v | v in t.workers ensures InTime(bound, t, t.workers[v]) {
        assert InTime(bound, s, s.workers[v]);
      }
    }
  }

  predicate StillHeld(db: Db, worker: Worker)
    requires Holding(worker.phase)
  {
    db.job.Some? ==> LockedSince(db, worker.source, worker.phase.token, worker.started + worker.skew)
  }

  /** A transaction of one worker that makes it no new holder and spares the locks of the
      others. */
  lemma MoveKeepsExclusion(bound: nat, s: State, w: WorkerId, db: Db, next: Phase)
    requires TimedInv(bound, s) && w in s.workers && !next.Overtaken?
    requires db.job.None? ==> db.runs == map[]
    requires Holding(next) ==> Holding(s.workers[w].phase) && StillHeld(db, s.workers[w].(phase := next))
    requires forall v :: v in s.workers && v != w && Holding(s.workers[v].phase) ==> StillHeld(db, s.workers[v])
    ensures TimedInv(bound, Move(s, w, db, next))
  {
    var t := Move(s, w, db, next);
    forall v | v in t.workers ensures InTime(bound, t, t.workers[v]) {
      assert InTime(bound, s, s.workers[v]);
    }
    if db.job.Some? {
      forall v | v in t.workers && Holding(t.workers[v].phase)
        ensures LockedSince(db, t.workers[v].source, t.workers[v].phase.token, t.workers[v].started + t.workers[v].skew)
      {
        assert v != w ==> StillHeld(db, s.workers[v]);
      }
    }
  }

  lemma HeldNow(bound: nat, s: State, w: WorkerId)
    requires TimedInv(bound, s) && w in s.workers && Holding(s.workers[w].phase)
    ensures StillHeld(s.db, s.workers[w])
    ensures forall v :: v in s.workers && v != w && Holding(s.workers[v].phase) ==>
      s.workers[v].source != s.workers[w].source
  {
  }

  /** Steps of a worker other than taking the lock. */
  lemma WorkerStepsKeepExclusion(bound: nat, s: State, e: Event)
    requires TimedInv(bound, s) && Enabled(s, e)
    requires e.Mark? || e.Look? || e.Generate? || e.Release? || e.Store? || e.Reread?
    ensures TimedInv(bound, Step(s, e))
  {
    var worker := s.workers[e.w];
    if Holding(worker.phase) {
      HeldNow(bound, s, e.w);
    }
    match e
    case Mark(w) =>
      var (db, next) := MarkTx(s.db);
      MoveKeepsExclusion(bound, s, w, db, next);
    case Look(w) =>
      var (db, next) := LookTx(s.db, worker.source);
      MoveKeepsExclusion(bound, s, w, db, next);
    case Generate(w, answer) =>
      var token := worker.phase.token;
      var next := if answer.Ok? then Generated(token, answer.count) else Releasing(token, answer);
      MoveKeepsExclusion(bound, s, w, s.db, next);
    case Release(w, reachable) =>
      var db := if reachable then ReleaseTx(s.db, worker.source, worker.phase.token) else s.db;
      MoveKeepsExclusion(bound, s, w, db, Returned(worker.phase.verdict));
    case Store(w) =>
      var (db, next) := StoreTx(s.db, worker.source, worker.phase.token, worker.phase.produced);
      MoveKeepsExclusion(bound, s, w, db, next);
    case Reread(w) =>
      MoveKeepsExclusion(bound, s, w, s.db, RereadTx(s.db, worker.source));
  }

  /** Everything around the transactions: workers coming and going, time, the outside. */
  lemma SurroundingsKeepExclusion(bound: nat, s: State, e: Event)
    requires TimedInv(bound, s) && Enabled(s, e) && Timely(Some(bound), s, e)
    requires e.Start? || e.Wrap? || e.Crash? || e.Tick? || e.EndJob? || e.DeleteSource? || e.DeleteJob? || e.Finalize?
    ensures TimedInv(bound, Step(s, e))
  {
    var t := Step(s, e);
    forall w | w in t.workers ensures InTime(bound, t, t.workers[w]) {
      assert w in s.workers ==> InTime(bound, s, s.workers[w]);
    }
    assert OneHolder(t);
    if t.db.job.Some? {
      forall w | w in t.workers && Holding(t.workers[w].phase)
        ensures var worker := t.workers[w];
          LockedSince(t.db, worker.source, worker.phase.token, worker.started + worker.skew)
      {
        HeldNow(bound, s, w);
      }
    }
  }

  lemma {:induction false} RunIsExclusive(bound: nat, s: State, events: seq<Event>, t: State)
    requires bound <= TOLERANCE && TimedInv(bound, s) && Leads(Some(bound), s, events, t)
    ensures TimedInv(bound, t)
    decreases |events|
  {
    if events != [] {
      if events[0].Claim? {
        ClaimIsExclusive(bound, s, events[0].w);
      } else {
        var e := events[0];
        if e.Mark? || e.Look? || e.Generate? || e.Release? || e.Store? || e.Reread? {
          WorkerStepsKeepExclusion(bound, s, e);
        } else {
          SurroundingsKeepExclusion(bound, s, e);
        }
      }
      RunIsExclusive(bound, Step(s, events[0]), events[1..], t);
    }
  }

  lemma ReachableTimedInv(bound: nat, t: State)
    requires bound <= TOLERANCE && Reachable(Some(bound), t)
    ensures TimedInv(bound, t)
  {
    var header, sources, events :| Distinct(header) && Leads(Some(bound), Initial(header, sources), events, t);
    RunIsExclusive(bound, Initial(header, sources), events, t);
  }

  /** No finished generation is ever thrown away: while the clocks agree, a worker that
      comes to store its batch for a live job still owns the source. */
  lemma NoResultIsLost(bound: nat, s: State, w: WorkerId)
    requires bound <= TOLERANCE && Reachable(Some(bound), s)
    requires w in s.workers && s.workers[w].phase.Generated? && s.db.Active()
    ensures Step(s, Store(w)).workers[w].phase ==
      Returned(
        if s.workers[w].source in s.db.sources then Ok(s.workers[w].phase.produced)
        else Result.Failed(SourceNotFound))
  {
    ReachableTimedInv(bound, s);
    var worker := s.workers[w];
    assert Holding(worker.phase);
    assert LockedSince(s.db, worker.source, worker.phase.token, worker.started + worker.skew);
  }

  lemma Prepend(timing: Option<nat>, s: State, e: Event, events: seq<Event>, t: State)
    requires Enabled(s, e) && Timely(timing, s, e) && Leads(timing, Step(s, e), events, t)
    ensures Leads(timing, s, [e] + events, t)
  {
    assert ([e] + events)[1..] == events;
  }

  function Entry(w: WorkerId, source: SourceId, skew: int): seq<Event> {
    [Start(w, source, skew, 0, 0, 0), Mark(w), Look(w), Claim(w)]
  }

  function Entered(s: State, w: WorkerId, source: SourceId, skew: int): State {
    var count := EnsuredRuns(s.db, source)[source].count;
    var held := Run(RunStatus.Processing, Some(s.now + skew), Some(s.nextToken), count);
    s.(db := s.db.(job := Some(JobStatus.Processing), runs := s.db.runs[source := held]),
       workers := s.workers[w := Worker(source, s.now, skew, 0, 0, 0, Generating(s.nextToken))],
       nextToken := s.nextToken + 1)
  }

  function AfterMark(s: State, w: WorkerId, source: SourceId, skew: int): State {
    s.(db := s.db.(job := Some(JobStatus.Processing)),
       workers := s.workers[w := Worker(source, s.now, skew, 0, 0, 0, Marked)])
  }

  /** Alone in its steps, a worker on a free row goes from one transaction to the next. */
  lemma Enters(s: State, w: WorkerId, source: SourceId, skew: int)
    requires w !in s.workers && source in s.header && source in s.db.sources && s.db.Active()
    ensures var begun := s.(workers := s.workers[w := Worker(source, s.now, skew, 0, 0, 0, Begun)]);
      && Enabled(s, Start(w, source, skew, 0, 0, 0)) && Step(s, Start(w, source, skew, 0, 0, 0)) == begun
      && Enabled(begun, Mark(w)) && Step(begun, Mark(w)) == AfterMark(s, w, source, skew)
  {
  }

  function AfterLook(s: State, w: WorkerId, source: SourceId, skew: int): State {
    s.(db := s.db.(job := Some(JobStatus.Processing), runs := EnsuredRuns(s.db, source)),
       workers := s.workers[w := Worker(source, s.now, skew, 0, 0, 0, Checked)])
  }

  lemma LooksUp(s: State, w: WorkerId, source: SourceId, skew: int)
    requires source in s.db.sources
    requires source in s.db.runs ==> !s.db.runs[source].status.Completed?
    ensures var marked := AfterMark(s, w, source, skew);
      Enabled(marked, Look(w)) && Step(marked, Look(w)) == AfterLook(s, w, source, skew)
  {
    var marked := AfterMark(s, w, source, skew);
    assert EnsuredRuns(marked.db, source) == EnsuredRuns(s.db, source);
    assert Step(marked, Look(w)).workers == AfterLook(s, w, source, skew).workers;
  }

  lemma Claims(s: State, w: WorkerId, source: SourceId, skew: int)
    requires Claimable(EnsuredRuns(s.db, source)[source], s.now + skew, SOURCE_LEASE)
    ensures var checked := AfterLook(s, w, source, skew);
      Enabled(checked, Claim(w)) && Step(checked, Claim(w)) == Entered(s, w, source, skew)
  {
    var checked, t := AfterLook(s, w, source, skew), Entered(s, w, source, skew);
    assert Step(checked, Claim(w)).workers == t.workers;
    assert Step(checked, Claim(w)).db.runs == t.db.runs;
  }

  /** A worker that finds the row free, or its lease run out, walks into generation. */
  lemma WalksIn(timing: Option<nat>, s: State, w: WorkerId, source: SourceId, skew: int)
    requires w !in s.workers && source in s.header && source in s.db.sources && s.db.Active()
    requires timing.Some? ==> 0 <= skew <= timing.value
    requires Claimable(EnsuredRuns(s.db, source)[source], s.now + skew, SOURCE_LEASE)
    requires source in s.db.runs ==> !s.db.runs[source].status.Completed?
    ensures Leads(timing, s, Entry(w, source, skew), Entered(s, w, source, skew))
  {
    var t := Entered(s, w, source, skew);
    Enters(s, w, source, skew);
    LooksUp(s, w, source, skew);
    Claims(s, w, source, skew);
    Prepend(timing, AfterLook(s, w, source, skew), Claim(w), [], t);
    Prepend(timing, AfterMark(s, w, source, skew), Look(w), [Claim(w)], t);
    var begun := Step(s, Start(w, source, skew, 0, 0, 0));
    Prepend(timing, begun, Mark(w), [Look(w), Claim(w)], t);
    Prepend(timing, s, Start(w, source, skew, 0, 0, 0), [Mark(w), Look(w), Claim(w)], t);
  }

  lemma {:induction false} Chained(
    timing: Option<nat>, s: State, first: seq<Event>, t: State, second: seq<Event>, u: State)
    requires Leads(timing, s, first, t) && Leads(timing, t, second, u)
    ensures Leads(timing, s, first + second, u)
    decreases |first|
  {
    if first == [] {
      assert first + second == second;
    } else {
      Chained(timing, Step(s, first[0]), first[1..], t, second, u);
      Prepend(timing, s, first[0], first[1..] + second, u);
      assert [first[0]] + (first[1..] + second) == first + second;
    }
  }

  /** One worker generating, at the last instant of its time limit. */
  function HolderAtLimit(): State {
    var entered := Entered(Initial([7], {7}), 0, 7, 0);
    entered.(now := entered.now + TASK_TIME_LIMIT)
  }

  lemma HolderReachesLimit(bound: nat)
    ensures Leads(Some(bound), Initial([7], {7}), Entry(0, 7, 0) + [Tick(TASK_TIME_LIMIT)], HolderAtLimit())
  {
    var s0 := Initial([7], {7});
    WalksIn(Some(bound), s0, 0, 7, 0);
    var s1 := Entered(s0, 0, 7, 0);
    Prepend(Some(bound), s1, Tick(TASK_TIME_LIMIT), [], HolderAtLimit());
    Chained(Some(bound), s0, Entry(0, 7, 0), s1, [Tick(TASK_TIME_LIMIT)], HolderAtLimit());
  }

  /** The run that breaks exclusion: the first worker is still alive at the last instant
      of its time limit when one with a faster clock finds the lease expired. */
  lemma FastClockTakesOver(bound: nat)
    requires bound > TOLERANCE
    ensures exists t :: Reachable(Some(bound), t) && !Exclusive(t)
  {
    var timing, s0, s2 := Some(bound), Initial([7], {7}), HolderAtLimit();
    HolderReachesLimit(bound);
    WalksIn(timing, s2, 1, 7, bound);
    var s3 := Entered(s2, 1, 7, bound);
    Chained(timing, s0, Entry(0, 7, 0) + [Tick(TASK_TIME_LIMIT)], s2, Entry(1, 7, bound), s3);
    assert Distinct([7]);
    assert Reachable(timing, s3);
    assert InGeneration(s3.workers[0].phase) && InGeneration(s3.workers[1].phase);
  }

  /** Timed mutual exclusion, exactly: no reachable state has two workers generating for
      one source if and only if clocks never differ by more than 30 seconds. */
  lemma MutualExclusionIffClocksAgree(bound: nat)
    ensures (forall t :: Reachable(Some(bound), t) ==> Exclusive(t)) <==> bound <= 30 * SECOND
  {
    if bound <= 30 * SECOND {
      forall t | Reachable(Some(bound), t) ensures Exclusive(t) {
        ReachableTimedInv(bound, t);
      }
    } else {
      FastClockTakesOver(bound);
    }
  }
}

/** Concurrent `create_job` calls for one document, statement by statement. The reads of
    a call may be stale by the time it inserts; the two unique indexes and the foreign
    key decide, and a call that trips them looks once more. */
module CreationRace {
  import opened Options
  import opened Lifecycle
  import JobRules
  import Records

  type JobId = nat
  type CallId = nat

  datatype Job = Job(status: JobStatus, key: Option<string>)

  /** Which constraint refused the insert. */
  datatype Cause = KeyTaken(job: JobId) | ActiveElsewhere(job: JobId) | DocumentGone

  /** `RawError` is a database error that no domain error covers. */
  datatype Answer =
    | Created(job: JobId)
    | AlreadyExists(job: JobId)
    | AlreadyRunning(cause: Cause)
    | NotFound
    | InvalidStatus
    | ConfirmationRequired
    | RawError

  datatype Phase =
    | Begun
    | KeyMissed(seen: DocumentStatus)
    | Clear(seen: DocumentStatus)
    | Conflicted(cause: Cause)
    | Returned(answer: Answer)

  datatype Call = Call(key: Option<string>, force: bool, phase: Phase)

  /** `history` keeps the key of every job the document ever had, `makers` the call that
      made it; the jobs in `initial` were there before. */
  datatype State = State(
    alive: bool,
    status: DocumentStatus,
    jobs: map<JobId, Job>,
    calls: map<CallId, Call>,
    initial: set<JobId>,
    history: map<JobId, Option<string>>,
    makers: map<JobId, CallId>)

  /** `found` is the row a query returned, if any. */
  datatype Event =
    | Begin(c: CallId, key: Option<string>, force: bool)
    | ReadKey(c: CallId, found: Option<JobId>)
    | ReadActive(c: CallId, found: Option<JobId>)
    | Insert(c: CallId, id: JobId, byKey: Option<JobId>, byActive: Option<JobId>)
    | Reread(c: CallId, found: Option<JobId>)
    | MoveJob(j: JobId, target: JobStatus)
    | MoveDocument(status: DocumentStatus)
    | DeleteDocument

  predicate HasKey(s: State, key: Option<string>, j: JobId) {
    key.Some? && j in s.jobs && s.jobs[j].key == key
  }

  predicate IsActiveRow(s: State, j: JobId) {
    j in s.jobs && IsActive(s.jobs[j].status)
  }

  ghost predicate FoundByKey(s: State, key: Option<string>, found: Option<JobId>) {
    if found.Some? then HasKey(s, key, found.value) else forall j :: j in s.jobs ==> !HasKey(s, key, j)
  }

  ghost predicate FoundActive(s: State, found: Option<JobId>) {
    if found.Some? then IsActiveRow(s, found.value) else forall j :: j in s.jobs ==> !IsActiveRow(s, j)
  }

  ghost predicate Enabled(s: State, e: Event) {
    match e
    case Begin(c, _, _) => c !in s.calls
    case ReadKey(c, found) => c in s.calls && s.calls[c].phase.Begun? && FoundByKey(s, s.calls[c].key, found)
    case ReadActive(c, found) => c in s.calls && s.calls[c].phase.KeyMissed? && FoundActive(s, found)
    case Insert(c, id, byKey, byActive) =>
      c in s.calls && s.calls[c].phase.Clear? && id !in s.history
      && FoundByKey(s, s.calls[c].key, byKey) && FoundActive(s, byActive)
    case Reread(c, found) => c in s.calls && s.calls[c].phase.Conflicted? && FoundByKey(s, s.calls[c].key, found)
    case MoveJob(j, target) => j in s.jobs && target in JobTargets(s.jobs[j].status)
    case MoveDocument(_) => s.alive
    case DeleteDocument => s.alive
  }

  function At(s: State, c: CallId, phase: Phase): State
    requires c in s.calls
  {
    s.(calls := s.calls[c := s.calls[c].(phase := phase)])
  }

  function AfterInsert(s: State, c: CallId, id: JobId): State
    requires c in s.calls
  {
    var key := s.calls[c].key;
    At(s, c, Returned(Created(id))).(
      status := Draft,
      jobs := s.jobs[id := Job(JobStatus.Pending, key)],
      history := s.history[id := key],
      makers := s.makers[id := c])
  }

  ghost function Step(s: State, e: Event): State
    requires Enabled(s, e)
  {
    match e
    case Begin(c, key, force) => s.(calls := s.calls[c := Call(key, force, Begun)])
    case ReadKey(c, found) =>
      At(s, c,
         if !s.alive then Returned(NotFound)
         else if found.Some? then Returned(AlreadyExists(found.value))
         else if !CanStartAnalysis(s.status) then Returned(InvalidStatus)
         else KeyMissed(s.status))
    case ReadActive(c, found) =>
      var call := s.calls[c];
      At(s, c,
         if found.Some? then
           if HasKey(s, call.key, found.value) then Returned(AlreadyExists(found.value))
           else Returned(AlreadyRunning(ActiveElsewhere(found.value)))
         else if NeedsConfirmation(call.phase.seen) && !call.force then Returned(ConfirmationRequired)
         else Clear(call.phase.seen))
    case Insert(c, id, byKey, byActive) =>
      // The status is written first, unless the document was read as a draft: without the
      // row that UPDATE fails, and so does the INSERT of a key that is too long.
      if (!s.alive && s.calls[c].phase.seen != Draft) || !JobRules.KeyFits(s.calls[c].key)
      then At(s, c, Returned(RawError))
      else if !s.alive then At(s, c, Conflicted(DocumentGone))
      else if byKey.Some? then At(s, c, Conflicted(KeyTaken(byKey.value)))
      else if byActive.Some? then At(s, c, Conflicted(ActiveElsewhere(byActive.value)))
      else AfterInsert(s, c, id)
    case Reread(c, found) =>
      At(s, c,
         if found.Some? then Returned(AlreadyExists(found.value))
         else Returned(AlreadyRunning(s.calls[c].phase.cause)))
    case MoveJob(j, target) => s.(jobs := s.jobs[j := s.jobs[j].(status := target)])
    case MoveDocument(status) => s.(status := status)
    case DeleteDocument => s.(alive := false, jobs := map[])
  }

  ghost predicate Leads(s: State, events: seq<Event>, t: State)
    decreases |events|
  {
    if events == [] then s == t else Enabled(s, events[0]) && Leads(Step(s, events[0]), events[1..], t)
  }

  ghost predicate Unique(s: State) {
    && (forall i, j :: i in s.jobs && j in s.jobs && IsActiveRow(s, i) && IsActiveRow(s, j) ==> i == j)
    && (forall i, j :: i in s.history && j in s.history && s.history[i].Some? && s.history[i] == s.history[j] ==>
          i == j)
  }

  /** A stored document with jobs the unique indexes accept, and no call yet. */
  ghost predicate Fresh(s: State) {
    && s.alive && s.calls == map[] && s.makers == map[] && s.initial == s.jobs.Keys
    && s.history == (map j | j in s.jobs :: s.jobs[j].key)
    && Unique(s)
  }

  ghost predicate JobsOnRecord(s: State) {
    && (forall j :: j in s.jobs ==> j in s.history && s.history[j] == s.jobs[j].key)
    && (s.alive ==> s.history.Keys <= s.jobs.Keys)
    && (!s.alive ==> s.jobs == map[])
    && s.history.Keys == s.initial + s.makers.Keys
    && (forall j :: j in s.makers ==>
          && j !in s.initial && j in s.history && s.makers[j] in s.calls
          && s.calls[s.makers[j]].phase == Returned(Created(j)))
  }

  ghost predicate CauseHolds(s: State, call: Call, cause: Cause) {
    match cause
    case DocumentGone => !s.alive
    case KeyTaken(j) => j in s.history && call.key.Some? && s.history[j] == call.key
    case ActiveElsewhere(j) => j in s.history && !(call.key.Some? && s.history[j] == call.key)
  }

  ghost predicate CallHolds(s: State, c: CallId, call: Call) {
    match call.phase
    case Conflicted(cause) => CauseHolds(s, call, cause)
    case Returned(Created(j)) => j in s.history && j in s.makers && s.makers[j] == c && s.history[j] == call.key
    case Returned(AlreadyExists(j)) => j in s.history && call.key.Some? && s.history[j] == call.key
    case Returned(AlreadyRunning(cause)) => CauseHolds(s, call, cause) && (cause.KeyTaken? ==> !s.alive)
    case Returned(RawError) => !s.alive || !JobRules.KeyFits(call.key)
    case _ => true
  }

  ghost predicate Inv(s: State) {
    Unique(s) && JobsOnRecord(s) && forall c :: c in s.calls ==> CallHolds(s, c, s.calls[c])
  }

  /** Nothing is ever struck from the records, and the document does not come back. */
  ghost predicate Grows(s: State, t: State) {
    && t.initial == s.initial && (t.alive ==> s.alive)
    && (forall j :: j in s.history ==> j in t.history && t.history[j] == s.history[j])
    && (forall j :: j in s.makers ==> j in t.makers && t.makers[j] == s.makers[j])
  }

  /** An insert that goes through. */
  ghost predicate Succeeds(s: State, e: Event)
    requires Enabled(s, e)
  {
    && e.Insert? && s.alive && JobRules.KeyFits(s.calls[e.c].key) && e.byKey.None? && e.byActive.None?
  }

  predicate OfSomeCall(e: Event) {
    e.Begin? || e.ReadKey? || e.ReadActive? || e.Insert? || e.Reread?
  }

  /** Any other statement of a call changes the state of that call and no table. */
  lemma CallStep(s: State, e: Event)
    requires Enabled(s, e) && OfSomeCall(e) && !Succeeds(s, e)
    ensures Step(s, e) == s.(calls := Step(s, e).calls)
    ensures Step(s, e).calls.Keys == s.calls.Keys + {e.c}
    ensures forall c :: c in s.calls && c != e.c ==> Step(s, e).calls[c] == s.calls[c]
    ensures e.c in s.calls ==> !s.calls[e.c].phase.Returned?
  {
    if !e.Begin? {
      assert e.c in s.calls;
    }
  }

  lemma InsertStep(s: State, e: Event)
    requires Enabled(s, e) && Succeeds(s, e)
    ensures Step(s, e) == AfterInsert(s, e.c, e.id)
  {
  }

  /** What is not of any call changes no call and no record. */
  lemma TableStep(s: State, e: Event)
    requires Enabled(s, e) && !OfSomeCall(e)
    ensures var t := Step(s, e);
      t.calls == s.calls && t.history == s.history && t.makers == s.makers && t.initial == s.initial
  {
  }

  lemma StepGrows(s: State, e: Event)
    requires JobsOnRecord(s) && Enabled(s, e)
    ensures Grows(s, Step(s, e))
  {
    if !OfSomeCall(e) {
      TableStep(s, e);
    } else if Succeeds(s, e) {
      InsertStep(s, e);
    } else {
      CallStep(s, e);
    }
  }

  lemma CallsKeepHolding(s: State, t: State, c: CallId, call: Call)
    requires Grows(s, t) && CallHolds(s, c, call)
    ensures CallHolds(t, c, call)
  {
  }

  lemma InsertIsUnique(s: State, e: Event)
    requires Unique(s) && JobsOnRecord(s) && Enabled(s, e) && Succeeds(s, e)
    ensures Unique(Step(s, e))
  {
    var t := AfterInsert(s, e.c, e.id);
    InsertStep(s, e);
    assert forall j :: j in s.jobs ==> !IsActiveRow(s, j);
    forall j | j in s.history && s.calls[e.c].key.Some? ensures s.history[j] != s.calls[e.c].key {
      assert j in s.jobs && !HasKey(s, s.calls[e.c].key, j);
    }
    assert forall j :: IsActiveRow(t, j) ==> j == e.id;
  }

  lemma NoneBecomesActive(s: State, e: Event)
    requires Enabled(s, e) && !OfSomeCall(e)
    ensures forall j :: IsActiveRow(Step(s, e), j) ==> IsActiveRow(s, j)
  {
    if e.MoveJob? {
      ActiveXorTerminal(s.jobs[e.j].status);
    }
  }

  lemma TablesKeepHolding(s: State, e: Event)
    requires Unique(s) && JobsOnRecord(s) && Enabled(s, e)
    ensures Unique(Step(s, e))
  {
    if OfSomeCall(e) {
      if Succeeds(s, e) {
        InsertIsUnique(s, e);
      } else {
        CallStep(s, e);
      }
    } else {
      TableStep(s, e);
      NoneBecomesActive(s, e);
    }
  }

  lemma CallsStayOnRecord(s: State, t: State, c: CallId)
    requires JobsOnRecord(s) && t == s.(calls := t.calls) && s.calls.Keys <= t.calls.Keys
    requires forall x :: x in s.calls && x != c ==> t.calls[x] == s.calls[x]
    requires c in s.calls ==> !s.calls[c].phase.Returned?
    ensures JobsOnRecord(t)
  {
  }

  lemma InsertIsOnRecord(s: State, c: CallId, id: JobId)
    requires JobsOnRecord(s) && s.alive && id !in s.history
    requires c in s.calls && !s.calls[c].phase.Returned?
    ensures JobsOnRecord(AfterInsert(s, c, id))
  {
  }

  lemma RecordsKeepHolding(s: State, e: Event)
    requires JobsOnRecord(s) && Enabled(s, e)
    ensures JobsOnRecord(Step(s, e))
  {
    if !OfSomeCall(e) {
      TableStep(s, e);
    } else if Succeeds(s, e) {
      InsertStep(s, e);
      InsertIsOnRecord(s, e.c, e.id);
    } else {
      CallStep(s, e);
      CallsStayOnRecord(s, Step(s, e), e.c);
    }
  }

  lemma ReadingHolds(s: State, e: Event)
    requires Inv(s) && Enabled(s, e) && (e.ReadKey? || e.ReadActive?)
    ensures CallHolds(Step(s, e), e.c, Step(s, e).calls[e.c])
  {
  }

  lemma InsertHolds(s: State, e: Event)
    requires Inv(s) && Enabled(s, e) && e.Insert?
    ensures CallHolds(Step(s, e), e.c, Step(s, e).calls[e.c])
  {
    if Succeeds(s, e) {
      InsertStep(s, e);
    } else {
      CallStep(s, e);
    }
  }

  lemma RereadHolds(s: State, e: Event)
    requires Inv(s) && Enabled(s, e) && e.Reread?
    ensures CallHolds(Step(s, e), e.c, Step(s, e).calls[e.c])
  {
    assert CallHolds(s, e.c, s.calls[e.c]);
    if s.calls[e.c].phase.cause.KeyTaken? && e.found.None? && s.alive {
      assert HasKey(s, s.calls[e.c].key, s.calls[e.c].phase.cause.job);
      assert false;
    }
  }

  /** A call that takes a step, or begins, holds what it says. */
  lemma TheCallHolds(s: State, e: Event)
    requires Inv(s) && Enabled(s, e) && OfSomeCall(e)
    ensures e.c in Step(s, e).calls && CallHolds(Step(s, e), e.c, Step(s, e).calls[e.c])
  {
    match e
    case Begin(_, _, _) =>
    case ReadKey(_, _) => ReadingHolds(s, e);
    case ReadActive(_, _) => ReadingHolds(s, e);
    case Insert(_, _, _, _) => InsertHolds(s, e);
    case Reread(_, _) => RereadHolds(s, e);
  }

  lemma OtherCallsStay(s: State, e: Event, c: CallId)
    requires Enabled(s, e) && c in Step(s, e).calls && !(OfSomeCall(e) && c == e.c)
    ensures c in s.calls && Step(s, e).calls[c] == s.calls[c]
  {
    if !OfSomeCall(e) {
      TableStep(s, e);
    } else if Succeeds(s, e) {
      InsertStep(s, e);
    } else {
      CallStep(s, e);
    }
  }

  lemma StepInv(s: State, e: Event)
    requires Inv(s) && Enabled(s, e)
    ensures Inv(Step(s, e)) && Step(s, e).initial == s.initial
  {
    var t := Step(s, e);
    StepGrows(s, e);
    TablesKeepHolding(s, e);
    RecordsKeepHolding(s, e);
    forall c | c in t.calls ensures CallHolds(t, c, t.calls[c]) {
      if OfSomeCall(e) && c == e.c {
        TheCallHolds(s, e);
      } else {
        OtherCallsStay(s, e, c);
        CallsKeepHolding(s, t, c, s.calls[c]);
      }
    }
  }

  lemma {:induction false} LeadsInv(s: State, events: seq<Event>, t: State)
    requires Inv(s) && Leads(s, events, t)
    ensures Inv(t) && t.initial == s.initial
    decreases |events|
  {
    if events != [] {
      StepInv(s, events[0]);
      LeadsInv(Step(s, events[0]), events[1..], t);
    }
  }

  predicate ReturnsJob(s: State, c: CallId, key: string, j: JobId) {
    && c in s.calls && s.calls[c].key == Some(key)
    && s.calls[c].phase in {Returned(Created(j)), Returned(AlreadyExists(j))}
  }

  lemma FreshInv(s: State)
    requires Fresh(s)
    ensures Inv(s)
  {
  }

  /** However the calls interleave, all those with one key that return a job return the
      same one, and unless it was there before, exactly one of them created it. */
  lemma SameKeySameJob(s: State, events: seq<Event>, t: State, key: string, b: CallId, c: CallId, i: JobId, j: JobId)
    requires Fresh(s) && Leads(s, events, t) && ReturnsJob(t, b, key, i) && ReturnsJob(t, c, key, j)
    ensures i == j
    ensures t.calls[b].phase == Returned(Created(i)) && t.calls[c].phase == Returned(Created(j)) ==> b == c
    ensures i !in s.jobs ==>
      exists maker :: ReturnsJob(t, maker, key, i) && t.calls[maker].phase == Returned(Created(i))
    ensures i in s.jobs ==> t.calls[b].phase == Returned(AlreadyExists(i))
  {
    FreshInv(s);
    LeadsInv(s, events, t);
    assert CallHolds(t, b, t.calls[b]) && CallHolds(t, c, t.calls[c]);
    if i !in s.jobs {
      var maker := t.makers[i];
      assert CallHolds(t, maker, t.calls[maker]);
      assert ReturnsJob(t, maker, key, i);
    }
  }

  /** A call that loses is told so, never shown a constraint failure: `AlreadyRunning`
      means a job of another key (or of none) was in the way, or the document was gone; a
      raw error means the document was gone or the key is wider than its column;
      `AlreadyExists` is only ever said to a call with a key, of the job that has it. */
  lemma LosersAreTold(s: State, events: seq<Event>, t: State, c: CallId)
    requires Fresh(s) && Leads(s, events, t) && c in t.calls && t.calls[c].phase.Returned?
    ensures var answer := t.calls[c].phase.answer;
      && (answer.AlreadyRunning? && t.alive ==>
            answer.cause.ActiveElsewhere? && answer.cause.job in t.jobs
            && (t.calls[c].key.None? || t.jobs[answer.cause.job].key != t.calls[c].key))
      && (answer.RawError? ==> !t.alive || !JobRules.KeyFits(t.calls[c].key))
      && (answer.AlreadyExists? ==> t.calls[c].key.Some? && (t.alive ==> HasKey(t, t.calls[c].key, answer.job)))
  {
    FreshInv(s);
    LeadsInv(s, events, t);
    assert CallHolds(t, c, t.calls[c]);
  }

  /** Losing the insert to one's own key always ends with that key's job, as long as the
      document is there; losing to anything else ends with `AlreadyRunning` unless one's
      own key turns up in between. */
  lemma SecondLook(s: State, events: seq<Event>, t: State, c: CallId, found: Option<JobId>)
    requires Fresh(s) && Leads(s, events, t) && Enabled(t, Reread(c, found)) && t.alive
    ensures var answer := Step(t, Reread(c, found)).calls[c].phase.answer;
            var cause := t.calls[c].phase.cause;
      && !cause.DocumentGone?
      && (cause.KeyTaken? ==> answer == AlreadyExists(cause.job))
      && (answer == AlreadyRunning(cause) <==> forall j :: j in t.jobs ==> !HasKey(t, t.calls[c].key, j))
  {
    FreshInv(s);
    LeadsInv(s, events, t);
    assert CallHolds(t, c, t.calls[c]);
    var cause := t.calls[c].phase.cause;
    if cause.KeyTaken? {
      assert HasKey(t, t.calls[c].key, cause.job);
    }
  }

  // What every statement makes of its call, answer by answer.

  /** Only this call goes on; no table changes. */
  predicate GoesOn(s: State, t: State, c: CallId, phase: Phase) {
    c in s.calls && t == s.(calls := s.calls[c := Call(s.calls[c].key, s.calls[c].force, phase)])
  }

  /** The first read: a missing document, a job of the key and a document under analysis have
      an answer each, in this order; any other status is remembered. */
  lemma ReadKeyIsExact(s: State, c: CallId, found: Option<JobId>)
    requires Enabled(s, ReadKey(c, found))
    ensures GoesOn(s, Step(s, ReadKey(c, found)), c,
      if !s.alive then Returned(NotFound)
      else
        match found
        case Some(j) => Returned(AlreadyExists(j))
        case None => if s.status == InProgress then Returned(InvalidStatus) else KeyMissed(s.status))
  {
  }

  /** The second read: an active job is the key's own or in the way, and a document that was
      read as ready needs `force`. */
  lemma ReadActiveIsExact(s: State, c: CallId, found: Option<JobId>)
    requires Enabled(s, ReadActive(c, found))
    ensures var call := s.calls[c];
      GoesOn(s, Step(s, ReadActive(c, found)), c,
        match found
        case Some(j) =>
          if call.key.Some? && s.jobs[j].key == call.key then Returned(AlreadyExists(j))
          else Returned(AlreadyRunning(ActiveElsewhere(j)))
        case None =>
          if call.phase.seen == Ready && !call.force then Returned(ConfirmationRequired) else Clear(call.phase.seen))
  {
  }

  /** The insert: without the document, or with a key of more than 128 characters, it fails as
      told above; a taken key and an active job lose it; otherwise there is one more pending
      job of this call, and the document is a draft. */
  lemma InsertIsExact(s: State, c: CallId, id: JobId, byKey: Option<JobId>, byActive: Option<JobId>)
    requires Enabled(s, Insert(c, id, byKey, byActive))
    ensures var t, call := Step(s, Insert(c, id, byKey, byActive)), s.calls[c];
      if (call.key.Some? && |call.key.value| > 128) || (!s.alive && call.phase.seen != Draft) then
        GoesOn(s, t, c, Returned(RawError))
      else if !s.alive then GoesOn(s, t, c, Conflicted(DocumentGone))
      else if byKey.Some? then GoesOn(s, t, c, Conflicted(KeyTaken(byKey.value)))
      else if byActive.Some? then GoesOn(s, t, c, Conflicted(ActiveElsewhere(byActive.value)))
      else
        && GoesOn(s, t.(status := s.status, jobs := s.jobs, history := s.history, makers := s.makers), c,
                  Returned(Created(id)))
        && t.status == Draft && t.jobs == s.jobs[id := Job(JobStatus.Pending, call.key)]
        && t.history == s.history[id := call.key] && t.makers == s.makers[id := c]
  {
  }

  /** The second look: the key's job, if there is one by now, or what was in the way. */
  lemma RereadIsExact(s: State, c: CallId, found: Option<JobId>)
    requires Enabled(s, Reread(c, found))
    ensures GoesOn(s, Step(s, Reread(c, found)), c,
      match found
      case Some(j) => Returned(AlreadyExists(j))
      case None => Returned(AlreadyRunning(s.calls[c].phase.cause)))
  {
  }

  /** A stored document without jobs, and one call on it. */
  function OneCall(status: DocumentStatus, alive: bool, phase: Phase): State {
    State(alive, status, map[], map[0 := Call(None, false, phase)], {}, map[], map[])
  }

  function NoCall(status: DocumentStatus): State {
    State(true, status, map[], map[], {}, map[], map[])
  }

  lemma NoCallIsFresh(status: DocumentStatus)
    ensures Fresh(NoCall(status))
  {
  }

  /** A keyless call without rivals, up to the insert, under which the document goes. */
  const TO_INSERT := [Begin(0, None, false), ReadKey(0, None), ReadActive(0, None), DeleteDocument]

  lemma CallReachesInsert(status: DocumentStatus)
    requires status in {Draft, AwaitingApproval}
    ensures Leads(NoCall(status), TO_INSERT, OneCall(status, false, Clear(status)))
  {
    var e0, e1, e2, e3 := Begin(0, None, false), ReadKey(0, None), ReadActive(0, None), DeleteDocument;
    var a, b := OneCall(status, true, Begun), OneCall(status, true, KeyMissed(status));
    var c, d := OneCall(status, true, Clear(status)), OneCall(status, false, Clear(status));
    assert [e3][1..] == [] && [e2, e3][1..] == [e3] && [e1, e2, e3][1..] == [e2, e3] && TO_INSERT[1..] == [e1, e2, e3];
    assert Enabled(c, e3) && Step(c, e3) == d;
    assert Enabled(b, e2) && Step(b, e2) == c;
    assert Enabled(a, e1) && Step(a, e1) == b;
    assert Step(NoCall(status), e0) == a;
    assert Leads(c, [e3], d);
    assert Leads(b, [e2, e3], d);
    assert Leads(a, [e1, e2, e3], d);
  }

  /** The other half is a defect: a draft deleted under the call trips the foreign key, and
      the caller hears that an analysis is running where no job ever was. */
  lemma DeletedDocumentReadsAsRunning()
    ensures Fresh(NoCall(Draft))
    ensures exists s, t ::
      && Leads(NoCall(Draft), TO_INSERT, s) && Leads(s, [Insert(0, 0, None, None), Reread(0, None)], t)
      && t.history == map[] && 0 in t.calls && t.calls[0].phase == Returned(AlreadyRunning(DocumentGone))
  {
    NoCallIsFresh(Draft);
    CallReachesInsert(Draft);
    var s := OneCall(Draft, false, Clear(Draft));
    var e0, e1 := Insert(0, 0, None, None), Reread(0, None);
    var a := OneCall(Draft, false, Conflicted(DocumentGone));
    var t := OneCall(Draft, false, Returned(AlreadyRunning(DocumentGone)));
    assert [e0, e1][1..] == [e1] && [e1][1..] == [];
    assert Step(a, e1) == t && Step(s, e0) == a;
    assert Leads(a, [e1], t);
    assert Leads(s, [e0, e1], t);
  }

  /** What an insert answers without a document: exactly a call that read a draft, with a key
      that fits, is told that an analysis is running; any other sees the raw error. */
  lemma InsertWithoutDocument(s: State, c: CallId, id: JobId, found: Option<JobId>)
    requires Inv(s) && !s.alive && Enabled(s, Insert(c, id, None, None))
    requires Enabled(Step(s, Insert(c, id, None, None)), Reread(c, found))
      || Step(s, Insert(c, id, None, None)).calls[c].phase.Returned?
    ensures var call, after := s.calls[c], Step(s, Insert(c, id, None, None));
      if call.phase.seen == Draft && JobRules.KeyFits(call.key)
      then
        && Enabled(after, Reread(c, found))
        && Step(after, Reread(c, found)).calls[c].phase == Returned(AlreadyRunning(DocumentGone))
      else after.calls[c].phase == Returned(RawError)
  {
    assert s.jobs == map[];
  }

  /** The raw error is real: the document is deleted after it was read as reviewed. */
  lemma DeletedReviewIsRawError()
    ensures Fresh(NoCall(AwaitingApproval))
    ensures exists s, t ::
      && Leads(NoCall(AwaitingApproval), TO_INSERT, s) && Leads(s, [Insert(0, 0, None, None)], t)
      && 0 in t.calls && t.calls[0].phase == Returned(RawError) && t.calls[0].key == None
  {
    NoCallIsFresh(AwaitingApproval);
    CallReachesInsert(AwaitingApproval);
    var s := OneCall(AwaitingApproval, false, Clear(AwaitingApproval));
    var t := OneCall(AwaitingApproval, false, Returned(RawError));
    var e := Insert(0, 0, None, None);
    assert [e][1..] == [];
    assert Step(s, e) == t;
    assert Leads(s, [e], t);
  }

  // ---------------------------------------------------------------------------
  // One call alone is `CreateJob`
  // ---------------------------------------------------------------------------

  function JobsOf(db: Records.Database, d: Records.DocumentId): map<JobId, Job> {
    map j | j in db.jobs && db.jobs[j].document == d :: Job(db.jobs[j].status, db.jobs[j].key)
  }

  /** The tables as the database has them for one document. */
  ghost predicate Shows(s: State, db: Records.Database, d: Records.DocumentId) {
    s.alive && d in db.documents && s.status == db.documents[d].status && s.jobs == JobsOf(db, d)
  }

  predicate Matches(answer: Answer, out: Records.Outcome<JobRules.Creation>) {
    match out
    case Done(_, Created(id)) => answer == Created(id)
    case Done(_, Existing(jobs)) => answer.AlreadyExists? && answer.job in jobs
    case Refused(AlreadyRunning) => answer.AlreadyRunning?
    case Refused(InvalidStatus) => answer == InvalidStatus
    case Refused(ConfirmationRequired) => answer == ConfirmationRequired
    case Refused(StorageFailed) => answer == RawError
    case _ => false
  }

  /** A step of this call, and of nobody else. */
  predicate OfCall(e: Event, c: CallId, key: Option<string>, force: bool) {
    match e
    case Begin(x, k, f) => x == c && k == key && f == force
    case ReadKey(x, _) => x == c
    case ReadActive(x, _) => x == c
    case Insert(x, _, _, _) => x == c
    case Reread(x, _) => x == c
    case _ => false
  }

  function Ruled(
    db: Records.Database, p: Records.ProjectId, d: Records.DocumentId, call: Call, answer: Answer)
    : Records.Outcome<JobRules.Creation>
  {
    JobRules.CreateJob(db, p, d, call.key, call.force, if answer.Created? then answer.job else 0)
  }

  predicate NoKeyYet(db: Records.Database, d: Records.DocumentId, key: Option<string>) {
    key.Some? ==> JobRules.WithKey(db, d, key.value) == {}
  }

  ghost predicate AloneSoFar(
    s: State, db: Records.Database, p: Records.ProjectId, d: Records.DocumentId,
    c: CallId, key: Option<string>, force: bool)
  {
    if c !in s.calls then Shows(s, db, d)
    else
      && s.calls[c].key == key && s.calls[c].force == force
      && (!s.calls[c].phase.Returned? ==> Shows(s, db, d))
      && match s.calls[c].phase
         case Begun => true
         case KeyMissed(seen) => NoKeyYet(db, d, key) && seen == s.status && CanStartAnalysis(seen)
         case Clear(seen) =>
           && NoKeyYet(db, d, key) && seen == s.status && CanStartAnalysis(seen)
           && JobRules.ActiveJobs(db, d) == {} && (NeedsConfirmation(seen) ==> force)
         case Conflicted(_) => false
         case Returned(answer) =>
           && Matches(answer, Ruled(db, p, d, s.calls[c], answer))
           && Shows(s, Ruled(db, p, d, s.calls[c], answer).After(db), d)
  }

  lemma KeyRead(s: State, db: Records.Database, d: Records.DocumentId, key: Option<string>, found: Option<JobId>)
    requires Shows(s, db, d) && FoundByKey(s, key, found)
    ensures found.Some? ==> key.Some? && found.value in JobRules.WithKey(db, d, key.value)
    ensures found.None? ==> NoKeyYet(db, d, key)
  {
    if found.None? && key.Some? {
      forall j | j in JobRules.WithKey(db, d, key.value) ensures false {
        assert HasKey(s, key, j);
      }
    }
  }

  lemma NoneHasKey(s: State, db: Records.Database, d: Records.DocumentId, key: Option<string>, j: JobId)
    requires Shows(s, db, d) && NoKeyYet(db, d, key)
    ensures !HasKey(s, key, j)
  {
    if key.Some? {
      assert j !in JobRules.WithKey(db, d, key.value);
    }
  }

  lemma ActiveRead(s: State, db: Records.Database, d: Records.DocumentId, found: Option<JobId>)
    requires Shows(s, db, d) && FoundActive(s, found)
    ensures found.Some? <==> JobRules.ActiveJobs(db, d) != {}
  {
    if found.Some? {
      assert found.value in JobRules.ActiveJobs(db, d);
    } else {
      forall j | j in JobRules.ActiveJobs(db, d) ensures false {
        assert IsActiveRow(s, j);
      }
    }
  }

  lemma AloneReadsKey(
    s: State, e: Event, db: Records.Database, p: Records.ProjectId, d: Records.DocumentId,
    c: CallId, key: Option<string>, force: bool)
    requires db.InProject(d, p) && AloneSoFar(s, db, p, d, c, key, force)
    requires Enabled(s, e) && OfCall(e, c, key, force) && e.ReadKey?
    ensures AloneSoFar(Step(s, e), db, p, d, c, key, force)
  {
    KeyRead(s, db, d, key, e.found);
  }

  lemma AloneReadsActive(
    s: State, e: Event, db: Records.Database, p: Records.ProjectId, d: Records.DocumentId,
    c: CallId, key: Option<string>, force: bool)
    requires db.InProject(d, p) && AloneSoFar(s, db, p, d, c, key, force)
    requires Enabled(s, e) && OfCall(e, c, key, force) && e.ReadActive?
    ensures AloneSoFar(Step(s, e), db, p, d, c, key, force)
  {
    ActiveRead(s, db, d, e.found);
    if e.found.Some? {
      NoneHasKey(s, db, d, key, e.found.value);
    }
  }

  /** Behind the checks only the width of the key is left to decide. */
  lemma ClearIsRuled(
    s: State, db: Records.Database, p: Records.ProjectId, d: Records.DocumentId,
    c: CallId, key: Option<string>, force: bool, id: JobId)
    requires db.InProject(d, p) && AloneSoFar(s, db, p, d, c, key, force) && c in s.calls && s.calls[c].phase.Clear?
    ensures JobRules.CreateJob(db, p, d, key, force, id) ==
      if JobRules.KeyFits(key) then Records.Done(JobRules.Inserted(db, d, key, id), JobRules.Created(id))
      else Records.Refused(Records.StorageFailed)
  {
  }

  lemma InsertedShows(s: State, db: Records.Database, d: Records.DocumentId, c: CallId, id: JobId)
    requires Shows(s, db, d) && c in s.calls
    ensures Shows(AfterInsert(s, c, id), JobRules.Inserted(db, d, s.calls[c].key, id), d)
  {
    var key := s.calls[c].key;
    assert JobsOf(JobRules.Inserted(db, d, key, id), d) == s.jobs[id := Job(JobStatus.Pending, key)];
  }

  lemma AloneInserts(
    s: State, e: Event, db: Records.Database, p: Records.ProjectId, d: Records.DocumentId,
    c: CallId, key: Option<string>, force: bool)
    requires db.InProject(d, p) && AloneSoFar(s, db, p, d, c, key, force)
    requires Enabled(s, e) && OfCall(e, c, key, force) && e.Insert?
    ensures AloneSoFar(Step(s, e), db, p, d, c, key, force)
  {
    KeyRead(s, db, d, key, e.byKey);
    ActiveRead(s, db, d, e.byActive);
    ClearIsRuled(s, db, p, d, c, key, force, e.id);
    if JobRules.KeyFits(key) {
      InsertStep(s, e);
      InsertedShows(s, db, d, c, e.id);
    }
  }

  lemma AloneStep(
    s: State, e: Event, db: Records.Database, p: Records.ProjectId, d: Records.DocumentId,
    c: CallId, key: Option<string>, force: bool)
    requires db.InProject(d, p) && AloneSoFar(s, db, p, d, c, key, force)
    requires Enabled(s, e) && OfCall(e, c, key, force)
    ensures AloneSoFar(Step(s, e), db, p, d, c, key, force)
  {
    match e
    case Begin(_, _, _) =>
    case ReadKey(_, _) => AloneReadsKey(s, e, db, p, d, c, key, force);
    case ReadActive(_, _) => AloneReadsActive(s, e, db, p, d, c, key, force);
    case Insert(_, _, _, _) => AloneInserts(s, e, db, p, d, c, key, force);
    case Reread(_, _) =>
  }

  /** Without interference the statements of a call are one transaction: whatever a lone
      call answers, and whatever it leaves in the tables, is what `CreateJob` says. */
  lemma {:induction false} AloneIsCreateJob(
    s: State, events: seq<Event>, t: State,
    db: Records.Database, p: Records.ProjectId, d: Records.DocumentId, c: CallId, key: Option<string>, force: bool)
    requires db.InProject(d, p) && AloneSoFar(s, db, p, d, c, key, force) && Leads(s, events, t)
    requires forall i :: 0 <= i < |events| ==> OfCall(events[i], c, key, force)
    ensures AloneSoFar(t, db, p, d, c, key, force)
    ensures c in t.calls && t.calls[c].phase.Returned? ==>
      var answer := t.calls[c].phase.answer;
      Matches(answer, Ruled(db, p, d, t.calls[c], answer)) && Shows(t, Ruled(db, p, d, t.calls[c], answer).After(db), d)
    decreases |events|
  {
    if events != [] {
      AloneStep(s, events[0], db, p, d, c, key, force);
      AloneIsCreateJob(Step(s, events[0]), events[1..], t, db, p, d, c, key, force);
    }
  }
}

/** What holds over every run of the review system, and what one review call commits. */
module ReviewTheorems {
  import opened Options
  import opened Lifecycle
  import opened Records
  import opened JobRules
  import opened ReviewRules
  import opened ReviewSystem

  lemma ReachableIsSound(s: System)
    requires Reachable(s)
    ensures Inv(s)
  {
    var events :| Leads(EMPTY, events, s);
    LeadsInv(EMPTY, events, s);
  }

  /** In every reachable state a document has at most one active job, that job is its
      current one, and the document's status is told by its current job. */
  lemma JobDocumentCoupling(s: System, d: DocumentId)
    requires Reachable(s) && d in s.db.documents
    ensures forall i: JobId, j: JobId :: s.db.ActiveOn(i, d) && s.db.ActiveOn(j, d) ==> i == j
    ensures forall j: JobId :: s.db.ActiveOn(j, d) ==> s.db.documents[d].currentJob == Some(j)
    ensures s.db.documents[d].currentJob.Some? ==> s.db.documents[d].currentJob.value in s.db.jobs
    ensures var current := s.db.documents[d].currentJob;
            var status := s.db.documents[d].status;
      && (status == InProgress <==>
            current.Some? && s.db.jobs[current.value].status in {JobStatus.Dispatched, JobStatus.Processing})
      && (status == Draft <==>
            || current.None?
            || s.db.jobs[current.value].status in {JobStatus.Pending, JobStatus.Failed, JobStatus.Cancelled})
      && (status in {AwaitingApproval, Ready} <==>
            current.Some? && s.db.jobs[current.value].status in {Success, PartialSuccess})
  {
    ReachableIsSound(s);
    assert Coupled(s.db, d);
  }

  /** A worker only ever starts a job that was dispatched, and finalisation never meets a
      transition its tables forbid. */
  lemma WorkersMeetDispatchedJobs(s: System, j: JobId, target: JobStatus)
    requires Reachable(s) && j in s.queued
    requires target in {JobStatus.Success, JobStatus.PartialSuccess, JobStatus.Failed}
    ensures j in s.db.jobs && MarkProcessing(s.db, j) != s.db ==> s.db.jobs[j].status == JobStatus.Dispatched
    ensures FinalizeJob(s.db, j, target).Done?
    ensures s.db.ActiveOn(j, if j in s.db.jobs then s.db.jobs[j].document else 0) ==>
      FinalizeJob(s.db, j, target).db.jobs[j].status == target
  {
    ReachableIsSound(s);
    FinalizeIsSound(s.db, j, target);
    if j in s.db.jobs {
      ActiveXorTerminal(s.db.jobs[j].status);
      assert s.db.SetJob(j, s.db.jobs[j].(status := s.db.jobs[j].status)) == s.db;
    }
  }

  // The transition tables never surprise a caller: in a reachable state each operation
  // succeeds exactly under its own guards.

  lemma DispatchSucceedsExactly(s: System, j: JobId)
    requires Reachable(s)
    ensures var out := DispatchJob(s.db, j);
      && (out.Done? <==> j in s.db.jobs && s.db.jobs[j].status.Pending?)
      && (out.Done? ==>
            && out.db.jobs == s.db.jobs[j := s.db.jobs[j].(status := JobStatus.Dispatched)]
            && out.db.documents[s.db.jobs[j].document].status == InProgress)
  {
    ReachableIsSound(s);
    if j in s.db.jobs && s.db.jobs[j].status.Pending? {
      assert Coupled(s.db, s.db.jobs[j].document);
    }
  }

  lemma CancelSucceedsExactly(s: System, p: ProjectId, d: DocumentId, j: JobId)
    requires Reachable(s)
    ensures var out := CancelJob(s.db, p, d, j);
      && (out.Done? <==>
            && s.db.InProject(d, p) && j in s.db.jobs && s.db.jobs[j].document == d
            && (s.db.ActiveOn(j, d) || s.db.jobs[j].status.Cancelled?))
      && (out.Done? ==> out.db.jobs == s.db.jobs[j := s.db.jobs[j].(status := JobStatus.Cancelled)])
      && (out.Done? && s.db.ActiveOn(j, d) ==> out.db.documents[d].status == Draft)
  {
    ReachableIsSound(s);
    if s.db.ActiveOn(j, d) {
      assert Coupled(s.db, d);
    }
  }

  lemma ResetSucceedsExactly(s: System, p: ProjectId, d: DocumentId)
    requires Reachable(s)
    ensures var out := ResetAnalysis(s.db, p, d);
      && (out.Done? <==> s.db.InProject(d, p) && s.db.documents[d].status in {AwaitingApproval, Ready})
      && (out.Done? ==>
            && out.db.documents[d] == s.db.documents[d].(status := AwaitingApproval)
            && out.db.jobs == s.db.jobs && out.db.suggestions.Keys == s.db.suggestions.Keys
            && (forall sid :: sid in s.db.suggestions ==>
                  out.db.suggestions[sid] ==
                    if s.db.documents[d].currentJob == Some(s.db.suggestions[sid].job)
                    then Undecided(s.db.suggestions[sid]) else s.db.suggestions[sid]))
  {
    ReachableIsSound(s);
    if s.db.InProject(d, p) {
      assert Coupled(s.db, d);
    }
  }

  lemma OneJobPerKey(db: Database, d: DocumentId, key: string)
    requires Sound(db) && WithKey(db, d, key) != {}
    ensures |WithKey(db, d, key)| == 1
  {
    var i :| i in WithKey(db, d, key);
    forall j | j in WithKey(db, d, key) ensures j == i {
      assert SameKey(db.jobs[i], db.jobs[j]);
    }
    assert WithKey(db, d, key) == {i};
  }

  lemma CreateSucceedsExactly(s: System, p: ProjectId, d: DocumentId, key: Option<string>, force: bool, id: JobId)
    requires Reachable(s) && id !in s.used.jobs
    ensures var out := CreateJob(s.db, p, d, key, force, id);
            var known := d in s.db.documents && key.Some? && WithKey(s.db, d, key.value) != {};
      && (out.Done? <==> s.db.InProject(d, p) && (known || (MayCreate(s.db, d, force) && KeyFits(key))))
      && (out.Done? && known ==> out.db == s.db && out.answer.Existing? && |out.answer.jobs| == 1)
      && (out.Done? && !known ==>
            && out.answer == Created(id) && out.db.jobs == s.db.jobs[id := Job(d, JobStatus.Pending, key)]
            && out.db.documents == s.db.documents[d := s.db.documents[d].(status := Draft, currentJob := Some(id))])
  {
    ReachableIsSound(s);
    if s.db.InProject(d, p) {
      NoneActive(s.db, d);
      if key.Some? && WithKey(s.db, d, key.value) != {} {
        OneJobPerKey(s.db, d, key.value);
      }
    }
  }

  lemma ReviewsFollowTheTable(db: Database, e: Event, d: DocumentId)
    requires IsReview(e) && d in db.documents && d in NewDatabase(db, e).documents
    ensures var before, after := db.documents[d].status, NewDatabase(db, e).documents[d].status;
      after == before || after in DocumentTargets(before)
  {
    if e.Patch? && PatchSuggestions(db, e.p, e.d, e.user, e.decision, e.pick, e.now).Done? && e.decision.Pending? {
      var out := PatchToPending(db, e.d, db.documents[e.d].currentJob.value, e.pick);
      assert NewDatabase(db, e) == out.db;
    }
  }

  lemma ServicesFollowTheTable(db: Database, e: Event, d: DocumentId)
    requires !IsReview(e) && !e.AddDocument? && d in db.documents && d in NewDatabase(db, e).documents
    ensures var before, after := db.documents[d].status, NewDatabase(db, e).documents[d].status;
      after == before || after in DocumentTargets(before)
  {
    match e
    case Create(_, _, _, _, _) =>
    case Dispatch(_) =>
    case QueueFails(_) =>
    case Cancel(_, _, _) =>
    case ResetAll(_, _) =>
    case Finalize(_, _) =>
    case _ =>
  }

  /** Every change of a document's status is one its table allows, also where the code sets
      the status without asking the table. */
  lemma DocumentsFollowTheTable(s: System, e: Event, d: DocumentId)
    requires Reachable(s) && Enabled(s, e) && d in s.db.documents && d in Step(s, e).db.documents
    ensures var before, after := s.db.documents[d].status, Step(s, e).db.documents[d].status;
      after == before || after in DocumentTargets(before)
  {
    ReachableIsSound(s);
    if IsReview(e) {
      ReviewsFollowTheTable(s.db, e, d);
    } else if !e.AddDocument? {
      ServicesFollowTheTable(s.db, e, d);
    }
  }

  /** Review safety over whole runs. */
  lemma ReviewSafety(s: System)
    requires Reachable(s)
    ensures forall d :: d in s.db.documents && s.db.documents[d].status == Ready ==>
      && s.db.documents[d].currentJob.Some?
      && s.db.OfJob(s.db.documents[d].currentJob.value, SuggestionStatus.Pending) == {}
    ensures forall sid :: sid in s.db.suggestions ==> RowSound(s.db.suggestions[sid])
    ensures forall j, sid :: j in s.db.jobs && IsActive(s.db.jobs[j].status) && sid in s.db.suggestions ==>
      (s.db.suggestions[sid].job == j ==> s.db.suggestions[sid].status.Pending?)
  {
    ReachableIsSound(s);
    forall d | d in s.db.documents && s.db.documents[d].status == Ready
      ensures s.db.documents[d].currentJob.Some?
      ensures s.db.OfJob(s.db.documents[d].currentJob.value, SuggestionStatus.Pending) == {}
    {
      assert Coupled(s.db, d);
      var j := s.db.documents[d].currentJob.value;
      assert forall sid :: sid in s.db.suggestions && s.db.suggestions[sid].job == j ==>
        s.db.documents[s.db.suggestions[sid].document] == s.db.documents[d];
    }
  }

  // ---------------------------------------------------------------------------
  // Rows of earlier jobs
  // ---------------------------------------------------------------------------

  /** The row is gone, or still what it was and not of a current job. */
  ghost predicate Frozen(s: System, sid: SuggestionId, row: Suggestion) {
    && sid in s.used.suggestions && row.job in s.used.jobs
    && (forall d :: d in s.db.documents ==> s.db.documents[d].currentJob != Some(row.job))
    && (sid in s.db.suggestions ==> s.db.suggestions[sid] == row)
  }

  lemma ReviewsKeepCurrentJobs(db: Database, e: Event)
    requires IsReview(e)
    ensures var after := NewDatabase(db, e).documents;
      forall d :: d in after ==> d in db.documents && after[d].currentJob == db.documents[d].currentJob
  {
  }

  lemma OnlyCreationMakesCurrent(db: Database, e: Event)
    requires !e.AddDocument?
    ensures var after := NewDatabase(db, e).documents;
      && after.Keys <= db.documents.Keys
      && forall d :: d in after && after[d].currentJob != db.documents[d].currentJob ==>
           e.Create? && d == e.d && after[d].currentJob == Some(e.id)
  {
    if IsReview(e) {
      ReviewsKeepCurrentJobs(db, e);
    } else {
      match e
      case Create(_, _, _, _, _) =>
      case Dispatch(_) =>
      case QueueFails(_) =>
      case Cancel(_, _, _) =>
      case ResetAll(_, _) =>
      case Finalize(_, _) =>
      case _ =>
    }
  }

  lemma CurrentJobsAreNew(s: System, e: Event, j: JobId)
    requires Inv(s) && Enabled(s, e) && j in s.used.jobs
    requires forall d :: d in s.db.documents ==> s.db.documents[d].currentJob != Some(j)
    ensures var after := Step(s, e).db.documents;
      forall d :: d in after ==> after[d].currentJob != Some(j)
  {
    if !e.AddDocument? {
      OnlyCreationMakesCurrent(s.db, e);
    }
  }

  /** A review call writes only rows of the current job of its document. */
  lemma ReviewsWriteCurrentRows(db: Database, e: Event, sid: SuggestionId)
    requires (IsReview(e) || e.ResetAll?) && sid in db.suggestions
    requires e.d in db.documents ==> db.documents[e.d].currentJob != Some(db.suggestions[sid].job)
    ensures sid in NewDatabase(db, e).suggestions && NewDatabase(db, e).suggestions[sid] == db.suggestions[sid]
  {
    match e {
      case Patch(p, d, user, decision, pick, now) =>
        if PatchSuggestions(db, p, d, user, decision, pick, now).Done? {
          var j := db.documents[d].currentJob.value;
          assert db.suggestions[sid].job != j;
          if decision.Pending? {
            var out := PatchToPending(db, d, j, pick);
            assert sid !in out.answer;
          }
        }
      case _ =>
    }
  }

  /** The services write rows of suggestions nowhere else, and deletions only take them away. */
  lemma OthersWriteNoRows(db: Database, e: Event, sid: SuggestionId)
    requires !IsReview(e) && !e.ResetAll? && !e.Store?
    requires sid in db.suggestions && sid in NewDatabase(db, e).suggestions
    ensures NewDatabase(db, e).suggestions[sid] == db.suggestions[sid]
  {
    match e
    case Create(_, _, _, _, _) =>
    case Dispatch(_) =>
    case QueueFails(_) =>
    case Cancel(_, _, _) =>
    case Finalize(_, _) =>
    case Delete(_, _) =>
    case Drop(_) =>
    case DropProject(_) =>
    case _ =>
  }

  lemma StaleRowsUntouched(s: System, e: Event, sid: SuggestionId)
    requires Inv(s) && Enabled(s, e) && sid in s.db.suggestions && sid in Step(s, e).db.suggestions
    requires forall d :: d in s.db.documents ==> s.db.documents[d].currentJob != Some(s.db.suggestions[sid].job)
    ensures Step(s, e).db.suggestions[sid] == s.db.suggestions[sid]
  {
    if IsReview(e) || e.ResetAll? {
      ReviewsWriteCurrentRows(s.db, e, sid);
    } else if !e.Store? {
      OthersWriteNoRows(s.db, e, sid);
    }
  }

  lemma {:induction false} FrozenStays(s: System, events: seq<Event>, t: System, sid: SuggestionId, row: Suggestion)
    requires Inv(s) && Leads(s, events, t) && Frozen(s, sid, row)
    ensures Frozen(t, sid, row)
    decreases |events|
  {
    if events != [] {
      var e := events[0];
      StepInv(s, e);
      CurrentJobsAreNew(s, e, row.job);
      NewRowsAreRecorded(s.db, e);
      if sid in s.db.suggestions && sid in Step(s, e).db.suggestions {
        StaleRowsUntouched(s, e, sid);
      }
      FrozenStays(Step(s, e), events[1..], t, sid, row);
    }
  }

  /** Suggestions of an earlier job are never changed again: not by a review, not by a
      reset, not by a worker, however the run goes on. */
  lemma EarlierJobsAreNeverTouched(s: System, events: seq<Event>, t: System, sid: SuggestionId)
    requires Reachable(s) && Leads(s, events, t) && sid in s.db.suggestions && sid in t.db.suggestions
    requires s.db.suggestions[sid].document in s.db.documents
    requires s.db.documents[s.db.suggestions[sid].document].currentJob != Some(s.db.suggestions[sid].job)
    ensures t.db.suggestions[sid] == s.db.suggestions[sid]
  {
    ReachableIsSound(s);
    FrozenStays(s, events, t, sid, s.db.suggestions[sid]);
  }

  // ---------------------------------------------------------------------------
  // Saving a review
  // ---------------------------------------------------------------------------

  ghost predicate PairwiseDistinct<T>(items: seq<T>) {
    forall i, j :: 0 <= i < j < |items| ==> items[i] != items[j]
  }

  function Ids(decisions: seq<Decision>): seq<SuggestionId> {
    seq(|decisions|, i requires 0 <= i < |decisions| => decisions[i].suggestion)
  }

  /** A list has as many members as entries exactly when it repeats nothing. */
  lemma {:induction false} MembersOf(ids: seq<SuggestionId>)
    ensures |Distinct(ids)| <= |ids|
    ensures |Distinct(ids)| == |ids| <==> PairwiseDistinct(ids)
  {
    if ids != [] {
      var last, front := ids[|ids| - 1], ids[..|ids| - 1];
      MembersOf(front);
      assert Distinct(ids) == Distinct(front) + {last} by {
        forall x | x in Distinct(ids) ensures x in Distinct(front) + {last} {
          var i :| 0 <= i < |ids| && ids[i] == x;
          assert i < |front| ==> front[i] == x;
        }
        forall x | x in Distinct(front) ensures x in Distinct(ids) {
          var i :| 0 <= i < |front| && front[i] == x;
          assert ids[i] == x;
        }
        assert ids[|ids| - 1] in Distinct(ids);
      }
      if last in Distinct(front) {
        var i :| 0 <= i < |front| && front[i] == last;
        assert ids[i] == ids[|ids| - 1];
      } else if PairwiseDistinct(front) {
        forall i, j | 0 <= i < j < |ids| ensures ids[i] != ids[j] {
          assert ids[i] == front[i] && front[i] in Distinct(front);
        }
      } else {
        var i, j :| 0 <= i < j < |front| && front[i] == front[j];
        assert ids[i] == ids[j];
      }
    }
  }

  ghost predicate PendingRow(db: Database, d: DocumentId, j: JobId, sid: SuggestionId) {
    && sid in db.suggestions && db.suggestions[sid].document == d
    && db.suggestions[sid].job == j && db.suggestions[sid].status.Pending?
  }

  /** "Rows updated = decisions given" says: no id twice, every one of them pending and
      of the current job. */
  lemma CountMatchesExactly(db: Database, d: DocumentId, j: JobId, decisions: seq<Decision>)
    ensures |Decidable(db, d, j, decisions)| == |decisions| <==>
      && PairwiseDistinct(Ids(decisions))
      && forall i :: 0 <= i < |decisions| ==> PendingRow(db, d, j, decisions[i].suggestion)
  {
    var ids, rows := Ids(decisions), Decidable(db, d, j, decisions);
    MembersOf(ids);
    var chosen := Distinct(ids);
    assert chosen == Chosen(decisions) by {
      forall x | x in chosen ensures x in Chosen(decisions) {
        var i :| 0 <= i < |ids| && ids[i] == x;
        assert decisions[i].suggestion == x;
      }
      forall x | x in Chosen(decisions) ensures x in chosen {
        var i :| 0 <= i < |decisions| && decisions[i].suggestion == x;
        assert ids[i] == x;
      }
    }
    assert rows <= chosen;
    if |rows| == |decisions| {
      SameSize(rows, chosen);
    }
    if forall i :: 0 <= i < |decisions| ==> PendingRow(db, d, j, decisions[i].suggestion) {
      assert rows == chosen;
    } else {
      var i :| 0 <= i < |decisions| && !PendingRow(db, d, j, decisions[i].suggestion);
      assert decisions[i].suggestion in chosen && decisions[i].suggestion !in rows;
    }
  }

  /** What the rows are after the decisions of a save. */
  ghost predicate RowsSaved(
    before: Database, after: Database, user: UserId, now: int,
    accepted: seq<SuggestionId>, rejected: seq<SuggestionId>, edits: map<SuggestionId, string>)
  {
    && after.suggestions.Keys == before.suggestions.Keys
    && forall sid :: sid in before.suggestions ==>
         var row := before.suggestions[sid];
         after.suggestions[sid] ==
           if sid in accepted then Decided(row, true, if sid in edits then Some(edits[sid]) else None, user, now)
           else if sid in rejected then Decided(row, false, None, user, now)
           else row
  }

  lemma DecisionsOf(accepted: seq<SuggestionId>, rejected: seq<SuggestionId>, edits: map<SuggestionId, string>)
    ensures var decisions := Decisions(accepted, rejected, edits);
      && Ids(decisions) == accepted + rejected
      && (forall sid :: AcceptedIn(decisions, sid) <==> sid in accepted)
      && (forall sid :: sid in Chosen(decisions) <==> sid in accepted || sid in rejected)
      && (forall sid :: EditFor(decisions, sid) == if sid in accepted && sid in edits then Some(edits[sid]) else None)
  {
    var decisions := Decisions(accepted, rejected, edits);
    forall sid ensures AcceptedIn(decisions, sid) <==> sid in accepted {
      if sid in accepted {
        var i :| 0 <= i < |accepted| && accepted[i] == sid;
        assert decisions[i].accept;
      }
    }
    forall sid ensures sid in Chosen(decisions) <==> sid in accepted || sid in rejected {
      if sid in accepted {
        var i :| 0 <= i < |accepted| && accepted[i] == sid;
        assert decisions[i].suggestion == sid;
      } else if sid in rejected {
        var i :| 0 <= i < |rejected| && rejected[i] == sid;
        assert decisions[|accepted| + i].suggestion == sid;
      }
    }
    forall sid ensures EditFor(decisions, sid) == if sid in accepted && sid in edits then Some(edits[sid]) else None {
      EditsComeFromDecisions(decisions, sid);
      if sid in accepted {
        var i :| 0 <= i < |accepted| && accepted[i] == sid;
        assert decisions[i].suggestion == sid;
      }
    }
  }

  /** When a save may commit: the version is the expected one, no id is given twice, every
      one is a pending row of the current job, and a final save leaves none pending. */
  ghost predicate Savable(
    db: Database, p: ProjectId, d: DocumentId, version: int,
    accepted: seq<SuggestionId>, rejected: seq<SuggestionId>, finalize: bool)
  {
    && db.InProject(d, p) && db.documents[d].status == AwaitingApproval && db.documents[d].currentJob.Some?
    && db.documents[d].reviewVersion == version
    && PairwiseDistinct(accepted + rejected)
    && (forall sid :: sid in accepted + rejected ==> PendingRow(db, d, db.documents[d].currentJob.value, sid))
    && (finalize ==> forall sid :: sid in db.OfJob(db.documents[d].currentJob.value, SuggestionStatus.Pending) ==>
          sid in accepted + rejected)
  }

  lemma ListedRowsMatch(
    db: Database, d: DocumentId, j: JobId,
    accepted: seq<SuggestionId>, rejected: seq<SuggestionId>, edits: map<SuggestionId, string>)
    ensures |Decidable(db, d, j, Decisions(accepted, rejected, edits))| == |accepted| + |rejected| <==>
      && PairwiseDistinct(accepted + rejected)
      && forall sid :: sid in accepted + rejected ==> PendingRow(db, d, j, sid)
  {
    var decisions := Decisions(accepted, rejected, edits);
    var ids := Ids(decisions);
    DecisionsOf(accepted, rejected, edits);
    CountMatchesExactly(db, d, j, decisions);
    assert forall i :: 0 <= i < |decisions| ==> ids[i] == decisions[i].suggestion;
  }

  lemma ListedRowsAreSaved(
    db: Database, d: DocumentId, j: JobId, user: UserId,
    accepted: seq<SuggestionId>, rejected: seq<SuggestionId>, edits: map<SuggestionId, string>, now: int)
    requires forall sid :: sid in accepted + rejected ==> PendingRow(db, d, j, sid)
    ensures var saved := DecideRows(db, d, j, Decisions(accepted, rejected, edits), user, now);
      && RowsSaved(db, saved, user, now, accepted, rejected, edits)
      && (saved.OfJob(j, SuggestionStatus.Pending) == {} <==>
            forall sid :: sid in db.OfJob(j, SuggestionStatus.Pending) ==> sid in accepted + rejected)
  {
    var decisions := Decisions(accepted, rejected, edits);
    DecisionsOf(accepted, rejected, edits);
    var saved := DecideRows(db, d, j, decisions, user, now);
    var rows := Decidable(db, d, j, decisions);
    forall sid | sid in db.suggestions ensures sid in rows <==> sid in accepted || sid in rejected {
      assert sid in accepted + rejected <==> sid in accepted || sid in rejected;
    }
    var before, after := db.OfJob(j, SuggestionStatus.Pending), saved.OfJob(j, SuggestionStatus.Pending);
    assert forall sid :: sid in after <==> sid in before && !(sid in accepted + rejected);
  }

  /** The document as a save locks it: only its version is raised. */
  function Locked(db: Database, d: DocumentId, version: int): Database
    requires d in db.documents
  {
    db.SetDocument(d, db.documents[d].(reviewVersion := version + 1))
  }

  /** The guards of a save before it looks at rows. */
  predicate SaveReachesRows(db: Database, p: ProjectId, d: DocumentId, version: int) {
    && db.InProject(d, p) && db.documents[d].status == AwaitingApproval && db.documents[d].currentJob.Some?
    && db.documents[d].reviewVersion == version
  }

  /** A save that reaches the rows, in terms of the rows as written. */
  lemma SaveUnfolds(
    db: Database, p: ProjectId, d: DocumentId, user: UserId, version: int,
    accepted: seq<SuggestionId>, rejected: seq<SuggestionId>, edits: map<SuggestionId, string>,
    finalize: bool, now: int)
    requires SaveReachesRows(db, p, d, version)
    ensures var j := db.documents[d].currentJob.value;
            var decisions := Decisions(accepted, rejected, edits);
            var saved := DecideRows(Locked(db, d, version), d, j, decisions, user, now);
            var out := AtomicReviewSave(db, p, d, user, version, accepted, rejected, edits, finalize, now);
      && (out.Done? <==>
            && |Decidable(db, d, j, decisions)| == |accepted| + |rejected|
            && (finalize ==> saved.OfJob(j, SuggestionStatus.Pending) == {}))
      && (out.Done? && finalize ==> out.db == saved.SetDocument(d, saved.documents[d].(status := Ready)))
      && (out.Done? && !finalize ==> out.db == saved)
  {
    var j := db.documents[d].currentJob.value;
    var saved := DecideRows(Locked(db, d, version), d, j, Decisions(accepted, rejected, edits), user, now);
    assert |saved.OfJob(j, SuggestionStatus.Pending)| == 0 <==> saved.OfJob(j, SuggestionStatus.Pending) == {};
  }

  lemma SaveNeedsRows(
    db: Database, p: ProjectId, d: DocumentId, user: UserId, version: int,
    accepted: seq<SuggestionId>, rejected: seq<SuggestionId>, edits: map<SuggestionId, string>,
    finalize: bool, now: int)
    requires !SaveReachesRows(db, p, d, version)
    ensures !AtomicReviewSave(db, p, d, user, version, accepted, rejected, edits, finalize, now).Done?
  {
  }

  /** The save is all or nothing: it commits exactly when it is savable, and then every
      listed row is decided as listed, no other row changes, and the version rises by one. */
  lemma SaveIsAllOrNothing(
    db: Database, p: ProjectId, d: DocumentId, user: UserId, version: int,
    accepted: seq<SuggestionId>, rejected: seq<SuggestionId>, edits: map<SuggestionId, string>,
    finalize: bool, now: int)
    ensures var out := AtomicReviewSave(db, p, d, user, version, accepted, rejected, edits, finalize, now);
      && (out.Done? <==> Savable(db, p, d, version, accepted, rejected, finalize))
      && (out.Done? ==>
            && RowsSaved(db, out.db, user, now, accepted, rejected, edits)
            && out.db.jobs == db.jobs
            && out.db.documents == db.documents[d := db.documents[d].(
                 reviewVersion := version + 1, status := if finalize then Ready else AwaitingApproval)])
  {
    if !SaveReachesRows(db, p, d, version) {
      SaveNeedsRows(db, p, d, user, version, accepted, rejected, edits, finalize, now);
    } else {
      var j, locked := db.documents[d].currentJob.value, Locked(db, d, version);
      SaveUnfolds(db, p, d, user, version, accepted, rejected, edits, finalize, now);
      ListedRowsMatch(db, d, j, accepted, rejected, edits);
      if forall sid :: sid in accepted + rejected ==> PendingRow(db, d, j, sid) {
        ListedRowsAreSaved(locked, d, j, user, accepted, rejected, edits, now);
        assert locked.OfJob(j, SuggestionStatus.Pending) == db.OfJob(j, SuggestionStatus.Pending);
      }
    }
  }

  // ---------------------------------------------------------------------------
  // Optimistic locking
  // ---------------------------------------------------------------------------

  lemma VersionsStay(db: Database, e: Event, d: DocumentId)
    requires !e.SaveReview? && !e.AddDocument?
    requires d in db.documents && d in NewDatabase(db, e).documents
    ensures NewDatabase(db, e).documents[d].reviewVersion == db.documents[d].reviewVersion
  {
    match e
    case Create(_, _, _, _, _) =>
    case Dispatch(_) =>
    case QueueFails(_) =>
    case Cancel(_, _, _) =>
    case ResetAll(_, _) =>
    case Finalize(_, _) =>
    case Patch(_, _, _, _, _, _) =>
    case _ =>
  }

  lemma VersionsOnlyRise(s: System, e: Event, d: DocumentId)
    requires Inv(s) && Enabled(s, e) && d in s.db.documents && d in Step(s, e).db.documents
    ensures Step(s, e).db.documents[d].reviewVersion >= s.db.documents[d].reviewVersion
  {
    if e.SaveReview? {
      SaveIsAllOrNothing(s.db, e.p, e.d, e.user, e.version, e.accepted, e.rejected, e.edits, e.finalize, e.now);
    } else if !e.AddDocument? {
      VersionsStay(s.db, e, d);
    }
  }

  /** Once past a version a document never shows it again. */
  ghost predicate Past(s: System, d: DocumentId, version: int) {
    d in s.used.documents && (d in s.db.documents ==> s.db.documents[d].reviewVersion > version)
  }

  lemma {:induction false} PastStays(s: System, events: seq<Event>, t: System, d: DocumentId, version: int)
    requires Inv(s) && Leads(s, events, t) && Past(s, d, version)
    ensures Past(t, d, version)
    decreases |events|
  {
    if events != [] {
      var e := events[0];
      StepInv(s, e);
      NewRowsAreRecorded(s.db, e);
      if d in s.db.documents && d in Step(s, e).db.documents {
        VersionsOnlyRise(s, e, d);
      }
      PastStays(Step(s, e), events[1..], t, d, version);
    }
  }

  predicate Commits(s: System, e: Event)
    requires e.SaveReview?
  {
    AtomicReviewSave(s.db, e.p, e.d, e.user, e.version, e.accepted, e.rejected, e.edits, e.finalize, e.now).Done?
  }

  lemma CommitsAtVersion(s: System, e: Event)
    requires e.SaveReview? && Commits(s, e)
    ensures e.d in s.db.documents && s.db.documents[e.d].reviewVersion == e.version
  {
  }

  lemma CommitsPast(s: System, e: Event)
    requires Inv(s) && e.SaveReview? && Commits(s, e)
    ensures Past(Step(s, e), e.d, e.version)
  {
    SaveIsAllOrNothing(s.db, e.p, e.d, e.user, e.version, e.accepted, e.rejected, e.edits, e.finalize, e.now);
  }

  /** Two saves of a document that expect the same version never both commit, whatever
      happens in between. */
  lemma SameVersionNeverCommitsTwice(s: System, first: Event, events: seq<Event>, t: System, second: Event)
    requires Reachable(s) && first.SaveReview? && second.SaveReview?
    requires first.d == second.d && first.version == second.version
    requires Commits(s, first) && Leads(Step(s, first), events, t)
    ensures !Commits(t, second)
  {
    ReachableIsSound(s);
    StepInv(s, first);
    CommitsPast(s, first);
    PastStays(Step(s, first), events, t, first.d, first.version);
    if Commits(t, second) {
      CommitsAtVersion(t, second);
    }
  }

  // ---------------------------------------------------------------------------
  // Changing single rows
  // ---------------------------------------------------------------------------

  lemma PlainDecisions(ids: seq<SuggestionId>, accept: bool)
    ensures var decisions := Plain(ids, accept);
      && Chosen(decisions) == Distinct(ids)
      && (forall sid :: sid in Distinct(ids) <==> sid in ids)
      && (forall sid :: AcceptedIn(decisions, sid) <==> accept && sid in ids)
      && (forall sid :: EditFor(decisions, sid) == None)
  {
    var decisions := Plain(ids, accept);
    assert forall i :: 0 <= i < |ids| ==> decisions[i].suggestion == ids[i];
    forall sid ensures (sid in Distinct(ids) <==> sid in ids) && (sid in Chosen(decisions) <==> sid in ids) {
      if sid in ids {
        var i :| 0 <= i < |ids| && ids[i] == sid;
        assert decisions[i].suggestion == sid;
      }
    }
    forall sid ensures AcceptedIn(decisions, sid) <==> accept && sid in ids {
      if accept && sid in ids {
        var i :| 0 <= i < |ids| && ids[i] == sid;
        assert decisions[i].accept;
      }
    }
    forall sid ensures EditFor(decisions, sid) == None {
      EditsComeFromDecisions(decisions, sid);
    }
  }

  /** Deciding a list of rows succeeds exactly when all of them are pending rows of the
      current job, and then decides these and no others; a repeated id does no harm. */
  lemma DecidingAList(
    db: Database, p: ProjectId, d: DocumentId, user: UserId, accept: bool, ids: seq<SuggestionId>, now: int)
    requires db.InProject(d, p) && db.documents[d].currentJob.Some?
    ensures var j := db.documents[d].currentJob.value;
      var out := PatchSuggestions(db, p, d, user, if accept then Accepted else Rejected, ByIds(ids), now);
      && (out.Done? <==>
            && db.documents[d].status == AwaitingApproval
            && forall sid :: sid in ids ==> PendingRow(db, d, j, sid))
      && (out.Done? ==> out.db == db.(suggestions := map sid | sid in db.suggestions ::
            if sid in ids then Decided(db.suggestions[sid], accept, None, user, now) else db.suggestions[sid]))
  {
    var j := db.documents[d].currentJob.value;
    var decisions := Plain(ids, accept);
    PlainDecisions(ids, accept);
    var rows := Decidable(db, d, j, decisions);
    assert rows <= Distinct(ids);
    if |rows| == |Distinct(ids)| {
      SameSize(rows, Distinct(ids));
      assert forall sid :: sid in ids ==> sid in rows;
    } else {
      assert rows != Distinct(ids);
    }
  }

  /** Taking decisions back: the listed rows must all be decided rows of the current job;
      they lose every trace of the decision, and a ready document goes back to review
      exactly when some row was reset. */
  lemma TakingAListBack(db: Database, p: ProjectId, d: DocumentId, user: UserId, ids: seq<SuggestionId>, now: int)
    requires db.InProject(d, p) && db.documents[d].currentJob.Some?
    ensures var j := db.documents[d].currentJob.value;
      var status := db.documents[d].status;
      var out := PatchSuggestions(db, p, d, user, SuggestionStatus.Pending, ByIds(ids), now);
      && (out.Done? <==> status in {AwaitingApproval, Ready} && forall sid :: sid in ids ==>
            sid in db.suggestions && db.suggestions[sid].job == j && !db.suggestions[sid].status.Pending?)
      && (out.Done? ==>
            && out.db.suggestions == (map sid | sid in db.suggestions ::
                 if sid in ids then Undecided(db.suggestions[sid]) else db.suggestions[sid])
            && out.db.jobs == db.jobs
            && out.db.documents == db.documents[d := db.documents[d].(
                 status := if ids == [] then status else AwaitingApproval)])
  {
    var j := db.documents[d].currentJob.value;
    PlainDecisions(ids, true);
    var rows := Resettable(db, j, Some(ids));
    assert rows <= Distinct(ids);
    if |rows| == |Distinct(ids)| {
      SameSize(rows, Distinct(ids));
      assert forall sid :: sid in ids ==> sid in rows;
    } else {
      assert rows != Distinct(ids);
    }
    if ids != [] {
      assert ids[0] in ids;
    }
  }

  // ---------------------------------------------------------------------------
  // What workers and deletions write
  // ---------------------------------------------------------------------------

  predicate Started(db: Database, j: JobId) {
    j in db.jobs && db.jobs[j].status in {JobStatus.Pending, JobStatus.Dispatched, JobStatus.Processing}
  }

  lemma StartedOrOver(db: Database, j: JobId)
    requires j in db.jobs
    ensures Started(db, j) <==> IsActive(db.jobs[j].status)
    ensures Started(db, j) <==> !IsTerminal(db.jobs[j].status)
  {
    ActiveXorTerminal(db.jobs[j].status);
  }

  /** A worker that starts an active job writes its status and nothing else; any other job, or
      none, is left alone. */
  lemma MarkIsExact(db: Database, j: JobId)
    ensures MarkProcessing(db, j) ==
      if Started(db, j) then db.(jobs := db.jobs[j := db.jobs[j].(status := JobStatus.Processing)]) else db
  {
  }

  /** A batch adds the rows of its ids to an active job, pending and undecided, on the job's
      document; rows that are there, documents and jobs stay. */
  lemma StoreIsExact(db: Database, j: JobId, ids: set<SuggestionId>)
    requires ids !! db.suggestions.Keys
    ensures var after := StoreBatch(db, j, ids);
      if Started(db, j) then
        && after.documents == db.documents && after.jobs == db.jobs
        && after.suggestions.Keys == db.suggestions.Keys + ids
        && (forall sid :: sid in db.suggestions ==> after.suggestions[sid] == db.suggestions[sid])
        && var row := Suggestion(j, db.jobs[j].document, SuggestionStatus.Pending, None, None, None);
           forall sid :: sid in ids ==> after.suggestions[sid] == row
      else after == db
  {
  }

  predicate HasPending(db: Database, j: JobId) {
    exists sid :: sid in db.suggestions && db.suggestions[sid].job == j
                  && db.suggestions[sid].status == SuggestionStatus.Pending
  }

  lemma PendingIsCounted(db: Database, j: JobId)
    ensures |db.OfJob(j, SuggestionStatus.Pending)| > 0 <==> HasPending(db, j)
  {
    var rows := db.OfJob(j, SuggestionStatus.Pending);
    if HasPending(db, j) {
      var sid :| sid in db.suggestions && db.suggestions[sid].job == j
                 && db.suggestions[sid].status == SuggestionStatus.Pending;
      assert sid in rows;
    } else {
      assert rows == {};
    }
  }

  /** A started job in the status asked for, and its document where that leaves it: in review
      if a row is pending, ready if none is, a draft after a failure. */
  function Finalized(db: Database, j: JobId, target: JobStatus): Database
    requires j in db.jobs && db.jobs[j].document in db.documents
  {
    var d := db.jobs[j].document;
    var status :=
      if target == JobStatus.Failed then Draft else if HasPending(db, j) then AwaitingApproval else Ready;
    Database(db.documents[d := db.documents[d].(status := status)],
             db.jobs[j := db.jobs[j].(status := target)], db.suggestions)
  }

  lemma FinalizeWrites(db: Database, j: JobId, target: JobStatus)
    requires j in db.jobs && db.jobs[j].status in {JobStatus.Dispatched, JobStatus.Processing}
    requires var d := db.jobs[j].document;
      d in db.documents && db.documents[d].currentJob == Some(j) && db.documents[d].status == InProgress
    requires target in {JobStatus.Success, JobStatus.PartialSuccess, JobStatus.Failed}
    ensures FinalizeJob(db, j, target) == Done(Finalized(db, j, target), j)
  {
    PendingIsCounted(db, j);
  }

  /** Finalisation in sound tables ends every job that was dispatched and is not over, and
      writes its status and its document's; a job that is over or gone is left alone. */
  lemma FinalizeIsExact(db: Database, j: JobId, target: JobStatus)
    requires Sound(db) && (j in db.jobs ==> db.jobs[j].status != JobStatus.Pending)
    requires target in {JobStatus.Success, JobStatus.PartialSuccess, JobStatus.Failed}
    ensures FinalizeJob(db, j, target) == Done(if Started(db, j) then Finalized(db, j, target) else db, j)
  {
    if j in db.jobs {
      StartedOrOver(db, j);
      assert Coupled(db, db.jobs[j].document);
      if Started(db, j) {
        FinalizeWrites(db, j, target);
      }
    }
  }

  /** The tables without some documents: what is left is exactly what hangs on none of them. */
  ghost predicate TakenAway(before: Database, after: Database, gone: set<DocumentId>) {
    && (forall d :: d in after.documents <==> d in before.documents && d !in gone)
    && (forall d :: d in after.documents ==> after.documents[d] == before.documents[d])
    && (forall j :: j in after.jobs <==> j in before.jobs && before.jobs[j].document !in gone)
    && (forall j :: j in after.jobs ==> after.jobs[j] == before.jobs[j])
    && (forall sid :: sid in after.suggestions <==>
          sid in before.suggestions && before.suggestions[sid].document !in gone)
    && (forall sid :: sid in after.suggestions ==> after.suggestions[sid] == before.suggestions[sid])
  }

  /** Deleting a document is refused in another project and while it is analysed; otherwise it
      goes with its jobs and their rows. Deleting a project asks no document. */
  lemma DeleteSucceedsExactly(db: Database, p: ProjectId, d: DocumentId)
    ensures var out := DeleteDocument(db, p, d);
      if !(d in db.documents && db.documents[d].project == p) then out == Refused(Error.DocumentNotFound)
      else if db.documents[d].status == InProgress then out == Refused(InvalidStatus)
      else out.Done? && TakenAway(db, out.db, {d})
    ensures TakenAway(db, DeleteProject(db, p), set x | x in db.documents && db.documents[x].project == p)
  {
  }
}

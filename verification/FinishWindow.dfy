/** Finishing a review with an export service: the exporter commits the shared session
    between the check for pending rows and the status change, which then goes by the
    document as it was read before. */
module FinishWindow {
  import opened Options
  import opened Lifecycle
  import opened Records
  import opened JobRules
  import opened ReviewRules
  import opened ReviewSystem
  import opened ReviewTheorems

  /** The second transaction of `finalize_review` and of a final save: it looks at no row,
      and not at the status or the current job the document has by now. */
  function FinishAfterExport(db: Database, d: DocumentId): Database
    requires d in db.documents
  {
    db.SetDocument(d, db.documents[d].(status := Ready))
  }

  /** What has to hold when the late status change comes. */
  predicate SafeToFinish(db: Database, d: DocumentId)
    requires d in db.documents
  {
    var current := db.documents[d].currentJob;
    && current.Some? && current.value in db.jobs && db.jobs[current.value].status in {Success, PartialSuccess}
    && db.OfJob(current.value, SuggestionStatus.Pending) == {}
  }

  lemma FinishedMeansSafe(db: Database, d: DocumentId)
    requires d in db.documents && Sound(FinishAfterExport(db, d))
    ensures SafeToFinish(db, d)
  {
    assert Coupled(FinishAfterExport(db, d), d);
  }

  /** The late status change keeps the tables sound exactly when the document's current job
      is then one that succeeded and has nothing pending. */
  lemma ExportWindow(db: Database, d: DocumentId)
    requires Sound(db) && d in db.documents
    ensures Sound(FinishAfterExport(db, d)) <==> SafeToFinish(db, d)
  {
    var after := FinishAfterExport(db, d);
    assert Coupled(db, d);
    if SafeToFinish(db, d) {
      var j := db.documents[d].currentJob.value;
      MovedTogether(db, j, db.jobs[j].status, Ready);
      assert db.SetJob(j, db.jobs[j].(status := db.jobs[j].status)) == db;
    } else if Sound(after) {
      FinishedMeansSafe(db, d);
    }
  }

  /** The calls that break the window: analysing the document anew, taking a decision back,
      resetting the analysis. */
  predicate Disturbs(e: Event, d: DocumentId) {
    match e
    case Create(_, x, _, _, _) => x == d
    case ResetAll(_, x) => x == d
    case Patch(_, x, _, decision, _, _) => x == d && decision.Pending?
    case ResetOne(_, x, _) => x == d
    case _ => false
  }

  lemma JobsGoWithDocuments(db: Database, e: Event, j: JobId)
    requires References(db) && j in db.jobs && db.jobs[j].document in NewDatabase(db, e).documents
    ensures j in NewDatabase(db, e).jobs
  {
    if IsReview(e) {
      ReviewKeepsJobs(db, e);
    } else {
      match e
      case Create(_, _, _, _, _) =>
      case Dispatch(_) =>
      case QueueFails(_) =>
      case Cancel(_, _, _) =>
      case ResetAll(_, _) =>
      case Finalize(_, _) =>
      case _ =>
    }
  }

  /** A job that is over stays as it is as long as its document is there. */
  lemma FinishedJobStays(s: System, e: Event, j: JobId)
    requires Inv(s) && Enabled(s, e) && j in s.db.jobs && IsTerminal(s.db.jobs[j].status)
    requires s.db.jobs[j].document in Step(s, e).db.documents
    ensures j in Step(s, e).db.jobs && Step(s, e).db.jobs[j] == s.db.jobs[j]
  {
    ActiveXorTerminal(s.db.jobs[j].status);
    if e.Create? {
      CreationAddsOneJob(s.db, e.p, e.d, e.key, e.force, e.id);
    } else {
      JobsMoveForward(s, e);
      JobsGoWithDocuments(s.db, e, j);
    }
  }

  lemma PatchKeepsDecisions(
    db: Database, p: ProjectId, x: DocumentId, user: UserId,
    decision: SuggestionStatus, pick: Selection, now: int, sid: SuggestionId)
    requires sid in db.suggestions && !db.suggestions[sid].status.Pending?
    requires decision.Pending? && x in db.documents ==> db.documents[x].currentJob != Some(db.suggestions[sid].job)
    ensures var after := PatchSuggestions(db, p, x, user, decision, pick, now).After(db);
      sid in after.suggestions && after.suggestions[sid] == db.suggestions[sid]
  {
    var out := PatchSuggestions(db, p, x, user, decision, pick, now);
    if out.Done? && decision.Pending? {
      assert out == PatchToPending(db, x, db.documents[x].currentJob.value, pick);
      assert sid !in out.answer;
    }
  }

  lemma SaveKeepsDecisions(db: Database, e: Event, sid: SuggestionId)
    requires (e.SaveReview? || e.FinishReview?) && sid in db.suggestions && !db.suggestions[sid].status.Pending?
    ensures sid in NewDatabase(db, e).suggestions && NewDatabase(db, e).suggestions[sid] == db.suggestions[sid]
  {
  }

  /** A call that does not disturb the document leaves every decision about it alone. */
  lemma DecisionsStay(db: Database, e: Event, d: DocumentId, sid: SuggestionId)
    requires Sound(db) && !Disturbs(e, d) && !e.Store? && d in db.documents
    requires sid in db.suggestions && db.documents[d].currentJob == Some(db.suggestions[sid].job)
    requires !db.suggestions[sid].status.Pending? && sid in NewDatabase(db, e).suggestions
    ensures NewDatabase(db, e).suggestions[sid] == db.suggestions[sid]
  {
    var j := db.suggestions[sid].job;
    if e.Patch? {
      PatchKeepsDecisions(db, e.p, e.d, e.user, e.decision, e.pick, e.now, sid);
    } else if e.SaveReview? || e.FinishReview? {
      SaveKeepsDecisions(db, e, sid);
    } else if e.ResetOne? || e.ResetAll? {
      ReviewsWriteCurrentRows(db, e, sid);
    } else {
      OthersWriteNoRows(db, e, sid);
    }
  }

  lemma PatchKeepsJobs(
    db: Database, p: ProjectId, x: DocumentId, user: UserId,
    decision: SuggestionStatus, pick: Selection, now: int, sid: SuggestionId)
    requires sid in db.suggestions
    ensures var after := PatchSuggestions(db, p, x, user, decision, pick, now).After(db);
      sid in after.suggestions ==> after.suggestions[sid].job == db.suggestions[sid].job
  {
    var out := PatchSuggestions(db, p, x, user, decision, pick, now);
    if out.Done? && decision.Pending? {
      assert out == PatchToPending(db, x, db.documents[x].currentJob.value, pick);
    }
  }

  lemma RowsKeepTheirJob(db: Database, e: Event, sid: SuggestionId)
    requires e.Patch? || e.SaveReview? || e.FinishReview?
    requires sid in db.suggestions && sid in NewDatabase(db, e).suggestions
    ensures NewDatabase(db, e).suggestions[sid].job == db.suggestions[sid].job
  {
    if e.Patch? {
      PatchKeepsJobs(db, e.p, e.d, e.user, e.decision, e.pick, e.now, sid);
    }
  }

  /** A row of another job stays of another job. */
  lemma JobOfRowStays(db: Database, e: Event, sid: SuggestionId)
    requires sid in db.suggestions && sid in NewDatabase(db, e).suggestions
    ensures NewDatabase(db, e).suggestions[sid].job == db.suggestions[sid].job
  {
    if e.Patch? || e.SaveReview? || e.FinishReview? {
      RowsKeepTheirJob(db, e, sid);
    } else if !e.ResetOne? && !e.ResetAll? && !e.Store? {
      OthersWriteNoRows(db, e, sid);
    }
  }

  lemma NewRowsAreOfActiveJobs(db: Database, e: Event, sid: SuggestionId)
    requires sid in NewDatabase(db, e).suggestions && sid !in db.suggestions
    ensures var job := NewDatabase(db, e).suggestions[sid].job; job in db.jobs && IsActive(db.jobs[job].status)
  {
    NewRowsAreRecorded(db, e);
  }

  lemma StaysSafe(s: System, e: Event, d: DocumentId)
    requires Inv(s) && Enabled(s, e) && !Disturbs(e, d)
    requires d in s.db.documents && SafeToFinish(s.db, d) && d in Step(s, e).db.documents
    ensures SafeToFinish(Step(s, e).db, d)
  {
    var j, after := s.db.documents[d].currentJob.value, Step(s, e).db;
    if !e.AddDocument? {
      OnlyCreationMakesCurrent(s.db, e);
    }
    FinishedJobStays(s, e, j);
    forall sid | sid in after.suggestions && after.suggestions[sid].job == j
      ensures !after.suggestions[sid].status.Pending?
    {
      if sid in s.db.suggestions {
        JobOfRowStays(s.db, e, sid);
        assert sid !in s.db.OfJob(j, SuggestionStatus.Pending);
        if !e.Store? {
          DecisionsStay(s.db, e, d, sid);
        }
      } else {
        NewRowsAreOfActiveJobs(s.db, e, sid);
        ActiveXorTerminal(s.db.jobs[j].status);
      }
    }
  }

  /** A document that is gone never comes back. */
  lemma {:induction false} GoneStaysGone(s: System, events: seq<Event>, t: System, d: DocumentId)
    requires Inv(s) && Leads(s, events, t) && d in s.used.documents && d !in s.db.documents
    ensures d !in t.db.documents
    decreases |events|
  {
    if events != [] {
      StepInv(s, events[0]);
      NewRowsAreRecorded(s.db, events[0]);
      GoneStaysGone(Step(s, events[0]), events[1..], t, d);
    }
  }

  /** Whatever else happens between the two transactions, the status change is safe if no
      call disturbed the document. */
  lemma {:induction false} QuietWindowIsSafe(s: System, events: seq<Event>, t: System, d: DocumentId)
    requires Inv(s) && Leads(s, events, t) && d in s.db.documents && SafeToFinish(s.db, d)
    requires forall i :: 0 <= i < |events| ==> !Disturbs(events[i], d)
    requires d in t.db.documents
    ensures SafeToFinish(t.db, d) && Sound(FinishAfterExport(t.db, d))
    decreases |events|
  {
    if events == [] {
      ExportWindow(t.db, d);
    } else {
      var next := Step(s, events[0]);
      StepInv(s, events[0]);
      if d in next.db.documents {
        StaysSafe(s, events[0], d);
        QuietWindowIsSafe(next, events[1..], t, d);
      } else {
        GoneStaysGone(next, events[1..], t, d);
      }
    }
  }

  /** Taking decisions back in the window: any decided row is enough. */
  lemma ResetInTheWindow(db: Database, p: ProjectId, d: DocumentId, user: UserId, sid: SuggestionId, now: int)
    requires Sound(db) && db.InProject(d, p) && db.documents[d].status == AwaitingApproval
    requires sid in db.suggestions && db.documents[d].currentJob == Some(db.suggestions[sid].job)
    requires !db.suggestions[sid].status.Pending?
    ensures var reset := PatchSuggestions(db, p, d, user, SuggestionStatus.Pending, ByFilter(Everything), now);
      reset.Done? && Sound(reset.db) && d in reset.db.documents && !Sound(FinishAfterExport(reset.db, d))
  {
    var j := db.suggestions[sid].job;
    var reset := PatchSuggestions(db, p, d, user, SuggestionStatus.Pending, ByFilter(Everything), now);
    PatchIsSound(db, p, d, user, SuggestionStatus.Pending, ByFilter(Everything), now);
    assert sid in Resettable(db, j, None);
    assert sid in reset.db.OfJob(j, SuggestionStatus.Pending);
    ExportWindow(reset.db, d);
  }

  /** Analysing the document anew in the window is always possible and always ends badly:
      the document is ready while its current job has not even been dispatched. */
  lemma ReanalysisInTheWindow(db: Database, p: ProjectId, d: DocumentId, id: JobId)
    requires Sound(db) && db.InProject(d, p) && db.documents[d].status == AwaitingApproval && id !in db.jobs
    ensures var made := CreateJob(db, p, d, None, false, id);
      && made.Done? && Sound(made.db) && d in made.db.documents
      && made.db.OfJob(id, SuggestionStatus.Pending) == {}
      && !Sound(FinishAfterExport(made.db, d))
  {
    assert Coupled(db, d);
    NoneActive(db, d);
    CreateIsSound(db, p, d, None, false, id);
    ExportWindow(CreateJob(db, p, d, None, false, id).db, d);
  }

  const UNDER_REVIEW := Database(
    map[5 := Document(0, AwaitingApproval, Some(3), 0)],
    map[3 := Job(5, Success, None)],
    map[8 := Suggestion(3, 5, SuggestionStatus.Pending, None, None, None)])

  lemma UnderReviewIsSound()
    ensures Sound(UNDER_REVIEW)
    ensures Savable(UNDER_REVIEW, 0, 5, 0, [8], [], true) && Savable(UNDER_REVIEW, 0, 5, 0, [8], [], false)
  {
    assert References(UNDER_REVIEW);
    assert forall d :: d in UNDER_REVIEW.documents ==> Coupled(UNDER_REVIEW, d);
    assert [8] + [] == [8] && PairwiseDistinct([8]);
    assert forall sid :: sid in [8] ==> sid == 8;
  }

  /** The part of the final save that the export commits. */
  lemma CommittedWithExport()
    ensures var first := AtomicReviewSave(UNDER_REVIEW, 0, 5, 0, 0, [8], [], map[], false, 0);
      && first.Done? && Sound(first.db) && first.db.jobs == UNDER_REVIEW.jobs
      && first.db.documents == map[5 := Document(0, AwaitingApproval, Some(3), 1)]
      && first.db.suggestions.Keys == {8} && first.db.suggestions[8].job == 3
      && first.db.suggestions[8].status.Accepted?
  {
    UnderReviewIsSound();
    SaveIsAllOrNothing(UNDER_REVIEW, 0, 5, 0, 0, [8], [], map[], false, 0);
    SaveIsSound(UNDER_REVIEW, 0, 5, 0, 0, [8], [], map[], false, 0);
    assert 8 in [8] && 8 in UNDER_REVIEW.suggestions;
  }

  lemma FinalSavePasses()
    ensures Sound(UNDER_REVIEW) && AtomicReviewSave(UNDER_REVIEW, 0, 5, 0, 0, [8], [], map[], true, 0).Done?
  {
    UnderReviewIsSound();
    SaveIsAllOrNothing(UNDER_REVIEW, 0, 5, 0, 0, [8], [], map[], true, 0);
  }

  lemma ReviewCanBeFinished(db: Database)
    requires db.documents == map[5 := Document(0, AwaitingApproval, Some(3), 1)]
    requires db.suggestions.Keys == {8} && db.suggestions[8].status.Accepted?
    ensures FinalizeReview(db, 0, 5).Done?
  {
    assert db.OfJob(3, SuggestionStatus.Pending) == {};
  }

  lemma CommittedIsReset()
    ensures var first := AtomicReviewSave(UNDER_REVIEW, 0, 5, 0, 0, [8], [], map[], false, 0);
      && first.Done?
      && var reset := PatchSuggestions(first.db, 0, 5, 1, SuggestionStatus.Pending, ByFilter(Everything), 1);
         reset.Done? && 5 in reset.db.documents && !Sound(FinishAfterExport(reset.db, 5))
  {
    CommittedWithExport();
    var db := AtomicReviewSave(UNDER_REVIEW, 0, 5, 0, 0, [8], [], map[], false, 0).db;
    ResetInTheWindow(db, 0, 5, 1, 8, 1);
  }

  lemma CommittedIsAnalysedAnew()
    ensures var first := AtomicReviewSave(UNDER_REVIEW, 0, 5, 0, 0, [8], [], map[], false, 0);
      && first.Done? && Sound(first.db) && FinalizeReview(first.db, 0, 5).Done?
      && var made := CreateJob(first.db, 0, 5, None, false, 9);
         made.Done? && 5 in made.db.documents && !Sound(FinishAfterExport(made.db, 5))
  {
    CommittedWithExport();
    var db := AtomicReviewSave(UNDER_REVIEW, 0, 5, 0, 0, [8], [], map[], false, 0).db;
    ReviewCanBeFinished(db);
    ReanalysisInTheWindow(db, 0, 5, 9);
  }

  /** The window is real. The final save passes its checks and its decision is committed with
      the export; `finalize_review` would pass its checks then. When the decision is taken
      back, or the document analysed anew, before the status change, the tables end unsound. */
  lemma ExportWindowIsReal()
    ensures Sound(UNDER_REVIEW) && AtomicReviewSave(UNDER_REVIEW, 0, 5, 0, 0, [8], [], map[], true, 0).Done?
    ensures var first := AtomicReviewSave(UNDER_REVIEW, 0, 5, 0, 0, [8], [], map[], false, 0);
      && first.Done? && Sound(first.db) && FinalizeReview(first.db, 0, 5).Done?
      && var reset := PatchSuggestions(first.db, 0, 5, 1, SuggestionStatus.Pending, ByFilter(Everything), 1);
         var made := CreateJob(first.db, 0, 5, None, false, 9);
      && reset.Done? && 5 in reset.db.documents && !Sound(FinishAfterExport(reset.db, 5))
      && made.Done? && 5 in made.db.documents && !Sound(FinishAfterExport(made.db, 5))
  {
    FinalSavePasses();
    CommittedIsReset();
    CommittedIsAnalysedAnew();
  }
}

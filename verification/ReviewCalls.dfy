/** What every call of the suggestion service answers and commits, case by case and written
    out on the tables. */
module ReviewCalls {
  import opened Options
  import opened Lifecycle
  import opened Records
  import opened JobRules
  import opened ReviewRules
  import opened ReviewTheorems
  import opened DocumentEvents
  import opened Services
  import opened SuggestionServices
  import JobCalls

  /** How a transaction ends that has passed its checks and recorded its change. */
  predicate Ends(
    s: Service, after: Database, own: seq<StatusChange>, fault: Fault, t: Service, ending: Ending)
  {
    match fault
    case LateCrash => ending == Raised && t == Service(s.db, s.waiting + own, s.log)
    case CommitFails => ending == Raised && t == Service(s.db, [], s.log)
    case _ => ending == Finished && t == Service(after, [], s.log + [LogEntry(s.db, after, s.waiting + own)])
  }

  predicate IsReviewed(db: Database, p: ProjectId, d: DocumentId) {
    JobCalls.IsOf(db, p, d) && db.documents[d].status in {AwaitingApproval, Ready}
  }

  function Cleared(row: Suggestion): Suggestion {
    Suggestion(row.job, row.document, SuggestionStatus.Pending, None, None, None)
  }

  predicate HasDecision(db: Database, j: JobId, sid: SuggestionId) {
    sid in db.suggestions && db.suggestions[sid].job == j && db.suggestions[sid].status != SuggestionStatus.Pending
  }

  /** The tables with the rows replaced and the document awaiting approval. */
  function TakenBack(db: Database, d: DocumentId, rows: set<SuggestionId>): Database
    requires d in db.documents
  {
    Database(
      db.documents[d := db.documents[d].(status := AwaitingApproval)],
      db.jobs,
      map sid | sid in db.suggestions ::
        if sid in rows then Cleared(db.suggestions[sid]) else db.suggestions[sid])
  }

  /** What is recorded: a ready document that is reopened. */
  function Reopening(db: Database, d: DocumentId): seq<StatusChange>
    requires d in db.documents
  {
    var row := db.documents[d];
    if row.status == Ready then [StatusChange(d, row.project, AwaitingApproval, row.currentJob)] else []
  }

  // ---------------------------------------------------------------------------
  // Taking back one decision
  // ---------------------------------------------------------------------------

  /** Taking one decision back succeeds exactly for a decided row of the current job of a
      reviewed document; the row is pending again without any trace of the decision, the
      document awaits approval, and nothing else changes. */
  lemma ResetOneSucceedsExactly(db: Database, p: ProjectId, d: DocumentId, sid: SuggestionId)
    ensures var out := ReviewRules.ResetSuggestion(db, p, d, sid);
      && (out.Done? <==>
            && IsReviewed(db, p, d) && sid in db.suggestions
            && db.documents[d].currentJob == Some(db.suggestions[sid].job)
            && db.suggestions[sid].status != SuggestionStatus.Pending)
      && (out.Done? ==> out.answer == sid && out.db == TakenBack(db, d, {sid}))
      && (out.Refused? ==>
            if !JobCalls.IsOf(db, p, d) then out.error == Error.DocumentNotFound
            else if !IsReviewed(db, p, d) then out.error == InvalidStatus
            else if sid !in db.suggestions then out.error == SuggestionNotFound
            else if db.documents[d].currentJob != Some(db.suggestions[sid].job) then out.error == StaleSuggestionJob
            else out.error == ResetNotAllowed)
  {
    if ReviewRules.ResetSuggestion(db, p, d, sid).Done? {
      var after, expected := ReviewRules.ResetSuggestion(db, p, d, sid).db, TakenBack(db, d, {sid});
      assert after.suggestions == expected.suggestions;
      assert after.documents == expected.documents;
    }
  }

  /** The call: refused by the rule's guards, too late for the document or for the row, or
      ended as its transaction is. */
  lemma ResetOneIsExact(s: Service, p: ProjectId, d: DocumentId, sid: SuggestionId, fault: Fault)
    ensures var (t, ending) := AfterResetOne(s, p, d, sid, fault);
            var out := ReviewRules.ResetSuggestion(s.db, p, d, sid);
      if fault.EarlyCrash? then t == s && ending == Raised
      else if out.Refused? then t == s && ending == Denied(out.error)
      else if fault.NotReopened? && s.db.documents[d].status == Ready then
        t == Service(fault.seen, s.waiting, s.log) && ending == Denied(InvalidStatus)
      else if fault.RowTaken? then
        && t == Service(fault.seen, s.waiting + Reopening(s.db, d), s.log)
        && ending == Denied(ResetNotAllowed)
      else Ends(s, TakenBack(s.db, d, {sid}), Reopening(s.db, d), fault, t, ending)
  {
    ResetOneSucceedsExactly(s.db, p, d, sid);
  }

  // ---------------------------------------------------------------------------
  // Many rows at once
  // ---------------------------------------------------------------------------

  /** The rows a call that takes decisions back chooses. */
  function ToTakeBack(db: Database, j: JobId, pick: Selection): set<SuggestionId> {
    match pick
    case ByFilter(OnlyPending) => {}
    case ByFilter(_) => set sid | sid in db.suggestions && HasDecision(db, j, sid)
    case ByIds(ids) => set sid | sid in db.suggestions && HasDecision(db, j, sid) && sid in ids
  }

  lemma ChosenRows(db: Database, j: JobId, pick: Selection)
    ensures ToTakeBack(db, j, pick) == match pick
      case ByFilter(f) => if f.OnlyPending? then {} else Resettable(db, j, None)
      case ByIds(ids) => Resettable(db, j, Some(ids))
    ensures match pick
      case ByFilter(_) => true
      case ByIds(ids) =>
        |Resettable(db, j, Some(ids))| == |Distinct(ids)| <==> forall sid :: sid in ids ==> HasDecision(db, j, sid)
  {
    match pick
    case ByFilter(_) =>
    case ByIds(ids) =>
      var rows := Resettable(db, j, Some(ids));
      assert rows == ToTakeBack(db, j, pick);
      PlainDecisions(ids, true);
      assert rows <= Distinct(ids);
      if |rows| == |Distinct(ids)| {
        SameSize(rows, Distinct(ids));
        assert forall sid :: sid in ids ==> sid in rows;
      } else {
        assert rows != Distinct(ids);
      }
  }

  /** Taking decisions back, by list or by filter: a listed row that is not a decided row of
      the current job refuses the call, a filter passes over it. The document is reopened
      exactly if anything was taken back, and the answer is what was. */
  lemma TakingBackIsExact(
    db: Database, p: ProjectId, d: DocumentId, user: UserId, pick: Selection, now: int)
    ensures var out := ReviewRules.PatchSuggestions(db, p, d, user, SuggestionStatus.Pending, pick, now);
      && (!JobCalls.IsOf(db, p, d) ==> out == Refused(Error.DocumentNotFound))
      && (JobCalls.IsOf(db, p, d) && !IsReviewed(db, p, d) ==> out == Refused(InvalidStatus))
      && (IsReviewed(db, p, d) ==>
            match db.documents[d].currentJob
            case None => out == Refused(ReviewNotComplete)
            case Some(j) =>
              if pick.ByIds? && exists sid :: sid in pick.ids && !HasDecision(db, j, sid)
              then out == Refused(ResetNotAllowed)
              else
                var rows := ToTakeBack(db, j, pick);
                out == Done(if rows == {} then db else TakenBack(db, d, rows), rows))
  {
    if IsReviewed(db, p, d) && db.documents[d].currentJob.Some? {
      var j := db.documents[d].currentJob.value;
      var rows := ToTakeBack(db, j, pick);
      ChosenRows(db, j, pick);
      assert Reopened(ResetRows(db, rows), d).documents == TakenBack(db, d, rows).documents;
      assert ResetRows(db, rows).suggestions == TakenBack(db, d, rows).suggestions;
    }
  }

  /** A row as a decision without an edit leaves it, its own edit kept or not. */
  function Judged(row: Suggestion, accept: bool, edit: Option<string>, user: UserId, now: int): Suggestion {
    Suggestion(row.job, row.document, if accept then Accepted else Rejected, Some(user), Some(now), edit)
  }

  /** The rows of the current job that are still pending. */
  function StillPending(db: Database, d: DocumentId): set<SuggestionId>
    requires d in db.documents
  {
    set sid | sid in db.suggestions && db.documents[d].currentJob == Some(db.suggestions[sid].job)
              && db.suggestions[sid].status == SuggestionStatus.Pending
  }

  /** All pending rows of the job judged, each with the edit it has. */
  function AllJudged(db: Database, j: JobId, accept: bool, user: UserId, now: int): map<SuggestionId, Suggestion> {
    map sid | sid in db.suggestions ::
      var row := db.suggestions[sid];
      if row.job == j && row.status == SuggestionStatus.Pending
      then Judged(row, accept, row.editedText, user, now) else row
  }

  /** Accepting or rejecting by filter: every pending row of the current job, whoever asks for
      pending rows or for all, and nothing but these; asking for decided ones is refused. */
  lemma DecidingByFilter(
    db: Database, p: ProjectId, d: DocumentId, user: UserId, accept: bool, filter: Filter, now: int)
    ensures var out :=
              ReviewRules.PatchSuggestions(
                db, p, d, user, if accept then Accepted else Rejected, ByFilter(filter), now);
      && (!JobCalls.IsOf(db, p, d) ==> out == Refused(Error.DocumentNotFound))
      && (JobCalls.IsOf(db, p, d) && db.documents[d].status != AwaitingApproval ==> out == Refused(InvalidStatus))
      && (JobCalls.IsOf(db, p, d) && db.documents[d].status == AwaitingApproval ==>
            match db.documents[d].currentJob
            case None => out == Refused(ReviewNotComplete)
            case Some(j) =>
              if filter.OnlyDecided? then out == Refused(AlreadyDecided)
              else
                out == Done(db.(suggestions := AllJudged(db, j, accept, user, now)), StillPending(db, d)))
  {
    if JobCalls.IsOf(db, p, d) && db.documents[d].currentJob.Some? {
      var j := db.documents[d].currentJob.value;
      assert DecideAll(db, j, accept, user, now).suggestions == AllJudged(db, j, accept, user, now);
      assert db.OfJob(j, SuggestionStatus.Pending) == StillPending(db, d);
    }
  }

  /** Accepting or rejecting a list: all of it has to be pending rows of the current job, and
      then exactly these are decided, without an edit; the answer is the list as a set. */
  lemma DecidingByIds(
    db: Database, p: ProjectId, d: DocumentId, user: UserId, accept: bool, ids: seq<SuggestionId>, now: int)
    ensures var out :=
              ReviewRules.PatchSuggestions(db, p, d, user, if accept then Accepted else Rejected, ByIds(ids), now);
      && (!JobCalls.IsOf(db, p, d) ==> out == Refused(Error.DocumentNotFound))
      && (JobCalls.IsOf(db, p, d) && db.documents[d].status != AwaitingApproval ==> out == Refused(InvalidStatus))
      && (JobCalls.IsOf(db, p, d) && db.documents[d].status == AwaitingApproval ==>
            match db.documents[d].currentJob
            case None => out == Refused(ReviewNotComplete)
            case Some(j) =>
              if exists sid :: sid in ids && !PendingRow(db, d, j, sid) then out == Refused(AlreadyDecided)
              else
                out == Done(db.(suggestions := map sid | sid in db.suggestions ::
                  var row := db.suggestions[sid];
                  if sid in ids then Judged(row, accept, None, user, now) else row), set sid | sid in ids))
  {
    if JobCalls.IsOf(db, p, d) && db.documents[d].currentJob.Some? {
      DecidingAList(db, p, d, user, accept, ids, now);
      PlainDecisions(ids, accept);
      assert Distinct(ids) == set sid | sid in ids;
      assert (map sid | sid in db.suggestions ::
        if sid in ids then Decided(db.suggestions[sid], accept, None, user, now) else db.suggestions[sid])
        == map sid | sid in db.suggestions ::
             var row := db.suggestions[sid];
             if sid in ids then Judged(row, accept, None, user, now) else row;
    }
  }

  /** The call: refused by the rule, too late for the document it would reopen, or ended as its
      transaction is. */
  lemma PatchIsExact(
    s: Service, p: ProjectId, d: DocumentId, user: UserId, target: SuggestionStatus, pick: Selection, now: int,
    fault: Fault)
    ensures var (t, ending) := AfterPatch(s, p, d, user, target, pick, now, fault);
            var out := ReviewRules.PatchSuggestions(s.db, p, d, user, target, pick, now);
      if fault.EarlyCrash? then t == s && ending == Raised
      else if out.Refused? then t == s && ending == Denied(out.error)
      else
        var own := if target == SuggestionStatus.Pending && out.answer != {} then Reopening(s.db, d) else [];
        if fault.NotReopened? && own != [] then
          t == Service(fault.seen, s.waiting, s.log) && ending == Denied(InvalidStatus)
        else Ends(s, out.db, own, fault, t, ending)
  {
  }

  // ---------------------------------------------------------------------------
  // The end of a review
  // ---------------------------------------------------------------------------

  /** Finishing a review succeeds exactly for a document that awaits approval, has a current job
      and no pending row of it; the document is ready, and nothing else changes. */
  lemma FinishSucceedsExactly(db: Database, p: ProjectId, d: DocumentId)
    ensures var out := ReviewRules.FinalizeReview(db, p, d);
      out ==
        if !JobCalls.IsOf(db, p, d) then Refused(Error.DocumentNotFound)
        else if db.documents[d].status != AwaitingApproval then Refused(InvalidStatus)
        else if db.documents[d].currentJob.None? || StillPending(db, d) != {} then Refused(ReviewNotComplete)
        else Done(db.(documents := db.documents[d := db.documents[d].(status := Ready)]), d)
  {
    if d in db.documents && db.documents[d].currentJob.Some? {
      assert StillPending(db, d) == db.OfJob(db.documents[d].currentJob.value, SuggestionStatus.Pending);
    }
  }

  lemma FinishIsExact(s: Service, p: ProjectId, d: DocumentId, fault: Fault)
    ensures var (t, ending) := AfterFinish(s, p, d, fault);
            var out := ReviewRules.FinalizeReview(s.db, p, d);
      if fault.EarlyCrash? || fault.LateCrash? then t == s && ending == Raised
      else if out.Refused? then t == s && ending == Denied(out.error)
      else Ends(s, out.db, [StatusChange(d, p, Ready, s.db.documents[d].currentJob)], fault, t, ending)
  {
    FinishSucceedsExactly(s.db, p, d);
  }

  /** Why a save is refused, in the order in which it is told. A save that passes the version
      is only refused for its rows, and a final one for what it would leave pending. */
  lemma SaveIsRefusedExactly(
    db: Database, p: ProjectId, d: DocumentId, user: UserId, version: int,
    accepted: seq<SuggestionId>, rejected: seq<SuggestionId>, edits: map<SuggestionId, string>,
    finalize: bool, now: int)
    ensures var out :=
              ReviewRules.AtomicReviewSave(db, p, d, user, version, accepted, rejected, edits, finalize, now);
      && (!JobCalls.IsOf(db, p, d) ==> out == Refused(Error.DocumentNotFound))
      && (JobCalls.IsOf(db, p, d) && db.documents[d].status != AwaitingApproval ==> out == Refused(InvalidStatus))
      && (JobCalls.IsOf(db, p, d) && db.documents[d].status == AwaitingApproval && db.documents[d].currentJob.None? ==>
            out == Refused(ReviewNotComplete))
      && (JobCalls.IsOf(db, p, d) && db.documents[d].status == AwaitingApproval && db.documents[d].currentJob.Some? ==>
            var j := db.documents[d].currentJob.value;
            var listed := PairwiseDistinct(accepted + rejected)
                          && forall sid :: sid in accepted + rejected ==> PendingRow(db, d, j, sid);
            && (out == Refused(OptimisticLock) <==> db.documents[d].reviewVersion != version)
            && (out == Refused(AlreadyDecided) <==> db.documents[d].reviewVersion == version && !listed)
            && (out == Refused(ReviewNotComplete) <==>
                  && db.documents[d].reviewVersion == version && listed && finalize
                  && exists sid :: sid in StillPending(db, d) && sid !in accepted + rejected)
            && (out.Refused? ==> out.error in {OptimisticLock, AlreadyDecided, ReviewNotComplete}))
  {
    if JobCalls.IsOf(db, p, d) && db.documents[d].currentJob.Some? {
      var j := db.documents[d].currentJob.value;
      ListedRowsMatch(db, d, j, accepted, rejected, edits);
      SaveIsAllOrNothing(db, p, d, user, version, accepted, rejected, edits, finalize, now);
      assert StillPending(db, d) == db.OfJob(j, SuggestionStatus.Pending);
    }
  }

  /** The answer of a save: how many rows of the current job are pending once it is committed. */
  lemma SaveCounts(
    db: Database, p: ProjectId, d: DocumentId, user: UserId, version: int,
    accepted: seq<SuggestionId>, rejected: seq<SuggestionId>, edits: map<SuggestionId, string>,
    finalize: bool, now: int)
    requires
      ReviewRules.AtomicReviewSave(db, p, d, user, version, accepted, rejected, edits, finalize, now).Done?
    ensures var out :=
              ReviewRules.AtomicReviewSave(db, p, d, user, version, accepted, rejected, edits, finalize, now);
      d in out.db.documents && out.answer == |StillPending(out.db, d)|
  {
    var out := ReviewRules.AtomicReviewSave(db, p, d, user, version, accepted, rejected, edits, finalize, now);
    var j := db.documents[d].currentJob.value;
    SaveIsAllOrNothing(db, p, d, user, version, accepted, rejected, edits, finalize, now);
    assert StillPending(out.db, d) == out.db.OfJob(j, SuggestionStatus.Pending);
  }

  lemma SaveIsExact(
    s: Service, p: ProjectId, d: DocumentId, user: UserId, version: int,
    accepted: seq<SuggestionId>, rejected: seq<SuggestionId>, edits: map<SuggestionId, string>,
    finalize: bool, now: int, fault: Fault)
    ensures var (t, ending) :=
              AfterSave(s, p, d, user, version, accepted, rejected, edits, finalize, now, fault);
            var out :=
              ReviewRules.AtomicReviewSave(s.db, p, d, user, version, accepted, rejected, edits, finalize, now);
      if fault.EarlyCrash? || fault.LateCrash? then t == s && ending == Raised
      else if out.Refused? then t == s && ending == Denied(out.error)
      else
        var own := if finalize then [StatusChange(d, p, Ready, s.db.documents[d].currentJob)] else [];
        Ends(s, out.db, own, fault, t, ending)
  {
  }
}

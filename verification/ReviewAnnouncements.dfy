/** What the suggestion service publishes, and the calls that leave something behind. */
module ReviewAnnouncements {
  import opened Options
  import opened Lifecycle
  import opened Records
  import opened JobRules
  import opened ReviewRules
  import opened DocumentEvents
  import opened Services
  import opened Telling
  import opened SuggestionServices

  // ---------------------------------------------------------------------------
  // Every transaction's own change is honest
  // ---------------------------------------------------------------------------

  /** One document written, or none. */
  lemma OneStatusIsHonest(before: Database, after: Database, d: DocumentId, own: seq<StatusChange>)
    requires d in before.documents && d in after.documents
    requires after.documents[d].project == before.documents[d].project
    requires Statuses(after) == Statuses(before)[d := after.documents[d].status]
    requires own == [] ==> after.documents[d].status == before.documents[d].status
    requires own != [] ==> own == [StatusOf(before, d, after.documents[d].status)]
    ensures Honest(LogEntry(before, after, own))
  {
    if own == [] {
      assert Statuses(after) == Statuses(before);
    } else {
      OneChange(Statuses(before), own[0]);
    }
  }

  lemma ReopeningIsHonest(db: Database, d: DocumentId, rows: set<SuggestionId>)
    requires d in db.documents
    ensures Honest(LogEntry(db, Reopened(ResetRows(db, rows), d), ReopenChange(db, d)))
    ensures ResetRows(Reopened(db, d), rows) == Reopened(ResetRows(db, rows), d)
  {
    var after := Reopened(ResetRows(db, rows), d);
    assert Statuses(after) == Statuses(db)[d := after.documents[d].status];
    OneStatusIsHonest(db, after, d, ReopenChange(db, d));
  }

  lemma RowsAreHonest(before: Database, after: Database)
    requires after.documents == before.documents
    ensures Honest(LogEntry(before, after, []))
  {
    assert Statuses(after) == Statuses(before);
  }

  lemma PatchIsHonest(
    db: Database, p: ProjectId, d: DocumentId, user: UserId, target: SuggestionStatus, pick: Selection, now: int)
    requires ReviewRules.PatchSuggestions(db, p, d, user, target, pick, now).Done?
    ensures var out := ReviewRules.PatchSuggestions(db, p, d, user, target, pick, now);
      Honest(LogEntry(db, out.db, PatchChange(db, d, target, out)))
  {
    var out := ReviewRules.PatchSuggestions(db, p, d, user, target, pick, now);
    if target.Pending? && out.answer != {} {
      ReopeningIsHonest(db, d, out.answer);
    } else {
      RowsAreHonest(db, out.db);
    }
  }

  lemma FinishIsHonest(db: Database, p: ProjectId, d: DocumentId)
    requires ReviewRules.FinalizeReview(db, p, d).Done?
    ensures Honest(LogEntry(db, ReviewRules.FinalizeReview(db, p, d).db, [StatusOf(db, d, Ready)]))
  {
    var after := ReviewRules.FinalizeReview(db, p, d).db;
    assert Statuses(after) == Statuses(db)[d := Ready];
    OneStatusIsHonest(db, after, d, [StatusOf(db, d, Ready)]);
  }

  lemma SaveIsHonest(
    db: Database, p: ProjectId, d: DocumentId, user: UserId, version: int,
    accepted: seq<SuggestionId>, rejected: seq<SuggestionId>, edits: map<SuggestionId, string>,
    finalize: bool, now: int)
    requires
      ReviewRules.AtomicReviewSave(db, p, d, user, version, accepted, rejected, edits, finalize, now).Done?
    ensures var out :=
              ReviewRules.AtomicReviewSave(db, p, d, user, version, accepted, rejected, edits, finalize, now);
      Honest(LogEntry(db, out.db, if finalize then [StatusOf(db, d, Ready)] else []))
  {
    var after :=
      ReviewRules.AtomicReviewSave(db, p, d, user, version, accepted, rejected, edits, finalize, now).db;
    assert Statuses(after) == Statuses(db)[d := after.documents[d].status];
    OneStatusIsHonest(db, after, d, if finalize then [StatusOf(db, d, Ready)] else []);
  }

  // ---------------------------------------------------------------------------
  // What a call adds to the log
  // ---------------------------------------------------------------------------

  lemma CommitTells(s: Service, after: Database, own: seq<StatusChange>, fault: Fault)
    requires s.waiting == [] && Honest(LogEntry(s.db, after, own))
    ensures var t := AtCommit(s, after, own, fault).0;
      ToldAlone(s, t) && (t.waiting != [] <==> fault.LateCrash? && own != [])
  {
    if fault.LateCrash? || fault.CommitFails? {
      NothingNew(s, AtCommit(s, after, own, fault).0);
    } else {
      OneEntry(s, after, own);
    }
  }

  predicate IsDecided(db: Database, j: JobId, sid: SuggestionId) {
    sid in db.suggestions && db.suggestions[sid].job == j && !db.suggestions[sid].status.Pending?
  }

  /** The call has a decision of this job to take back, and a listed one takes back every
      row it lists. */
  predicate TakesBack(db: Database, j: JobId, pick: Selection) {
    match pick
    case ByFilter(f) => !f.OnlyPending? && exists sid :: sid in db.suggestions && IsDecided(db, j, sid)
    case ByIds(ids) => ids != [] && forall i :: 0 <= i < |ids| ==> IsDecided(db, j, ids[i])
  }

  predicate IsReady(db: Database, p: ProjectId, d: DocumentId) {
    db.InProject(d, p) && db.documents[d].status.Ready? && db.documents[d].currentJob.Some?
  }

  /** A call that records the reopening of a ready document and then fails before its commit:
      taking back one decision, when the row turns out to be taken or anything raises; taking
      back several, when reading the document once more raises. */
  predicate Leaks(db: Database, call: Call) {
    match call
    case ResetOne(p, d, sid, fault) =>
      && (fault.RowTaken? || fault.LateCrash?)
      && IsReady(db, p, d) && IsDecided(db, db.documents[d].currentJob.value, sid)
    case Patch(p, d, _, target, pick, _, fault) =>
      && fault.LateCrash? && target.Pending?
      && IsReady(db, p, d) && TakesBack(db, db.documents[d].currentJob.value, pick)
    case _ => false
  }

  /** The call may end with somebody else's commit. */
  predicate FromOutside(call: Call) {
    call.Elsewhere? || call.fault.NotReopened? || call.fault.RowTaken?
  }

  lemma SomethingTakenBack(db: Database, d: DocumentId, j: JobId, pick: Selection)
    requires d in db.documents
    ensures var out := PatchToPending(db, d, j, pick); out.Done? && out.answer != {} <==> TakesBack(db, j, pick)
  {
    match pick
    case ByFilter(f) =>
      var all := Resettable(db, j, None);
      assert forall sid :: sid in all <==> IsDecided(db, j, sid);
    case ByIds(ids) =>
      var chosen := Resettable(db, j, Some(ids));
      assert forall sid :: sid in chosen <==> IsDecided(db, j, sid) && sid in ids;
      assert chosen <= Distinct(ids);
      assert ids != [] ==> ids[0] in Distinct(ids);
      if TakesBack(db, j, pick) {
        assert chosen == Distinct(ids);
      }
      if |chosen| == |Distinct(ids)| {
        SameSize(chosen, Distinct(ids));
        assert forall i :: 0 <= i < |ids| ==> ids[i] in Distinct(ids);
      }
  }

  lemma ResetOneTells(s: Service, p: ProjectId, d: DocumentId, sid: SuggestionId, fault: Fault)
    requires s.waiting == []
    ensures var call, t := ResetOne(p, d, sid, fault), AfterResetOne(s, p, d, sid, fault).0;
      && Told(s, t) && (!FromOutside(call) ==> ToldAlone(s, t))
      && (t.waiting != [] <==> Leaks(s.db, call))
  {
    var out, t := ReviewRules.ResetSuggestion(s.db, p, d, sid), AfterResetOne(s, p, d, sid, fault).0;
    if out.Done? && !fault.EarlyCrash? && !FromOutside(ResetOne(p, d, sid, fault)) {
      ReopeningIsHonest(s.db, d, {sid});
      CommitTells(s, out.db, ReopenChange(s.db, d), fault);
    } else if out.Done? && fault.NotReopened? && ReopenChange(s.db, d) == [] {
      ReopeningIsHonest(s.db, d, {sid});
      CommitTells(s, out.db, [], fault);
    } else {
      NothingNew(s, t);
    }
  }

  lemma NothingNewIf(s: Service, t: Service)
    ensures t.log == s.log ==> Told(s, t) && (t.db == s.db ==> ToldAlone(s, t))
  {
    if t.log == s.log {
      NothingNew(s, t);
    }
  }

  lemma PatchTells(
    s: Service, p: ProjectId, d: DocumentId, user: UserId, target: SuggestionStatus, pick: Selection, now: int,
    fault: Fault)
    requires s.waiting == []
    ensures var call, t := Patch(p, d, user, target, pick, now, fault),
                           AfterPatch(s, p, d, user, target, pick, now, fault).0;
      && Told(s, t) && (!FromOutside(call) ==> ToldAlone(s, t))
      && (t.waiting != [] <==> Leaks(s.db, call))
  {
    var out := ReviewRules.PatchSuggestions(s.db, p, d, user, target, pick, now);
    var t := AfterPatch(s, p, d, user, target, pick, now, fault).0;
    NothingNewIf(s, t);
    if s.db.InProject(d, p) && s.db.documents[d].currentJob.Some? {
      SomethingTakenBack(s.db, d, s.db.documents[d].currentJob.value, pick);
    }
    if out.Done? && !fault.EarlyCrash? {
      PatchIsHonest(s.db, p, d, user, target, pick, now);
      CommitTells(s, out.db, PatchChange(s.db, d, target, out), fault);
    }
  }

  lemma FinishTells(s: Service, p: ProjectId, d: DocumentId, fault: Fault)
    requires s.waiting == []
    ensures var t := AfterFinish(s, p, d, fault).0; ToldAlone(s, t) && t.waiting == []
  {
    NothingNew(s, s);
    var out := ReviewRules.FinalizeReview(s.db, p, d);
    if out.Done? && !fault.EarlyCrash? && !fault.LateCrash? {
      FinishIsHonest(s.db, p, d);
      CommitTells(s, out.db, [StatusOf(s.db, d, Ready)], fault);
    }
  }

  lemma SaveTells(
    s: Service, p: ProjectId, d: DocumentId, user: UserId, version: int,
    accepted: seq<SuggestionId>, rejected: seq<SuggestionId>, edits: map<SuggestionId, string>,
    finalize: bool, now: int, fault: Fault)
    requires s.waiting == []
    ensures var t := AfterSave(s, p, d, user, version, accepted, rejected, edits, finalize, now, fault).0;
      ToldAlone(s, t) && t.waiting == []
  {
    NothingNew(s, s);
    var out := ReviewRules.AtomicReviewSave(s.db, p, d, user, version, accepted, rejected, edits, finalize, now);
    if out.Done? && !fault.EarlyCrash? && !fault.LateCrash? {
      SaveIsHonest(s.db, p, d, user, version, accepted, rejected, edits, finalize, now);
      CommitTells(s, out.db, if finalize then [StatusOf(s.db, d, Ready)] else [], fault);
    }
  }

  /** From an instance with nothing waiting, every call commits honest entries only, and
      leaves something waiting exactly if it leaks. */
  lemma CallTells(s: Service, call: Call)
    requires s.waiting == []
    ensures var t := Serve(s, call);
      && Told(s, t) && (!FromOutside(call) ==> ToldAlone(s, t))
      && (t.waiting != [] <==> Leaks(s.db, call))
  {
    match call
    case Patch(p, d, user, target, pick, now, fault) => PatchTells(s, p, d, user, target, pick, now, fault);
    case ResetOne(p, d, sid, fault) => ResetOneTells(s, p, d, sid, fault);
    case FinishReview(p, d, fault) => FinishTells(s, p, d, fault);
    case SaveReview(p, d, user, version, accepted, rejected, edits, finalize, now, fault) =>
      SaveTells(s, p, d, user, version, accepted, rejected, edits, finalize, now, fault);
    case Elsewhere(_) => NothingNew(s, Serve(s, call));
  }

  // ---------------------------------------------------------------------------
  // Whole runs
  // ---------------------------------------------------------------------------

  lemma CallsTell()
    ensures Tells(Serve, Leaks, FromOutside)
  {
    forall s: Service, call: Call | s.waiting == []
      ensures var t := Serve(s, call);
        && Told(s, t) && (!FromOutside(call) ==> ToldAlone(s, t))
        && (t.waiting != [] <==> Leaks(s.db, call))
    {
      CallTells(s, call);
    }
  }

  /** Nothing waits before any call, nor after the last one, exactly if no call leaks. */
  lemma NothingWaitsExactly(s: Service, calls: seq<Call>)
    requires s.waiting == []
    ensures (forall i :: 0 <= i <= |calls| ==> ServeAll(Serve, s, calls[..i]).waiting == [])
      <==> (forall i :: 0 <= i < |calls| ==> !LeaksAt(Serve, Leaks, s, calls, i))
  {
    CallsTell();
    NothingWaits(Serve, Leaks, FromOutside, s, calls);
  }

  /** Over any calls on one instance, whatever fails and whoever comes first: if none of them
      leaks, every transaction is told exactly, and if in addition nobody else committed, a
      subscriber keeps up with the committed statuses. */
  lemma ReviewsAreAnnounced(s: Service, calls: seq<Call>)
    requires s.waiting == [] && forall i :: 0 <= i < |calls| ==> !LeaksAt(Serve, Leaks, s, calls, i)
    ensures var t := ServeAll(Serve, s, calls);
      && Told(s, t)
      && ((forall i :: 0 <= i < |calls| ==> !FromOutside(calls[i])) ==>
            Replay(Statuses(s.db), Sent(Since(s, t))) == Statuses(t.db))
  {
    CallsTell();
    KeepsUp(Serve, Leaks, FromOutside, s, calls);
  }

  // ---------------------------------------------------------------------------
  // The leak
  // ---------------------------------------------------------------------------

  /** What a leak leaves is the reopening of a document that the call found ready and did not
      change: unless somebody else took the row, the database is as it was. */
  lemma LeakedIsFalse(s: Service, call: Call)
    requires s.waiting == [] && Leaks(s.db, call)
    ensures var t := Serve(s, call);
      && t.waiting == [StatusOf(s.db, call.d, AwaitingApproval)] && t.log == s.log
      && t.db == (if call.fault.RowTaken? then call.fault.seen else s.db)
      && !IsTrue(s.db, t.waiting[0])
  {
    if call.Patch? {
      SomethingTakenBack(s.db, call.d, s.db.documents[call.d].currentJob.value, call.pick);
    }
  }

  /** The next transaction that commits publishes it, from whatever database; that tells the
      truth exactly if the document is awaiting approval, in the same project, in what this
      transaction commits. */
  lemma LeakIsPublished(s: Service, leak: Call, before: Database, after: Database, own: seq<StatusChange>)
    requires s.waiting == [] && Leaks(s.db, leak) && Honest(LogEntry(before, after, own))
    ensures var entry := LogEntry(before, after, [StatusOf(s.db, leak.d, AwaitingApproval)] + own);
      && Serve(s, leak).Seeing(Some(before)).Committed(after, own) == Service(after, [], s.log + [entry])
      && (Honest(entry) <==> after.InProject(leak.d, leak.p) && after.documents[leak.d].status == AwaitingApproval)
  {
    LeakedIsFalse(s, leak);
    var left := Serve(s, leak).Seeing(Some(before));
    WaitingIsPublished(left, after, own);
    assert left.waiting[0] in left.waiting;
  }

  const REVIEWED := Database(
    map[5 := Document(0, Ready, Some(3), 1), 6 := Document(0, AwaitingApproval, Some(4), 1)],
    map[3 := Job(5, Success, None), 4 := Job(6, Success, None)],
    map[8 := Suggestion(3, 5, Accepted, Some(1), Some(0), None),
        9 := Suggestion(4, 6, Rejected, Some(1), Some(0), None)])

  const LOST := ResetOne(0, 5, 8, LateCrash)
  const FINISHED := FinishReview(0, 6, NoFault)

  lemma LostLeaks()
    ensures Leaks(REVIEWED, LOST)
    ensures Serve(Service(REVIEWED, [], []), LOST) ==
      Service(REVIEWED, [StatusChange(5, 0, AwaitingApproval, Some(3))], [])
  {
  }

  const DONE := REVIEWED.SetDocument(6, Document(0, Ready, Some(4), 1))

  lemma FinishedCommits(left: Service)
    requires left.db == REVIEWED
    ensures Serve(left, FINISHED) == left.Committed(DONE, [StatusChange(6, 0, Ready, Some(4))])
    ensures Honest(LogEntry(REVIEWED, DONE, [StatusChange(6, 0, Ready, Some(4))]))
  {
    assert REVIEWED.OfJob(4, SuggestionStatus.Pending) == {};
    FinishIsHonest(REVIEWED, 0, 6);
  }

  /** An exception in the UPDATE that takes one decision back, and then the end of another
      review on the same instance: subscribers hear that document 5 awaits approval, while it
      has been ready all along. */
  lemma LostResetAnnouncesFalseReopening()
    ensures var t := ServeAll(Serve, Service(REVIEWED, [], []), [LOST, FINISHED]);
      && |t.log| == 1 && t.log[0].before == REVIEWED
      && t.db.InProject(5, 0) && t.db.documents[5].status == Ready
      && t.log[0].sent == [StatusChange(5, 0, AwaitingApproval, Some(3)), StatusChange(6, 0, Ready, Some(4))]
      && !Honest(t.log[0])
  {
    var s := Service(REVIEWED, [], []);
    LostLeaks();
    var left := Serve(s, LOST);
    assert left.Seeing(Some(REVIEWED)) == left;
    FinishedCommits(left);
    LeakIsPublished(s, LOST, REVIEWED, DONE, [StatusChange(6, 0, Ready, Some(4))]);
    assert [LOST, FINISHED][..1] == [LOST] && [LOST][..0] == [];
    assert ServeAll(Serve, s, [LOST]) == left;
  }
}

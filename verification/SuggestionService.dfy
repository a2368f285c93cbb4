/** The suggestion service as it runs: conditional UPDATEs first, checks on their row
    counts afterwards, and a rollback of the session when a check fails. What it recorded in
    its outbox by then is only forgotten when the commit itself fails. */
module SuggestionServices {
  import opened Options
  import opened Lifecycle
  import opened Records
  import opened JobRules
  import opened ReviewRules
  import opened DocumentEvents
  import opened Services

  /** What may happen to one transaction: nothing; an exception before a status is recorded;
      the conditional UPDATE of the document, or of the single row, finds that somebody else
      was there first, `seen` being what they committed; an exception between the recorded
      status and the commit; a commit that fails. */
  datatype Fault =
    | NoFault
    | EarlyCrash
    | NotReopened(seen: Database)
    | RowTaken(seen: Database)
    | LateCrash
    | CommitFails

  // ---------------------------------------------------------------------------
  // What every call does to the instance
  // ---------------------------------------------------------------------------

  function StatusOf(db: Database, d: DocumentId, status: DocumentStatus): StatusChange
    requires d in db.documents
  {
    StatusChange(d, db.documents[d].project, status, db.documents[d].currentJob)
  }

  /** What `_reopen_review` records: something for a ready document only. */
  function ReopenChange(db: Database, d: DocumentId): seq<StatusChange>
    requires d in db.documents
  {
    if db.documents[d].status.Ready? then [StatusOf(db, d, AwaitingApproval)] else []
  }

  /** The last steps of a transaction: whatever still runs before the commit, and the commit. */
  function AtCommit(s: Service, after: Database, own: seq<StatusChange>, fault: Fault): (Service, Ending) {
    match fault
    case LateCrash => (s.(waiting := s.waiting + own), Raised)
    case CommitFails => (s.(waiting := []), Raised)
    case _ => (s.Committed(after, own), Finished)
  }

  function AfterResetOne(s: Service, p: ProjectId, d: DocumentId, sid: SuggestionId, fault: Fault)
    : (Service, Ending)
  {
    if fault.EarlyCrash? then (s, Raised)
    else
      match ReviewRules.ResetSuggestion(s.db, p, d, sid)
      case Refused(error) => (s, Denied(error))
      case Done(reset, _) =>
        var own := ReopenChange(s.db, d);
        if fault.NotReopened? && own != [] then (s.Seeing(Some(fault.seen)), Denied(InvalidStatus))
        else if fault.RowTaken? then (Service(fault.seen, s.waiting + own, s.log), Denied(ResetNotAllowed))
        else AtCommit(s, reset, own, fault)
  }

  function PatchedRows(
    db: Database, d: DocumentId, j: JobId, user: UserId, target: SuggestionStatus, pick: Selection, now: int)
    : Outcome<set<SuggestionId>>
    requires d in db.documents
  {
    if target.Pending? then PatchToPending(db, d, j, pick)
    else PatchToDecided(db, d, j, target.Accepted?, user, now, pick)
  }

  /** What `patch_suggestions` records: the reopening, if it took anything back. */
  function PatchChange(db: Database, d: DocumentId, target: SuggestionStatus, out: Outcome<set<SuggestionId>>)
    : seq<StatusChange>
    requires d in db.documents
  {
    if target.Pending? && out.Done? && out.answer != {} then ReopenChange(db, d) else []
  }

  /** Behind the recorded status the document is read once more. */
  function PatchEnds(
    s: Service, d: DocumentId, target: SuggestionStatus, out: Outcome<set<SuggestionId>>, fault: Fault)
    : (Service, Ending)
    requires out.Done? ==> d in s.db.documents
  {
    match out
    case Refused(error) => (s, Denied(error))
    case Done(patched, _) =>
      var own := PatchChange(s.db, d, target, out);
      if fault.NotReopened? && own != [] then (s.Seeing(Some(fault.seen)), Denied(InvalidStatus))
      else AtCommit(s, patched, own, fault)
  }

  function AfterPatch(
    s: Service, p: ProjectId, d: DocumentId, user: UserId, target: SuggestionStatus, pick: Selection, now: int,
    fault: Fault): (Service, Ending)
  {
    if fault.EarlyCrash? then (s, Raised)
    else PatchEnds(s, d, target, ReviewRules.PatchSuggestions(s.db, p, d, user, target, pick, now), fault)
  }

  /** Here nothing runs between the recorded status and the commit. */
  function AfterFinish(s: Service, p: ProjectId, d: DocumentId, fault: Fault): (Service, Ending) {
    if fault.EarlyCrash? || fault.LateCrash? then (s, Raised)
    else
      match ReviewRules.FinalizeReview(s.db, p, d)
      case Refused(error) => (s, Denied(error))
      case Done(finished, _) => AtCommit(s, finished, [StatusOf(s.db, d, Ready)], fault)
  }

  function AfterSave(
    s: Service, p: ProjectId, d: DocumentId, user: UserId, version: int,
    accepted: seq<SuggestionId>, rejected: seq<SuggestionId>, edits: map<SuggestionId, string>,
    finalize: bool, now: int, fault: Fault): (Service, Ending)
  {
    if fault.EarlyCrash? || fault.LateCrash? then (s, Raised)
    else
      match ReviewRules.AtomicReviewSave(s.db, p, d, user, version, accepted, rejected, edits, finalize, now)
      case Refused(error) => (s, Denied(error))
      case Done(saved, _) => AtCommit(s, saved, if finalize then [StatusOf(s.db, d, Ready)] else [], fault)
  }

  /** A call on the instance, or a commit of somebody else. */
  datatype Call =
    | Patch(p: ProjectId, d: DocumentId, user: UserId, target: SuggestionStatus, pick: Selection, now: int,
            fault: Fault)
    | ResetOne(p: ProjectId, d: DocumentId, sid: SuggestionId, fault: Fault)
    | FinishReview(p: ProjectId, d: DocumentId, fault: Fault)
    | SaveReview(p: ProjectId, d: DocumentId, user: UserId, version: int,
                 accepted: seq<SuggestionId>, rejected: seq<SuggestionId>, edits: map<SuggestionId, string>,
                 finalize: bool, now: int, fault: Fault)
    | Elsewhere(db: Database)

  function Serve(s: Service, call: Call): Service {
    match call
    case Patch(p, d, user, target, pick, now, fault) => AfterPatch(s, p, d, user, target, pick, now, fault).0
    case ResetOne(p, d, sid, fault) => AfterResetOne(s, p, d, sid, fault).0
    case FinishReview(p, d, fault) => AfterFinish(s, p, d, fault).0
    case SaveReview(p, d, user, version, accepted, rejected, edits, finalize, now, fault) =>
      AfterSave(s, p, d, user, version, accepted, rejected, edits, finalize, now, fault).0
    case Elsewhere(db) => s.(db := db)
  }

  class SuggestionService {
    var db: Database
    const outbox: DocumentEventOutbox
    /** What has been recorded and neither published nor forgotten, publisher or not. */
    ghost var waiting: seq<StatusChange>
    ghost var log: seq<LogEntry>

    constructor (db: Database, outbox: DocumentEventOutbox)
      requires outbox.pending == [] && outbox.published == []
      ensures this.outbox == outbox && Synced() && View() == Service(db, [], [])
    {
      this.db, this.outbox, waiting, log := db, outbox, [], [];
    }

    ghost function View(): Service
      reads this
    {
      Service(db, waiting, log)
    }

    /** Subscribers were told what was sent, and the outbox holds what waits; without a
        publisher neither happens. */
    ghost predicate Synced()
      reads this, outbox
    {
      if outbox.hasPublisher
      then outbox.pending == waiting && outbox.published == Announced(Sent(log), outbox.owners, outbox.arrives)
      else outbox.pending == [] && outbox.published == []
    }

    /** `_commit`: a failing one rolls back to `saved` and forgets what waits. */
    method Commit(saved: Database, fails: bool) returns (ok: bool)
      requires Synced()
      modifies this, outbox
      ensures Synced() && ok == !fails
      ensures View() == if fails then Service(saved, [], old(log))
        else Service(old(db), [], old(log) + [LogEntry(saved, old(db), old(waiting))])
    {
      if fails {
        outbox.Discard();
        db, waiting := saved, [];
        return false;
      }
      outbox.Flush();
      ghost var entry := LogEntry(saved, db, waiting);
      AnnouncedConcat(Sent(log), waiting, outbox.owners, outbox.arrives);
      assert (log + [entry])[..|log|] == log;
      log, waiting := log + [entry], [];
      ok := true;
    }

    /** The end of a transaction that began in `s` and recorded `own`. */
    method Conclude(saved: Database, fault: Fault, ghost s: Service, ghost own: seq<StatusChange>)
      returns (ending: Ending)
      requires Synced() && s.db == saved && s.log == log && waiting == s.waiting + own
      modifies this, outbox
      ensures Synced() && (View(), ending) == AtCommit(s, old(db), own, fault)
    {
      if fault.LateCrash? {
        db := saved;
        return Raised;
      }
      var ok := Commit(saved, fault.CommitFails?);
      ending := if ok then Finished else Raised;
    }

    method Record(d: DocumentId, status: DocumentStatus)
      requires Synced() && d in db.documents
      modifies this`waiting, outbox`pending
      ensures Synced() && waiting == old(waiting) + [StatusOf(db, d, status)]
    {
      var row := db.documents[d];
      outbox.Record(StatusChange(d, row.project, status, row.currentJob));
      waiting := waiting + [StatusChange(d, row.project, status, row.currentJob)];
    }

    /** The checks that precede a decision, its taking back, or the end of a review. */
    method Refusal(p: ProjectId, d: DocumentId, takesBack: bool) returns (refusal: Option<Error>)
      ensures refusal ==
        if !db.InProject(d, p) then Some(Error.DocumentNotFound)
        else if !(if takesBack then CanResetReview(db.documents[d].status) else CanReview(db.documents[d].status))
        then Some(InvalidStatus)
        else if db.documents[d].currentJob.None? then Some(ReviewNotComplete)
        else None
    {
      if !db.InProject(d, p) {
        return Some(Error.DocumentNotFound);
      }
      if takesBack && !CanResetReview(db.documents[d].status) {
        return Some(InvalidStatus);
      }
      if !takesBack && !CanReview(db.documents[d].status) {
        return Some(InvalidStatus);
      }
      return if db.documents[d].currentJob.None? then Some(ReviewNotComplete) else None;
    }

    /** `_finish_review` */
    method FinishDocument(d: DocumentId)
      requires Synced() && d in db.documents && CanReview(db.documents[d].status)
      modifies this`db, this`waiting, outbox`pending
      ensures Synced() && db == old(db).SetDocument(d, old(db).documents[d].(status := Ready))
      ensures waiting == old(waiting) + [StatusOf(old(db), d, Ready)]
    {
      db := db.SetDocument(d, db.documents[d].(status := Ready));
      Record(d, Ready);
    }

    // The repositories' conditional UPDATEs.

    /** Listed pending rows get status, edit, decider and time; no other row and no other
        column changes, and the answer is the number of rows that changed. */
    method BulkUpdateStatus(d: DocumentId, j: JobId, decisions: seq<Decision>, user: UserId, now: int)
      returns (updated: nat)
      modifies this`db
      ensures SameButRows(old(db), db) && updated == |ChangedRows(old(db), db)|
      ensures forall sid :: sid in old(db).suggestions ==>
        var row := old(db).suggestions[sid];
        if row.document == d && row.job == j && row.status.Pending? && IsListed(decisions, sid)
        then IsWritten(row, db.suggestions[sid], decisions, sid, user, now)
        else db.suggestions[sid] == row
    {
      if decisions == [] {
        assert ChangedRows(db, db) == {};
        return 0;
      }
      ghost var before := db;
      var rows := Decidable(db, d, j, decisions);
      db := DecideRows(db, d, j, decisions, user, now);
      updated := |rows|;
      DecidedRowByRow(before, d, j, decisions, user, now);
    }

    /** The decided rows of the job, all of them or those listed, lose every trace of their
        decision; the answer is who they are, and nothing else changes. */
    method ResetToPending(j: JobId, ids: Option<seq<SuggestionId>>) returns (reset: set<SuggestionId>)
      modifies this`db
      ensures SameButRows(old(db), db) && reset <= old(db).suggestions.Keys
      ensures forall sid :: sid in old(db).suggestions ==>
        var row := old(db).suggestions[sid];
        if row.job == j && !row.status.Pending? && (ids.Some? ==> sid in ids.value)
        then
          sid in reset && db.suggestions[sid] ==
            row.(status := SuggestionStatus.Pending, decidedBy := None, decidedAt := None, editedText := None)
        else sid !in reset && db.suggestions[sid] == row
    {
      if ids.Some? && ids.value == [] {
        return {};
      }
      reset := Resettable(db, j, ids);
      db := ResetRows(db, reset);
    }

    method CompareAndSetStatus(d: DocumentId, job: Option<JobId>, expected: DocumentStatus, target: DocumentStatus)
      returns (changed: bool)
      modifies this`db
      ensures changed == (d in old(db).documents
        && old(db).documents[d].status == expected && old(db).documents[d].currentJob == job)
      ensures db == if changed then old(db).SetDocument(d, old(db).documents[d].(status := target)) else old(db)
    {
      changed := d in db.documents && db.documents[d].status == expected && db.documents[d].currentJob == job;
      if changed {
        db := db.SetDocument(d, db.documents[d].(status := target));
      }
    }

    method CompareAndIncrementReviewVersion(d: DocumentId, expected: int) returns (changed: bool)
      modifies this`db
      ensures changed <==> d in old(db).documents && old(db).documents[d].reviewVersion == expected
      ensures db == if changed
        then old(db).SetDocument(d, old(db).documents[d].(reviewVersion := expected + 1)) else old(db)
    {
      changed := d in db.documents && db.documents[d].reviewVersion == expected;
      if changed {
        db := db.SetDocument(d, db.documents[d].(reviewVersion := db.documents[d].reviewVersion + 1));
      }
    }

    // The service.

    /** `_reopen_review`; `taken` is a conditional UPDATE that comes too late. */
    method ReopenReview(d: DocumentId, taken: bool) returns (ok: bool)
      requires Synced() && d in db.documents
      modifies this`db, this`waiting, outbox`pending
      ensures Synced() && (ok <==> !(taken && old(db).documents[d].status.Ready?))
      ensures ok ==> db == Reopened(old(db), d) && waiting == old(waiting) + ReopenChange(old(db), d)
      ensures !ok ==> waiting == old(waiting)
    {
      if db.documents[d].status != Ready {
        return true;
      }
      if taken {
        return false;
      }
      ok := CompareAndSetStatus(d, db.documents[d].currentJob, Ready, AwaitingApproval);
      Record(d, AwaitingApproval);
    }

    method ResetRowsOf(j: JobId, pick: Selection) returns (reset: Option<set<SuggestionId>>)
      modifies this`db
      ensures var chosen := match pick
                case ByFilter(f) => if f.OnlyPending? then {} else Resettable(old(db), j, None)
                case ByIds(ids) => Resettable(old(db), j, Some(ids));
        && (reset.None? <==> pick.ByIds? && |chosen| != |Distinct(pick.ids)|)
        && (reset.Some? ==> reset.value == chosen && db == ResetRows(old(db), chosen))
    {
      match pick
      case ByFilter(f) =>
        if f.OnlyPending? {
          assert ResetRows(db, {}).suggestions == db.suggestions;
          return Some({});
        }
        ghost var before := db;
        var all := ResetToPending(j, None);
        assert all == Resettable(before, j, None) && db.suggestions == ResetRows(before, all).suggestions;
        reset := Some(all);
      case ByIds(ids) =>
        ghost var before := db;
        var chosen := ResetToPending(j, Some(ids));
        assert chosen == Resettable(before, j, Some(ids)) && db.suggestions == ResetRows(before, chosen).suggestions;
        reset := if |chosen| != |Distinct(ids)| then None else Some(chosen);
    }

    method DecideRowsOf(d: DocumentId, j: JobId, accept: bool, user: UserId, now: int, pick: Selection)
      returns (updated: Option<set<SuggestionId>>)
      modifies this`db
      ensures var out := PatchToDecided(old(db), d, j, accept, user, now, pick);
        && (updated.Some? <==> out.Done?)
        && (out.Done? ==> db == out.db && updated.value == out.answer)
    {
      match pick
      case ByIds(ids) =>
        ghost var before := db;
        var count := BulkUpdateStatus(d, j, Plain(ids, accept), user, now);
        RowByRowIsDecided(before, db, d, j, Plain(ids, accept), user, now);
        updated := if count != |Distinct(ids)| then None else Some(Distinct(ids));
      case ByFilter(f) =>
        if f.OnlyDecided? {
          return None;
        }
        updated := Some(db.OfJob(j, SuggestionStatus.Pending));
        db := DecideAll(db, j, accept, user, now);
    }

    /** The branch of `patch_suggestions` that takes decisions back. */
    method TakeBack(d: DocumentId, j: JobId, pick: Selection, taken: bool)
      returns (changed: set<SuggestionId>, problem: Option<Error>)
      requires Synced() && d in db.documents
      modifies this`db, this`waiting, outbox`pending
      ensures Synced()
      ensures var out := PatchToPending(old(db), d, j, pick);
              var reopens := out.Done? && out.answer != {} && old(db).documents[d].status.Ready?;
        && problem == (if out.Done? && taken && reopens then Some(InvalidStatus) else out.Problem())
        && (problem.None? ==> db == out.db && changed == out.answer)
        && waiting == if problem.None? && reopens then old(waiting) + ReopenChange(old(db), d) else old(waiting)
    {
      ghost var before := db;
      var reset := ResetRowsOf(j, pick);
      if reset.None? {
        return {}, Some(ResetNotAllowed);
      }
      changed, problem := reset.value, None;
      if reset.value != {} {
        var ok := ReopenReview(d, taken);
        problem := if ok then None else Some(InvalidStatus);
      } else {
        assert ResetRows(before, {}).suggestions == before.suggestions;
      }
    }

    /** The rows of `patch_suggestions`, and the document when decisions are taken back. */
    method PatchRows(
      d: DocumentId, j: JobId, user: UserId, target: SuggestionStatus, pick: Selection, now: int, taken: bool)
      returns (changed: set<SuggestionId>, problem: Option<Error>)
      requires Synced() && d in db.documents
      modifies this`db, this`waiting, outbox`pending
      ensures Synced()
      ensures var out := PatchedRows(old(db), d, j, user, target, pick, now);
              var own := PatchChange(old(db), d, target, out);
        && problem == (if out.Done? && taken && own != [] then Some(InvalidStatus) else out.Problem())
        && (problem.Some? ==> waiting == old(waiting))
        && (problem.None? ==> db == out.db && changed == out.answer && waiting == old(waiting) + own)
    {
      if target.Pending? {
        changed, problem := TakeBack(d, j, pick, taken);
        return;
      }
      var updated := DecideRowsOf(d, j, target.Accepted?, user, now, pick);
      changed, problem := {}, Some(AlreadyDecided);
      if updated.Some? {
        changed, problem := updated.value, None;
      }
    }

    /** `patch_suggestions` behind its checks. */
    method PatchChecked(
      d: DocumentId, j: JobId, user: UserId, target: SuggestionStatus, pick: Selection, now: int, fault: Fault)
      returns (changed: set<SuggestionId>, ending: Ending)
      requires Synced() && d in db.documents
      modifies this, outbox
      ensures Synced()
      ensures var out := PatchedRows(old(db), d, j, user, target, pick, now);
        && (View(), ending) == PatchEnds(old(View()), d, target, out, fault)
        && (ending.Finished? ==> out.Done? && changed == out.answer)
    {
      var saved := db;
      var problem;
      changed, problem := PatchRows(d, j, user, target, pick, now, fault.NotReopened?);
      if problem.Some? {
        db := if fault.NotReopened? && problem.value == InvalidStatus then fault.seen else saved;
        return changed, Denied(problem.value);
      }
      ghost var out := PatchedRows(saved, d, j, user, target, pick, now);
      ending := Conclude(saved, fault, old(View()), PatchChange(saved, d, target, out));
    }

    method PatchSuggestions(
      p: ProjectId, d: DocumentId, user: UserId, target: SuggestionStatus, pick: Selection, now: int, fault: Fault)
      returns (changed: set<SuggestionId>, ending: Ending)
      requires Synced()
      modifies this, outbox
      ensures Synced() && (View(), ending) == AfterPatch(old(View()), p, d, user, target, pick, now, fault)
      ensures var out := ReviewRules.PatchSuggestions(old(db), p, d, user, target, pick, now);
        ending.Finished? ==> out.Done? && changed == out.answer
    {
      if fault.EarlyCrash? {
        return {}, Raised;
      }
      var refusal := Refusal(p, d, target.Pending?);
      if refusal.Some? {
        return {}, Denied(refusal.value);
      }
      changed, ending := PatchChecked(d, db.documents[d].currentJob.value, user, target, pick, now, fault);
    }

    /** The status is recorded before the row's own conditional UPDATE, and an exception
        behind it leaves the record to `__aexit__`, which only rolls back. */
    method ResetSuggestion(p: ProjectId, d: DocumentId, sid: SuggestionId, fault: Fault) returns (ending: Ending)
      requires Synced()
      modifies this, outbox
      ensures Synced() && (View(), ending) == AfterResetOne(old(View()), p, d, sid, fault)
    {
      var saved := db;
      if fault.EarlyCrash? {
        return Raised;
      }
      if !db.InProject(d, p) {
        return Denied(Error.DocumentNotFound);
      }
      if !CanResetReview(db.documents[d].status) {
        return Denied(InvalidStatus);
      }
      if sid !in db.suggestions {
        return Denied(SuggestionNotFound);
      }
      if db.documents[d].currentJob != Some(db.suggestions[sid].job) {
        return Denied(StaleSuggestionJob);
      }
      if db.suggestions[sid].status.Pending? {
        return Denied(ResetNotAllowed);
      }
      var reopened := ReopenReview(d, fault.NotReopened?);
      if !reopened {
        db := fault.seen;
        return Denied(InvalidStatus);
      }
      if fault.RowTaken? {
        db := fault.seen;
        return Denied(ResetNotAllowed);
      }
      db := ResetRows(db, {sid});
      ending := Conclude(saved, fault, old(View()), ReopenChange(saved, d));
    }

    method FinalizeReview(p: ProjectId, d: DocumentId, fault: Fault) returns (ending: Ending)
      requires Synced()
      modifies this, outbox
      ensures Synced() && (View(), ending) == AfterFinish(old(View()), p, d, fault)
    {
      var saved := db;
      if fault.EarlyCrash? || fault.LateCrash? {
        return Raised;
      }
      var refusal := Refusal(p, d, false);
      if refusal.Some? {
        return Denied(refusal.value);
      }
      var pending := |db.OfJob(db.documents[d].currentJob.value, SuggestionStatus.Pending)|;
      if pending != 0 {
        return Denied(ReviewNotComplete);
      }
      FinishDocument(d);
      ending := Conclude(saved, fault, old(View()), [StatusOf(saved, d, Ready)]);
    }

    /** The version is raised and the rows are written before the checks that may still
        refuse the save. */
    method SaveRows(
      d: DocumentId, j: JobId, user: UserId, version: int, decisions: seq<Decision>, finalize: bool, now: int)
      returns (pending: nat, problem: Option<Error>)
      requires Synced() && d in db.documents && CanReview(db.documents[d].status)
      modifies this`db, this`waiting, outbox`pending
      ensures Synced()
      ensures var locked := old(db).SetDocument(d, old(db).documents[d].(reviewVersion := version + 1));
              var saved := DecideRows(locked, d, j, decisions, user, now);
              var own := if finalize then [StatusOf(old(db), d, Ready)] else [];
              var left := |saved.OfJob(j, SuggestionStatus.Pending)|;
        && problem == (
             if old(db).documents[d].reviewVersion != version then Some(OptimisticLock)
             else if |Decidable(old(db), d, j, decisions)| != |decisions| then Some(AlreadyDecided)
             else if finalize && left != 0 then Some(ReviewNotComplete)
             else None)
        && (problem.Some? ==> waiting == old(waiting))
        && (problem.None? ==> pending == left && waiting == old(waiting) + own)
        && (problem.None? ==>
              db == if finalize then saved.SetDocument(d, saved.documents[d].(status := Ready)) else saved)
    {
      ghost var before := db;
      pending := 0;
      var locked := CompareAndIncrementReviewVersion(d, version);
      if !locked {
        return 0, Some(OptimisticLock);
      }
      assert Decidable(db, d, j, decisions) == Decidable(before, d, j, decisions);
      ghost var raised := db;
      var updated := BulkUpdateStatus(d, j, decisions, user, now);
      RowByRowIsDecided(raised, db, d, j, decisions, user, now);
      if updated != |decisions| {
        return 0, Some(AlreadyDecided);
      }
      pending, problem := |db.OfJob(j, SuggestionStatus.Pending)|, None;
      if finalize && pending != 0 {
        problem := Some(ReviewNotComplete);
      } else if finalize {
        FinishDocument(d);
      }
    }

    /** A save that is refused rolls the version and the rows back. */
    method AtomicReviewSave(
      p: ProjectId, d: DocumentId, user: UserId, version: int,
      accepted: seq<SuggestionId>, rejected: seq<SuggestionId>, edits: map<SuggestionId, string>,
      finalize: bool, now: int, fault: Fault)
      returns (pending: nat, ending: Ending)
      requires Synced()
      modifies this, outbox
      ensures Synced()
      ensures (View(), ending) ==
        AfterSave(old(View()), p, d, user, version, accepted, rejected, edits, finalize, now, fault)
      ensures var out :=
                ReviewRules.AtomicReviewSave(
                  old(db), p, d, user, version, accepted, rejected, edits, finalize, now);
        ending.Finished? ==> out.Done? && pending == out.answer
    {
      var saved := db;
      if fault.EarlyCrash? || fault.LateCrash? {
        return 0, Raised;
      }
      var refusal := Refusal(p, d, false);
      if refusal.Some? {
        return 0, Denied(refusal.value);
      }
      var problem;
      pending, problem := SaveRows(
        d, db.documents[d].currentJob.value, user, version, Decisions(accepted, rejected, edits), finalize, now);
      if problem.Some? {
        db := saved;
        return pending, Denied(problem.value);
      }
      ending := Conclude(saved, fault, old(View()), if finalize then [StatusOf(saved, d, Ready)] else []);
    }
  }
}

/** What each call of the suggestion service does to the database as one transaction. */
module ReviewRules {
  import opened Options
  import opened Lifecycle
  import opened Records
  import opened JobRules

  datatype Decision = Decision(suggestion: SuggestionId, accept: bool, editedText: Option<string>)

  datatype Filter = OnlyPending | OnlyDecided | Everything

  datatype Selection = ByIds(ids: seq<SuggestionId>) | ByFilter(filter: Filter)

  function Chosen(decisions: seq<Decision>): set<SuggestionId> {
    set i | 0 <= i < |decisions| :: decisions[i].suggestion
  }

  /** The edit of the first decision that carries one for this row: CASE takes its
      branches in order. */
  function EditFor(decisions: seq<Decision>, sid: SuggestionId): Option<string> {
    if decisions == [] then None
    else if decisions[0].suggestion == sid && decisions[0].editedText.Some? then decisions[0].editedText
    else EditFor(decisions[1..], sid)
  }

  predicate AcceptedIn(decisions: seq<Decision>, sid: SuggestionId) {
    exists i :: 0 <= i < |decisions| && decisions[i].suggestion == sid && decisions[i].accept
  }

  /** The rows `bulk_update_status` touches: pending, listed, of this document and job. */
  function Decidable(db: Database, d: DocumentId, j: JobId, decisions: seq<Decision>): set<SuggestionId> {
    set sid | sid in db.suggestions && db.suggestions[sid].document == d && db.suggestions[sid].job == j
              && db.suggestions[sid].status.Pending? && sid in Chosen(decisions)
  }

  function Decided(row: Suggestion, accept: bool, edit: Option<string>, user: UserId, now: int): Suggestion {
    row.(status := if accept then Accepted else Rejected, editedText := edit,
         decidedBy := Some(user), decidedAt := Some(now))
  }

  function DecideRows(
    db: Database, d: DocumentId, j: JobId, decisions: seq<Decision>, user: UserId, now: int): Database
  {
    var rows := Decidable(db, d, j, decisions);
    db.(suggestions := map sid | sid in db.suggestions ::
          if sid in rows
          then Decided(db.suggestions[sid], AcceptedIn(decisions, sid), EditFor(decisions, sid), user, now)
          else db.suggestions[sid])
  }

  // The same UPDATE, row by row.

  predicate IsListed(decisions: seq<Decision>, sid: SuggestionId) {
    exists i :: 0 <= i < |decisions| && decisions[i].suggestion == sid
  }

  predicate FirstEditAt(decisions: seq<Decision>, sid: SuggestionId, i: nat)
    requires i < |decisions|
  {
    && decisions[i].suggestion == sid && decisions[i].editedText.Some?
    && forall k :: 0 <= k < i && decisions[k].suggestion == sid ==> decisions[k].editedText.None?
  }

  /** The edit is the one of the first decision about the row that has any. */
  predicate IsFirstEdit(decisions: seq<Decision>, sid: SuggestionId, edit: Option<string>) {
    match edit
    case None => forall i :: 0 <= i < |decisions| && decisions[i].suggestion == sid ==> decisions[i].editedText.None?
    case Some(_) =>
      exists i :: 0 <= i < |decisions| && FirstEditAt(decisions, sid, i) && decisions[i].editedText == edit
  }

  predicate IsWritten(
    before: Suggestion, after: Suggestion, decisions: seq<Decision>, sid: SuggestionId, user: UserId, now: int)
  {
    && after.job == before.job && after.document == before.document
    && after.decidedBy == Some(user) && after.decidedAt == Some(now)
    && after.status == (if exists i :: 0 <= i < |decisions| && decisions[i].suggestion == sid && decisions[i].accept
                        then Accepted else Rejected)
    && IsFirstEdit(decisions, sid, after.editedText)
  }

  predicate SameButRows(before: Database, after: Database) {
    && after.documents == before.documents && after.jobs == before.jobs
    && after.suggestions.Keys == before.suggestions.Keys
  }

  function ChangedRows(before: Database, after: Database): set<SuggestionId>
    requires SameButRows(before, after)
  {
    set sid | sid in before.suggestions && after.suggestions[sid] != before.suggestions[sid]
  }

  lemma {:induction false} FirstEditIs(decisions: seq<Decision>, sid: SuggestionId, edit: Option<string>)
    ensures IsFirstEdit(decisions, sid, edit) <==> edit == EditFor(decisions, sid)
  {
    if decisions != [] {
      var rest := decisions[1..];
      FirstEditIs(rest, sid, edit);
      var here := decisions[0].suggestion == sid && decisions[0].editedText.Some?;
      if here {
        assert FirstEditAt(decisions, sid, 0);
        assert forall i :: 0 < i < |decisions| ==> !FirstEditAt(decisions, sid, i);
      } else if edit.Some? {
        if IsFirstEdit(decisions, sid, edit) {
          var i :| 0 <= i < |decisions| && FirstEditAt(decisions, sid, i) && decisions[i].editedText == edit;
          assert FirstEditAt(rest, sid, i - 1);
        }
        if IsFirstEdit(rest, sid, edit) {
          var i :| 0 <= i < |rest| && FirstEditAt(rest, sid, i) && rest[i].editedText == edit;
          assert FirstEditAt(decisions, sid, i + 1);
        }
      } else {
        assert forall i :: 0 < i < |decisions| ==> decisions[i] == rest[i - 1];
      }
    }
  }

  lemma ListedIsChosen(decisions: seq<Decision>, sid: SuggestionId)
    ensures IsListed(decisions, sid) <==> sid in Chosen(decisions)
  {
  }

  lemma DecidedRowByRow(db: Database, d: DocumentId, j: JobId, decisions: seq<Decision>, user: UserId, now: int)
    ensures var after := DecideRows(db, d, j, decisions, user, now);
      && SameButRows(db, after) && ChangedRows(db, after) == Decidable(db, d, j, decisions)
      && forall sid :: sid in Decidable(db, d, j, decisions) ==>
           IsWritten(db.suggestions[sid], after.suggestions[sid], decisions, sid, user, now)
  {
    var after := DecideRows(db, d, j, decisions, user, now);
    forall sid | sid in Decidable(db, d, j, decisions)
      ensures IsWritten(db.suggestions[sid], after.suggestions[sid], decisions, sid, user, now)
    {
      FirstEditIs(decisions, sid, EditFor(decisions, sid));
    }
  }

  /** What holds row by row fixes the new table. */
  lemma RowByRowIsDecided(
    before: Database, after: Database, d: DocumentId, j: JobId, decisions: seq<Decision>, user: UserId, now: int)
    requires SameButRows(before, after)
    requires forall sid :: sid in before.suggestions ==>
      var row := before.suggestions[sid];
      if row.document == d && row.job == j && row.status.Pending? && IsListed(decisions, sid)
      then IsWritten(row, after.suggestions[sid], decisions, sid, user, now)
      else after.suggestions[sid] == row
    ensures after == DecideRows(before, d, j, decisions, user, now)
    ensures ChangedRows(before, after) == Decidable(before, d, j, decisions)
  {
    var decided := DecideRows(before, d, j, decisions, user, now);
    DecidedRowByRow(before, d, j, decisions, user, now);
    forall sid | sid in before.suggestions ensures after.suggestions[sid] == decided.suggestions[sid] {
      ListedIsChosen(decisions, sid);
      if sid in Decidable(before, d, j, decisions) {
        FirstEditIs(decisions, sid, after.suggestions[sid].editedText);
        FirstEditIs(decisions, sid, decided.suggestions[sid].editedText);
      }
    }
    assert after.suggestions == decided.suggestions;
  }

  /** `bulk_accept_all` and `bulk_reject_all`, which leave `edited_text` alone. */
  function DecideAll(db: Database, j: JobId, accept: bool, user: UserId, now: int): Database {
    db.(suggestions := map sid | sid in db.suggestions ::
          var row := db.suggestions[sid];
          if row.job == j && row.status.Pending? then Decided(row, accept, row.editedText, user, now) else row)
  }

  function Plain(ids: seq<SuggestionId>, accept: bool): seq<Decision> {
    seq(|ids|, i requires 0 <= i < |ids| => Decision(ids[i], accept, None))
  }

  function Distinct(ids: seq<SuggestionId>): set<SuggestionId> {
    set i | 0 <= i < |ids| :: ids[i]
  }

  lemma SameSize<T>(small: set<T>, large: set<T>)
    requires small <= large && |small| >= |large|
    ensures small == large
  {
    assert |large - small| == |large| - |small|;
    assert large == small + (large - small);
  }

  /** `_reopen_review` inside one transaction: a ready document goes back to review. */
  function Reopened(db: Database, d: DocumentId): Database
    requires d in db.documents
  {
    if db.documents[d].status.Ready? then db.SetDocument(d, db.documents[d].(status := AwaitingApproval)) else db
  }

  function PatchToPending(db: Database, d: DocumentId, j: JobId, pick: Selection): Outcome<set<SuggestionId>>
    requires d in db.documents
  {
    var chosen := match pick
      case ByFilter(f) => if f.OnlyPending? then {} else Resettable(db, j, None)
      case ByIds(ids) => Resettable(db, j, Some(ids));
    if pick.ByIds? && |chosen| != |Distinct(pick.ids)| then Refused(ResetNotAllowed)
    else if chosen == {} then Done(db, {})
    else Done(Reopened(ResetRows(db, chosen), d), chosen)
  }

  function PatchToDecided(
    db: Database, d: DocumentId, j: JobId, accept: bool, user: UserId, now: int, pick: Selection)
    : Outcome<set<SuggestionId>>
  {
    match pick
    case ByIds(ids) =>
      var decisions := Plain(ids, accept);
      if |Decidable(db, d, j, decisions)| != |Distinct(ids)| then Refused(AlreadyDecided)
      else Done(DecideRows(db, d, j, decisions, user, now), Distinct(ids))
    case ByFilter(f) =>
      if f.OnlyDecided? then Refused(AlreadyDecided)
      else Done(DecideAll(db, j, accept, user, now), db.OfJob(j, SuggestionStatus.Pending))
  }

  function PatchSuggestions(
    db: Database, p: ProjectId, d: DocumentId, user: UserId, target: SuggestionStatus, pick: Selection, now: int)
    : Outcome<set<SuggestionId>>
  {
    if !db.InProject(d, p) then Refused(Error.DocumentNotFound)
    else if !(if target.Pending? then CanResetReview(db.documents[d].status) else CanReview(db.documents[d].status))
    then Refused(InvalidStatus)
    else if db.documents[d].currentJob.None? then Refused(ReviewNotComplete)
    else
      var j := db.documents[d].currentJob.value;
      if target.Pending? then PatchToPending(db, d, j, pick)
      else PatchToDecided(db, d, j, target.Accepted?, user, now, pick)
  }

  function ResetSuggestion(db: Database, p: ProjectId, d: DocumentId, sid: SuggestionId): Outcome<SuggestionId> {
    if !db.InProject(d, p) then Refused(Error.DocumentNotFound)
    else if !CanResetReview(db.documents[d].status) then Refused(InvalidStatus)
    else if sid !in db.suggestions then Refused(SuggestionNotFound)
    else if db.documents[d].currentJob != Some(db.suggestions[sid].job) then Refused(StaleSuggestionJob)
    else if db.suggestions[sid].status.Pending? then Refused(ResetNotAllowed)
    else Done(ResetRows(Reopened(db, d), {sid}), sid)
  }

  function FinalizeReview(db: Database, p: ProjectId, d: DocumentId): Outcome<DocumentId> {
    if !db.InProject(d, p) then Refused(Error.DocumentNotFound)
    else if !CanReview(db.documents[d].status) then Refused(InvalidStatus)
    else if db.documents[d].currentJob.None? then Refused(ReviewNotComplete)
    else if db.OfJob(db.documents[d].currentJob.value, SuggestionStatus.Pending) != {} then Refused(ReviewNotComplete)
    else if Ready !in DocumentTargets(db.documents[d].status) then Refused(InvalidStatus)
    else Done(db.SetDocument(d, db.documents[d].(status := Ready)), d)
  }

  function Decisions(accepted: seq<SuggestionId>, rejected: seq<SuggestionId>, edits: map<SuggestionId, string>)
    : seq<Decision>
  {
    seq(|accepted|, i requires 0 <= i < |accepted| =>
      Decision(accepted[i], true, if accepted[i] in edits then Some(edits[accepted[i]]) else None))
    + Plain(rejected, false)
  }

  function AtomicReviewSave(
    db: Database, p: ProjectId, d: DocumentId, user: UserId, version: int,
    accepted: seq<SuggestionId>, rejected: seq<SuggestionId>, edits: map<SuggestionId, string>,
    finalize: bool, now: int): Outcome<nat>
  {
    if !db.InProject(d, p) then Refused(Error.DocumentNotFound)
    else if !CanReview(db.documents[d].status) then Refused(InvalidStatus)
    else if db.documents[d].currentJob.None? then Refused(ReviewNotComplete)
    else if db.documents[d].reviewVersion != version then Refused(OptimisticLock)
    else
      var j := db.documents[d].currentJob.value;
      var decisions := Decisions(accepted, rejected, edits);
      var locked := db.SetDocument(d, db.documents[d].(reviewVersion := version + 1));
      if |Decidable(db, d, j, decisions)| != |decisions| then Refused(AlreadyDecided)
      else
        var saved := DecideRows(locked, d, j, decisions, user, now);
        var pending := |saved.OfJob(j, SuggestionStatus.Pending)|;
        if !finalize then Done(saved, pending)
        else if pending != 0 then Refused(ReviewNotComplete)
        else if Ready !in DocumentTargets(saved.documents[d].status) then Refused(InvalidStatus)
        else Done(saved.SetDocument(d, saved.documents[d].(status := Ready)), 0)
  }
}

/** When what a service published says the truth about what it committed. */
module Telling {
  import opened Options
  import opened Lifecycle
  import opened Records
  import opened DocumentEvents
  import opened Services

  function Statuses(db: Database): map<DocumentId, DocumentStatus> {
    map d | d in db.documents :: db.documents[d].status
  }

  /** What a subscriber knows who applies the changes in order. */
  function Replay(statuses: map<DocumentId, DocumentStatus>, changes: seq<StatusChange>)
    : map<DocumentId, DocumentStatus>
  {
    if changes == [] then statuses
    else
      var last := changes[|changes| - 1];
      Replay(statuses, changes[..|changes| - 1])[last.document := last.status]
  }

  predicate IsTrue(db: Database, change: StatusChange) {
    && change.document in db.documents
    && db.documents[change.document].project == change.project
    && db.documents[change.document].status == change.status
  }

  /** A transaction told exactly: every change sent with it is true of the database it
      committed, and applying them turns the old statuses into the new ones. */
  ghost predicate Honest(entry: LogEntry) {
    && Replay(Statuses(entry.before), entry.sent) == Statuses(entry.after)
    && forall change :: change in entry.sent ==> IsTrue(entry.after, change)
  }

  lemma OneChange(statuses: map<DocumentId, DocumentStatus>, change: StatusChange)
    ensures Replay(statuses, [change]) == statuses[change.document := change.status]
  {
    assert [change][..0] == [];
  }

  lemma {:induction false} ReplayOn(
    statuses: map<DocumentId, DocumentStatus>, a: seq<StatusChange>, b: seq<StatusChange>)
    ensures Replay(statuses, a + b) == Replay(Replay(statuses, a), b)
  {
    if b == [] {
      assert a + b == a;
    } else {
      assert (a + b)[..|a + b| - 1] == a + b[..|b| - 1];
      ReplayOn(statuses, a, b[..|b| - 1]);
    }
  }

  // ---------------------------------------------------------------------------
  // What runs of transactions add to the log
  // ---------------------------------------------------------------------------

  /** The log has grown by honest entries only. */
  ghost predicate Told(s: Service, t: Service) {
    s.log <= t.log && forall i :: |s.log| <= i < |t.log| ==> Honest(t.log[i])
  }

  /** The entries lead from one database to another, each starting where the last ended. */
  ghost predicate LeadTo(before: Database, entries: seq<LogEntry>, after: Database) {
    if entries == [] then before == after
    else
      var last := entries[|entries| - 1];
      last.after == after && LeadTo(before, entries[..|entries| - 1], last.before)
  }

  function Since(s: Service, t: Service): seq<LogEntry>
    requires s.log <= t.log
  {
    t.log[|s.log|..]
  }

  /** Told, with nothing from elsewhere in between. */
  ghost predicate ToldAlone(s: Service, t: Service) {
    Told(s, t) && LeadTo(s.db, Since(s, t), t.db)
  }

  lemma {:induction false} LeadOn(a: Database, first: seq<LogEntry>, b: Database, second: seq<LogEntry>, c: Database)
    requires LeadTo(a, first, b) && LeadTo(b, second, c)
    ensures LeadTo(a, first + second, c)
  {
    if second == [] {
      assert first + second == first;
    } else {
      var n := |second| - 1;
      LeadOn(a, first, b, second[..n], second[n].before);
      assert (first + second)[..|first + second| - 1] == first + second[..n];
    }
  }

  lemma ToldOn(s: Service, t: Service, u: Service)
    requires Told(s, t) && Told(t, u)
    ensures Told(s, u)
    ensures ToldAlone(s, t) && ToldAlone(t, u) ==> ToldAlone(s, u)
  {
    forall i | |s.log| <= i < |u.log| ensures Honest(u.log[i]) {
      if i < |t.log| {
        assert u.log[i] == t.log[i];
      }
    }
    assert Since(s, u) == Since(s, t) + Since(t, u);
    if ToldAlone(s, t) && ToldAlone(t, u) {
      LeadOn(s.db, Since(s, t), t.db, Since(t, u), u.db);
    }
  }

  lemma NothingNew(s: Service, t: Service)
    requires t.log == s.log
    ensures Told(s, t) && (t.db == s.db ==> ToldAlone(s, t))
  {
    assert Since(s, t) == [];
  }

  /** A commit with nothing left waiting sends its own change. */
  lemma OneEntry(s: Service, after: Database, own: seq<StatusChange>)
    requires s.waiting == [] && Honest(LogEntry(s.db, after, own))
    ensures ToldAlone(s, s.Committed(after, own))
  {
    var t := s.Committed(after, own);
    assert [] + own == own;
    assert Since(s, t) == [LogEntry(s.db, after, own)];
    assert [LogEntry(s.db, after, own)][..0] == [];
  }

  /** What follows is told, others having committed before it. */
  lemma ToldAfterOthers(s: Service, others: Option<Database>, t: Service)
    requires ToldAlone(s.Seeing(others), t)
    ensures Told(s, t) && (others.None? ==> ToldAlone(s, t))
  {
  }

  lemma {:induction false} ReplaySent(before: Database, entries: seq<LogEntry>, after: Database)
    requires LeadTo(before, entries, after) && forall i :: 0 <= i < |entries| ==> Honest(entries[i])
    ensures Replay(Statuses(before), Sent(entries)) == Statuses(after)
  {
    if entries != [] {
      var n := |entries| - 1;
      ReplaySent(before, entries[..n], entries[n].before);
      ReplayOn(Statuses(before), Sent(entries[..n]), entries[n].sent);
    }
  }

  // ---------------------------------------------------------------------------
  // Sequences of calls on an instance of any service
  // ---------------------------------------------------------------------------

  /** What the calls of a service do to an instance with nothing waiting: they commit honest
      entries only, and leave something waiting exactly if they leak. */
  ghost predicate Tells<Call(!new)>(
    serve: (Service, Call) -> Service, leaks: (Database, Call) -> bool, outside: Call -> bool)
  {
    forall s: Service, call: Call :: s.waiting == [] ==>
      && Told(s, serve(s, call)) && (!outside(call) ==> ToldAlone(s, serve(s, call)))
      && (serve(s, call).waiting != [] <==> leaks(s.db, call))
  }

  predicate LeaksAt<Call>(
    serve: (Service, Call) -> Service, leaks: (Database, Call) -> bool, s: Service, calls: seq<Call>, i: nat)
    requires i < |calls|
  {
    leaks(ServeAll(serve, s, calls[..i]).db, calls[i])
  }

  lemma ServeNext<Call>(serve: (Service, Call) -> Service, s: Service, calls: seq<Call>, i: nat)
    requires i < |calls|
    ensures ServeAll(serve, s, calls[..i + 1]) == serve(ServeAll(serve, s, calls[..i]), calls[i])
  {
    assert calls[..i + 1][..i] == calls[..i];
  }

  lemma {:induction false} NoLeakNoRest<Call(!new)>(
    serve: (Service, Call) -> Service, leaks: (Database, Call) -> bool, outside: Call -> bool,
    s: Service, calls: seq<Call>, n: nat)
    requires Tells(serve, leaks, outside) && s.waiting == [] && n <= |calls|
    requires forall i :: 0 <= i < n ==> !LeaksAt(serve, leaks, s, calls, i)
    ensures var t := ServeAll(serve, s, calls[..n]);
      && t.waiting == [] && Told(s, t)
      && ((forall i :: 0 <= i < n ==> !outside(calls[i])) ==> ToldAlone(s, t))
  {
    if n == 0 {
      NothingNew(s, s);
    } else {
      NoLeakNoRest(serve, leaks, outside, s, calls, n - 1);
      ServeNext(serve, s, calls, n - 1);
      var t := ServeAll(serve, s, calls[..n - 1]);
      assert !LeaksAt(serve, leaks, s, calls, n - 1);
      ToldOn(s, t, serve(t, calls[n - 1]));
    }
  }

  /** Nothing waits before any call, nor after the last one, exactly if no call leaks. */
  lemma NothingWaits<Call(!new)>(
    serve: (Service, Call) -> Service, leaks: (Database, Call) -> bool, outside: Call -> bool,
    s: Service, calls: seq<Call>)
    requires Tells(serve, leaks, outside) && s.waiting == []
    ensures (forall i :: 0 <= i <= |calls| ==> ServeAll(serve, s, calls[..i]).waiting == [])
      <==> (forall i :: 0 <= i < |calls| ==> !LeaksAt(serve, leaks, s, calls, i))
  {
    if forall i :: 0 <= i <= |calls| ==> ServeAll(serve, s, calls[..i]).waiting == [] {
      forall i | 0 <= i < |calls| ensures !LeaksAt(serve, leaks, s, calls, i) {
        ServeNext(serve, s, calls, i);
        assert ServeAll(serve, s, calls[..i + 1]).waiting == [];
      }
    }
    if forall i :: 0 <= i < |calls| ==> !LeaksAt(serve, leaks, s, calls, i) {
      forall i | 0 <= i <= |calls| ensures ServeAll(serve, s, calls[..i]).waiting == [] {
        NoLeakNoRest(serve, leaks, outside, s, calls, i);
      }
    }
  }

  /** Without a leak every transaction is told, and if nothing came from elsewhere who
      applies everything sent has the statuses of the committed database. */
  lemma KeepsUp<Call(!new)>(
    serve: (Service, Call) -> Service, leaks: (Database, Call) -> bool, outside: Call -> bool,
    s: Service, calls: seq<Call>)
    requires Tells(serve, leaks, outside) && s.waiting == []
    requires forall i :: 0 <= i < |calls| ==> !LeaksAt(serve, leaks, s, calls, i)
    ensures var t := ServeAll(serve, s, calls);
      && Told(s, t)
      && ((forall i :: 0 <= i < |calls| ==> !outside(calls[i])) ==>
            Replay(Statuses(s.db), Sent(Since(s, t))) == Statuses(t.db))
  {
    NoLeakNoRest(serve, leaks, outside, s, calls, |calls|);
    assert calls[..|calls|] == calls;
    var t := ServeAll(serve, s, calls);
    if forall i :: 0 <= i < |calls| ==> !outside(calls[i]) {
      ReplaySent(s.db, Since(s, t), t.db);
    }
  }

  // ---------------------------------------------------------------------------
  // What a leak does to the next commit
  // ---------------------------------------------------------------------------

  /** One status replaced beforehand is overwritten by a later change, or is all that differs. */
  lemma {:induction false} ReplayAfter(
    statuses: map<DocumentId, DocumentStatus>, stale: StatusChange, changes: seq<StatusChange>)
    ensures var late, all := Replay(statuses[stale.document := stale.status], changes), Replay(statuses, changes);
      late == all || late == all[stale.document := stale.status]
  {
    if changes != [] {
      ReplayAfter(statuses, stale, changes[..|changes| - 1]);
    }
  }

  lemma OneStaleChange(before: Database, after: Database, stale: StatusChange, own: seq<StatusChange>)
    requires Honest(LogEntry(before, after, own)) && IsTrue(after, stale)
    ensures Honest(LogEntry(before, after, [stale] + own))
  {
    ReplayOn(Statuses(before), [stale], own);
    OneChange(Statuses(before), stale);
    ReplayAfter(Statuses(before), stale, own);
    assert Statuses(after)[stale.document := stale.status] == Statuses(after);
  }

  lemma {:induction false} StaleChanges(
    before: Database, after: Database, waiting: seq<StatusChange>, own: seq<StatusChange>)
    requires Honest(LogEntry(before, after, own)) && forall change :: change in waiting ==> IsTrue(after, change)
    ensures Honest(LogEntry(before, after, waiting + own))
  {
    if waiting == [] {
      assert waiting + own == own;
    } else {
      var n := |waiting| - 1;
      OneStaleChange(before, after, waiting[n], own);
      StaleChanges(before, after, waiting[..n], [waiting[n]] + own);
      assert waiting[..n] + ([waiting[n]] + own) == waiting + own;
    }
  }

  /** Whatever waits goes out with the next commit, from any database and by any transaction
      that is honest about itself. It tells the truth exactly if what waited happens to be
      true of what was committed. */
  lemma WaitingIsPublished(s: Service, after: Database, own: seq<StatusChange>)
    requires Honest(LogEntry(s.db, after, own))
    ensures var entry := LogEntry(s.db, after, s.waiting + own);
      && s.Committed(after, own) == Service(after, [], s.log + [entry])
      && (Honest(entry) <==> forall change :: change in s.waiting ==> IsTrue(after, change))
  {
    var entry := LogEntry(s.db, after, s.waiting + own);
    if Honest(entry) {
      assert forall change :: change in s.waiting ==> change in entry.sent;
    }
    if forall change :: change in s.waiting ==> IsTrue(after, change) {
      StaleChanges(s.db, after, s.waiting, own);
    }
  }
}

/** Reading the accepted suggestions of a document page by page for its export. */
module DocumentExport {
  import opened Options
  import opened Exporters

  datatype Row = Row(
    id: int,
    job: int,
    createdAt: int,
    accepted: bool,
    kind: ChangeType,
    originalText: Option<string>,
    suggestedText: Option<string>,
    editedText: Option<string>)

  const EXPORT_PAGE_SIZE: nat := 500

  predicate Wanted(row: Row, job: int) {
    row.accepted && row.job == job
  }

  /** `ORDER BY created_at, id` */
  predicate Before(a: Row, b: Row) {
    a.createdAt < b.createdAt || (a.createdAt == b.createdAt && a.id < b.id)
  }

  ghost predicate DistinctIds(rows: seq<Row>) {
    forall i, j :: 0 <= i < j < |rows| ==> rows[i].id != rows[j].id
  }

  ghost predicate Sorted(rows: seq<Row>) {
    forall i, j :: 0 <= i < j < |rows| ==> Before(rows[i], rows[j])
  }

  function Insert(row: Row, rows: seq<Row>): seq<Row> {
    if rows == [] || Before(row, rows[0]) then [row] + rows
    else [rows[0]] + Insert(row, rows[1..])
  }

  /** The accepted rows of a job in a table scan, ordered. */
  function Listed(scan: seq<Row>, job: int): seq<Row> {
    if scan == [] then []
    else if Wanted(scan[0], job) then Insert(scan[0], Listed(scan[1..], job))
    else Listed(scan[1..], job)
  }

  /** `LIMIT limit OFFSET offset` */
  function Slice(rows: seq<Row>, limit: nat, offset: nat): seq<Row> {
    if offset >= |rows| then []
    else if offset + limit <= |rows| then rows[offset..offset + limit]
    else rows[offset..]
  }

  function Page(scan: seq<Row>, job: int, limit: nat, offset: nat): seq<Row> {
    Slice(Listed(scan, job), limit, offset)
  }

  /** A manual edit takes precedence over the model's text, unless it is empty. */
  function ChangeOf(row: Row): Change {
    Change(row.kind, row.originalText, if OrEmpty(row.editedText) != "" then row.editedText else row.suggestedText)
  }

  function Changes(rows: seq<Row>): (changes: seq<Change>)
    ensures |changes| == |rows|
    ensures forall i :: 0 <= i < |rows| ==> changes[i] == ChangeOf(rows[i])
  {
    seq(|rows|, i requires 0 <= i < |rows| => ChangeOf(rows[i]))
  }

  /** The same rows in every query, though each may scan them in another order. */
  ghost predicate SameTable(scan: nat -> seq<Row>) {
    forall k: nat :: DistinctIds(scan(k)) && multiset(scan(k)) == multiset(scan(0))
  }

  lemma SortedCons(row: Row, rest: seq<Row>)
    requires Sorted(rest) && forall other :: other in rest ==> Before(row, other)
    ensures Sorted([row] + rest)
  {
    var all := [row] + rest;
    forall i, j | 0 <= i < j < |all| ensures Before(all[i], all[j]) {
      assert all[j] == rest[j - 1];
      assert i > 0 ==> all[i] == rest[i - 1];
    }
  }

  lemma SortedTail(rows: seq<Row>)
    requires Sorted(rows) && rows != []
    ensures Sorted(rows[1..]) && rows == [rows[0]] + rows[1..]
    ensures forall other :: other in rows ==> other == rows[0] || Before(rows[0], other)
  {
  }

  lemma {:induction false} InsertAdds(row: Row, rows: seq<Row>)
    ensures multiset(Insert(row, rows)) == multiset(rows) + multiset{row}
  {
    if rows != [] {
      assert rows == [rows[0]] + rows[1..];
      if !Before(row, rows[0]) {
        InsertAdds(row, rows[1..]);
      }
    }
  }

  lemma InsertHas(row: Row, rows: seq<Row>, other: Row)
    ensures other in Insert(row, rows) <==> other == row || other in rows
  {
    InsertAdds(row, rows);
    assert other in Insert(row, rows) <==> other in multiset(Insert(row, rows));
    assert other in rows <==> other in multiset(rows);
  }

  lemma {:induction false} InsertSorts(row: Row, rows: seq<Row>)
    requires Sorted(rows) && forall other :: other in rows ==> other.id != row.id
    ensures Sorted(Insert(row, rows))
  {
    if rows == [] {
    } else if Before(row, rows[0]) {
      SortedTail(rows);
      SortedCons(row, rows);
    } else {
      SortedTail(rows);
      InsertSorts(row, rows[1..]);
      forall other | other in Insert(row, rows[1..]) ensures Before(rows[0], other) {
        InsertHas(row, rows[1..], other);
      }
      SortedCons(rows[0], Insert(row, rows[1..]));
    }
  }

  function Count(scan: seq<Row>, job: int): multiset<Row> {
    if scan == [] then multiset{}
    else if Wanted(scan[0], job) then multiset{scan[0]} + Count(scan[1..], job)
    else Count(scan[1..], job)
  }

  lemma {:induction false} CountIs(scan: seq<Row>, job: int, row: Row)
    ensures Count(scan, job)[row] == if Wanted(row, job) then multiset(scan)[row] else 0
  {
    if scan != [] {
      assert scan == [scan[0]] + scan[1..];
      CountIs(scan[1..], job, row);
    }
  }

  lemma {:induction false} ListedIsSorted(scan: seq<Row>, job: int)
    requires DistinctIds(scan)
    ensures Sorted(Listed(scan, job)) && multiset(Listed(scan, job)) == Count(scan, job)
  {
    if scan != [] {
      var rest := scan[1..];
      ListedIsSorted(rest, job);
      forall other | other in Listed(rest, job) ensures other.id != scan[0].id {
        assert other in multiset(Listed(rest, job));
        CountIs(rest, job, other);
        assert other in rest;
      }
      if Wanted(scan[0], job) {
        InsertSorts(scan[0], Listed(rest, job));
        InsertAdds(scan[0], Listed(rest, job));
      }
    }
  }

  lemma SameTails(row: Row, a: seq<Row>, b: seq<Row>)
    requires multiset([row] + a) == multiset([row] + b)
    ensures multiset(a) == multiset(b)
  {
    assert multiset([row] + a) == multiset{row} + multiset(a);
    assert multiset([row] + b) == multiset{row} + multiset(b);
    assert multiset(a) == multiset([row] + a) - multiset{row};
  }

  lemma {:induction false} SortedIsUnique(a: seq<Row>, b: seq<Row>)
    requires Sorted(a) && Sorted(b) && multiset(a) == multiset(b)
    ensures a == b
  {
    assert |multiset(a)| == |a| && |multiset(b)| == |b|;
    if a != [] {
      SortedTail(a);
      SortedTail(b);
      assert a[0] in multiset(b) && b[0] in multiset(a);
      assert a[0] in b && b[0] in a;
      SameTails(a[0], a[1..], b[1..]);
      SortedIsUnique(a[1..], b[1..]);
    }
  }

  /** Ordering by creation and then id leaves nothing to the scan order, so pages of
      different queries fit together. */
  lemma ListIsScanIndependent(a: seq<Row>, b: seq<Row>, job: int)
    requires DistinctIds(a) && DistinctIds(b) && multiset(a) == multiset(b)
    ensures Listed(a, job) == Listed(b, job)
  {
    ListedIsSorted(a, job);
    ListedIsSorted(b, job);
    forall row ensures Count(a, job)[row] == Count(b, job)[row] {
      CountIs(a, job, row);
      CountIs(b, job, row);
    }
    assert Count(a, job) == Count(b, job);
    SortedIsUnique(Listed(a, job), Listed(b, job));
  }

  /** A page is the same piece of the same list, whichever query reads it. */
  lemma PageIsStable(scan: nat -> seq<Row>, query: nat, job: int, limit: nat, offset: nat)
    requires SameTable(scan)
    ensures Page(scan(query), job, limit, offset) == Slice(Listed(scan(0), job), limit, offset)
  {
    ListIsScanIndependent(scan(query), scan(0), job);
  }

  /** The paging loop; query k sees the table as `scan(k)`. */
  method AcceptedChanges(currentJob: Option<int>, scan: nat -> seq<Row>) returns (changes: seq<Change>)
    requires SameTable(scan)
    ensures changes == if currentJob.None? then [] else Changes(Listed(scan(0), currentJob.value))
  {
    if currentJob.None? {
      return [];
    }
    var job := currentJob.value;
    changes := [];
    var offset, query := 0, 0;
    ghost var all := Listed(scan(0), job);
    assert all[..0] == [];
    while true
      invariant offset <= |all| && changes == Changes(all[..offset])
      decreases |all| - offset
    {
      var page := Page(scan(query), job, EXPORT_PAGE_SIZE, offset);
      PageIsStable(scan, query, job, EXPORT_PAGE_SIZE, offset);
      if page == [] {
        assert all[..offset] == all;
        break;
      }
      assert all[..offset] + page == all[..offset + |page|];
      changes := changes + Changes(page);
      if |page| < EXPORT_PAGE_SIZE {
        assert all[..offset + |page|] == all;
        break;
      }
      offset := offset + EXPORT_PAGE_SIZE;
      query := query + 1;
    }
  }

  /** The listed rows are exactly the accepted rows of the job, each once, in order. */
  lemma ListedIsExact(scan: seq<Row>, job: int)
    requires DistinctIds(scan)
    ensures Sorted(Listed(scan, job))
    ensures forall row :: row in Listed(scan, job) <==> row in scan && Wanted(row, job)
    ensures forall i, j :: 0 <= i < j < |Listed(scan, job)| ==> Listed(scan, job)[i] != Listed(scan, job)[j]
  {
    ListedIsSorted(scan, job);
    forall row ensures row in Listed(scan, job) <==> row in scan && Wanted(row, job) {
      CountIs(scan, job, row);
      assert row in Listed(scan, job) <==> row in multiset(Listed(scan, job));
      assert row in scan <==> row in multiset(scan);
    }
  }

  /** The i-th change is the row's, with the edited text where there is one, and comes
      after exactly the changes of earlier rows. */
  ghost predicate ExportedAt(scan: seq<Row>, job: int, row: Row, i: nat) {
    var rows, changes := Listed(scan, job), Changes(Listed(scan, job));
    && i < |changes|
    && changes[i].kind == row.kind && changes[i].oldText == row.originalText
    && (row.editedText.Some? && row.editedText.value != "" ==> changes[i].newText == row.editedText)
    && (row.editedText.None? || row.editedText.value == "" ==> changes[i].newText == row.suggestedText)
    && (forall j :: 0 <= j < |rows| ==> (j < i <==> Before(rows[j], row)))
  }

  lemma ExportIsExact(scan: seq<Row>, job: int, row: Row)
    requires DistinctIds(scan) && row in scan && Wanted(row, job)
    ensures exists i: nat :: ExportedAt(scan, job, row, i)
  {
    ListedIsExact(scan, job);
    var rows := Listed(scan, job);
    var i: nat :| i < |rows| && rows[i] == row;
    assert Changes(rows)[i] == ChangeOf(row);
    forall j | 0 <= j < |rows| ensures j < i <==> Before(rows[j], row) {
      assert j < i ==> Before(rows[j], rows[i]);
      assert i < j ==> Before(rows[i], rows[j]);
    }
    assert ExportedAt(scan, job, row, i);
  }
}

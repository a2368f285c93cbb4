/** Applying accepted edits to the text formats and to docx, a document of paragraphs. */
module Exporters {
  import opened Options
  import opened Texts

  datatype ChangeType = Add | Modify | Delete

  datatype Change = Change(kind: ChangeType, oldText: Option<string>, newText: Option<string>)

  /** `value or ""` */
  function OrEmpty(value: Option<string>): string {
    if value.Some? then value.value else ""
  }

  // ---------------------------------------------------------------------------
  // Text and markdown
  // ---------------------------------------------------------------------------

  /** `_insert_block`: exactly one blank line around the block. */
  function InsertBlock(text: string, position: nat, block: string): string
    requires position <= |text|
  {
    var head := TrimEnd(text[..position], IsNewline);
    var tail := TrimStart(text[position..], IsNewline);
    (if head == "" then block else head + "\n\n" + block) + (if tail == "" then "\n" else "\n\n" + tail)
  }

  /** The end of the line in which the first occurrence of the anchor ends. */
  function AnchorLineEnd(text: string, anchor: string): (r: Option<nat>)
    ensures r.Some? <==> Contains(text, anchor)
    ensures r.Some? ==> Find(text, anchor).value + |anchor| <= r.value <= |text|
    ensures r.Some? ==> NL !in text[Find(text, anchor).value + |anchor|..r.value]
    ensures r.Some? && r.value < |text| ==> text[r.value] == NL
  {
    match Find(text, anchor)
    case None => None
    case Some(index) =>
      FirstNewline(text, index + |anchor|);
      match FindFrom(text, [NL], index + |anchor|)
      case None => Some(|text|)
      case Some(newline) => Some(newline)
  }

  function PlaceAddition(text: string, change: Change): string {
    var anchor := Strip(OrEmpty(change.oldText));
    if anchor == "" then text
    else
      match AnchorLineEnd(text, anchor)
      case None => text
      case Some(position) => InsertBlock(text, position, StripNewlines(OrEmpty(change.newText)))
  }

  function ApplyToText(text: string, change: Change): string {
    var old' := OrEmpty(change.oldText);
    if change.kind.Modify? && old' != "" then ReplaceFirst(text, old', OrEmpty(change.newText))
    else if change.kind.Delete? && old' != "" then ReplaceFirst(text, old', "")
    else if change.kind.Add? && OrEmpty(change.newText) != "" then PlaceAddition(text, change)
    else text
  }

  function ApplyAllToText(text: string, changes: seq<Change>): string {
    if changes == [] then text
    else ApplyToText(ApplyAllToText(text, changes[..|changes| - 1]), changes[|changes| - 1])
  }

  method ExportText(original: string, changes: seq<Change>) returns (text: string)
    ensures text == ApplyAllToText(original, changes)
  {
    text := original;
    for i := 0 to |changes|
      invariant text == ApplyAllToText(original, changes[..i])
    {
      assert changes[..i + 1][..i] == changes[..i];
      var change := changes[i];
      var old' := OrEmpty(change.oldText);
      if change.kind.Modify? && old' != "" {
        text := ReplaceFirst(text, old', OrEmpty(change.newText));
      } else if change.kind.Delete? && old' != "" {
        text := ReplaceFirst(text, old', "");
      } else if change.kind.Add? && OrEmpty(change.newText) != "" {
        text := PlaceAddition(text, change);
      }
    }
    assert changes[..|changes|] == changes;
  }

  // ---------------------------------------------------------------------------
  // Docx
  // ---------------------------------------------------------------------------

  /** The first paragraph that contains the part, or the number of paragraphs. */
  function FirstWith(paragraphs: seq<string>, part: string): (k: nat)
    ensures k <= |paragraphs|
    ensures k < |paragraphs| ==> Contains(paragraphs[k], part)
    ensures forall i :: 0 <= i < k ==> !Contains(paragraphs[i], part)
  {
    if paragraphs == [] || Contains(paragraphs[0], part) then 0 else 1 + FirstWith(paragraphs[1..], part)
  }

  function ReplaceInParagraphs(paragraphs: seq<string>, old': string, new': string): seq<string> {
    var k := FirstWith(paragraphs, old');
    if k == |paragraphs| then paragraphs else paragraphs[k := ReplaceFirst(paragraphs[k], old', new')]
  }

  function InsertAfter(paragraphs: seq<string>, anchor: string, new': string): seq<string> {
    var k := FirstWith(paragraphs, anchor);
    if k == |paragraphs| then paragraphs else paragraphs[..k + 1] + [new'] + paragraphs[k + 1..]
  }

  function ApplyToDocx(paragraphs: seq<string>, change: Change): seq<string> {
    var old' := OrEmpty(change.oldText);
    if !change.kind.Add? && old' != "" then ReplaceInParagraphs(paragraphs, old', OrEmpty(change.newText))
    else if change.kind.Add? && OrEmpty(change.newText) != "" && Strip(old') != ""
    then InsertAfter(paragraphs, Strip(old'), OrEmpty(change.newText))
    else paragraphs
  }

  function ApplyAllToDocx(paragraphs: seq<string>, changes: seq<Change>): seq<string> {
    if changes == [] then paragraphs
    else ApplyToDocx(ApplyAllToDocx(paragraphs, changes[..|changes| - 1]), changes[|changes| - 1])
  }

  lemma FirstWithIs(paragraphs: seq<string>, part: string, k: nat)
    requires k <= |paragraphs| && (k < |paragraphs| ==> Contains(paragraphs[k], part))
    requires forall i :: 0 <= i < k ==> !Contains(paragraphs[i], part)
    ensures FirstWith(paragraphs, part) == k
  {
  }

  class DocxDocument {
    var paragraphs: seq<string>

    constructor (paragraphs: seq<string>)
      ensures this.paragraphs == paragraphs
    {
      this.paragraphs := paragraphs;
    }

    method PlaceAddition(change: Change)
      requires change.kind.Add? && OrEmpty(change.newText) != ""
      modifies this
      ensures paragraphs == ApplyToDocx(old(paragraphs), change)
    {
      var anchor := Strip(OrEmpty(change.oldText));
      if anchor == "" {
        return;
      }
      for i := 0 to |paragraphs|
        invariant paragraphs == old(paragraphs)
        invariant forall k :: 0 <= k < i ==> !Contains(paragraphs[k], anchor)
      {
        if Contains(paragraphs[i], anchor) {
          FirstWithIs(paragraphs, anchor, i);
          paragraphs := paragraphs[..i + 1] + [OrEmpty(change.newText)] + paragraphs[i + 1..];
          return;
        }
      }
      FirstWithIs(paragraphs, anchor, |paragraphs|);
    }

    method ApplyChange(change: Change)
      modifies this
      ensures paragraphs == ApplyToDocx(old(paragraphs), change)
    {
      var old' := OrEmpty(change.oldText);
      if (change.kind.Modify? || change.kind.Delete?) && old' != "" {
        for i := 0 to |paragraphs|
          invariant paragraphs == old(paragraphs)
          invariant forall k :: 0 <= k < i ==> !Contains(paragraphs[k], old')
        {
          if Contains(paragraphs[i], old') {
            FirstWithIs(paragraphs, old', i);
            paragraphs := paragraphs[i := ReplaceFirst(paragraphs[i], old', OrEmpty(change.newText))];
            return;
          }
        }
        FirstWithIs(paragraphs, old', |paragraphs|);
      } else if change.kind.Add? && OrEmpty(change.newText) != "" {
        PlaceAddition(change);
      }
    }

    method ApplyChanges(changes: seq<Change>)
      modifies this
      ensures paragraphs == ApplyAllToDocx(old(paragraphs), changes)
    {
      for i := 0 to |changes|
        invariant paragraphs == ApplyAllToDocx(old(paragraphs), changes[..i])
      {
        assert changes[..i + 1][..i] == changes[..i];
        ApplyChange(changes[i]);
      }
      assert changes[..|changes|] == changes;
    }
  }

  // ---------------------------------------------------------------------------
  // Both exporters agree on the joined text
  // ---------------------------------------------------------------------------

  lemma JoinCons(head: string, rest: seq<string>)
    ensures Join([head] + rest) == if rest == [] then head else head + [NL] + Join(rest)
  {
    assert ([head] + rest)[1..] == rest;
  }

  lemma SpliceBefore(text: string, head: string, tail: string, i: nat, n: nat, new': string)
    requires text == head + tail && i + n <= |head|
    ensures Splice(text, i, n, new') == Splice(head, i, n, new') + tail
  {
    assert text[..i] == head[..i];
    assert text[i + n..] == head[i + n..] + tail;
    Assoc(head[..i] + new', head[i + n..], tail);
  }

  lemma ReplaceInHead(head: string, tail: string, old': string, new': string)
    requires old' != "" && NL !in old' && Contains(head, old')
    ensures ReplaceFirst(head + [NL] + tail, old', new') == ReplaceFirst(head, old', new') + [NL] + tail
  {
    var i := Find(head, old').value;
    FindInJoin(head, tail, old');
    Assoc(head, [NL], tail);
    SpliceBefore(head + ([NL] + tail), head, [NL] + tail, i, |old'|, new');
    Assoc(Splice(head, i, |old'|, new'), [NL], tail);
  }

  lemma SpliceAfter(text: string, prefix: string, tail: string, i: nat, n: nat, new': string)
    requires text == prefix + tail && i + n <= |tail|
    ensures Splice(text, |prefix| + i, n, new') == prefix + Splice(tail, i, n, new')
  {
    assert text[..|prefix| + i] == prefix + tail[..i];
    assert text[|prefix| + i + n..] == tail[i + n..];
    Assoc(prefix, tail[..i], new');
    Assoc(prefix, tail[..i] + new', tail[i + n..]);
  }

  lemma ReplaceBehind(prefix: string, tail: string, old': string, new': string)
    requires Contains(tail, old')
    requires Find(prefix + tail, old') == Some(|prefix| + Find(tail, old').value)
    ensures ReplaceFirst(prefix + tail, old', new') == prefix + ReplaceFirst(tail, old', new')
  {
    SpliceAfter(prefix + tail, prefix, tail, Find(tail, old').value, |old'|, new');
  }

  lemma ReplaceInTail(head: string, tail: string, old': string, new': string)
    requires old' != "" && NL !in old' && !Contains(head, old')
    ensures ReplaceFirst(head + [NL] + tail, old', new') == head + [NL] + ReplaceFirst(tail, old', new')
  {
    FindInJoin(head, tail, old');
    if Contains(tail, old') {
      ReplaceBehind(head + [NL], tail, old', new');
    }
  }

  lemma ReplaceCons(head: string, rest: seq<string>, old': string, new': string)
    ensures ReplaceInParagraphs([head] + rest, old', new') ==
      if Contains(head, old') then [ReplaceFirst(head, old', new')] + rest
      else [head] + ReplaceInParagraphs(rest, old', new')
  {
    assert ([head] + rest)[1..] == rest;
  }

  /** Replacing in the first paragraph that has the part is replacing in the joined text. */
  lemma {:induction false} ReplaceJoined(paragraphs: seq<string>, old': string, new': string)
    requires old' != "" && NL !in old'
    ensures Join(ReplaceInParagraphs(paragraphs, old', new')) == ReplaceFirst(Join(paragraphs), old', new')
  {
    if paragraphs != [] {
      var head, rest := paragraphs[0], paragraphs[1..];
      assert paragraphs == [head] + rest;
      JoinCons(head, rest);
      ReplaceCons(head, rest, old', new');
      if Contains(head, old') {
        JoinCons(ReplaceFirst(head, old', new'), rest);
        if rest != [] {
          ReplaceInHead(head, Join(rest), old', new');
        }
      } else {
        JoinCons(head, ReplaceInParagraphs(rest, old', new'));
        ReplaceJoined(rest, old', new');
        if rest != [] {
          ReplaceInTail(head, Join(rest), old', new');
        }
      }
    }
  }

  lemma ReplacementsDiffer(text: string, old': string, a: string, b: string)
    ensures ReplaceFirst(text, old', a) == ReplaceFirst(text, old', b) <==> a == b || !Contains(text, old')
  {
    if Contains(text, old') {
      var i := Find(text, old').value;
      var left, right := ReplaceFirst(text, old', a), ReplaceFirst(text, old', b);
      if left == right {
        assert |a| == |b|;
        assert a == left[i..i + |a|] && b == right[i..i + |b|];
      }
    }
  }

  /** One edit in a text: the first occurrence of the old text gives way to the new one, which
      a deletion has not; nothing else changes. */
  lemma EditIsExact(text: string, change: Change, i: nat)
    requires !change.kind.Add?
    ensures var old', result := OrEmpty(change.oldText), ApplyToText(text, change);
      && (old' == "" || (forall k: nat :: !OccursAt(text, old', k)) ==> result == text)
      && (old' != "" && FirstAt(text, old', i) ==>
            result == text[..i] + (if change.kind.Modify? then OrEmpty(change.newText) else "") + text[i + |old'|..])
  {
    ReplacedOnce(text, OrEmpty(change.oldText), if change.kind.Modify? then OrEmpty(change.newText) else "");
  }

  /** One change in a docx document: it goes to the first paragraph that has what is sought.
      An edit replaces there, whatever its kind; an addition is a new paragraph behind it. */
  lemma DocxChangeIsExact(paragraphs: seq<string>, change: Change, k: nat)
    requires var sought := if change.kind.Add? then Strip(OrEmpty(change.oldText)) else OrEmpty(change.oldText);
      && k <= |paragraphs| && (forall i :: 0 <= i < k ==> !Contains(paragraphs[i], sought))
      && (k < |paragraphs| ==> Contains(paragraphs[k], sought))
    ensures var sought := if change.kind.Add? then Strip(OrEmpty(change.oldText)) else OrEmpty(change.oldText);
            var written, result := OrEmpty(change.newText), ApplyToDocx(paragraphs, change);
      && (k == |paragraphs| || sought == "" || (change.kind.Add? && written == "") ==> result == paragraphs)
      && (k < |paragraphs| && sought != "" && !change.kind.Add? ==>
            result == paragraphs[..k] + [ReplaceFirst(paragraphs[k], sought, written)] + paragraphs[k + 1..])
      && (k < |paragraphs| && sought != "" && change.kind.Add? && written != "" ==>
            result == paragraphs[..k + 1] + [written] + paragraphs[k + 1..])
  {
    var sought := if change.kind.Add? then Strip(OrEmpty(change.oldText)) else OrEmpty(change.oldText);
    FirstWithIs(paragraphs, sought, k);
  }

  predicate OneLineEdit(change: Change) {
    !change.kind.Add? && NL !in OrEmpty(change.oldText)
  }

  /** The docx exporter writes the new text of a deletion, the text exporter drops it: for
      one edit, and any paragraphs, the two agree exactly when the edit is a modification,
      carries no new text, or does not apply. */
  lemma OneEditAgreesExactly(paragraphs: seq<string>, change: Change)
    requires OneLineEdit(change)
    ensures Join(ApplyToDocx(paragraphs, change)) == ApplyToText(Join(paragraphs), change) <==>
      || change.kind.Modify? || OrEmpty(change.newText) == ""
      || OrEmpty(change.oldText) == "" || !Contains(Join(paragraphs), OrEmpty(change.oldText))
  {
    var old' := OrEmpty(change.oldText);
    if old' != "" {
      ReplaceJoined(paragraphs, old', OrEmpty(change.newText));
      ReplacementsDiffer(Join(paragraphs), old', OrEmpty(change.newText), "");
    }
  }

  /** An edit that both exporters treat alike in a text: a modification, one without new
      text, or one that does not apply there. */
  predicate TreatedAlike(text: string, change: Change) {
    || change.kind.Modify? || OrEmpty(change.newText) == ""
    || OrEmpty(change.oldText) == "" || !Contains(text, OrEmpty(change.oldText))
  }

  /** The edit at i is treated alike in the text the earlier edits left. */
  predicate AlikeAt(paragraphs: seq<string>, changes: seq<Change>, i: nat)
    requires i < |changes|
  {
    TreatedAlike(ApplyAllToText(Join(paragraphs), changes[..i]), changes[i])
  }

  /** Exporting the paragraphs and joining them is exporting the joined text, for the first
      i edits. */
  predicate AgreeAfter(paragraphs: seq<string>, changes: seq<Change>, i: nat)
    requires i <= |changes|
  {
    Join(ApplyAllToDocx(paragraphs, changes[..i])) == ApplyAllToText(Join(paragraphs), changes[..i])
  }

  lemma OneMoreEdit(paragraphs: seq<string>, changes: seq<Change>, i: nat)
    requires i < |changes| && OneLineEdit(changes[i]) && AgreeAfter(paragraphs, changes, i)
    ensures AgreeAfter(paragraphs, changes, i + 1) <==> AlikeAt(paragraphs, changes, i)
  {
    assert changes[..i + 1][..i] == changes[..i];
    OneEditAgreesExactly(ApplyAllToDocx(paragraphs, changes[..i]), changes[i]);
  }

  /** If the first edits are treated alike, both exporters agree after them. */
  lemma {:induction false} AgreeSoFar(paragraphs: seq<string>, changes: seq<Change>, n: nat)
    requires n <= |changes| && forall i :: 0 <= i < n ==> OneLineEdit(changes[i]) && AlikeAt(paragraphs, changes, i)
    ensures AgreeAfter(paragraphs, changes, n)
  {
    if n == 0 {
      assert changes[..0] == [];
    } else {
      AgreeSoFar(paragraphs, changes, n - 1);
      OneMoreEdit(paragraphs, changes, n - 1);
    }
  }

  /** For any list of one-line modifications and deletions: the exporters agree after every
      one of them exactly when each, at its turn, is treated alike. */
  lemma JoinedTextRefinement(paragraphs: seq<string>, changes: seq<Change>)
    requires forall i :: 0 <= i < |changes| ==> OneLineEdit(changes[i])
    ensures (forall i :: 0 <= i <= |changes| ==> AgreeAfter(paragraphs, changes, i))
      <==> (forall i :: 0 <= i < |changes| ==> AlikeAt(paragraphs, changes, i))
  {
    if forall i :: 0 <= i <= |changes| ==> AgreeAfter(paragraphs, changes, i) {
      forall i | 0 <= i < |changes| ensures AlikeAt(paragraphs, changes, i) {
        OneMoreEdit(paragraphs, changes, i);
      }
    }
    if forall i :: 0 <= i < |changes| ==> AlikeAt(paragraphs, changes, i) {
      forall i | 0 <= i <= |changes| ensures AgreeAfter(paragraphs, changes, i) {
        AgreeSoFar(paragraphs, changes, i);
      }
    }
  }

  /** Agreement in the end alone asks less: here a deletion is written out by one exporter
      only, and the next edit removes what it wrote. */
  lemma LaterEditUndoesDifference()
    ensures var changes := [Change(Delete, Some("a"), Some("b")), Change(Modify, Some("b"), None)];
      && (forall i :: 0 <= i < |changes| ==> OneLineEdit(changes[i]))
      && !AgreeAfter(["a"], changes, 1) && AgreeAfter(["a"], changes, 2)
  {
    var first, second := Change(Delete, Some("a"), Some("b")), Change(Modify, Some("b"), None);
    var changes := [first, second];
    assert changes[..0] == [] && changes[..1] == [first] && changes[..2] == changes;
    assert [first][..0] == [] && changes[..2][..1] == [first];
    FirstIsFound("a", "a", 0, 0);
    FirstIsFound("b", "b", 0, 0);
    assert ApplyAllToText("a", []) == "a" && ApplyAllToDocx(["a"], []) == ["a"];
    assert ReplaceFirst("a", "a", "b") == "b" && ReplaceFirst("b", "b", "") == "" && ReplaceFirst("a", "a", "") == "";
    assert ApplyToDocx(["a"], first) == ["b"] && ApplyToDocx(["b"], second) == [""];
    assert ApplyToText("a", first) == "" && ApplyToText("", second) == "";
    assert ApplyAllToDocx(["a"], [first]) == ["b"] && ApplyAllToText("a", [first]) == "";
  }

  /** A deletion with new text, as a model may well send one, exports differently. */
  lemma DeletionWithTextDiverges()
    ensures var change := Change(Delete, Some("a"), Some("b"));
      && OneLineEdit(change)
      && Join(ApplyToDocx(["a"], change)) != ApplyToText(Join(["a"]), change)
  {
    var change := Change(Delete, Some("a"), Some("b"));
    FirstIsFound("a", "a", 0, 0);
    OneEditAgreesExactly(["a"], change);
  }

  // ---------------------------------------------------------------------------
  // Additions
  // ---------------------------------------------------------------------------

  /** A line that holds the end of the anchor does not end in a newline. */
  lemma AnchorLineIsTight(text: string, anchor: string)
    requires anchor != "" && Strip(anchor) == anchor && Contains(text, anchor)
    ensures var head := text[..AnchorLineEnd(text, anchor).value];
      head != "" && TrimEnd(head, IsNewline) == head
  {
    var index, position := Find(text, anchor).value, AnchorLineEnd(text, anchor).value;
    Trimmed(anchor, IsSpace);
    if position == index + |anchor| {
      assert text[index..index + |anchor|][|anchor| - 1] == text[position - 1];
    } else {
      assert !OccursAt(text, [NL], position - 1);
    }
  }

  /** Whether the anchor occurs before a position depends only on the text up to it. */
  lemma OccurrenceIsLocal(text: string, result: string, part: string, position: nat, i: nat)
    requires position <= |text| && position <= |result| && result[..position] == text[..position]
    requires i + |part| <= position
    ensures OccursAt(result, part, i) <==> OccursAt(text, part, i)
  {
    SliceOfSlice(text, 0, position, i, |part|);
    SliceOfSlice(result, 0, position, i, |part|);
  }

  /** The line end of the anchor depends only on the text up to it. */
  lemma LineEndIsLocal(text: string, result: string, anchor: string)
    requires Contains(text, anchor)
    requires var position := AnchorLineEnd(text, anchor).value;
      position < |result| && result[..position] == text[..position] && result[position] == NL
    ensures AnchorLineEnd(result, anchor) == AnchorLineEnd(text, anchor)
  {
    var index, position := Find(text, anchor).value, AnchorLineEnd(text, anchor).value;
    forall i: nat | i + |anchor| <= position ensures OccursAt(result, anchor, i) <==> OccursAt(text, anchor, i) {
      OccurrenceIsLocal(text, result, anchor, position, i);
    }
    FirstIsFound(result, anchor, 0, index);
    forall k | index + |anchor| <= k < position ensures !OccursAt(result, [NL], k) {
      OccurrenceIsLocal(text, result, [NL], position, k);
    }
    FirstIsFound(result, [NL], index + |anchor|, position);
  }

  /** Nothing but the newlines at the insertion point is touched, and the anchor's line
      still ends where it did. */
  lemma AdditionSplicesExactly(text: string, anchor: string, block: string)
    requires anchor != "" && Strip(anchor) == anchor && Contains(text, anchor)
    ensures var position := AnchorLineEnd(text, anchor).value;
            var result := InsertBlock(text, position, block);
            var tail := TrimStart(text[position..], IsNewline);
      && result == text[..position] + "\n\n" + block + (if tail == "" then "\n" else "\n\n" + tail)
      && AnchorLineEnd(result, anchor) == Some(position)
  {
    var position := AnchorLineEnd(text, anchor).value;
    AnchorLineIsTight(text, anchor);
    LineEndIsLocal(text, InsertBlock(text, position, block), anchor);
  }

  /** From `from` the line goes on to `end`, where the text ends or a newline stands. */
  predicate RunsTo(text: string, from: nat, end: nat) {
    && from <= end <= |text| && (forall k :: from <= k < end ==> text[k] != NL)
    && (end < |text| ==> text[end] == NL)
  }

  /** Newlines only from `end` to `next`, where the text ends or something else stands. */
  predicate BlankTo(text: string, end: nat, next: nat) {
    && end <= next <= |text| && (forall k :: end <= k < next ==> text[k] == NL)
    && (next < |text| ==> text[next] != NL)
  }

  lemma LineEndIs(text: string, anchor: string, i: nat, end: nat)
    requires FirstAt(text, anchor, i) && RunsTo(text, i + |anchor|, end)
    ensures AnchorLineEnd(text, anchor) == Some(end)
  {
    FirstIsFound(text, anchor, 0, i);
    FirstNewline(text, i + |anchor|);
  }

  lemma TailIs(text: string, end: nat, next: nat)
    requires BlankTo(text, end, next)
    ensures TrimStart(text[end..], IsNewline) == text[next..]
  {
    var rest := text[end..];
    var tail := TrimStart(rest, IsNewline);
    TrimStartDrops(rest, IsNewline);
    var i := |rest| - |tail|;
    assert tail != "" ==> tail[0] == rest[i];
    assert next < |text| ==> rest[next - end] == text[next];
    assert forall k :: 0 <= k < next - end ==> rest[k] == text[end + k];
  }

  /** One addition in a text: below the line in which its anchor first ends, with one blank
      line before it and one behind it, or a last newline if nothing follows; whatever else
      the text has, stays. Without anchor, text or occurrence nothing is added. */
  lemma AdditionIsExact(text: string, change: Change, i: nat, end: nat, next: nat)
    requires change.kind.Add?
    ensures var anchor, added := Strip(OrEmpty(change.oldText)), OrEmpty(change.newText);
      && (anchor == "" || added == "" || !Contains(text, anchor) ==> ApplyToText(text, change) == text)
      && (anchor != "" && added != "" && FirstAt(text, anchor, i) && RunsTo(text, i + |anchor|, end)
          && BlankTo(text, end, next) ==>
            ApplyToText(text, change) ==
            text[..end] + "\n\n" + StripNewlines(added) + if next == |text| then "\n" else "\n\n" + text[next..])
  {
    var anchor, added := Strip(OrEmpty(change.oldText)), OrEmpty(change.newText);
    if anchor != "" && FirstAt(text, anchor, i) && RunsTo(text, i + |anchor|, end) && BlankTo(text, end, next) {
      Occurs(text, anchor, i);
      TrimIsIdempotent(OrEmpty(change.oldText), IsSpace);
      LineEndIs(text, anchor, i, end);
      TailIs(text, end, next);
      AdditionSplicesExactly(text, anchor, StripNewlines(added));
    }
  }

  predicate IsAddition(change: Change, anchor: string) {
    change.kind.Add? && Strip(OrEmpty(change.oldText)) == anchor && StripNewlines(OrEmpty(change.newText)) != ""
  }

  function Block(change: Change): string {
    StripNewlines(OrEmpty(change.newText))
  }

  /** Blocks under an anchor, the latest on top, each after one blank line. */
  function Piled(changes: seq<Change>): string {
    if changes == [] then ""
    else "\n\n" + Block(changes[|changes| - 1]) + Piled(changes[..|changes| - 1])
  }

  /** What follows an inserted block, given what followed the anchor's line. */
  function Ending(rest: string): string {
    var tail := TrimStart(rest, IsNewline);
    if tail == "" then "\n" else "\n\n" + tail
  }

  lemma EmptyPile(text: string, position: nat, block: string)
    requires position <= |text|
    ensures block + Ending(text[position..]) == (block + Piled([])) + Ending(text[position..])
  {
    assert block + "" == block;
  }

  lemma TwoNewlinesOff(rest: string)
    requires rest != "" && rest[0] != NL
    ensures TrimStart("\n\n" + rest, IsNewline) == rest
  {
    var one, two := "\n" + rest, "\n\n" + rest;
    assert one[1..] == rest && two[1..] == one;
    TrimStartStops(rest, IsNewline);
    assert TrimStart(one, IsNewline) == rest;
  }

  lemma PileHasOneGap(changes: seq<Change>, end: string)
    requires changes != [] && Block(changes[|changes| - 1]) != ""
    ensures var tail := TrimStart(Piled(changes) + end, IsNewline);
      tail != "" && "\n\n" + tail == Piled(changes) + end
  {
    var block, below := Block(changes[|changes| - 1]), Piled(changes[..|changes| - 1]);
    Trimmed(OrEmpty(changes[|changes| - 1].newText), IsNewline);
    Assoc("\n\n" + block, below, end);
    Assoc("\n\n", block, below + end);
    TwoNewlinesOff(block + (below + end));
  }

  lemma EndingOfPile(changes: seq<Change>, end: string)
    requires changes != [] && Block(changes[|changes| - 1]) != ""
    ensures Ending(Piled(changes) + end) == Piled(changes) + end
  {
    PileHasOneGap(changes, end);
  }

  lemma OnTopOfPile(text: string, changes: seq<Change>, position: nat, block: string)
    requires position <= |text| && changes != [] && Block(changes[|changes| - 1]) != ""
    ensures var end := Ending(text[position..]);
            var before := text[..position] + (Piled(changes) + end);
      && before[..position] == text[..position]
      && block + Ending(before[position..]) == (block + Piled(changes)) + end
  {
    var head, end := text[..position], Ending(text[position..]);
    Halves(head, Piled(changes) + end);
    EndingOfPile(changes, end);
    Assoc(block, Piled(changes), end);
  }

  lemma LastAddition(text: string, anchor: string, change: Change, position: nat)
    requires anchor != "" && Strip(anchor) == anchor && AnchorLineEnd(text, anchor) == Some(position)
    requires IsAddition(change, anchor)
    ensures ApplyToText(text, change) == text[..position] + (("\n\n" + Block(change)) + Ending(text[position..]))
    ensures AnchorLineEnd(ApplyToText(text, change), anchor) == Some(position)
  {
    Trimmed(OrEmpty(change.newText), IsNewline);
    assert OrEmpty(change.newText) != "";
    var block := Block(change);
    AdditionSplicesExactly(text, anchor, block);
    Assoc(text[..position], "\n\n", block);
    Assoc(text[..position], "\n\n" + block, Ending(text[position..]));
  }

  /** n additions at one anchor leave their blocks under its line in reverse order, exactly
      one blank line between neighbours, and the rest of the text after them. */
  lemma {:induction false} AdditionsPileUp(text: string, anchor: string, changes: seq<Change>)
    requires anchor != "" && Strip(anchor) == anchor && Contains(text, anchor)
    requires changes != [] && forall i :: 0 <= i < |changes| ==> IsAddition(changes[i], anchor)
    ensures var position := AnchorLineEnd(text, anchor).value;
            var result := ApplyAllToText(text, changes);
      && result == text[..position] + (Piled(changes) + Ending(text[position..]))
      && AnchorLineEnd(result, anchor) == Some(position)
  {
    var n := |changes| - 1;
    var front, last := changes[..n], changes[n];
    var position := AnchorLineEnd(text, anchor).value;
    var before := ApplyAllToText(text, front);
    if n == 0 {
      EmptyPile(text, position, "\n\n" + Block(last));
    } else {
      AdditionsPileUp(text, anchor, front);
      OnTopOfPile(text, front, position, "\n\n" + Block(last));
    }
    LastAddition(before, anchor, last, position);
    assert Piled(changes) == "\n\n" + Block(last) + Piled(front);
  }

  function Newest(changes: seq<Change>): seq<string> {
    if changes == [] then [] else [OrEmpty(changes[|changes| - 1].newText)] + Newest(changes[..|changes| - 1])
  }

  lemma InsertBetween(before: seq<string>, rest: seq<string>, anchor: string, new': string)
    requires before != [] && FirstWith(before + rest, anchor) == |before| - 1
    ensures InsertAfter(before + rest, anchor, new') == before + ([new'] + rest)
    ensures FirstWith(before + ([new'] + rest), anchor) == |before| - 1
  {
    Halves(before, rest);
    var after := before + ([new'] + rest);
    assert forall i :: 0 <= i < |before| ==> after[i] == (before + rest)[i];
    FirstWithIs(after, anchor, |before| - 1);
  }

  predicate IsDocxAddition(change: Change, anchor: string) {
    change.kind.Add? && Strip(OrEmpty(change.oldText)) == anchor && OrEmpty(change.newText) != ""
  }

  lemma DocxAdditionInserts(paragraphs: seq<string>, anchor: string, change: Change)
    requires anchor != "" && IsDocxAddition(change, anchor)
    ensures ApplyToDocx(paragraphs, change) == InsertAfter(paragraphs, anchor, OrEmpty(change.newText))
  {
  }

  lemma OnTopInDocx(before: seq<string>, newest: seq<string>, rest: seq<string>, anchor: string, new': string)
    requires before != [] && FirstWith(before + (newest + rest), anchor) == |before| - 1
    ensures var result := InsertAfter(before + (newest + rest), anchor, new');
      result == before + (([new'] + newest) + rest) && FirstWith(result, anchor) == |before| - 1
  {
    InsertBetween(before, newest + rest, anchor, new');
    Assoc([new'], newest, rest);
  }

  /** In docx an addition becomes the paragraph right after the first one with the anchor,
      which stays the first: later additions there come before earlier ones. */
  lemma {:induction false} DocxAdditionsPileUp(paragraphs: seq<string>, anchor: string, changes: seq<Change>)
    requires anchor != ""
    requires forall i :: 0 <= i < |changes| ==> IsDocxAddition(changes[i], anchor)
    ensures var k := FirstWith(paragraphs, anchor);
            var result := ApplyAllToDocx(paragraphs, changes);
      if k == |paragraphs| then result == paragraphs
      else
        FirstWith(result, anchor) == k && result == paragraphs[..k + 1] + (Newest(changes) + paragraphs[k + 1..])
  {
    var k := FirstWith(paragraphs, anchor);
    if changes == [] {
      if k < |paragraphs| {
        assert paragraphs == paragraphs[..k + 1] + ([] + paragraphs[k + 1..]);
      }
    } else {
      var n := |changes| - 1;
      var before := ApplyAllToDocx(paragraphs, changes[..n]);
      DocxAdditionsPileUp(paragraphs, anchor, changes[..n]);
      DocxAdditionInserts(before, anchor, changes[n]);
      if k < |paragraphs| {
        var new' := OrEmpty(changes[n].newText);
        OnTopInDocx(paragraphs[..k + 1], Newest(changes[..n]), paragraphs[k + 1..], anchor, new');
      }
    }
  }
}

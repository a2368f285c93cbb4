/** From the model's answer to stored suggestions: normalisation, anchors, and which
    items are kept. Texts are already normalised. */
module Mapper {
  import opened Options
  import opened Texts
  import opened Exporters

  datatype Item = Item(
    sectionRef: string,
    changeType: string,
    oldText: Option<string>,
    newText: Option<string>,
    insertAfter: Option<string>)

  datatype Suggestion = Suggestion(
    kind: ChangeType,
    originalText: Option<string>,
    suggestedText: Option<string>,
    inferred: bool)

  datatype SkipReason =
    | UnknownChangeType
    | AddWithoutAnchor
    | AddAnchorNotInDocument
    | OldTextMissing
    | OldTextSpansParagraphs
    | OldTextNotInDocument

  function ChangeTypeOf(name: string): Option<ChangeType> {
    if name == "add" then Some(Add)
    else if name == "modify" then Some(Modify)
    else if name == "delete" then Some(Delete)
    else None
  }

  predicate IsHash(c: char) {
    c == '#'
  }

  predicate IsStar(c: char) {
    c == '*'
  }

  /** The text of a heading without hashes and emphasis. */
  function HeadingText(line: string): string {
    Strip(Trim(Strip(TrimStart(Strip(line), IsHash)), IsStar))
  }

  /** The first line from `from` on with something in it. */
  function FirstFilled(lines: seq<string>, from: nat): (r: Option<nat>)
    ensures r.Some? ==> from <= r.value < |lines|
    decreases |lines| - from
  {
    if from >= |lines| then None
    else if Strip(lines[from]) != "" then Some(from)
    else FirstFilled(lines, from + 1)
  }

  function HeadingTexts(lines: seq<string>): (texts: seq<string>)
    ensures |texts| == |lines|
    ensures forall i :: 0 <= i < |lines| ==> texts[i] == HeadingText(lines[i])
  {
    seq(|lines|, i requires 0 <= i < |lines| => HeadingText(lines[i]))
  }

  /** The first of the texts from `from` on that is the wanted one. */
  function FirstEqual(texts: seq<string>, wanted: string, from: nat): (r: Option<nat>)
    ensures r.Some? ==> from <= r.value < |texts|
    decreases |texts| - from
  {
    if from >= |texts| then None
    else if texts[from] == wanted then Some(from)
    else FirstEqual(texts, wanted, from + 1)
  }

  /** The first filled line below the wanted heading, or the line of the heading itself. */
  function AnchorLine(lines: seq<string>, wanted: string): (r: Option<nat>)
    ensures r.Some? ==> r.value < |lines|
  {
    match FirstEqual(HeadingTexts(lines), wanted, 0)
    case None => None
    case Some(h) =>
      match FirstFilled(lines, h + 1)
      case None => Some(h)
      case Some(k) => Some(k)
  }

  function InferredAnchor(document: string, sectionRef: string): Option<string> {
    var lines := Lines(document);
    if HeadingText(sectionRef) == "" then None
    else
      match AnchorLine(lines, HeadingText(sectionRef))
      case None => None
      case Some(k) => Some(Strip(lines[k]))
  }

  lemma {:induction false} FirstEqualIs(texts: seq<string>, wanted: string, from: nat, k: nat)
    requires from <= k <= |texts|
    requires forall i :: from <= i < k ==> texts[i] != wanted
    requires k < |texts| ==> texts[k] == wanted
    ensures FirstEqual(texts, wanted, from) == if k < |texts| then Some(k) else None
    decreases k - from
  {
    if from < k {
      FirstEqualIs(texts, wanted, from + 1, k);
    }
  }

  lemma {:induction false} FirstFilledIs(lines: seq<string>, from: nat, k: nat)
    requires from <= k <= |lines|
    requires forall i :: from <= i < k ==> Strip(lines[i]) == ""
    requires k < |lines| ==> Strip(lines[k]) != ""
    ensures FirstFilled(lines, from) == if k < |lines| then Some(k) else None
    decreases k - from
  {
    if from < k {
      FirstFilledIs(lines, from + 1, k);
    }
  }

  /** The inner loop of `infer_anchor`: the first filled line below a heading. */
  method FirstFilledLine(lines: seq<string>, from: nat) returns (k: Option<nat>)
    requires from <= |lines|
    ensures k == FirstFilled(lines, from)
  {
    for i := from to |lines|
      invariant forall j :: from <= j < i ==> Strip(lines[j]) == ""
    {
      if Strip(lines[i]) != "" {
        FirstFilledIs(lines, from, i);
        return Some(i);
      }
    }
    FirstFilledIs(lines, from, |lines|);
    k := None;
  }

  /** The outer loop: the first line that is the wanted heading. */
  method FirstHeadingLine(lines: seq<string>, wanted: string) returns (h: Option<nat>)
    ensures h == FirstEqual(HeadingTexts(lines), wanted, 0)
  {
    ghost var texts := HeadingTexts(lines);
    for index := 0 to |lines|
      invariant FirstEqual(texts, wanted, 0) == FirstEqual(texts, wanted, index)
    {
      var text := HeadingText(lines[index]);
      assert text == texts[index];
      if text == wanted {
        return Some(index);
      }
    }
    h := None;
  }

  method FirstAnchorLine(lines: seq<string>, wanted: string) returns (line: Option<nat>)
    ensures line == AnchorLine(lines, wanted)
  {
    var h := FirstHeadingLine(lines, wanted);
    if h.None? {
      return None;
    }
    var k := FirstFilledLine(lines, h.value + 1);
    line := if k.Some? then k else h;
  }

  method InferAnchor(document: string, sectionRef: string) returns (anchor: Option<string>)
    ensures anchor == InferredAnchor(document, sectionRef)
  {
    var wanted := HeadingText(sectionRef);
    if wanted == "" {
      return None;
    }
    var lines := Lines(document);
    var line := FirstAnchorLine(lines, wanted);
    anchor := if line.Some? then Some(Strip(lines[line.value])) else None;
  }

  /** The last line with something in it, stripped. */
  function LastFilled(lines: seq<string>): string {
    if lines == [] then ""
    else if Strip(lines[|lines| - 1]) != "" then Strip(lines[|lines| - 1])
    else LastFilled(lines[..|lines| - 1])
  }

  function LastParagraph(text: string): string {
    LastFilled(Lines(text))
  }

  predicate StartsWith(text: string, prefix: string) {
    prefix <= text
  }

  function Normalize(item: Item): Item {
    var old', new' := Strip(OrEmpty(item.oldText)), Strip(OrEmpty(item.newText));
    if item.changeType != "modify" then item
    else if old' != "" && new' == "" then item.(changeType := "delete", newText := None)
    else if old' != "" && |new'| > |old'| && StartsWith(new', old') then
      item.(changeType := "add", oldText := Some(""), newText := Some(Strip(new'[|old'|..])),
            insertAfter := Some(LastParagraph(old')))
    else item
  }

  /** `a or b or ""` */
  function FirstNonEmpty(a: Option<string>, b: Option<string>): string {
    if OrEmpty(a) != "" then OrEmpty(a) else OrEmpty(b)
  }

  function ResolveAnchor(item: Item, document: string): (Item, bool) {
    if item.changeType != "add" then (item, false)
    else
      var anchor := Strip(FirstNonEmpty(item.insertAfter, item.oldText));
      if anchor != "" then (item.(oldText := Some(anchor), insertAfter := None), false)
      else
        var inferred := InferredAnchor(document, item.sectionRef);
        (item.(oldText := inferred, insertAfter := None), inferred.Some?)
  }

  function WhySkipped(item: Item, document: string, singleParagraph: bool): Option<SkipReason> {
    var old' := Strip(OrEmpty(item.oldText));
    if ChangeTypeOf(item.changeType).None? then Some(UnknownChangeType)
    else if item.changeType == "add" then
      if old' == "" then Some(AddWithoutAnchor)
      else if !Contains(document, old') then Some(AddAnchorNotInDocument)
      else None
    else if old' == "" then Some(OldTextMissing)
    else if singleParagraph && NL in old' then Some(OldTextSpansParagraphs)
    else if !Contains(document, old') then Some(OldTextNotInDocument)
    else None
  }

  /** What becomes of one item. */
  function MapItem(raw: Item, document: string, singleParagraph: bool): Option<Suggestion> {
    var (item, inferred) := ResolveAnchor(Normalize(raw), document);
    if WhySkipped(item, document, singleParagraph).Some? then None
    else if ChangeTypeOf(item.changeType).None? then None
    else Some(Suggestion(ChangeTypeOf(item.changeType).value, item.oldText, item.newText, inferred))
  }

  function MapAll(items: seq<Item>, document: string, singleParagraph: bool): seq<Suggestion> {
    if items == [] then []
    else
      var front := MapAll(items[..|items| - 1], document, singleParagraph);
      match MapItem(items[|items| - 1], document, singleParagraph)
      case None => front
      case Some(suggestion) => front + [suggestion]
  }

  method MapToSuggestions(items: seq<Item>, document: string, singleParagraph: bool)
    returns (suggestions: seq<Suggestion>, skipped: nat)
    ensures suggestions == MapAll(items, document, singleParagraph)
    ensures |suggestions| + skipped == |items|
  {
    suggestions, skipped := [], 0;
    for i := 0 to |items|
      invariant suggestions == MapAll(items[..i], document, singleParagraph)
      invariant |suggestions| + skipped == i
    {
      assert items[..i + 1][..i] == items[..i];
      var normalized := Normalize(items[i]);
      var (item, inferred) := ResolveAnchor(normalized, document);
      var reason := WhySkipped(item, document, singleParagraph);
      if reason.Some? {
        skipped := skipped + 1;
        continue;
      }
      var kind := ChangeTypeOf(item.changeType).value;
      suggestions := suggestions + [Suggestion(kind, item.oldText, item.newText, inferred)];
    }
    assert items[..|items|] == items;
  }

  // ---------------------------------------------------------------------------
  // What the mapper guarantees
  // ---------------------------------------------------------------------------

  lemma {:induction false} FirstEqualFound(texts: seq<string>, wanted: string, from: nat)
    ensures var k := FirstEqual(texts, wanted, from);
      && (k.Some? ==> from <= k.value < |texts| && texts[k.value] == wanted)
      && (k.None? ==> forall i :: from <= i < |texts| ==> texts[i] != wanted)
    decreases |texts| - from
  {
    if from < |texts| && texts[from] != wanted {
      FirstEqualFound(texts, wanted, from + 1);
    }
  }

  lemma {:induction false} FirstFilledFound(lines: seq<string>, from: nat)
    ensures var k := FirstFilled(lines, from);
      k.Some? ==> from <= k.value < |lines| && Strip(lines[k.value]) != ""
    decreases |lines| - from
  {
    if from < |lines| && Strip(lines[from]) == "" {
      FirstFilledFound(lines, from + 1);
    }
  }

  /** What stands in a text once the characters around it are gone. */
  ghost predicate Leaves(text: string, middle: string, drop: char -> bool) {
    exists left, right :: StandsIn(text, left, middle, right, drop)
  }

  /** The rest of a text behind all the hashes it begins with. */
  predicate BehindHashes(text: string, rest: string) {
    && |rest| <= |text| && rest == text[|text| - |rest|..] && (rest != "" ==> rest[0] != '#')
    && forall k :: 0 <= k < |text| - |rest| ==> text[k] == '#'
  }

  /** From a line to the text of its heading: blanks off, the hashes in front off, blanks off,
      stars off, blanks off. */
  ghost predicate HeadingParts(line: string, inner: string, rest: string, plain: string, bare: string, text: string) {
    && Leaves(line, inner, IsSpace) && BehindHashes(inner, rest) && Leaves(rest, plain, IsSpace)
    && Leaves(plain, bare, c => c == '*') && Leaves(bare, text, IsSpace)
  }

  lemma BehindHashesIs(text: string, rest: string)
    ensures TrimStart(text, IsHash) == rest <==> BehindHashes(text, rest)
  {
    TrimStartDrops(text, IsHash);
    var r := TrimStart(text, IsHash);
    if BehindHashes(text, rest) {
      var i, k := |text| - |rest|, |text| - |r|;
      assert rest != "" ==> text[i] == rest[0];
      assert r != "" ==> text[k] == r[0];
    }
  }

  lemma StarsLeave(plain: string, bare: string)
    ensures Trim(plain, IsStar) == bare <==> Leaves(plain, bare, c => c == '*')
  {
    TrimExactly(plain, bare, IsStar);
    var star := (c: char) => c == '*';
    forall left, right
      ensures StandsIn(plain, left, bare, right, IsStar) <==> StandsIn(plain, left, bare, right, star)
    {
    }
  }

  /** The text of a heading is what these steps leave, and nothing else. */
  lemma HeadingTextExactly(line: string, text: string)
    ensures HeadingText(line) == text <==>
      exists inner, rest, plain, bare :: HeadingParts(line, inner, rest, plain, bare, text)
  {
    forall inner, rest, plain, bare | HeadingParts(line, inner, rest, plain, bare, text)
      ensures HeadingText(line) == text
    {
      TrimExactly(line, inner, IsSpace);
      BehindHashesIs(inner, rest);
      TrimExactly(rest, plain, IsSpace);
      StarsLeave(plain, bare);
      TrimExactly(bare, text, IsSpace);
    }
    if HeadingText(line) == text {
      var inner := Strip(line);
      var rest := TrimStart(inner, IsHash);
      var plain := Strip(rest);
      var bare := Trim(plain, IsStar);
      TrimExactly(line, inner, IsSpace);
      BehindHashesIs(inner, rest);
      TrimExactly(rest, plain, IsSpace);
      StarsLeave(plain, bare);
      TrimExactly(bare, text, IsSpace);
      assert HeadingParts(line, inner, rest, plain, bare, text);
    }
  }

  lemma HeadingIsFilled(line: string)
    ensures HeadingText(line) != "" ==> Strip(line) != ""
  {
  }

  lemma StrippedLineIsAnchor(document: string, k: nat)
    requires k < |Lines(document)| && Strip(Lines(document)[k]) != ""
    ensures var anchor := Strip(Lines(document)[k]);
      NL !in anchor && Contains(document, anchor) && Strip(anchor) == anchor
  {
    var line := Lines(document)[k];
    Trimmed(line, IsSpace);
    TrimIsIdempotent(line, IsSpace);
    LineOccurs(document, k);
    ContainsIsTransitive(document, line, Strip(line));
  }

  predicate HasHeading(lines: seq<string>, wanted: string) {
    exists i :: 0 <= i < |lines| && HeadingText(lines[i]) == wanted
  }

  lemma AnchorLineFound(lines: seq<string>, wanted: string)
    ensures AnchorLine(lines, wanted).Some? <==> HasHeading(lines, wanted)
    ensures wanted != "" && AnchorLine(lines, wanted).Some? ==> Strip(lines[AnchorLine(lines, wanted).value]) != ""
  {
    var texts := HeadingTexts(lines);
    FirstEqualFound(texts, wanted, 0);
    var h := FirstEqual(texts, wanted, 0);
    if h.Some? {
      assert HeadingText(lines[h.value]) == texts[h.value];
      HeadingIsFilled(lines[h.value]);
      FirstFilledFound(lines, h.value + 1);
    }
  }

  /** The anchor is the first filled line below the first matching heading, past nothing
      but blank lines; the heading itself if only blank lines follow. */
  lemma AnchorLineIsNearest(lines: seq<string>, wanted: string, h: nat, k: nat)
    requires h < |lines| && HeadingText(lines[h]) == wanted
    requires forall i :: 0 <= i < h ==> HeadingText(lines[i]) != wanted
    requires h < k <= |lines| && forall i :: h < i < k ==> Strip(lines[i]) == ""
    requires k < |lines| ==> Strip(lines[k]) != ""
    ensures AnchorLine(lines, wanted) == Some(if k < |lines| then k else h)
  {
    FirstEqualIs(HeadingTexts(lines), wanted, 0, h);
    FirstFilledIs(lines, h + 1, k);
  }

  /** And the inferred anchor is that line, stripped. */
  lemma InferredAnchorIsNearest(document: string, sectionRef: string, h: nat, k: nat)
    requires var lines, wanted := Lines(document), HeadingText(sectionRef);
      && wanted != "" && h < |lines| && HeadingText(lines[h]) == wanted
      && (forall i :: 0 <= i < h ==> HeadingText(lines[i]) != wanted)
      && h < k <= |lines| && (forall i :: h < i < k ==> Strip(lines[i]) == "")
      && (k < |lines| ==> Strip(lines[k]) != "")
    ensures var lines := Lines(document);
      InferredAnchor(document, sectionRef) == Some(Strip(if k < |lines| then lines[k] else lines[h]))
  {
    AnchorLineIsNearest(Lines(document), HeadingText(sectionRef), h, k);
  }

  /** There is an inferred anchor exactly when some line of the document is the wanted,
      non-empty heading. */
  lemma InferredExactlyWhenHeadingExists(document: string, sectionRef: string)
    ensures InferredAnchor(document, sectionRef).Some? <==>
      HeadingText(sectionRef) != "" && HasHeading(Lines(document), HeadingText(sectionRef))
  {
    AnchorLineFound(Lines(document), HeadingText(sectionRef));
  }

  /** An inferred anchor is always a non-empty, stripped, one-line piece of the document. */
  lemma InferredAnchorIsALine(document: string, sectionRef: string)
    requires InferredAnchor(document, sectionRef).Some?
    ensures var anchor := InferredAnchor(document, sectionRef).value;
      anchor != "" && NL !in anchor && Contains(document, anchor) && Strip(anchor) == anchor
  {
    var lines, wanted := Lines(document), HeadingText(sectionRef);
    AnchorLineFound(lines, wanted);
    StrippedLineIsAnchor(document, AnchorLine(lines, wanted).value);
  }

  /** Nothing but blank lines follow the line. */
  predicate IsLastFilled(lines: seq<string>, i: nat)
    requires i < |lines|
  {
    Strip(lines[i]) != "" && forall k :: i < k < |lines| ==> Strip(lines[k]) == ""
  }

  lemma {:induction false} LastFilledIsALine(lines: seq<string>)
    ensures LastFilled(lines) != "" ==>
      exists i :: 0 <= i < |lines| && IsLastFilled(lines, i) && LastFilled(lines) == Strip(lines[i])
    ensures LastFilled(lines) == "" ==> forall i :: 0 <= i < |lines| ==> Strip(lines[i]) == ""
  {
    if lines != [] && Strip(lines[|lines| - 1]) == "" {
      var n := |lines| - 1;
      LastFilledIsALine(lines[..n]);
      assert forall i :: 0 <= i < n ==> lines[..n][i] == lines[i];
    }
  }

  lemma {:induction false} BlankLinesMakeBlankText(lines: seq<string>)
    requires forall i :: 0 <= i < |lines| ==> Strip(lines[i]) == ""
    ensures forall c :: c in Join(lines) ==> IsSpace(c)
  {
    if lines != [] {
      Trimmed(lines[0], IsSpace);
      BlankLinesMakeBlankText(lines[1..]);
    }
  }

  lemma NotBlank(text: string)
    requires text != "" && !IsSpace(text[0])
    ensures LastFilled(Lines(text)) != ""
  {
    LastFilledIsALine(Lines(text));
    JoinOfLines(text);
    assert text[0] in text;
    if forall i :: 0 <= i < |Lines(text)| ==> Strip(Lines(text)[i]) == "" {
      BlankLinesMakeBlankText(Lines(text));
    }
  }

  /** A modification that only appends becomes an addition with something to add, anchored
      at the last filled line of the repeated text. */
  lemma AppendingModifyBecomesAdd(item: Item)
    ensures var normalized := Normalize(item);
            var old' := Strip(OrEmpty(item.oldText));
            var new' := Strip(OrEmpty(item.newText));
      && (item.changeType == "modify" && normalized.changeType == "add" <==>
            item.changeType == "modify" && old' != "" && old' < new')
      && (item.changeType == "modify" && normalized.changeType == "add" ==>
            && OrEmpty(normalized.newText) != ""
            && normalized.newText == Some(Strip(new'[|old'|..]))
            && OrEmpty(normalized.insertAfter) != ""
            && NL !in OrEmpty(normalized.insertAfter)
            && Contains(old', OrEmpty(normalized.insertAfter))
            && exists i :: 0 <= i < |Lines(old')| && IsLastFilled(Lines(old'), i)
                           && OrEmpty(normalized.insertAfter) == Strip(Lines(old')[i]))
  {
    var old', new' := Strip(OrEmpty(item.oldText)), Strip(OrEmpty(item.newText));
    if item.changeType == "modify" && old' != "" && old' < new' {
      Trimmed(OrEmpty(item.newText), IsSpace);
      var added := new'[|old'|..];
      assert !IsSpace(added[|added| - 1]);
      Trimmed(added, IsSpace);
      var lines := Lines(old');
      LastFilledIsALine(lines);
      assert LastFilled(lines) != "" by {
        Trimmed(OrEmpty(item.oldText), IsSpace);
        NotBlank(old');
      }
      var i :| 0 <= i < |lines| && IsLastFilled(lines, i) && LastFilled(lines) == Strip(lines[i]);
      StrippedLineIsAnchor(old', i);
    }
  }

  function AsChange(suggestion: Suggestion): Change {
    Change(suggestion.kind, suggestion.originalText, suggestion.suggestedText)
  }

  /** Which modifications and deletions are kept, and as what: those whose stripped old text
      is not empty, occurs in the document and, for docx, is one line. A modification that
      leaves nothing is kept as a deletion; the texts are kept as they came. */
  lemma EditsAreKeptExactly(raw: Item, document: string, singleParagraph: bool)
    requires raw.changeType == "delete" || (raw.changeType == "modify" && Normalize(raw).changeType != "add")
    ensures var kept := MapItem(raw, document, singleParagraph);
            var old', new' := Strip(OrEmpty(raw.oldText)), Strip(OrEmpty(raw.newText));
      && (kept.Some? <==> old' != "" && Contains(document, old') && (singleParagraph ==> NL !in old'))
      && (kept.Some? ==>
            && kept.value.originalText == raw.oldText && !kept.value.inferred
            && (kept.value.kind.Delete? <==> raw.changeType == "delete" || new' == "")
            && (kept.value.kind.Modify? <==> raw.changeType == "modify" && new' != "")
            && (raw.changeType == "delete" || new' != "" ==> kept.value.suggestedText == raw.newText)
            && (raw.changeType == "modify" && new' == "" ==> kept.value.suggestedText.None?))
  {
    var normal := Normalize(raw);
    assert normal.oldText == raw.oldText && normal.changeType in {"modify", "delete"};
    assert ResolveAnchor(normal, document) == (normal, false);
  }

  /** The anchor an addition comes with: where to insert, or else the old text. */
  function OwnAnchor(item: Item): string {
    if item.insertAfter.Some? && item.insertAfter.value != "" then item.insertAfter.value
    else if item.oldText.Some? then item.oldText.value
    else ""
  }

  lemma AnchorIsOwn(item: Item)
    ensures FirstNonEmpty(item.insertAfter, item.oldText) == OwnAnchor(item)
  {
  }

  /** Which additions are kept, and where: with an anchor of their own, those whose anchor
      occurs in the document; without one, those whose section has a heading there. */
  lemma AdditionsAreKeptExactly(raw: Item, document: string, singleParagraph: bool)
    requires raw.changeType == "add"
    ensures var kept := MapItem(raw, document, singleParagraph);
            var anchor := Strip(OwnAnchor(raw));
            var wanted := HeadingText(raw.sectionRef);
      && (kept.Some? <==>
            if anchor != "" then Contains(document, anchor) else wanted != "" && HasHeading(Lines(document), wanted))
      && (kept.Some? ==>
            && kept.value.kind.Add? && kept.value.suggestedText == raw.newText && kept.value.inferred == (anchor == "")
            && kept.value.originalText ==
                 if anchor != "" then Some(anchor) else InferredAnchor(document, raw.sectionRef))
  {
    var anchor := Strip(OwnAnchor(raw));
    AnchorIsOwn(raw);
    assert Normalize(raw) == raw;
    if anchor != "" {
      TrimIsIdempotent(OwnAnchor(raw), IsSpace);
    } else {
      InferredExactlyWhenHeadingExists(document, raw.sectionRef);
      if InferredAnchor(document, raw.sectionRef).Some? {
        InferredAnchorIsALine(document, raw.sectionRef);
      } else {
        assert Strip(OrEmpty(None)) == "";
      }
    }
  }

  /** A modification that only appends is kept as the addition it is, exactly if the last filled
      line of the repeated text occurs in the document, and goes below it. */
  lemma AppendingModifyIsKeptExactly(raw: Item, document: string, singleParagraph: bool, i: nat)
    requires var old', new' := Strip(OrEmpty(raw.oldText)), Strip(OrEmpty(raw.newText));
      && raw.changeType == "modify" && old' != "" && old' < new'
      && i < |Lines(old')| && IsLastFilled(Lines(old'), i)
    ensures var old', new' := Strip(OrEmpty(raw.oldText)), Strip(OrEmpty(raw.newText));
            var anchor := Strip(Lines(old')[i]);
      MapItem(raw, document, singleParagraph) ==
        if Contains(document, anchor) then Some(Suggestion(Add, Some(anchor), Some(Strip(new'[|old'|..])), false))
        else None
  {
    var old' := Strip(OrEmpty(raw.oldText));
    var anchor := Strip(Lines(old')[i]);
    LastFilledIsALine(Lines(old'));
    assert LastFilled(Lines(old')) == anchor;
    TrimIsIdempotent(Lines(old')[i], IsSpace);
    assert Normalize(raw).insertAfter == Some(anchor) && Normalize(raw).changeType == "add";
  }

  /** Why an item is not kept, and that nothing else keeps it out. */
  lemma SkippedForAReason(item: Item, document: string, singleParagraph: bool)
    ensures var reason := WhySkipped(item, document, singleParagraph);
            var sought := Strip(OrEmpty(item.oldText));
            var edit := item.changeType in {"modify", "delete"};
      && (reason == Some(UnknownChangeType) <==> item.changeType !in {"add", "modify", "delete"})
      && (reason == Some(AddWithoutAnchor) <==> item.changeType == "add" && sought == "")
      && (reason == Some(AddAnchorNotInDocument) <==>
            item.changeType == "add" && sought != "" && !Contains(document, sought))
      && (reason == Some(OldTextMissing) <==> edit && sought == "")
      && (reason == Some(OldTextSpansParagraphs) <==> edit && sought != "" && singleParagraph && NL in sought)
      && (reason == Some(OldTextNotInDocument) <==>
            edit && sought != "" && !(singleParagraph && NL in sought) && !Contains(document, sought))
      && (reason.None? <==>
            && sought != "" && Contains(document, sought)
            && (item.changeType == "add" || (edit && (singleParagraph ==> NL !in sought))))
  {
  }

  /** An item of no known kind is never kept. */
  lemma UnknownIsNotKept(raw: Item, document: string, singleParagraph: bool)
    requires raw.changeType !in {"add", "modify", "delete"}
    ensures MapItem(raw, document, singleParagraph).None?
  {
  }

  lemma OneMoreItem(items: seq<Item>, item: Item, document: string, singleParagraph: bool)
    ensures MapAll(items + [item], document, singleParagraph) == MapAll(items, document, singleParagraph)
      + match MapItem(item, document, singleParagraph) case None => [] case Some(s) => [s]
  {
    assert (items + [item])[..|items|] == items;
  }

  /** A single item gives what it is kept as, or nothing. */
  lemma OneItemAlone(item: Item, document: string, singleParagraph: bool)
    ensures MapAll([item], document, singleParagraph) ==
      match MapItem(item, document, singleParagraph) case None => [] case Some(s) => [s]
  {
    assert [] + [item] == [item];
    OneMoreItem([], item, document, singleParagraph);
  }

  lemma LastItemAlone(items: seq<Item>, item: Item, document: string, singleParagraph: bool)
    ensures MapAll(items + [item], document, singleParagraph) ==
      MapAll(items, document, singleParagraph) + MapAll([item], document, singleParagraph)
  {
    OneMoreItem(items, item, document, singleParagraph);
    OneItemAlone(item, document, singleParagraph);
  }

  /** The kept items stay in order: what a list is mapped to is what its two parts are mapped
      to, one after the other. */
  lemma {:induction false} KeptInOrder(
    first: seq<Item>, second: seq<Item>, document: string, singleParagraph: bool)
    ensures MapAll(first + second, document, singleParagraph) ==
      MapAll(first, document, singleParagraph) + MapAll(second, document, singleParagraph)
  {
    if second == [] {
      assert first + second == first;
    } else {
      var n := |second| - 1;
      var front, last := second[..n], second[n];
      assert second == front + [last] && first + second == (first + front) + [last];
      KeptInOrder(first, front, document, singleParagraph);
      LastItemAlone(front, last, document, singleParagraph);
      LastItemAlone(first + front, last, document, singleParagraph);
    }
  }

  /** Every kept addition has a stripped, non-empty anchor that the text exporter finds in
      the document. */
  lemma KeptAnchorIsFound(raw: Item, document: string, singleParagraph: bool)
    requires var s := MapItem(raw, document, singleParagraph); s.Some? && s.value.kind.Add?
    ensures var anchor := OrEmpty(MapItem(raw, document, singleParagraph).value.originalText);
      anchor != "" && Strip(anchor) == anchor && AnchorLineEnd(document, anchor).Some?
  {
    var (item, inferred) := ResolveAnchor(Normalize(raw), document);
    TrimIsIdempotent(FirstNonEmpty(Normalize(raw).insertAfter, Normalize(raw).oldText), IsSpace);
    if InferredAnchor(document, item.sectionRef).Some? {
      InferredAnchorIsALine(document, item.sectionRef);
    }
  }

  /** A block with something in it changes the text, even where the newlines around it
      were there already. */
  lemma AdditionShows(text: string, anchor: string, block: string)
    requires anchor != "" && Strip(anchor) == anchor && Contains(text, anchor)
    requires block != "" && block[0] != NL
    ensures InsertBlock(text, AnchorLineEnd(text, anchor).value, block) != text
  {
    var position := AnchorLineEnd(text, anchor).value;
    var head, rest := text[..position], text[position..];
    var tail := TrimStart(rest, IsNewline);
    var end := if tail == "" then "\n" else "\n\n" + tail;
    AdditionSplicesExactly(text, anchor, block);
    TwoNewlinesOff(block + end);
    Assoc("\n\n", block, end);
    Assoc(head, "\n\n" + block, end);
    Assoc(head, "\n\n", block);
    Halves(head, "\n\n" + (block + end));
    assert |tail| < |block + end|;
  }

  /** So a kept addition changes the document if there is text to add besides newlines, and
      leaves it alone if there is no text at all. */
  lemma KeptAdditionsAreApplicable(raw: Item, document: string, singleParagraph: bool)
    requires var s := MapItem(raw, document, singleParagraph); s.Some? && s.value.kind.Add?
    ensures var s := MapItem(raw, document, singleParagraph).value;
      && (StripNewlines(OrEmpty(s.suggestedText)) != "" ==> ApplyToText(document, AsChange(s)) != document)
      && (OrEmpty(s.suggestedText) == "" ==> ApplyToText(document, AsChange(s)) == document)
  {
    var s := MapItem(raw, document, singleParagraph).value;
    var block := StripNewlines(OrEmpty(s.suggestedText));
    KeptAnchorIsFound(raw, document, singleParagraph);
    if block != "" {
      Trimmed(OrEmpty(s.suggestedText), IsNewline);
      AdditionShows(document, OrEmpty(s.originalText), block);
    }
  }

  /** A kept modification or deletion was checked stripped but is stored as it came: the
      text exporter finds it exactly when the stored text itself occurs, which trimmed
      text always does. */
  lemma KeptEditsAreFound(raw: Item, document: string, singleParagraph: bool)
    requires var s := MapItem(raw, document, singleParagraph); s.Some? && !s.value.kind.Add?
    ensures var old' := OrEmpty(MapItem(raw, document, singleParagraph).value.originalText);
      && old' == OrEmpty(raw.oldText) && old' != "" && Contains(document, Strip(old'))
      && (singleParagraph ==> NL !in Strip(old'))
      && (Strip(old') == old' ==> Contains(document, old'))
  {
    var old' := OrEmpty(raw.oldText);
    if old' == "" {
      Trimmed(old', IsSpace);
    }
  }

  lemma PartHasNoNewline(text: string, part: string)
    requires NL !in text && NL in part
    ensures !Contains(text, part)
  {
    var k :| 0 <= k < |part| && part[k] == NL;
    forall i: nat ensures !OccursAt(text, part, i) {
      if i + |part| <= |text| {
        assert text[i..i + |part|][k] == text[i + k];
      }
    }
  }

  /** In docx the stored text of a kept edit is found inside a paragraph exactly when it
      occurs in the document and has no newline; trimmed text always is. */
  lemma KeptEditsFitOneParagraph(raw: Item, paragraphs: seq<string>)
    requires forall i :: 0 <= i < |paragraphs| ==> NL !in paragraphs[i]
    requires var s := MapItem(raw, Join(paragraphs), true); s.Some? && !s.value.kind.Add?
    ensures var old' := OrEmpty(MapItem(raw, Join(paragraphs), true).value.originalText);
      && (FirstWith(paragraphs, old') < |paragraphs| <==> NL !in old' && Contains(Join(paragraphs), old'))
      && (Strip(old') == old' ==> FirstWith(paragraphs, old') < |paragraphs|)
  {
    var old' := OrEmpty(raw.oldText);
    KeptEditsAreFound(raw, Join(paragraphs), true);
    if NL in old' {
      forall i | 0 <= i < |paragraphs| ensures !Contains(paragraphs[i], old') {
        PartHasNoNewline(paragraphs[i], old');
      }
    } else {
      ContainsInJoin(paragraphs, old');
    }
  }

  /** What an exporter looks for: the stripped anchor of an addition, the old text of an
      edit as it is. */
  function Sought(s: Suggestion): string {
    if s.kind.Add? then Strip(OrEmpty(s.originalText)) else OrEmpty(s.originalText)
  }

  /** The text exporter applies the suggestion to the document. */
  predicate FoundInText(document: string, s: Suggestion) {
    Sought(s) != "" && Contains(document, Sought(s))
  }

  /** The docx exporter finds a paragraph for it. */
  predicate FoundInDocx(paragraphs: seq<string>, s: Suggestion) {
    Sought(s) != "" && FirstWith(paragraphs, Sought(s)) < |paragraphs|
  }

  /** Stored the way the mapper checked it: additions always are. */
  predicate StoredAsChecked(s: Suggestion) {
    s.kind.Add? || Strip(OrEmpty(s.originalText)) == OrEmpty(s.originalText)
  }

  lemma KeptIsFound(raw: Item, document: string, singleParagraph: bool)
    requires MapItem(raw, document, singleParagraph).Some?
    ensures var s := MapItem(raw, document, singleParagraph).value;
      && Sought(s) != "" && (StoredAsChecked(s) ==> FoundInText(document, s))
      && (singleParagraph && !s.kind.Add? ==> NL !in Strip(Sought(s)))
  {
    var s := MapItem(raw, document, singleParagraph).value;
    if s.kind.Add? {
      KeptAnchorIsFound(raw, document, singleParagraph);
    } else {
      KeptEditsAreFound(raw, document, singleParagraph);
    }
  }

  /** Whatever the model answers, the text exporter finds every stored addition and every
      stored edit whose old text is trimmed. */
  lemma {:induction false} StoredSuggestionsAreApplicable(items: seq<Item>, document: string, singleParagraph: bool)
    ensures forall s :: s in MapAll(items, document, singleParagraph) && StoredAsChecked(s) ==> FoundInText(document, s)
  {
    if items != [] {
      var last := items[|items| - 1];
      StoredSuggestionsAreApplicable(items[..|items| - 1], document, singleParagraph);
      if MapItem(last, document, singleParagraph).Some? {
        KeptIsFound(last, document, singleParagraph);
      }
    }
  }

  lemma SoughtInDocx(paragraphs: seq<string>, s: Suggestion)
    requires forall i :: 0 <= i < |paragraphs| ==> NL !in paragraphs[i]
    ensures FoundInDocx(paragraphs, s) <==> FoundInText(Join(paragraphs), s) && NL !in Sought(s)
  {
    var part := Sought(s);
    if part != "" && NL in part {
      forall i | 0 <= i < |paragraphs| ensures !Contains(paragraphs[i], part) {
        PartHasNoNewline(paragraphs[i], part);
      }
    } else if part != "" {
      ContainsInJoin(paragraphs, part);
    }
  }

  /** In docx, against the joined text the mapper checks: a stored suggestion finds its
      paragraph exactly when the text exporter would find it and it is one line; every
      trimmed edit does, and an addition exactly when its anchor is one line. */
  lemma {:induction false} StoredSuggestionsFitParagraphs(items: seq<Item>, paragraphs: seq<string>)
    requires forall i :: 0 <= i < |paragraphs| ==> NL !in paragraphs[i]
    ensures forall s :: s in MapAll(items, Join(paragraphs), true) ==>
      && (FoundInDocx(paragraphs, s) <==> FoundInText(Join(paragraphs), s) && NL !in Sought(s))
      && (s.kind.Add? ==> (FoundInDocx(paragraphs, s) <==> NL !in Sought(s)))
      && (!s.kind.Add? && StoredAsChecked(s) ==> FoundInDocx(paragraphs, s))
  {
    if items != [] {
      var last := items[|items| - 1];
      StoredSuggestionsFitParagraphs(items[..|items| - 1], paragraphs);
      var kept := MapItem(last, Join(paragraphs), true);
      if kept.Some? {
        KeptIsFound(last, Join(paragraphs), true);
        SoughtInDocx(paragraphs, kept.value);
      }
    }
  }

  /** Finding is applying: the text exporter changes nothing when it finds nothing, and an
      edit it finds is replaced at its first occurrence. */
  lemma FoundIsApplied(document: string, s: Suggestion)
    ensures !FoundInText(document, s) ==> ApplyToText(document, AsChange(s)) == document
    ensures FoundInText(document, s) && !s.kind.Add? ==>
      var i := Find(document, Sought(s)).value;
      ApplyToText(document, AsChange(s)) ==
        Splice(document, i, |Sought(s)|, if s.kind.Modify? then OrEmpty(s.suggestedText) else "")
  {
  }

  /** The untrimmed case is real: the item is kept, and no exporter will ever find it. */
  lemma UntrimmedEditIsKeptInVain()
    ensures var raw := Item("", "delete", Some(" a"), None, None);
      && MapItem(raw, "a", true) == Some(Suggestion(Delete, Some(" a"), None, false))
      && !FoundInText("a", Suggestion(Delete, Some(" a"), None, false))
      && !FoundInDocx(["a"], Suggestion(Delete, Some(" a"), None, false))
      && ApplyToText("a", Change(Delete, Some(" a"), None)) == "a"
      && ApplyToDocx(["a"], Change(Delete, Some(" a"), None)) == ["a"]
  {
    assert TrimStart(" a", IsSpace) == "a" by {
      assert " a"[1..] == "a";
    }
    assert TrimEnd("a", IsSpace) == "a";
    FirstIsFound("a", "a", 0, 0);
    assert Find("a", " a") == None;
    assert FirstWith(["a"], " a") == 1;
  }
}

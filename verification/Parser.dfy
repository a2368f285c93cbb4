/** Parsing a docx document: its paragraphs joined into plain text, and the sections that
    its headings open. Paragraph texts are already normalised. */
module Parser {
  import opened Options
  import opened Texts

  datatype Paragraph = Paragraph(text: string, isHeading: bool)

  datatype Section = Section(title: string, startOffset: nat, endOffset: nat)

  const UNTITLED := "Без названия"

  function Paragraphs(paragraphs: seq<Paragraph>): (parts: seq<string>)
    ensures |parts| == |paragraphs|
    ensures forall i :: 0 <= i < |parts| ==> parts[i] == paragraphs[i].text
  {
    seq(|paragraphs|, i requires 0 <= i < |paragraphs| => paragraphs[i].text)
  }

  function Title(text: string): (title: string)
    ensures title != ""
  {
    if Strip(text) == "" then UNTITLED else Strip(text)
  }

  /** The indices of the headings, in order. */
  function Headings(paragraphs: seq<Paragraph>): (hs: seq<nat>)
    ensures forall k :: 0 <= k < |hs| ==> hs[k] < |paragraphs|
  {
    if paragraphs == [] then []
    else
      var n := |paragraphs| - 1;
      var front := Headings(paragraphs[..n]);
      if paragraphs[n].isHeading then front + [n] else front
  }

  lemma {:induction false} HeadingsAreExact(paragraphs: seq<Paragraph>)
    ensures var hs := Headings(paragraphs);
      && (forall i :: 0 <= i < |paragraphs| ==> (i in hs <==> paragraphs[i].isHeading))
      && (forall k, l :: 0 <= k < l < |hs| ==> hs[k] < hs[l])
  {
    if paragraphs != [] {
      var n := |paragraphs| - 1;
      HeadingsAreExact(paragraphs[..n]);
      assert n !in Headings(paragraphs[..n]);
    }
  }

  predicate Opens(section: Section, parts: seq<string>, h: nat)
    requires h < |parts|
  {
    section.title == Title(parts[h]) && section.startOffset == PartStart(parts, h)
  }

  /** Sections opened so far, one for each heading. */
  predicate Opened(sections: seq<Section>, parts: seq<string>, hs: seq<nat>)
    requires forall k :: 0 <= k < |hs| ==> hs[k] < |parts|
  {
    |sections| == |hs| && forall k :: 0 <= k < |hs| ==> Opens(sections[k], parts, hs[k])
  }

  /** A section ends where the next one starts, the last one with the text. */
  predicate ClosesAt(sections: seq<Section>, end: nat, k: nat)
    requires k < |sections|
  {
    sections[k].endOffset == if k + 1 < |sections| then sections[k + 1].startOffset else end
  }

  predicate Closed(sections: seq<Section>, end: nat) {
    forall k :: 0 <= k < |sections| ==> ClosesAt(sections, end, k)
  }

  /** What the sections of a document should be: one for each heading, from where its
      paragraph starts in the joined text to where the next one does. */
  predicate AreSections(sections: seq<Section>, paragraphs: seq<Paragraph>) {
    var parts := Paragraphs(paragraphs);
    Opened(sections, parts, Headings(paragraphs)) && Closed(sections, |Join(parts)|)
  }

  lemma {:induction false} PartStartNext(parts: seq<string>, i: nat)
    requires i < |parts|
    ensures PartStart(parts, i + 1) == PartStart(parts, i) + |parts[i]| + 1
  {
    if i > 0 {
      PartStartNext(parts[1..], i - 1);
    }
  }

  lemma {:induction false} PartStartOfPrefix(parts: seq<string>, more: seq<string>, i: nat)
    requires i <= |parts|
    ensures PartStart(parts + more, i) == PartStart(parts, i)
  {
    if i > 0 {
      assert (parts + more)[1..] == parts[1..] + more;
      PartStartOfPrefix(parts[1..], more, i - 1);
    }
  }

  lemma StartBehind(parts: seq<string>, text: string)
    ensures PartStart(parts + [text], |parts| + 1) == PartStart(parts, |parts|) + |text| + 1
  {
    PartStartOfPrefix(parts, [text], |parts|);
    PartStartNext(parts + [text], |parts|);
  }

  lemma OneMoreParagraph(paragraphs: seq<Paragraph>, i: nat)
    requires i < |paragraphs|
    ensures Paragraphs(paragraphs[..i + 1]) == Paragraphs(paragraphs[..i]) + [paragraphs[i].text]
    ensures Headings(paragraphs[..i + 1]) ==
      Headings(paragraphs[..i]) + if paragraphs[i].isHeading then [i] else []
  {
    assert paragraphs[..i + 1][..i] == paragraphs[..i];
  }

  lemma OpenedStays(sections: seq<Section>, parts: seq<string>, hs: seq<nat>, text: string)
    requires forall k :: 0 <= k < |hs| ==> hs[k] < |parts|
    requires Opened(sections, parts, hs)
    ensures Opened(sections, parts + [text], hs)
  {
    forall k | 0 <= k < |hs| ensures Opens(sections[k], parts + [text], hs[k]) {
      PartStartOfPrefix(parts, [text], hs[k]);
    }
  }

  lemma OpenedOneMore(sections: seq<Section>, parts: seq<string>, hs: seq<nat>, section: Section, h: nat)
    requires forall k :: 0 <= k < |hs| ==> hs[k] < |parts|
    requires h < |parts| && Opened(sections, parts, hs) && Opens(section, parts, h)
    ensures Opened(sections + [section], parts, hs + [h])
  {
    var longer, more := sections + [section], hs + [h];
    forall k | 0 <= k < |more| ensures Opens(longer[k], parts, more[k]) {
      if k < |hs| {
        assert Opens(sections[k], parts, hs[k]);
      }
    }
  }

  lemma OpensNext(sections: seq<Section>, parts: seq<string>, hs: seq<nat>, text: string, end: nat)
    requires forall k :: 0 <= k < |hs| ==> hs[k] < |parts|
    requires Opened(sections, parts, hs)
    ensures Opened(sections + [Section(Title(text), PartStart(parts, |parts|), end)], parts + [text], hs + [|parts|])
  {
    var section := Section(Title(text), PartStart(parts, |parts|), end);
    var all, more := parts + [text], hs + [|parts|];
    OpenedStays(sections, parts, hs, text);
    PartStartOfPrefix(parts, [text], |parts|);
    assert more[|hs|] == |parts| && all[|parts|] == text;
    OpenedOneMore(sections, all, hs, section, |parts|);
  }

  lemma CloseOne(sections: seq<Section>, parts: seq<string>, hs: seq<nat>, i: nat, textEnd: nat, end: nat)
    requires forall k :: 0 <= k < |hs| ==> hs[k] < |parts|
    requires Opened(sections, parts, hs) && i < |sections|
    requires forall k :: 0 <= k < i ==> ClosesAt(sections, textEnd, k)
    requires end == if i + 1 < |sections| then sections[i + 1].startOffset else textEnd
    ensures var closed := sections[i := sections[i].(endOffset := end)];
      Opened(closed, parts, hs) && forall k :: 0 <= k <= i ==> ClosesAt(closed, textEnd, k)
  {
    var closed := sections[i := sections[i].(endOffset := end)];
    forall k | 0 <= k < |hs| ensures Opens(closed[k], parts, hs[k]) {
      assert Opens(sections[k], parts, hs[k]);
    }
    forall k | 0 <= k <= i ensures ClosesAt(closed, textEnd, k) {
      assert k < i ==> ClosesAt(sections, textEnd, k);
    }
  }

  method Parse(paragraphs: seq<Paragraph>) returns (plainText: string, sections: seq<Section>)
    ensures plainText == Join(Paragraphs(paragraphs))
    ensures AreSections(sections, paragraphs)
  {
    sections := [];
    var parts: seq<string> := [];
    var offset := 0;
    for i := 0 to |paragraphs|
      invariant parts == Paragraphs(paragraphs[..i])
      invariant offset == PartStart(parts, i)
      invariant Opened(sections, parts, Headings(paragraphs[..i]))
    {
      var text := paragraphs[i].text;
      OneMoreParagraph(paragraphs, i);
      if paragraphs[i].isHeading {
        OpensNext(sections, parts, Headings(paragraphs[..i]), text, offset);
        sections := sections + [Section(Title(text), offset, offset)];
      } else {
        OpenedStays(sections, parts, Headings(paragraphs[..i]), text);
      }
      StartBehind(parts, text);
      parts := parts + [text];
      offset := offset + |text| + 1;
    }
    assert paragraphs[..|paragraphs|] == paragraphs;
    plainText := Join(parts);
    for i := 0 to |sections|
      invariant Opened(sections, parts, Headings(paragraphs))
      invariant forall k :: 0 <= k < i ==> ClosesAt(sections, |plainText|, k)
    {
      var end := if i + 1 < |sections| then sections[i + 1].startOffset else |plainText|;
      CloseOne(sections, parts, Headings(paragraphs), i, |plainText|, end);
      sections := sections[i := sections[i].(endOffset := end)];
    }
  }

  lemma {:induction false} PartStartsGrow(parts: seq<string>, i: nat, j: nat)
    requires i < j <= |parts|
    ensures PartStart(parts, i) + |parts[i]| < PartStart(parts, j)
    decreases j - i
  {
    PartStartNext(parts, i);
    if i + 1 < j {
      PartStartsGrow(parts, i + 1, j);
    }
  }

  lemma HeadingStarts(parts: seq<string>, sections: seq<Section>, hs: seq<nat>, k: nat)
    requires forall i :: 0 <= i < |hs| ==> hs[i] < |parts|
    requires Opened(sections, parts, hs) && k < |hs|
    ensures sections[k].startOffset == PartStart(parts, hs[k])
    ensures sections[k].startOffset + |parts[hs[k]]| <= |Join(parts)|
    ensures Join(parts)[sections[k].startOffset..sections[k].startOffset + |parts[hs[k]]|] == parts[hs[k]]
  {
    PartOccurs(parts, hs[k]);
  }

  lemma SectionSpan(parts: seq<string>, sections: seq<Section>, hs: seq<nat>, k: nat)
    requires forall i :: 0 <= i < |hs| ==> hs[i] < |parts|
    requires Opened(sections, parts, hs) && k < |hs| && ClosesAt(sections, |Join(parts)|, k)
    requires k + 1 < |hs| ==> hs[k] < hs[k + 1]
    ensures sections[k].startOffset + |parts[hs[k]]| <= sections[k].endOffset <= |Join(parts)|
  {
    HeadingStarts(parts, sections, hs, k);
    if k + 1 < |hs| {
      HeadingStarts(parts, sections, hs, k + 1);
      PartStartsGrow(parts, hs[k], hs[k + 1]);
    }
  }

  /** Sections are consecutive slices of the plain text that reach to its end, and each
      begins with its own heading and is titled by it, stripped, if it is not blank. */
  lemma SectionsSliceTheText(paragraphs: seq<Paragraph>, sections: seq<Section>, k: nat)
    requires AreSections(sections, paragraphs) && k < |sections|
    ensures var text := Join(Paragraphs(paragraphs));
            var heading := paragraphs[Headings(paragraphs)[k]].text;
      && sections[k].startOffset + |heading| <= sections[k].endOffset <= |text|
      && text[sections[k].startOffset..sections[k].startOffset + |heading|] == heading
      && (forall left, title, right :: StandsIn(heading, left, title, right, IsSpace) ==>
            sections[k].title == if title == "" then "Без названия" else title)
      && sections[k].endOffset == (if k + 1 < |sections| then sections[k + 1].startOffset else |text|)
  {
    var parts, hs := Paragraphs(paragraphs), Headings(paragraphs);
    assert ClosesAt(sections, |Join(parts)|, k);
    assert k + 1 < |hs| ==> hs[k] < hs[k + 1] by {
      HeadingsAreExact(paragraphs);
    }
    SectionSpan(parts, sections, hs, k);
    HeadingStarts(parts, sections, hs, k);
    assert Opens(sections[k], parts, hs[k]);
    forall left, title, right | StandsIn(parts[hs[k]], left, title, right, IsSpace)
      ensures sections[k].title == if title == "" then "Без названия" else title
    {
      TrimExactly(parts[hs[k]], title, IsSpace);
    }
  }
}

/** String operations the exporters and the mapper are written with: first occurrence,
    replacement, joining and splitting at newlines, trimming. */
module Texts {
  import opened Options

  const NL: char := '\n'

  predicate OccursAt(text: string, part: string, i: nat) {
    i + |part| <= |text| && text[i..i + |part|] == part
  }

  /** `text.find(part, from)`: the first occurrence at or after `from`. */
  function FindFrom(text: string, part: string, from: nat): (r: Option<nat>)
    ensures r.Some? ==> r.value >= from && OccursAt(text, part, r.value)
    ensures r.Some? ==> forall i :: from <= i < r.value ==> !OccursAt(text, part, i)
    ensures r.None? ==> forall i :: from <= i ==> !OccursAt(text, part, i)
    decreases |text| - from
  {
    if from + |part| > |text| then None
    else if text[from..from + |part|] == part then Some(from)
    else FindFrom(text, part, from + 1)
  }

  function Find(text: string, part: string): Option<nat> {
    FindFrom(text, part, 0)
  }

  predicate Contains(text: string, part: string) {
    Find(text, part).Some?
  }

  lemma FirstIsFound(text: string, part: string, from: nat, i: nat)
    requires from <= i && OccursAt(text, part, i)
    requires forall k :: from <= k < i ==> !OccursAt(text, part, k)
    ensures FindFrom(text, part, from) == Some(i)
  {
  }

  lemma Occurs(text: string, part: string, i: nat)
    requires OccursAt(text, part, i)
    ensures Contains(text, part)
  {
  }

  lemma SliceOfSlice<T>(s: seq<T>, i: nat, n: nat, k: nat, m: nat)
    requires i + n <= |s| && k + m <= n
    ensures s[i..i + n][k..k + m] == s[i + k..i + k + m]
  {
    var middle := s[i..i + n];
    var left, right := middle[k..k + m], s[i + k..i + k + m];
    forall j | 0 <= j < m ensures left[j] == right[j] {
      assert middle[k + j] == s[i + (k + j)];
    }
  }

  lemma ContainsIsTransitive(text: string, middle: string, part: string)
    requires Contains(text, middle) && Contains(middle, part)
    ensures Contains(text, part)
  {
    var i, k := Find(text, middle).value, Find(middle, part).value;
    SliceOfSlice(text, i, |middle|, k, |part|);
    Occurs(text, part, i + k);
  }

  /** The text with `n` characters from `i` on replaced. */
  function Splice(text: string, i: nat, n: nat, new': string): string
    requires i + n <= |text|
  {
    text[..i] + new' + text[i + n..]
  }

  /** `text.replace(old, new, 1)`. */
  function ReplaceFirst(text: string, old': string, new': string): string {
    match Find(text, old')
    case None => text
    case Some(i) => Splice(text, i, |old'|, new')
  }

  /** The first place where the part stands. */
  predicate FirstAt(text: string, part: string, i: nat) {
    OccursAt(text, part, i) && forall k: nat :: k < i ==> !OccursAt(text, part, k)
  }

  /** The first occurrence, and no other, gives way to the new text. */
  lemma ReplacedOnce(text: string, old': string, new': string)
    ensures (forall i: nat :: !OccursAt(text, old', i)) ==> ReplaceFirst(text, old', new') == text
    ensures forall i: nat :: FirstAt(text, old', i) ==>
      ReplaceFirst(text, old', new') == text[..i] + new' + text[i + |old'|..]
  {
  }

  // Joining and splitting at newlines.

  function Join(parts: seq<string>): string {
    if parts == [] then ""
    else if |parts| == 1 then parts[0]
    else parts[0] + [NL] + Join(parts[1..])
  }

  lemma OneLine(text: string)
    requires Find(text, [NL]).None?
    ensures NL !in text
  {
    forall i | 0 <= i < |text| ensures text[i] != NL {
      assert !OccursAt(text, [NL], i);
    }
  }

  lemma HeadIsLine(text: string, i: nat)
    requires Find(text, [NL]) == Some(i)
    ensures i < |text| && text[i] == NL && NL !in text[..i]
  {
    assert text[i..i + 1][0] == NL;
    forall k | 0 <= k < i ensures text[..i][k] != NL {
      assert !OccursAt(text, [NL], k);
    }
  }

  /** A newline is found where the first one is. */
  lemma FirstNewline(text: string, from: nat)
    ensures match FindFrom(text, [NL], from)
      case None => forall k :: from <= k < |text| ==> text[k] != NL
      case Some(i) => from <= i < |text| && text[i] == NL && forall k :: from <= k < i ==> text[k] != NL
  {
    forall k: nat ensures OccursAt(text, [NL], k) <==> k < |text| && text[k] == NL {
      if k < |text| {
        assert text[k..k + 1] == [text[k]];
      }
    }
  }

  function Lines(text: string): (lines: seq<string>)
    ensures lines != []
    ensures forall i :: 0 <= i < |lines| ==> NL !in lines[i]
    decreases |text|
  {
    match Find(text, [NL])
    case None => OneLine(text); [text]
    case Some(i) => HeadIsLine(text, i); [text[..i]] + Lines(text[i + 1..])
  }

  lemma {:induction false} JoinOfLines(text: string)
    ensures Join(Lines(text)) == text
    decreases |text|
  {
    match Find(text, [NL])
    case None =>
    case Some(i) =>
      HeadIsLine(text, i);
      JoinOfLines(text[i + 1..]);
      var lines := Lines(text);
      assert lines[1..] == Lines(text[i + 1..]);
      assert text == text[..i] + [text[i]] + text[i + 1..];
  }

  /** Where a part starts in the joined text. */
  function PartStart(parts: seq<string>, i: nat): nat
    requires i <= |parts|
  {
    if i == 0 then 0 else |parts[0]| + 1 + PartStart(parts[1..], i - 1)
  }

  lemma {:induction false} PartOccurs(parts: seq<string>, i: nat)
    requires i < |parts|
    ensures OccursAt(Join(parts), parts[i], PartStart(parts, i))
  {
    if |parts| > 1 && i > 0 {
      PartOccurs(parts[1..], i - 1);
      var rest, start := Join(parts[1..]), PartStart(parts[1..], i - 1);
      var from := |parts[0]| + 1 + start;
      assert Join(parts)[from..from + |parts[i]|] == rest[start..start + |parts[i]|];
    } else if |parts| > 1 {
      assert Join(parts)[0..|parts[0]|] == parts[0];
    } else {
      assert parts[0][0..|parts[0]|] == parts[0];
    }
  }

  lemma LineOccurs(text: string, i: nat)
    requires i < |Lines(text)|
    ensures Contains(text, Lines(text)[i])
  {
    JoinOfLines(text);
    PartOccurs(Lines(text), i);
    Occurs(text, Lines(text)[i], PartStart(Lines(text), i));
  }

  /** A newline-free part of a joined text lies inside its head or inside its tail. */
  lemma OccurrenceInJoin(head: string, tail: string, part: string, i: nat)
    requires part != "" && NL !in part
    ensures OccursAt(head + [NL] + tail, part, i) <==>
      OccursAt(head, part, i) || (i > |head| && OccursAt(tail, part, i - |head| - 1))
  {
    var text := head + [NL] + tail;
    if i + |part| <= |head| {
      assert text[i..i + |part|] == head[i..i + |part|];
    } else if i + |part| <= |text| {
      if i > |head| {
        assert text[i..i + |part|] == tail[i - |head| - 1..i - |head| - 1 + |part|];
      } else {
        assert text[i..i + |part|][|head| - i] == NL;
      }
    }
  }

  lemma FindInJoin(head: string, tail: string, part: string)
    requires part != "" && NL !in part
    ensures Find(head + [NL] + tail, part) ==
      match Find(head, part)
      case Some(i) => Some(i)
      case None => match Find(tail, part) case Some(i) => Some(|head| + 1 + i) case None => None
  {
    var text := head + [NL] + tail;
    forall i: nat ensures OccursAt(text, part, i) <==>
      OccursAt(head, part, i) || (i > |head| && OccursAt(tail, part, i - |head| - 1))
    {
      OccurrenceInJoin(head, tail, part, i);
    }
    match Find(head, part)
    case Some(i) => FirstIsFound(text, part, 0, i);
    case None =>
      match Find(tail, part)
      case Some(i) => FirstIsFound(text, part, 0, |head| + 1 + i);
      case None =>
  }

  lemma {:induction false} ContainsInJoin(parts: seq<string>, part: string)
    requires part != "" && NL !in part
    ensures Contains(Join(parts), part) <==> exists i :: 0 <= i < |parts| && Contains(parts[i], part)
  {
    if |parts| > 1 {
      ContainsInJoin(parts[1..], part);
      FindInJoin(parts[0], Join(parts[1..]), part);
      if i :| 0 <= i < |parts[1..]| && Contains(parts[1..][i], part) {
        assert Contains(parts[i + 1], part);
      }
      if i :| 0 <= i < |parts| && Contains(parts[i], part) {
        assert i > 0 ==> Contains(parts[1..][i - 1], part);
      }
    }
  }

  lemma Halves<T>(a: seq<T>, b: seq<T>)
    ensures (a + b)[..|a|] == a && (a + b)[|a|..] == b
  {
  }

  lemma Assoc<T>(a: seq<T>, b: seq<T>, c: seq<T>)
    ensures (a + b) + c == a + (b + c)
  {
  }

  // Trimming.

  function TrimStart(text: string, drop: char -> bool): string {
    if text != "" && drop(text[0]) then TrimStart(text[1..], drop) else text
  }

  function TrimEnd(text: string, drop: char -> bool): string {
    if text != "" && drop(text[|text| - 1]) then TrimEnd(text[..|text| - 1], drop) else text
  }

  lemma {:induction false} TrimStartDrops(text: string, drop: char -> bool)
    ensures var r := TrimStart(text, drop);
      && |r| <= |text| && r == text[|text| - |r|..]
      && (r != "" ==> !drop(r[0]))
      && (forall i :: 0 <= i < |text| - |r| ==> drop(text[i]))
  {
    if text != "" && drop(text[0]) {
      var rest := text[1..];
      TrimStartDrops(rest, drop);
      var n := |TrimStart(rest, drop)|;
      assert text[|text| - n..] == rest[|rest| - n..];
      forall i | 0 < i < |text| - n ensures drop(text[i]) {
        assert text[i] == rest[i - 1];
      }
    } else {
      assert text[0..] == text;
    }
  }

  lemma {:induction false} TrimEndDrops(text: string, drop: char -> bool)
    ensures var r := TrimEnd(text, drop);
      && |r| <= |text| && r == text[..|r|]
      && (r != "" ==> !drop(r[|r| - 1]))
      && (forall i :: |r| <= i < |text| ==> drop(text[i]))
  {
    if text != "" && drop(text[|text| - 1]) {
      TrimEndDrops(text[..|text| - 1], drop);
    }
  }

  function Trim(text: string, drop: char -> bool): string {
    TrimEnd(TrimStart(text, drop), drop)
  }

  /** The characters `str.strip()` removes. */
  predicate IsSpace(c: char) {
    || '\t' <= c <= '\r' || '\U{1C}' <= c <= ' ' || c == '\U{85}' || c == '\U{A0}' || c == '\U{1680}'
    || '\U{2000}' <= c <= '\U{200A}' || c in {'\U{2028}', '\U{2029}', '\U{202F}', '\U{205F}', '\U{3000}'}
  }

  /** By code point: tab to carriage return, the four separators and the space, and the spaces
      beyond ASCII. */
  lemma SpacesByCodePoint(c: char)
    ensures IsSpace(c) <==>
      || 9 <= c as int <= 13 || 28 <= c as int <= 32 || c as int in {133, 160, 5760}
      || 8192 <= c as int <= 8202 || c as int in {8232, 8233, 8239, 8287, 12288}
  {
  }

  predicate IsNewline(c: char) {
    c == NL
  }

  function Strip(text: string): string {
    Trim(text, IsSpace)
  }

  function StripNewlines(text: string): string {
    Trim(text, IsNewline)
  }

  /** Trimming yields a part that begins and ends with kept characters, and nothing else
      to keep is lost. */
  lemma Trimmed(text: string, drop: char -> bool)
    ensures var r := Trim(text, drop);
      && Contains(text, r)
      && (r != "" ==> !drop(r[0]) && !drop(r[|r| - 1]))
      && (r == "" <==> forall i :: 0 <= i < |text| ==> drop(text[i]))
      && (forall c :: c in r ==> c in text)
  {
    var left := TrimStart(text, drop);
    var r := Trim(text, drop);
    TrimStartDrops(text, drop);
    TrimEndDrops(left, drop);
    var i := |text| - |left|;
    assert text[i..i + |r|] == left[..|r|];
    Occurs(text, r, i);
    if r == "" {
      assert left == "";
    } else {
      assert r[0] == left[0] && left[0] == text[i];
    }
  }

  lemma KeptToTheEnd(middle: string, right: string, drop: char -> bool)
    requires middle != "" && !drop(middle[|middle| - 1]) && forall c :: c in right ==> drop(c)
    ensures TrimEnd(middle + right, drop) == middle
  {
    var text := middle + right;
    TrimEndDrops(text, drop);
    assert text[|middle| - 1] == middle[|middle| - 1];
    assert forall k :: |middle| <= k < |text| ==> text[k] in right;
  }

  /** The part that is left when everything around it is dropped, and it begins and ends with
      something kept. */
  lemma TrimIs(left: string, middle: string, right: string, drop: char -> bool)
    requires forall c :: c in left + right ==> drop(c)
    requires middle != "" ==> !drop(middle[0]) && !drop(middle[|middle| - 1])
    ensures Trim(left + (middle + right), drop) == middle
  {
    var text := left + (middle + right);
    var tail := TrimStart(text, drop);
    TrimStartDrops(text, drop);
    TrimEndDrops(tail, drop);
    assert forall k :: 0 <= k < |left| ==> text[k] in left + right;
    if middle == "" {
      assert forall k :: 0 <= k < |text| ==> text[k] in left + right;
    } else {
      assert text[|left|] == middle[0];
      assert tail == middle + right;
      assert forall c :: c in right ==> c in left + right;
      KeptToTheEnd(middle, right, drop);
    }
  }

  lemma {:induction false} TrimStartStops(text: string, drop: char -> bool)
    requires text == "" || !drop(text[0])
    ensures TrimStart(text, drop) == text
  {
  }

  /** The middle stands in the text with nothing around it that would be kept, and begins and
      ends with something that is. */
  predicate StandsIn(text: string, left: string, middle: string, right: string, drop: char -> bool) {
    && text == left + (middle + right) && (forall c :: c in left + right ==> drop(c))
    && (middle != "" ==> !drop(middle[0]) && !drop(middle[|middle| - 1]))
  }

  lemma TrimStands(text: string, drop: char -> bool)
    ensures exists left, right :: StandsIn(text, left, Trim(text, drop), right, drop)
  {
    var tail, r := TrimStart(text, drop), Trim(text, drop);
    TrimStartDrops(text, drop);
    TrimEndDrops(tail, drop);
    var left, right := text[..|text| - |tail|], tail[|r|..];
    assert tail == r + right && text == left + tail;
    forall c | c in left ensures drop(c) {
      var k :| 0 <= k < |left| && left[k] == c;
      assert text[k] == c;
    }
    forall c | c in right ensures drop(c) {
      var k :| 0 <= k < |right| && right[k] == c;
      assert tail[|r| + k] == c;
    }
    assert r != "" ==> r[0] == tail[0];
    assert StandsIn(text, left, r, right, drop);
  }

  /** Trimming leaves exactly that middle. */
  lemma TrimExactly(text: string, middle: string, drop: char -> bool)
    ensures Trim(text, drop) == middle <==> exists left, right :: StandsIn(text, left, middle, right, drop)
  {
    if left, right :| StandsIn(text, left, middle, right, drop) {
      TrimIs(left, middle, right, drop);
    }
    TrimStands(text, drop);
  }

  lemma TrimIsIdempotent(text: string, drop: char -> bool)
    ensures Trim(Trim(text, drop), drop) == Trim(text, drop)
  {
    Trimmed(text, drop);
    var r := Trim(text, drop);
    TrimStartStops(r, drop);
  }
}

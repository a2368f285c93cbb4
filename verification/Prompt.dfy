/** Escaping the delimiter tags in user texts before they go into the prompt. Which
    characters count as word characters is a parameter, `isWord`. */
module Prompt {
  import opened Options
  import opened Texts

  // ---------------------------------------------------------------------------
  // What the delimiter pattern matches
  // ---------------------------------------------------------------------------

  /** Case-insensitive equality with a lower-case letter; the long s folds to s. */
  predicate Folds(c: char, letter: char)
    requires 'a' <= letter <= 'z'
  {
    c == letter || c == (letter as int - 32) as char || (letter == 's' && c == '\U{017F}')
  }

  predicate IsLower(word: string) {
    forall k :: 0 <= k < |word| ==> 'a' <= word[k] <= 'z'
  }

  predicate FoldsTo(text: string, word: string)
    requires IsLower(word)
  {
    |text| == |word| && forall k :: 0 <= k < |text| ==> Folds(text[k], word[k])
  }

  predicate IsName(text: string) {
    FoldsTo(text, "document") || FoldsTo(text, "source")
  }

  predicate AllSpaces(text: string) {
    forall k :: 0 <= k < |text| ==> IsSpace(text[k])
  }

  predicate IsSlash(text: string) {
    text == "" || text == "/"
  }

  predicate TagParts(tag: string, a: string, slash: string, b: string, name: string) {
    tag == "<" + a + slash + b + name && AllSpaces(a) && IsSlash(slash) && AllSpaces(b) && IsName(name)
  }

  /** The texts of `<\s*(/?)\s*(document|source)`. */
  ghost predicate IsTag(tag: string) {
    exists a, slash, b, name :: TagParts(tag, a, slash, b, name)
  }

  /** A word has just ended: the text ends here, or goes on with something else. */
  predicate Boundary(text: string, end: nat, isWord: char -> bool) {
    end >= |text| || !isWord(text[end])
  }

  /** The pattern matches the text from i to end. */
  ghost predicate Matches(text: string, i: nat, end: nat, isWord: char -> bool) {
    i <= end <= |text| && IsTag(text[i..end]) && Boundary(text, end, isWord)
  }

  ghost predicate TagFree(text: string, isWord: char -> bool) {
    forall i: nat, end: nat :: !Matches(text, i, end, isWord)
  }

  // ---------------------------------------------------------------------------
  // Scanning and substituting
  // ---------------------------------------------------------------------------

  function SpaceEnd(text: string, i: nat): (j: nat)
    requires i <= |text|
    ensures i <= j <= |text|
    decreases |text| - i
  {
    if i < |text| && IsSpace(text[i]) then SpaceEnd(text, i + 1) else i
  }

  /** Whether the bracket at i and the spaces behind it are followed by a slash. */
  predicate IsClosing(text: string, i: nat)
    requires i < |text|
  {
    var j := SpaceEnd(text, i + 1);
    j < |text| && text[j] == '/'
  }

  /** Where the name of a tag with its bracket at i has to begin. */
  function NameStart(text: string, i: nat): (k: nat)
    requires i < |text|
    ensures i < k <= |text|
  {
    var j := SpaceEnd(text, i + 1);
    if IsClosing(text, i) then SpaceEnd(text, j + 1) else j
  }

  function NameLength(text: string, i: nat): (n: nat)
    requires i <= |text|
    ensures i + n <= |text|
    ensures n > 0 <==> n == 8 || n == 6
  {
    if i + 8 <= |text| && FoldsTo(text[i..i + 8], "document") then 8
    else if i + 6 <= |text| && FoldsTo(text[i..i + 6], "source") then 6
    else 0
  }

  datatype Tag = Tag(slash: string, name: string, end: nat)

  /** The tag whose name begins at k, if a name ends in a boundary there. */
  function NamedTag(text: string, slash: string, k: nat, isWord: char -> bool): (r: Option<Tag>)
    requires k <= |text|
    ensures r.Some? ==> k < r.value.end <= |text| && r.value.slash == slash
  {
    var n := NameLength(text, k);
    if n == 0 || !Boundary(text, k + n, isWord) then None
    else Some(Tag(slash, text[k..k + n], k + n))
  }

  /** The match that begins at i, if there is one. */
  function TagAt(text: string, i: nat, isWord: char -> bool): (r: Option<Tag>)
    requires i <= |text|
    ensures r.Some? ==> i < r.value.end <= |text| && IsSlash(r.value.slash)
  {
    if i == |text| || text[i] != '<' then None
    else NamedTag(text, if IsClosing(text, i) then "/" else "", NameStart(text, i), isWord)
  }

  /** A scanner for a text: the tag at each position, if there is one. */
  type Scan = nat -> Option<Tag>

  ghost predicate Advances(text: string, scan: Scan) {
    forall i: nat :: i <= |text| && scan(i).Some? ==> i < scan(i).value.end <= |text|
  }

  function Scanner(text: string, isWord: char -> bool): (scan: Scan)
    ensures Advances(text, scan)
  {
    (i: nat) => if i <= |text| then TagAt(text, i, isWord) else None
  }

  function Escaped(tag: Tag): string {
    "&lt;" + tag.slash + tag.name
  }

  /** Replacing what the scanner finds, left to right. */
  function Substitute(text: string, i: nat, scan: Scan): string
    requires i <= |text| && Advances(text, scan)
    decreases |text| - i
  {
    if i == |text| then ""
    else
      match scan(i)
      case None => [text[i]] + Substitute(text, i + 1, scan)
      case Some(tag) => Escaped(tag) + Substitute(text, tag.end, scan)
  }

  function Escape(text: string, isWord: char -> bool): string {
    Substitute(text, 0, Scanner(text, isWord))
  }

  // ---------------------------------------------------------------------------
  // The scanner finds exactly the matches
  // ---------------------------------------------------------------------------

  lemma NameLetters(name: string)
    requires IsName(name)
    ensures |name| > 0
    ensures forall k :: 0 <= k < |name| ==> name[k] !in "<&/\n" && !IsSpace(name[k])
  {
  }

  /** A tag begins with its only angle bracket, has no ampersand, and ends in a letter. */
  lemma TagShape(tag: string)
    requires IsTag(tag)
    ensures |tag| > 1 && tag[0] == '<'
    ensures forall k :: 0 < k < |tag| ==> tag[k] != '<' && tag[k] != '&'
    ensures !IsSpace(tag[|tag| - 1])
  {
    var a, slash, b, name :| TagParts(tag, a, slash, b, name);
    NameLetters(name);
    assert tag[|tag| - 1] == name[|name| - 1];
  }

  lemma {:induction false} SpaceEndIs(text: string, i: nat, j: nat)
    requires i <= j <= |text|
    requires forall k :: i <= k < j ==> IsSpace(text[k])
    requires j == |text| || !IsSpace(text[j])
    ensures SpaceEnd(text, i) == j
    decreases j - i
  {
    if i < j {
      SpaceEndIs(text, i + 1, j);
    }
  }

  lemma {:induction false} SpacesUpTo(text: string, i: nat)
    requires i <= |text|
    ensures AllSpaces(text[i..SpaceEnd(text, i)])
    decreases |text| - i
  {
    if i < |text| && IsSpace(text[i]) {
      SpacesUpTo(text, i + 1);
      var j := SpaceEnd(text, i);
      assert text[i..j] == [text[i]] + text[i + 1..j];
    }
  }

  lemma TagName(text: string, i: nat, isWord: char -> bool)
    requires i <= |text| && TagAt(text, i, isWord).Some?
    ensures IsName(TagAt(text, i, isWord).value.name)
  {
  }

  lemma Cut(text: string, i: nat, j: nat, m: nat, k: nat, end: nat)
    requires i < j <= m <= k <= end <= |text|
    ensures text[i..end] == [text[i]] + text[i + 1..j] + text[j..m] + text[m..k] + text[k..end]
  {
  }

  /** The text of a scanned tag is its bracket, slash and name with spaces between. */
  lemma ScanMatches(text: string, i: nat, isWord: char -> bool)
    requires i <= |text| && TagAt(text, i, isWord).Some?
    ensures var tag := TagAt(text, i, isWord).value;
      && Matches(text, i, tag.end, isWord)
      && exists a, b :: TagParts(text[i..tag.end], a, tag.slash, b, tag.name)
  {
    var tag := TagAt(text, i, isWord).value;
    var j := SpaceEnd(text, i + 1);
    var closing := IsClosing(text, i);
    var m := if closing then j + 1 else j;
    var k := if closing then SpaceEnd(text, m) else j;
    SpacesUpTo(text, i + 1);
    if closing {
      SpacesUpTo(text, m);
    }
    Cut(text, i, j, m, k, tag.end);
    assert text[j..m] == tag.slash;
    TagName(text, i, isWord);
    assert TagParts(text[i..tag.end], text[i + 1..j], tag.slash, text[m..k], tag.name);
  }

  /** Where the parts of a tag lie in it. */
  lemma PartsOfTag(a: string, slash: string, b: string, name: string)
    ensures var tag := "<" + a + slash + b + name;
            var j, m, k := 1 + |a|, 1 + |a| + |slash|, 1 + |a| + |slash| + |b|;
      && |tag| == k + |name| && tag[0] == '<'
      && tag[1..j] == a && tag[j..m] == slash && tag[m..k] == b && tag[k..k + |name|] == name
  {
  }

  lemma SpacesInSlice(text: string, i: nat, n: nat, j: nat, k: nat)
    requires i + n <= |text| && j <= k <= n && AllSpaces(text[i..i + n][j..k])
    ensures forall x :: i + j <= x < i + k ==> IsSpace(text[x])
  {
    SliceOfSlice(text, i, n, j, k - j);
    var spaces := text[i..i + n][j..k];
    assert spaces == text[i + j..i + k];
    forall x | i + j <= x < i + k ensures IsSpace(text[x]) {
      assert IsSpace(spaces[x - (i + j)]);
      assert text[i + j..i + k][x - (i + j)] == text[x];
    }
  }

  /** Where the parts of a tag lie in the text. */
  lemma PartsInText(text: string, i: nat, end: nat, a: string, slash: string, b: string, name: string)
    requires i <= end <= |text| && TagParts(text[i..end], a, slash, b, name)
    ensures var j, k := i + 1 + |a|, i + 1 + |a| + |slash| + |b|;
      && k + |name| == end && text[i] == '<' && text[k..end] == name
      && (forall x :: i + 1 <= x < j ==> IsSpace(text[x]))
      && text[j..j + |slash|] == slash
      && (forall x :: j + |slash| <= x < k ==> IsSpace(text[x]))
  {
    var tag := text[i..end];
    var j, m, k := 1 + |a|, 1 + |a| + |slash|, 1 + |a| + |slash| + |b|;
    PartsOfTag(a, slash, b, name);
    SliceOfSlice(text, i, |tag|, k, |name|);
    SliceOfSlice(text, i, |tag|, j, |slash|);
    SpacesInSlice(text, i, |tag|, 1, j);
    SpacesInSlice(text, i, |tag|, m, k);
  }

  lemma NameLengthIs(text: string, k: nat, name: string)
    requires k + |name| <= |text| && text[k..k + |name|] == name && IsName(name)
    ensures NameLength(text, k) == |name|
  {
    if |name| == 6 && k + 8 <= |text| {
      assert text[k..k + 8][0] == name[0];
    }
  }

  lemma NameStartIs(text: string, i: nat, end: nat, a: string, slash: string, b: string, name: string)
    requires i <= end <= |text| && TagParts(text[i..end], a, slash, b, name)
    ensures i < |text| && text[i] == '<' && end >= |name| && NameStart(text, i) == end - |name|
    ensures text[end - |name|..end] == name && (IsClosing(text, i) <==> slash == "/")
  {
    PartsInText(text, i, end, a, slash, b, name);
    NameLetters(name);
    var j, k := i + 1 + |a|, end - |name|;
    assert text[k] == name[0];
    if slash == "/" {
      assert text[j] == text[j..j + 1][0];
      SpaceEndIs(text, i + 1, j);
      SpaceEndIs(text, j + 1, k);
    } else {
      SpaceEndIs(text, i + 1, k);
    }
  }

  lemma NamedTagIs(text: string, slash: string, k: nat, name: string, isWord: char -> bool)
    requires k + |name| <= |text| && text[k..k + |name|] == name && IsName(name)
    requires Boundary(text, k + |name|, isWord)
    ensures NamedTag(text, slash, k, isWord) == Some(Tag(slash, name, k + |name|))
  {
    NameLengthIs(text, k, name);
    NameLetters(name);
  }

  lemma PartsAreScanned(
    text: string, i: nat, end: nat, a: string, slash: string, b: string, name: string, isWord: char -> bool)
    requires i <= end <= |text| && TagParts(text[i..end], a, slash, b, name) && Boundary(text, end, isWord)
    ensures i < |text| && TagAt(text, i, isWord) == Some(Tag(slash, name, end))
  {
    NameStartIs(text, i, end, a, slash, b, name);
    NamedTagIs(text, if IsClosing(text, i) then "/" else "", end - |name|, name, isWord);
  }

  lemma MatchIsScanned(text: string, i: nat, end: nat, isWord: char -> bool)
    requires Matches(text, i, end, isWord)
    ensures i < |text| && TagAt(text, i, isWord).Some? && TagAt(text, i, isWord).value.end == end
  {
    var a, slash, b, name :| TagParts(text[i..end], a, slash, b, name);
    PartsAreScanned(text, i, end, a, slash, b, name, isWord);
  }

  /** The scanner finds a tag exactly where the pattern matches, and the match is unique. */
  lemma ScannerIsExact(text: string, i: nat, isWord: char -> bool)
    requires i <= |text|
    ensures forall end: nat :: Matches(text, i, end, isWord) <==>
      TagAt(text, i, isWord).Some? && TagAt(text, i, isWord).value.end == end
  {
    forall end: nat ensures Matches(text, i, end, isWord) <==>
      TagAt(text, i, isWord).Some? && TagAt(text, i, isWord).value.end == end
    {
      if Matches(text, i, end, isWord) {
        MatchIsScanned(text, i, end, isWord);
      }
      if TagAt(text, i, isWord).Some? {
        ScanMatches(text, i, isWord);
      }
    }
  }

  // ---------------------------------------------------------------------------
  // Matches in concatenated texts
  // ---------------------------------------------------------------------------

  lemma MatchBehind(a: string, b: string, i: nat, end: nat, isWord: char -> bool)
    ensures Matches(a + b, |a| + i, |a| + end, isWord) <==> Matches(b, i, end, isWord)
  {
    if i <= end <= |b| {
      assert (a + b)[|a| + i..|a| + end] == b[i..end];
    }
  }

  /** What is left of a tag after the texts it could not start in. */
  lemma NoBracketNoMatch(text: string, i: nat, end: nat, isWord: char -> bool)
    requires i >= |text| || text[i] != '<'
    ensures !Matches(text, i, end, isWord)
  {
    if Matches(text, i, end, isWord) {
      TagShape(text[i..end]);
    }
  }

  lemma MatchShape(text: string, i: nat, end: nat, isWord: char -> bool)
    requires Matches(text, i, end, isWord)
    ensures i < end && text[i] == '<' && !IsSpace(text[end - 1])
    ensures forall k :: i < k < end ==> text[k] != '<' && text[k] != '&'
  {
    var tag := text[i..end];
    TagShape(tag);
    forall k | i < k < end ensures text[k] != '<' && text[k] != '&' {
      assert text[k] == tag[k - i];
    }
    assert text[end - 1] == tag[end - 1 - i];
  }

  /** A new line that opens with a bracket cannot continue a tag begun before it. */
  lemma MatchBefore(a: string, b: string, i: nat, end: nat, isWord: char -> bool)
    requires i < |a| && |b| > 1 && b[0] == NL && b[1] == '<' && !isWord(NL)
    ensures Matches(a + b, i, end, isWord) <==> Matches(a, i, end, isWord)
  {
    var text := a + b;
    assert text[|a|] == NL && text[|a| + 1] == '<';
    if i <= end <= |a| {
      assert text[i..end] == a[i..end];
    } else if Matches(text, i, end, isWord) {
      MatchShape(text, i, end, isWord);
    }
  }

  // ---------------------------------------------------------------------------
  // Escaping is complete
  // ---------------------------------------------------------------------------

  /** What replaces a tag brings in no bracket. */
  ghost predicate Harmless(text: string, scan: Scan) {
    forall i: nat :: i <= |text| && scan(i).Some? ==> '<' !in Escaped(scan(i).value)
  }

  /** The scanner misses no match. */
  ghost predicate MissesNothing(text: string, scan: Scan, isWord: char -> bool) {
    forall i: nat, end: nat :: Matches(text, i, end, isWord) ==> scan(i).Some?
  }

  lemma ScannerIsGood(text: string, isWord: char -> bool)
    ensures Harmless(text, Scanner(text, isWord)) && MissesNothing(text, Scanner(text, isWord), isWord)
  {
    var scan := Scanner(text, isWord);
    forall i: nat | i <= |text| && scan(i).Some? ensures '<' !in Escaped(scan(i).value) {
      TagName(text, i, isWord);
      NameLetters(scan(i).value.name);
    }
    forall i: nat, end: nat | Matches(text, i, end, isWord) ensures scan(i).Some? {
      MatchIsScanned(text, i, end, isWord);
    }
  }

  /** Up to its first ampersand, the output agrees with the input; there the input has an
      ampersand of its own or the scanner found a tag. */
  lemma {:induction false} AgreesUpToAmpersand(text: string, i: nat, n: nat, scan: Scan)
    requires i <= |text| && Advances(text, scan)
    requires var out := Substitute(text, i, scan);
      n <= |out| && forall k :: 0 <= k < n ==> out[k] != '&'
    ensures var out := Substitute(text, i, scan);
      && i + n <= |text| && out[..n] == text[i..i + n]
      && (n == |out| ==> i + n == |text|)
      && (n < |out| ==> i + n < |text| && (out[n] == text[i + n] || scan(i + n).Some?))
    decreases n
  {
    if i < |text| {
      var out := Substitute(text, i, scan);
      if scan(i).Some? {
        assert out[0] == '&';
      } else if n > 0 {
        var rest := Substitute(text, i + 1, scan);
        assert out == [text[i]] + rest;
        forall k | 0 <= k < n - 1 ensures rest[k] != '&' {
          assert rest[k] == out[k + 1];
        }
        AgreesUpToAmpersand(text, i + 1, n - 1, scan);
        assert out[..n] == [text[i]] + rest[..n - 1];
        assert text[i..i + n] == [text[i]] + text[i + 1..i + n];
      }
    }
  }

  /** The scanner takes only brackets for the beginning of a tag. */
  ghost predicate WantsBracket(text: string, scan: Scan) {
    forall i: nat :: i < |text| && scan(i).Some? ==> text[i] == '<'
  }

  lemma NoMatchAtTheFront(text: string, i: nat, end: nat, scan: Scan, isWord: char -> bool)
    requires i <= |text| && Advances(text, scan) && WantsBracket(text, scan) && MissesNothing(text, scan, isWord)
    requires scan(i).None? && !isWord('<')
    ensures !Matches(Substitute(text, i, scan), 0, end, isWord)
  {
    var out := Substitute(text, i, scan);
    if Matches(out, 0, end, isWord) {
      MatchShape(out, 0, end, isWord);
      AgreesUpToAmpersand(text, i, end, scan);
      assert out[0..end] == out[..end];
      assert Matches(text, i, i + end, isWord);
    }
  }

  lemma NoMatchInEscaped(text: string, from: nat, i: nat, end: nat, scan: Scan, isWord: char -> bool)
    requires from <= |text| && Advances(text, scan) && Harmless(text, scan)
    requires from < |text| && scan(from).Some? && i < |Escaped(scan(from).value)|
    ensures !Matches(Substitute(text, from, scan), i, end, isWord)
  {
    var front := Escaped(scan(from).value);
    assert front[i] in front && Substitute(text, from, scan)[i] == front[i];
    NoBracketNoMatch(Substitute(text, from, scan), i, end, isWord);
  }

  lemma {:induction false} NoMatchLeft(text: string, from: nat, i: nat, end: nat, scan: Scan, isWord: char -> bool)
    requires from <= |text| && Advances(text, scan) && Harmless(text, scan)
    requires WantsBracket(text, scan) && MissesNothing(text, scan, isWord) && !isWord('<')
    ensures !Matches(Substitute(text, from, scan), i, end, isWord)
    decreases |text| - from
  {
    var out := Substitute(text, from, scan);
    if from == |text| || i >= |out| {
      NoBracketNoMatch(out, i, end, isWord);
    } else {
      var tag := scan(from);
      var front := if tag.Some? then Escaped(tag.value) else [text[from]];
      var next := if tag.Some? then tag.value.end else from + 1;
      assert out == front + Substitute(text, next, scan);
      if end < i {
      } else if i >= |front| {
        NoMatchLeft(text, next, i - |front|, end - |front|, scan, isWord);
        MatchBehind(front, Substitute(text, next, scan), i - |front|, end - |front|, isWord);
      } else if tag.Some? {
        NoMatchInEscaped(text, from, i, end, scan, isWord);
      } else {
        NoMatchAtTheFront(text, from, end, scan, isWord);
      }
    }
  }

  /** Whatever the text, the escaped text has no match of the delimiter pattern. */
  lemma EscapingIsComplete(text: string, isWord: char -> bool)
    requires !isWord('<')
    ensures TagFree(Escape(text, isWord), isWord)
  {
    var scan := Scanner(text, isWord);
    ScannerIsGood(text, isWord);
    assert WantsBracket(text, scan);
    forall i: nat, end: nat ensures !Matches(Escape(text, isWord), i, end, isWord) {
      NoMatchLeft(text, 0, i, end, scan, isWord);
    }
  }

  lemma {:induction false} KeptUpTo(text: string, from: nat, i: nat, scan: Scan)
    requires from <= i <= |text| && Advances(text, scan)
    requires forall k: nat :: from <= k < i ==> scan(k).None?
    ensures Substitute(text, from, scan) == text[from..i] + Substitute(text, i, scan)
    decreases i - from
  {
    if from < i {
      KeptUpTo(text, from + 1, i, scan);
      Assoc([text[from]], text[from + 1..i], Substitute(text, i, scan));
      assert text[from..i] == [text[from]] + text[from + 1..i];
    }
  }

  lemma Untouched(text: string, isWord: char -> bool)
    ensures TagFree(text, isWord) ==> Escape(text, isWord) == text
  {
    if TagFree(text, isWord) {
      forall i: nat | i < |text| ensures Scanner(text, isWord)(i).None? {
        if TagAt(text, i, isWord).Some? {
          ScanMatches(text, i, isWord);
        }
      }
      KeptUpTo(text, 0, |text|, Scanner(text, isWord));
      assert text[0..|text|] == text;
    }
  }

  /** A text without tags is left as it is, so escaping twice is escaping once. */
  lemma EscapingIsIdempotent(text: string, isWord: char -> bool)
    requires !isWord('<')
    ensures TagFree(text, isWord) ==> Escape(text, isWord) == text
    ensures Escape(Escape(text, isWord), isWord) == Escape(text, isWord)
  {
    EscapingIsComplete(text, isWord);
    Untouched(text, isWord);
    Untouched(Escape(text, isWord), isWord);
  }

  // ---------------------------------------------------------------------------
  // Everything outside the tags is kept, in order
  // ---------------------------------------------------------------------------

  lemma {:induction false} SpaceEndInSuffix(text: string, k: nat, i: nat)
    requires k + i <= |text|
    ensures SpaceEnd(text[k..], i) + k == SpaceEnd(text, k + i)
    decreases |text| - k - i
  {
    if k + i < |text| && IsSpace(text[k + i]) {
      SpaceEndInSuffix(text, k, i + 1);
    }
  }

  lemma NameInSuffix(text: string, k: nat, i: nat)
    requires k + i <= |text|
    ensures NameLength(text[k..], i) == NameLength(text, k + i)
    ensures text[k..][i..i + NameLength(text[k..], i)] == text[k + i..k + i + NameLength(text, k + i)]
  {
    if k + i + 8 <= |text| {
      assert text[k..][i..i + 8] == text[k + i..k + i + 8];
    }
    if k + i + 6 <= |text| {
      assert text[k..][i..i + 6] == text[k + i..k + i + 6];
    }
  }

  lemma NameStartInSuffix(text: string, k: nat, i: nat)
    requires k + i < |text|
    ensures IsClosing(text[k..], i) == IsClosing(text, k + i)
    ensures NameStart(text[k..], i) + k == NameStart(text, k + i)
  {
    SpaceEndInSuffix(text, k, i + 1);
    var j := SpaceEnd(text[k..], i + 1);
    if IsClosing(text, k + i) {
      SpaceEndInSuffix(text, k, j + 1);
    }
  }

  lemma BoundaryInSuffix(text: string, k: nat, end: nat, isWord: char -> bool)
    requires k + end <= |text|
    ensures Boundary(text[k..], end, isWord) == Boundary(text, k + end, isWord)
  {
  }

  function Shifted(tag: Option<Tag>, k: nat): Option<Tag> {
    match tag
    case None => None
    case Some(found) => Some(found.(end := k + found.end))
  }

  lemma NamedTagInSuffix(text: string, k: nat, slash: string, start: nat, isWord: char -> bool)
    requires k + start <= |text|
    ensures NamedTag(text, slash, k + start, isWord) == Shifted(NamedTag(text[k..], slash, start, isWord), k)
  {
    NameInSuffix(text, k, start);
    BoundaryInSuffix(text, k, start + NameLength(text[k..], start), isWord);
  }

  lemma TagInSuffix(text: string, k: nat, i: nat, isWord: char -> bool)
    requires k + i <= |text|
    ensures TagAt(text, k + i, isWord) == Shifted(TagAt(text[k..], i, isWord), k)
  {
    var suffix := text[k..];
    if i < |suffix| && suffix[i] == '<' {
      NameStartInSuffix(text, k, i);
      NamedTagInSuffix(text, k, if IsClosing(suffix, i) then "/" else "", NameStart(suffix, i), isWord);
    }
  }

  lemma SubstituteTag(text: string, i: nat, scan: Scan, tag: Tag)
    requires i < |text| && Advances(text, scan) && scan(i) == Some(tag)
    ensures i < tag.end <= |text| && Substitute(text, i, scan) == Escaped(tag) + Substitute(text, tag.end, scan)
  {
  }

  lemma SubstituteChar(text: string, i: nat, scan: Scan)
    requires i < |text| && Advances(text, scan) && scan(i).None?
    ensures Substitute(text, i, scan) == [text[i]] + Substitute(text, i + 1, scan)
  {
  }

  predicate SameAt(k: nat, j: nat, scan: Scan, inner: Scan) {
    scan(k + j) == Shifted(inner(j), k)
  }

  /** The scanners of a text and of its suffix find the same tags. */
  ghost predicate SameScan(k: nat, end: nat, scan: Scan, inner: Scan) {
    forall j: nat :: j <= end ==> SameAt(k, j, scan, inner)
  }

  lemma {:induction false} SubstituteInSuffix(text: string, suffix: string, k: nat, i: nat, scan: Scan, inner: Scan)
    requires k <= |text| && suffix == text[k..] && i <= |suffix|
    requires Advances(text, scan) && Advances(suffix, inner) && SameScan(k, |suffix|, scan, inner)
    ensures Substitute(suffix, i, inner) == Substitute(text, k + i, scan)
    decreases |suffix| - i
  {
    if i < |suffix| {
      assert SameAt(k, i, scan, inner);
      match inner(i)
      case None =>
        SubstituteChar(suffix, i, inner);
        SubstituteChar(text, k + i, scan);
        SubstituteInSuffix(text, suffix, k, i + 1, scan, inner);
      case Some(tag) =>
        SubstituteTag(suffix, i, inner, tag);
        SubstituteTag(text, k + i, scan, tag.(end := k + tag.end));
        SubstituteInSuffix(text, suffix, k, tag.end, scan, inner);
    }
  }

  lemma ScanInSuffix(text: string, suffix: string, k: nat, j: nat, isWord: char -> bool)
    requires k <= |text| && suffix == text[k..] && j <= |suffix|
    ensures SameAt(k, j, Scanner(text, isWord), Scanner(suffix, isWord))
  {
    TagInSuffix(text, k, j, isWord);
  }

  lemma ScansInSuffix(text: string, suffix: string, k: nat, isWord: char -> bool)
    requires k <= |text| && suffix == text[k..]
    ensures SameScan(k, |suffix|, Scanner(text, isWord), Scanner(suffix, isWord))
  {
    forall j: nat | j <= |suffix| ensures SameAt(k, j, Scanner(text, isWord), Scanner(suffix, isWord)) {
      ScanInSuffix(text, suffix, k, j, isWord);
    }
  }

  /** What follows a position is escaped as if it stood alone. */
  lemma RestIsEscapedAlone(text: string, k: nat, isWord: char -> bool)
    requires k <= |text|
    ensures Substitute(text, k, Scanner(text, isWord)) == Escape(text[k..], isWord)
  {
    ScansInSuffix(text, text[k..], k, isWord);
    SubstituteInSuffix(text, text[k..], k, 0, Scanner(text, isWord), Scanner(text[k..], isWord));
  }

  /** The text before the first tag is kept, the tag loses its bracket to an entity and its
      inner spaces, and the rest is escaped on its own. */
  lemma FirstTagIsEscaped(text: string, i: nat, isWord: char -> bool)
    requires i < |text| && TagAt(text, i, isWord).Some?
    requires forall k :: 0 <= k < i ==> TagAt(text, k, isWord).None?
    ensures var tag := TagAt(text, i, isWord).value;
      Escape(text, isWord) == text[..i] + (("&lt;" + tag.slash + tag.name) + Escape(text[tag.end..], isWord))
  {
    var scan := Scanner(text, isWord);
    KeptUpTo(text, 0, i, scan);
    assert text[0..i] == text[..i];
    RestIsEscapedAlone(text, scan(i).value.end, isWord);
  }

  /** The same in terms of the pattern alone: the first match is replaced by the entity, the
      slash it has and its name, whatever spaces stood between. */
  lemma FirstMatchIsEscaped(
    text: string, i: nat, end: nat, a: string, slash: string, b: string, name: string, isWord: char -> bool)
    requires Matches(text, i, end, isWord) && TagParts(text[i..end], a, slash, b, name)
    requires forall k: nat, stop: nat :: k < i ==> !Matches(text, k, stop, isWord)
    ensures Escape(text, isWord) == text[..i] + (("&lt;" + slash + name) + Escape(text[end..], isWord))
  {
    PartsAreScanned(text, i, end, a, slash, b, name, isWord);
    forall k | 0 <= k < i ensures TagAt(text, k, isWord).None? {
      if TagAt(text, k, isWord).Some? {
        ScanMatches(text, k, isWord);
      }
    }
    FirstTagIsEscaped(text, i, isWord);
  }

  // ---------------------------------------------------------------------------
  // The prompt
  // ---------------------------------------------------------------------------

  /** A delimited piece of data. */
  function Wrapped(name: string, body: string): string {
    ("<" + name + ">\n") + (body + ("\n</" + name + ">\n"))
  }

  function Data(document: string, source: string, isWord: char -> bool): string {
    Wrapped("document", Escape(document, isWord)) + "\n" + Wrapped("source", Escape(source, isWord))
  }

  datatype PromptResult = Built(prompt: string) | InputTooLarge(chars: nat)

  /** What comes before the data. */
  function Head(instructions: string, format: string): string {
    instructions + "\n\n" + "Формат документа: " + format + "\n\n"
  }

  function BuildPrompt(
    instructions: string, document: string, source: string, format: string, maxInputChars: int,
    isWord: char -> bool): PromptResult
  {
    var chars := |document| + |source|;
    if chars > maxInputChars then InputTooLarge(chars)
    else Built(Head(instructions, format) + Data(document, source, isWord))
  }

  lemma PlainTag(name: string, slash: string)
    requires IsName(name) && IsSlash(slash)
    ensures IsTag("<" + slash + name)
  {
    var tag := "<" + slash + name;
    assert tag == "<" + "" + slash + "" + name;
    assert TagParts(tag, "", slash, "", name);
  }

  lemma PlainTagMatches(text: string, slash: string, name: string, isWord: char -> bool)
    requires IsName(name) && IsSlash(slash) && !isWord('>')
    requires var n := 1 + |slash| + |name|;
      n < |text| && text[..n] == "<" + slash + name && text[n] == '>'
    ensures forall end: nat :: Matches(text, 0, end, isWord) <==> end == 1 + |slash| + |name|
  {
    var n := 1 + |slash| + |name|;
    PlainTag(name, slash);
    assert text[0..n] == text[..n];
    assert Matches(text, 0, n, isWord);
    ScannerIsExact(text, 0, isWord);
  }

  /** The opening and the closing tag of a wrapped body. */
  predicate WrapperTag(name: string, body: string, i: nat, end: nat) {
    || (i == 0 && end == 1 + |name|)
    || (i == |name| + |body| + 4 && end == i + 2 + |name|)
  }

  lemma MatchesInClosing(name: string, i: nat, end: nat, isWord: char -> bool)
    requires IsName(name) && !isWord('>')
    ensures Matches("\n</" + name + ">\n", i, end, isWord) <==> i == 1 && end == 3 + |name|
  {
    var tag := "</" + name + ">\n";
    var closing := "\n</" + name + ">\n";
    NameLetters(name);
    assert closing == "\n" + tag;
    if i == 1 {
      assert tag[..2 + |name|] == "<" + "/" + name;
      PlainTagMatches(tag, "/", name, isWord);
      if end > 0 {
        MatchBehind("\n", tag, 0, end - 1, isWord);
      }
    } else {
      NoBracketNoMatch(closing, i, end, isWord);
    }
  }

  lemma MatchesInOpening(name: string, rest: string, i: nat, end: nat, isWord: char -> bool)
    requires IsName(name) && !isWord('>') && i < |name| + 3
    ensures Matches(("<" + name + ">\n") + rest, i, end, isWord) <==> i == 0 && end == 1 + |name|
  {
    var text := ("<" + name + ">\n") + rest;
    NameLetters(name);
    if i == 0 {
      assert text[..1 + |name|] == "<" + "" + name;
      PlainTagMatches(text, "", name, isWord);
    } else {
      assert text[i] == ("<" + name + ">\n")[i];
      NoBracketNoMatch(text, i, end, isWord);
    }
  }

  /** Behind the opening tag only the closing one matches. */
  lemma MatchesBehindOpening(name: string, body: string, j: nat, stop: nat, isWord: char -> bool)
    requires IsName(name) && TagFree(body, isWord) && !isWord('>') && !isWord(NL)
    ensures Matches(body + ("\n</" + name + ">\n"), j, stop, isWord) <==> j == |body| + 1 && stop == j + 2 + |name|
  {
    var closing := "\n</" + name + ">\n";
    if stop < j {
    } else if j < |body| {
      MatchBefore(body, closing, j, stop, isWord);
    } else {
      MatchBehind(body, closing, j - |body|, stop - |body|, isWord);
      MatchesInClosing(name, j - |body|, stop - |body|, isWord);
    }
  }

  lemma MatchesInWrapped(name: string, body: string, i: nat, end: nat, isWord: char -> bool)
    requires IsName(name) && TagFree(body, isWord) && !isWord('>') && !isWord(NL)
    ensures Matches(Wrapped(name, body), i, end, isWord) <==> WrapperTag(name, body, i, end)
  {
    var opening, rest := "<" + name + ">\n", body + ("\n</" + name + ">\n");
    assert Wrapped(name, body) == opening + rest;
    if end < i {
    } else if i < |opening| {
      MatchesInOpening(name, rest, i, end, isWord);
    } else {
      var j, stop := i - |opening|, end - |opening|;
      MatchBehind(opening, rest, j, stop, isWord);
      MatchesBehindOpening(name, body, j, stop, isWord);
    }
  }

  /** The tags meant to delimit the document and the source. */
  predicate IsDelimiter(document: string, source: string, i: nat, end: nat) {
    var second := |Wrapped("document", document)| + 1;
    || WrapperTag("document", document, i, end)
    || (i >= second && end >= second && WrapperTag("source", source, i - second, end - second))
  }

  lemma MatchesInData(document: string, source: string, i: nat, end: nat, isWord: char -> bool)
    requires !isWord('<') && !isWord('>') && !isWord(NL)
    ensures Matches(Data(document, source, isWord), i, end, isWord) <==>
      IsDelimiter(Escape(document, isWord), Escape(source, isWord), i, end)
  {
    var d, s := Escape(document, isWord), Escape(source, isWord);
    EscapingIsComplete(document, isWord);
    EscapingIsComplete(source, isWord);
    var first, second := Wrapped("document", d), Wrapped("source", s);
    Assoc(first, "\n", second);
    if end < i {
    } else if i < |first| {
      MatchBefore(first, "\n" + second, i, end, isWord);
      MatchesInWrapped("document", d, i, end, isWord);
    } else if i == |first| {
      NoBracketNoMatch(first + "\n" + second, i, end, isWord);
    } else {
      MatchBehind(first + "\n", second, i - |first| - 1, end - |first| - 1, isWord);
      MatchesInWrapped("source", s, i - |first| - 1, end - |first| - 1, isWord);
    }
  }

  /** In every prompt that is built, whatever the document and the source contain, the
      delimiter pattern matches behind the instructions at the four delimiters and nowhere
      else: neither text can close its own delimiter or open another. */
  lemma OnlyTheDelimitersMatch(
    instructions: string, document: string, source: string, format: string, maxInputChars: int,
    isWord: char -> bool, i: nat, end: nat)
    requires !isWord('<') && !isWord('>') && !isWord(NL)
    requires BuildPrompt(instructions, document, source, format, maxInputChars, isWord).Built?
    ensures var prompt := BuildPrompt(instructions, document, source, format, maxInputChars, isWord).prompt;
            var from := |Head(instructions, format)|;
      Matches(prompt, from + i, from + end, isWord) <==>
        IsDelimiter(Escape(document, isWord), Escape(source, isWord), i, end)
  {
    MatchBehind(Head(instructions, format), Data(document, source, isWord), i, end, isWord);
    MatchesInData(document, source, i, end, isWord);
  }

  lemma HeadIs(instructions: string, format: string)
    ensures Head(instructions, format) == instructions + "\n\nФормат документа: " + format + "\n\n"
  {
    Assoc(instructions, "\n\n", "Формат документа: ");
    assert "\n\n" + "Формат документа: " == "\n\nФормат документа: ";
  }

  lemma DataIs(d: string, s: string)
    ensures Wrapped("document", d) + "\n" + Wrapped("source", s) ==
      "<document>\n" + d + "\n</document>\n\n" + "<source>\n" + s + "\n</source>\n"
  {
    assert Wrapped("document", d) + "\n" == "<document>\n" + d + "\n</document>\n\n";
    assert Wrapped("source", s) == "<source>\n" + s + "\n</source>\n";
    Assoc("<document>\n" + d + "\n</document>\n\n", "<source>\n" + s, "\n</source>\n");
    Assoc("<document>\n" + d + "\n</document>\n\n", "<source>\n", s);
  }

  /** A prompt is built exactly when both texts together are within the limit, and then the
      escaped texts stand between their delimiters. */
  lemma PromptCarriesBothTexts(
    instructions: string, document: string, source: string, format: string, maxInputChars: int, isWord: char -> bool)
    ensures var result := BuildPrompt(instructions, document, source, format, maxInputChars, isWord);
            var d, s := Escape(document, isWord), Escape(source, isWord);
      && (result.Built? <==> |document| + |source| <= maxInputChars)
      && (result.InputTooLarge? ==> result.chars == |document| + |source|)
      && (result.Built? ==>
            result.prompt == (instructions + "\n\nФормат документа: " + format + "\n\n")
              + ("<document>\n" + d + "\n</document>\n\n" + "<source>\n" + s + "\n</source>\n"))
  {
    HeadIs(instructions, format);
    DataIs(Escape(document, isWord), Escape(source, isWord));
  }
}

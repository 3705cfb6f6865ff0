/**
 Appending to a memory body without repeating it. A paragraph counts as present when
 its non-blank lines, stripped, already stand in the body as consecutive lines.
 */
module MemoryAppend {
  import opened Common
  import opened TextLines

  // --- Lines --------------------------------------------------------------------------

  function IfNonBlank(line: string): seq<string> {
    var stripped := Strip(BLANK, line);
    if stripped == "" then [] else [stripped]
  }

  /** The stripped non-blank lines of a text. */
  function ContentLines(text: string): seq<string> {
    FlatMap(IfNonBlank, SplitLines(text))
  }

  lemma ContentLinesJoin(a: string, b: string)
    ensures ContentLines(a + "\n" + b) == ContentLines(a) + ContentLines(b)
  {
    SplitLinesJoin(a, b);
    FlatMapConcat(IfNonBlank, SplitLines(a), SplitLines(b));
  }

  lemma OneLineContent(line: string)
    requires OneLine(line)
    ensures ContentLines(line) == IfNonBlank(line)
  {
    SplitOne(line);
    FlatMapSingle(IfNonBlank, line);
  }

  lemma EmptyHasNoContent()
    ensures ContentLines("") == []
  {
    OneLineContent("");
    assert DropLeading(BLANK, "") == "" && DropTrailing(BLANK, "") == "";
  }

  // --- Paragraphs --------------------------------------------------------------------------

  predicate SpacesAndTabs(s: string) {
    forall i :: 0 <= i < |s| ==> s[i] == ' ' || s[i] == '\t'
  }

  /** Length of the leading run of spaces and tabs. */
  function PadRun(s: string): (n: nat)
    ensures n <= |s| && SpacesAndTabs(s[..n])
    ensures n < |s| ==> s[n] != ' ' && s[n] != '\t'
  {
    if s == "" || (s[0] != ' ' && s[0] != '\t') then 0
    else
      var n := PadRun(s[1..]);
      assert s[..n + 1] == [s[0]] + s[1..][..n];
      n + 1
  }

  /** A blank line begins here: newline, spaces or tabs, newline. */
  predicate BreakAt(s: string) {
    s != "" && s[0] == '\n' && 1 + PadRun(s[1..]) < |s| && s[1 + PadRun(s[1..])] == '\n'
  }

  /** What follows the blank line. */
  function AfterBreak(s: string): (rest: string)
    requires BreakAt(s)
    ensures |rest| < |s|
  {
    s[PadRun(s[1..]) + 2..]
  }

  function FirstBreak(s: string): (n: nat)
    ensures n <= |s| && (n < |s| ==> BreakAt(s[n..]))
  {
    if s == "" || BreakAt(s) then 0 else 1 + FirstBreak(s[1..])
  }

  /** Splitting at blank lines, leftmost first. */
  function Paragraphs(text: string): seq<string>
    decreases |text|
  {
    var n := FirstBreak(text);
    if n == |text| then [text]
    else [text[..n]] + Paragraphs(AfterBreak(text[n..]))
  }

  lemma {:induction false} DropLeadingPad(pad: string)
    requires SpacesAndTabs(pad)
    ensures DropLeading(BLANK, pad) == ""
  {
    if pad != "" {
      DropLeadingPad(pad[1..]);
    }
  }

  lemma BlankLineHasNoContent(pad: string)
    requires SpacesAndTabs(pad)
    ensures ContentLines(pad) == []
  {
    DropLeadingPad(pad);
    OneLineContent(pad);
    assert DropTrailing(BLANK, "") == "";
  }

  lemma AcrossBlankLine(a: string, pad: string, rest: string)
    requires SpacesAndTabs(pad)
    ensures ContentLines(a + ("\n" + pad + "\n" + rest)) == ContentLines(a) + ContentLines(rest)
  {
    assert a + ("\n" + pad + "\n" + rest) == a + "\n" + (pad + "\n" + rest);
    ContentLinesJoin(a, pad + "\n" + rest);
    ContentLinesJoin(pad, rest);
    BlankLineHasNoContent(pad);
  }

  lemma OnlyParagraph(text: string)
    requires FirstBreak(text) == |text|
    ensures Paragraphs(text) == [text]
  {
  }

  lemma MoreParagraphs(text: string, first: string, tail: string)
    requires FirstBreak(text) == |first| && text == first + tail && BreakAt(tail)
    ensures Paragraphs(text) == [first] + Paragraphs(AfterBreak(tail))
  {
    assert text[..|first|] == first && text[|first|..] == tail;
  }

  lemma CutAtBreak(text: string) returns (first: string, tail: string)
    ensures text == first + tail && |first| == FirstBreak(text)
    ensures tail != "" ==> BreakAt(tail)
  {
    var n := FirstBreak(text);
    first, tail := text[..n], text[n..];
  }

  /** A text is its only paragraph, or its first one, a blank line and the rest. */
  lemma FirstParagraph(text: string) returns (first: string, more: bool, pad: string, rest: string)
    ensures !more ==> first == text && Paragraphs(text) == [text]
    ensures more ==> Paragraphs(text) == [first] + Paragraphs(rest) && |rest| < |text|
    ensures more ==> SpacesAndTabs(pad) && text == first + ("\n" + pad + "\n" + rest)
  {
    var tail;
    first, tail := CutAtBreak(text);
    more, pad, rest := tail != "", "", "";
    if more {
      MoreParagraphs(text, first, tail);
      pad, rest := tail[1..][..PadRun(tail[1..])], AfterBreak(tail);
      BreakParts(tail, pad, rest);
    } else {
      assert first + "" == first;
      OnlyParagraph(text);
    }
  }

  lemma BreakParts(s: string, pad: string, rest: string)
    requires BreakAt(s) && pad == s[1..][..PadRun(s[1..])] && rest == AfterBreak(s)
    ensures SpacesAndTabs(pad) && s == "\n" + pad + "\n" + rest
  {
  }

  // A paragraph has no blank line inside: with its neighbours it was cut at every one.

  lemma PadRunOf(pad: string, rest: string)
    requires SpacesAndTabs(pad) && rest != "" && rest[0] == '\n'
    ensures PadRun(pad + rest) == |pad|
  {
    var n := PadRun(pad + rest);
    assert (pad + rest)[|pad|] == '\n';
    assert forall i :: 0 <= i < |pad| ==> (pad + rest)[i] == pad[i];
    assert SpacesAndTabs((pad + rest)[..n]) && (pad + rest)[..n] <= pad + rest;
  }

  lemma BreakStays(s: string, more: string)
    requires BreakAt(s)
    ensures BreakAt(s + more)
  {
    var pad, rest := s[1..][..PadRun(s[1..])], AfterBreak(s);
    BreakParts(s, pad, rest);
    assert (s + more)[1..] == pad + ("\n" + rest + more);
    PadRunOf(pad, "\n" + rest + more);
  }

  predicate HasBreak(s: string) {
    exists i :: 0 <= i < |s| && BreakAt(s[i..])
  }

  lemma {:induction false} FirstBreakIsFirst(s: string, i: nat)
    requires i < FirstBreak(s)
    ensures !BreakAt(s[i..])
  {
    if i == 0 {
      assert s[0..] == s;
    } else {
      assert s[i..] == s[1..][i - 1..];
      FirstBreakIsFirst(s[1..], i - 1);
    }
  }

  lemma NoBreakBefore(text: string, first: string, rest: string, i: nat)
    requires text == first + rest && FirstBreak(text) == |first| && i < |first|
    ensures !BreakAt(first[i..])
  {
    assert first[i..] + rest == text[i..];
    FirstBreakIsFirst(text, i);
    if BreakAt(first[i..]) {
      BreakStays(first[i..], rest);
    }
  }

  lemma UpToFirstBreak(text: string, first: string, rest: string)
    requires text == first + rest && FirstBreak(text) == |first|
    ensures !HasBreak(first)
  {
    forall i | 0 <= i < |first|
      ensures !BreakAt(first[i..])
    {
      NoBreakBefore(text, first, rest, i);
    }
  }

  /** The text is cut at every blank line. */
  lemma {:induction false} ParagraphsAreUnbroken(text: string)
    ensures forall p :: p in Paragraphs(text) ==> !HasBreak(p)
    decreases |text|
  {
    var first, tail := CutAtBreak(text);
    UpToFirstBreak(text, first, tail);
    if tail == "" {
      assert first + "" == first;
      OnlyParagraph(text);
    } else {
      MoreParagraphs(text, first, tail);
      ParagraphsAreUnbroken(AfterBreak(tail));
    }
  }

  /** Splitting into paragraphs keeps every non-blank line, in order. */
  lemma {:induction false} ParagraphsKeepLines(text: string)
    ensures FlatMap(ContentLines, Paragraphs(text)) == ContentLines(text)
    decreases |text|
  {
    var first, more, pad, rest := FirstParagraph(text);
    if more {
      AcrossBlankLine(first, pad, rest);
      ParagraphsKeepLines(rest);
      FlatMapConcat(ContentLines, [first], Paragraphs(rest));
      FlatMapSingle(ContentLines, first);
    } else {
      FlatMapSingle(ContentLines, text);
    }
  }

  // --- Dropping paragraphs already present ----------------------------------------------------

  /** The needle's lines stand next to each other somewhere; nothing contains an empty run. */
  predicate ContainsRun(haystack: seq<string>, needle: seq<string>) {
    needle != [] && exists i :: 0 <= i <= |haystack| - |needle| && RunAt(haystack, needle, i)
  }

  predicate RunAt(haystack: seq<string>, needle: seq<string>, i: nat) {
    i + |needle| <= |haystack| && haystack[i..i + |needle|] == needle
  }

  lemma RunSurvives(before: seq<string>, haystack: seq<string>, after: seq<string>, needle: seq<string>)
    requires ContainsRun(haystack, needle)
    ensures ContainsRun(before + haystack + after, needle)
  {
    var i :| 0 <= i <= |haystack| - |needle| && RunAt(haystack, needle, i);
    assert RunAt(before + haystack + after, needle, |before| + i);
  }

  lemma WholeIsRun(lines: seq<string>)
    requires lines != []
    ensures ContainsRun(lines, lines)
  {
    assert RunAt(lines, lines, 0);
  }

  function StripNewlines(paragraph: string): string {
    Strip({'\n'}, paragraph)
  }

  /** Lines known so far, paragraphs kept, and how many were dropped. */
  datatype Sifting = Sifting(known: seq<string>, kept: seq<string>, skipped: nat)

  function Sift(s: Sifting, paragraph: string): Sifting {
    var lines := ContentLines(paragraph);
    if lines == [] then s
    else if ContainsRun(s.known, lines) then s.(skipped := s.skipped + 1)
    else Sifting(s.known + lines, s.kept + [StripNewlines(paragraph)], s.skipped)
  }

  function SiftAll(known: seq<string>, paragraphs: seq<string>): Sifting {
    if paragraphs == [] then Sifting(known, [], 0)
    else Sift(SiftAll(known, paragraphs[..|paragraphs| - 1]), Last(paragraphs))
  }

  function JoinParagraphs(kept: seq<string>): string {
    if kept == [] then "" else JoinWith("\n\n", kept)
  }

  /** The content without paragraphs already present; untouched when none is. */
  function WithoutDuplicates(body: string, content: string): string {
    var s := SiftAll(ContentLines(body), Paragraphs(content));
    if s.skipped == 0 then content else JoinParagraphs(s.kept)
  }

  method DropDuplicateParagraphs(body: string, content: string) returns (rest: string, skipped: nat)
    ensures rest == WithoutDuplicates(body, content)
    ensures skipped == SiftAll(ContentLines(body), Paragraphs(content)).skipped
  {
    var known := ContentLines(body);
    var kept: seq<string> := [];
    skipped := 0;
    var paragraphs := Paragraphs(content);
    var i := 0;
    while i < |paragraphs|
      invariant 0 <= i <= |paragraphs|
      invariant Sifting(known, kept, skipped) == SiftAll(ContentLines(body), paragraphs[..i])
    {
      assert paragraphs[..i + 1][..i] == paragraphs[..i];
      var lines := ContentLines(paragraphs[i]);
      if lines != [] {
        if ContainsRun(known, lines) {
          skipped := skipped + 1;
        } else {
          kept := kept + [StripNewlines(paragraphs[i])];
          known := known + lines;
        }
      }
      i := i + 1;
    }
    assert paragraphs[..i] == paragraphs;
    rest := if skipped == 0 then content else JoinParagraphs(kept);
  }

  lemma {:induction false} LeadingNewlinesAreBlank(p: string)
    ensures ContentLines(DropLeading({'\n'}, p)) == ContentLines(p)
  {
    if p != "" && p[0] == '\n' {
      LeadingNewlinesAreBlank(p[1..]);
      assert p == "" + "\n" + p[1..];
      ContentLinesJoin("", p[1..]);
      EmptyHasNoContent();
    }
  }

  lemma {:induction false} TrailingNewlinesAreBlank(p: string)
    ensures ContentLines(DropTrailing({'\n'}, p)) == ContentLines(p)
  {
    if p != "" && Last(p) == '\n' {
      var p' := p[..|p| - 1];
      TrailingNewlinesAreBlank(p');
      assert p == p' + "\n" + "";
      ContentLinesJoin(p', "");
      EmptyHasNoContent();
    }
  }

  lemma StrippedKeepsLines(p: string)
    ensures ContentLines(StripNewlines(p)) == ContentLines(p)
  {
    LeadingNewlinesAreBlank(p);
    TrailingNewlinesAreBlank(DropLeading({'\n'}, p));
  }

  lemma {:induction false} JoinKeepsLines(kept: seq<string>)
    ensures ContentLines(JoinParagraphs(kept)) == FlatMap(ContentLines, kept)
  {
    if kept == [] {
      EmptyHasNoContent();
    } else if |kept| == 1 {
      FlatMapSingle(ContentLines, kept[0]);
      assert kept == [kept[0]];
    } else {
      var before, p := kept[..|kept| - 1], Last(kept);
      JoinKeepsLines(before);
      JoinSnoc("\n\n", before, p);
      assert kept == before + [p];
      AcrossBlankLine(JoinParagraphs(before), "", p);
      assert JoinParagraphs(before) + ("\n" + "" + "\n" + p) == JoinParagraphs(before) + "\n\n" + p;
    }
  }

  ghost predicate AllPresent(known: seq<string>, paragraphs: seq<string>) {
    forall p :: p in paragraphs ==> Present(known, p)
  }

  predicate Present(known: seq<string>, paragraph: string) {
    ContentLines(paragraph) == [] || ContainsRun(known, ContentLines(paragraph))
  }

  /**
   What sifting leaves behind: the known lines are the body's followed by those of the kept
   paragraphs, and every non-blank paragraph is a run of them; when nothing was dropped the kept
   paragraphs have all the lines.
   */
  ghost predicate Accounts(body: seq<string>, paragraphs: seq<string>, s: Sifting) {
    && s.known == body + FlatMap(ContentLines, s.kept)
    && AllPresent(s.known, paragraphs)
    && (s.skipped == 0 ==> FlatMap(ContentLines, s.kept) == FlatMap(ContentLines, paragraphs))
    && (s.skipped > 0 ==> FlatMap(ContentLines, paragraphs) != [])
    && (forall p :: p in s.kept ==> ContentLines(p) != [])
  }

  lemma OneMoreLines(before: seq<string>, paragraph: string)
    ensures FlatMap(ContentLines, before + [paragraph]) == FlatMap(ContentLines, before) + ContentLines(paragraph)
  {
    FlatMapConcat(ContentLines, before, [paragraph]);
    FlatMapSingle(ContentLines, paragraph);
  }

  lemma StillPresent(known: seq<string>, more: seq<string>, paragraphs: seq<string>)
    requires AllPresent(known, paragraphs)
    ensures AllPresent(known + more, paragraphs)
  {
    forall p | p in paragraphs
      ensures Present(known + more, p)
    {
      var lines := ContentLines(p);
      assert Present(known, p);
      assert [] + known + more == known + more;
      if lines != [] {
        RunSurvives([], known, more, lines);
      }
    }
  }

  lemma NowPresent(known: seq<string>, paragraph: string)
    ensures Present(known + ContentLines(paragraph), paragraph)
  {
    var lines := ContentLines(paragraph);
    if lines != [] {
      WholeIsRun(lines);
      RunSurvives(known, lines, [], lines);
      assert known + lines + [] == known + lines;
    }
  }

  lemma KeepAccounts(body: seq<string>, paragraphs: seq<string>, s: Sifting, paragraph: string, lines: seq<string>)
    requires Accounts(body, paragraphs, s) && lines == ContentLines(paragraph) != []
    ensures Accounts(body, paragraphs + [paragraph],
      Sifting(s.known + lines, s.kept + [StripNewlines(paragraph)], s.skipped))
  {
    StrippedKeepsLines(paragraph);
    OneMoreLines(s.kept, StripNewlines(paragraph));
    OneMoreLines(paragraphs, paragraph);
    Chain(body, FlatMap(ContentLines, s.kept), lines);
    StillPresent(s.known, lines, paragraphs);
    NowPresent(s.known, paragraph);
  }

  lemma SiftAccounts(body: seq<string>, paragraphs: seq<string>, s: Sifting, paragraph: string)
    requires Accounts(body, paragraphs, s)
    ensures Accounts(body, paragraphs + [paragraph], Sift(s, paragraph))
  {
    var lines := ContentLines(paragraph);
    OneMoreLines(paragraphs, paragraph);
    if lines != [] && !ContainsRun(s.known, lines) {
      KeepAccounts(body, paragraphs, s, paragraph, lines);
    } else if lines == [] {
      assert FlatMap(ContentLines, paragraphs) + [] == FlatMap(ContentLines, paragraphs);
    }
  }

  lemma {:induction false} SiftAllAccounts(body: seq<string>, paragraphs: seq<string>)
    ensures Accounts(body, paragraphs, SiftAll(body, paragraphs))
  {
    if paragraphs == [] {
      assert body + [] == body;
    } else {
      var before := paragraphs[..|paragraphs| - 1];
      SiftAllAccounts(body, before);
      SiftAccounts(body, before, SiftAll(body, before), Last(paragraphs));
      assert before + [Last(paragraphs)] == paragraphs;
    }
  }

  /** Paragraphs that are all present are all dropped. */
  lemma {:induction false} AllPresentAllDropped(known: seq<string>, paragraphs: seq<string>)
    requires AllPresent(known, paragraphs)
    ensures SiftAll(known, paragraphs).known == known && SiftAll(known, paragraphs).kept == []
    ensures SiftAll(known, paragraphs).skipped == 0 <==> FlatMap(ContentLines, paragraphs) == []
  {
    if paragraphs != [] {
      var before := paragraphs[..|paragraphs| - 1];
      AllPresentAllDropped(known, before);
      assert Present(known, Last(paragraphs));
      OneMoreLines(before, Last(paragraphs));
      assert before + [Last(paragraphs)] == paragraphs;
    }
  }

  // --- Appending -----------------------------------------------------------------------------

  function AppendBody(body: string, content: string): string {
    if body == "" then content
    else if Last(body) == '\n' || (content != "" && content[0] == '\n') then body + content
    else body + "\n" + content
  }

  /** The body after one append; nothing is written when every paragraph is present. */
  function Appended(body: string, content: string): string {
    var rest := WithoutDuplicates(body, content);
    if rest == "" then body else AppendBody(body, rest)
  }

  lemma AppendBodyLines(body: string, content: string)
    ensures ContentLines(AppendBody(body, content)) == ContentLines(body) + ContentLines(content)
  {
    EmptyHasNoContent();
    if body == "" {
      assert [] + ContentLines(content) == ContentLines(content);
    } else if Last(body) == '\n' {
      var front := body[..|body| - 1];
      assert body == front + "\n" + "" && body + content == front + "\n" + content;
      ContentLinesJoin(front, "");
      ContentLinesJoin(front, content);
    } else if content != "" && content[0] == '\n' {
      assert content == "" + "\n" + content[1..] && body + content == body + "\n" + content[1..];
      ContentLinesJoin("", content[1..]);
      ContentLinesJoin(body, content[1..]);
    } else {
      ContentLinesJoin(body, content);
    }
  }

  lemma WithoutDuplicatesLines(body: string, content: string)
    ensures ContentLines(body) + ContentLines(WithoutDuplicates(body, content))
         == SiftAll(ContentLines(body), Paragraphs(content)).known
  {
    var s := SiftAll(ContentLines(body), Paragraphs(content));
    SiftAllAccounts(ContentLines(body), Paragraphs(content));
    ParagraphsKeepLines(content);
    JoinKeepsLines(s.kept);
  }

  lemma AppendedLines(body: string, content: string)
    ensures ContentLines(Appended(body, content)) == SiftAll(ContentLines(body), Paragraphs(content)).known
  {
    var rest := WithoutDuplicates(body, content);
    WithoutDuplicatesLines(body, content);
    AppendBodyLines(body, rest);
    EmptyHasNoContent();
    assert ContentLines(body) + [] == ContentLines(body);
  }

  /** The old body stays a prefix, and every non-blank paragraph stands in the new body as consecutive lines. */
  lemma AppendIsSafe(body: string, content: string)
    ensures body <= Appended(body, content)
    ensures AllPresent(ContentLines(Appended(body, content)), Paragraphs(content))
  {
    AppendedLines(body, content);
    SiftAllAccounts(ContentLines(body), Paragraphs(content));
    AppendKeepsPrefix(body, WithoutDuplicates(body, content));
  }

  lemma AppendKeepsPrefix(body: string, content: string)
    ensures body <= AppendBody(body, content)
  {
  }

  /** No paragraph is a run of the lines before it. */
  ghost predicate AllNew(body: seq<string>, paragraphs: seq<string>) {
    forall i :: 0 <= i < |paragraphs| ==> NewAt(body, paragraphs, i)
  }

  ghost predicate NewAt(body: seq<string>, paragraphs: seq<string>, i: nat)
    requires i < |paragraphs|
  {
    !ContainsRun(body + FlatMap(ContentLines, paragraphs[..i]), ContentLines(paragraphs[i]))
  }

  /** With none of its paragraphs present, the content is appended to the letter. */
  lemma NewContentIsVerbatim(body: string, content: string)
    requires AllNew(ContentLines(body), Paragraphs(content))
    ensures content != "" ==> Appended(body, content) == AppendBody(body, content)
  {
    NothingPresentNothingDropped(ContentLines(body), Paragraphs(content));
  }

  lemma {:induction false} NothingPresentNothingDropped(body: seq<string>, paragraphs: seq<string>)
    requires AllNew(body, paragraphs)
    ensures SiftAll(body, paragraphs).skipped == 0
    ensures SiftAll(body, paragraphs).known == body + FlatMap(ContentLines, paragraphs)
  {
    if paragraphs == [] {
      assert body + [] == body;
    } else {
      var n := |paragraphs| - 1;
      var before := paragraphs[..n];
      forall i | 0 <= i < n
        ensures NewAt(body, before, i)
      {
        assert before[..i] == paragraphs[..i] && NewAt(body, paragraphs, i);
      }
      NothingPresentNothingDropped(body, before);
      assert NewAt(body, paragraphs, n) && before + [Last(paragraphs)] == paragraphs;
      OneMoreLines(before, Last(paragraphs));
      var last := Last(paragraphs);
      KeptWhenNew(body, FlatMap(ContentLines, before), SiftAll(body, before), last, ContentLines(last));
    }
  }

  lemma KeptWhenNew(body: seq<string>, more: seq<string>, s: Sifting, paragraph: string, lines: seq<string>)
    requires s.known == body + more && lines == ContentLines(paragraph) && !ContainsRun(body + more, lines)
    ensures Sift(s, paragraph).known == body + (more + lines) && Sift(s, paragraph).skipped == s.skipped
  {
    Chain(body, more, lines);
    assert lines == [] ==> more + lines == more;
  }

  /** Appending the same content again changes nothing, exactly when it has a non-blank line. */
  lemma AppendIsIdempotent(body: string, content: string)
    requires content != ""
    ensures WithoutDuplicates(Appended(body, content), content) == "" <==> ContentLines(content) != []
    ensures Appended(Appended(body, content), content) == Appended(body, content) <==> ContentLines(content) != []
  {
    var once := Appended(body, content);
    AppendIsSafe(body, content);
    AllPresentAllDropped(ContentLines(once), Paragraphs(content));
    ParagraphsKeepLines(content);
    var rest := WithoutDuplicates(once, content);
    if ContentLines(content) == [] {
      assert rest == content && |AppendBody(once, content)| > |once|;
    }
  }
}

/**
 The paragraphs an append keeps stay paragraphs: splitting what is added at its blank lines gives
 them back.
 */
module MemoryParagraphs {
  import opened Common
  import opened TextLines
  import opened MemoryAppend

  // --- Which paragraphs are kept ---------------------------------------------------------------------

  /** A paragraph with lines that do not yet stand next to each other in the known ones. */
  predicate IsNew(known: seq<string>, paragraph: string) {
    ContentLines(paragraph) != [] && !ContainsRun(known, ContentLines(paragraph))
  }

  /** The paragraphs that are new when they come, each making its own lines known. */
  function Fresh(known: seq<string>, paragraphs: seq<string>): seq<string>
    decreases |paragraphs|
  {
    if paragraphs == [] then []
    else if IsNew(known, paragraphs[0]) then
      [paragraphs[0]] + Fresh(known + ContentLines(paragraphs[0]), paragraphs[1..])
    else Fresh(known, paragraphs[1..])
  }

  function AllStripped(paragraphs: seq<string>): (stripped: seq<string>)
    ensures |stripped| == |paragraphs|
    ensures forall i :: 0 <= i < |paragraphs| ==> stripped[i] == StripNewlines(paragraphs[i])
  {
    seq(|paragraphs|, i requires 0 <= i < |paragraphs| => StripNewlines(paragraphs[i]))
  }

  lemma LinesOfFirst(first: string, rest: seq<string>)
    ensures FlatMap(ContentLines, [first] + rest) == ContentLines(first) + FlatMap(ContentLines, rest)
  {
    FlatMapConcat(ContentLines, [first], rest);
    FlatMapSingle(ContentLines, first);
  }

  lemma {:induction false} FreshSnoc(known: seq<string>, paragraphs: seq<string>, p: string)
    ensures var before := Fresh(known, paragraphs);
      Fresh(known, paragraphs + [p])
      == if IsNew(known + FlatMap(ContentLines, before), p) then before + [p] else before
    decreases |paragraphs|
  {
    if paragraphs == [] {
      assert known + [] == known;
      assert [] + [p] == [p] && [p][1..] == [];
    } else {
      var first, rest := paragraphs[0], paragraphs[1..];
      assert (paragraphs + [p])[0] == first && (paragraphs + [p])[1..] == rest + [p];
      if IsNew(known, first) {
        var lines := ContentLines(first);
        FreshSnoc(known + lines, rest, p);
        LinesOfFirst(first, Fresh(known + lines, rest));
        Chain(known, lines, FlatMap(ContentLines, Fresh(known + lines, rest)));
      } else {
        FreshSnoc(known, rest, p);
      }
    }
  }

  lemma SiftKeeps(known: seq<string>, before: seq<string>, s: Sifting, p: string)
    requires s.known == known + FlatMap(ContentLines, before) && s.kept == AllStripped(before)
    ensures var after := if IsNew(s.known, p) then before + [p] else before;
      && Sift(s, p).known == known + FlatMap(ContentLines, after) && Sift(s, p).kept == AllStripped(after)
      && Sift(s, p).skipped + |after|
         == s.skipped + |before| + (if ContentLines(p) != [] then 1 else 0)
  {
    if IsNew(s.known, p) {
      OneMoreLines(before, p);
      Chain(known, FlatMap(ContentLines, before), ContentLines(p));
    }
  }

  function NonBlankCount(paragraphs: seq<string>): nat {
    if paragraphs == [] then 0
    else NonBlankCount(paragraphs[..|paragraphs| - 1]) + (if ContentLines(Last(paragraphs)) != [] then 1 else 0)
  }

  /** The sifted paragraphs are the fresh ones, and the others with lines are counted as skipped. */
  lemma {:induction false} SiftingKeepsFresh(known: seq<string>, paragraphs: seq<string>)
    ensures var s := SiftAll(known, paragraphs);
      && s.kept == AllStripped(Fresh(known, paragraphs))
      && s.known == known + FlatMap(ContentLines, Fresh(known, paragraphs))
      && s.skipped + |Fresh(known, paragraphs)| == NonBlankCount(paragraphs)
  {
    hide ContentLines, StripNewlines;
    if paragraphs == [] {
      assert known + [] == known;
    } else {
      var before, p := paragraphs[..|paragraphs| - 1], Last(paragraphs);
      SiftingKeepsFresh(known, before);
      assert paragraphs == before + [p];
      FreshSnoc(known, before, p);
      SiftKeeps(known, Fresh(known, before), SiftAll(known, before), p);
    }
  }

  // --- Paragraphs that can be joined -----------------------------------------------------------------

  /** Followed by a line end the paragraph still has no blank line. */
  predicate EndsInLine(p: string) {
    !HasBreak(p + "\n")
  }

  /** All but the last end in a line, and none has a blank line inside. */
  predicate Joinable(paragraphs: seq<string>) {
    forall i :: 0 <= i < |paragraphs| ==>
      if i < |paragraphs| - 1 then EndsInLine(paragraphs[i]) else !HasBreak(paragraphs[i])
  }

  lemma BreakInside(s: string, more: string)
    requires HasBreak(s)
    ensures HasBreak(s + more)
  {
    hide BreakAt;
    var i :| 0 <= i < |s| && BreakAt(s[i..]);
    BreakStays(s[i..], more);
    assert (s + more)[i..] == s[i..] + more;
  }

  lemma BreakLater(first: string, s: string)
    requires HasBreak(s)
    ensures HasBreak(first + s)
  {
    hide BreakAt;
    var i :| 0 <= i < |s| && BreakAt(s[i..]);
    assert (first + s)[|first| + i..] == s[i..];
  }

  lemma LineHasNoBreak(p: string)
    requires EndsInLine(p)
    ensures !HasBreak(p)
  {
    if HasBreak(p) {
      BreakInside(p, "\n");
    }
  }

  lemma PadEndsBefore(s: string, i: nat)
    requires i < |s| && s[i] == '\n'
    ensures PadRun(s) <= i
  {
    var n := PadRun(s);
    assert forall j :: 0 <= j < n ==> s[..n][j] == s[j];
  }

  /** A blank line that a line end closes at the latest is closed by it. */
  lemma BreakBeforeEnd(p: string, more: string)
    requires p != "" && BreakAt(p + "\n" + more)
    ensures BreakAt(p + "\n")
  {
    var s, line := p + "\n" + more, p + "\n";
    var n := PadRun(s[1..]);
    PadEndsBefore(s[1..], |p| - 1);
    var pad := s[1..][..n];
    assert line[1..] == pad + line[1 + n..] by {
      assert forall i :: 0 <= i < n ==> pad[i] == line[1 + i];
    }
    assert line[1 + n] == s[1 + n] == '\n';
    PadRunOf(pad, line[1 + n..]);
  }

  lemma LineTail(p: string)
    requires p != "" && EndsInLine(p)
    ensures EndsInLine(p[1..]) && !BreakAt(p + "\n")
  {
    assert p + "\n" == [p[0]] + (p[1..] + "\n");
    if HasBreak(p[1..] + "\n") {
      BreakLater([p[0]], p[1..] + "\n");
    }
    assert (p + "\n")[0..] == p + "\n";
  }

  lemma NoBreakYet(p: string, more: string)
    requires p != "" && EndsInLine(p)
    ensures !BreakAt(p + ("\n\n" + more))
  {
    LineTail(p);
    assert p + ("\n\n" + more) == p + "\n" + ("\n" + more);
    if BreakAt(p + "\n" + ("\n" + more)) {
      BreakBeforeEnd(p, "\n" + more);
    }
  }

  lemma DoubleBreak(more: string)
    ensures BreakAt("\n\n" + more) && AfterBreak("\n\n" + more) == more
  {
    var s := "\n\n" + more;
    assert s[1..] == "" + ("\n" + more);
    PadRunOf("", "\n" + more);
    assert s[2..] == more;
  }

  lemma {:induction false} BreakAfterLine(p: string, more: string)
    requires EndsInLine(p)
    ensures FirstBreak(p + ("\n\n" + more)) == |p|
  {
    var s := p + ("\n\n" + more);
    if p == "" {
      assert s == "\n\n" + more;
      DoubleBreak(more);
    } else {
      hide BreakAt;
      assert s[1..] == p[1..] + ("\n\n" + more);
      LineTail(p);
      BreakAfterLine(p[1..], more);
      NoBreakYet(p, more);
    }
  }

  lemma JoinTwo(first: string, more: string)
    requires EndsInLine(first)
    ensures Paragraphs(first + "\n\n" + more) == [first] + Paragraphs(more)
  {
    hide BreakAt, AfterBreak, FirstBreak, Paragraphs;
    BreakAfterLine(first, more);
    DoubleBreak(more);
    assert first + "\n\n" + more == first + ("\n\n" + more);
    MoreParagraphs(first + "\n\n" + more, first, "\n\n" + more);
  }

  lemma NeverBroken(p: string)
    requires !HasBreak(p)
    ensures FirstBreak(p) == |p|
  {
    hide BreakAt;
  }

  lemma LastAlone(p: string)
    requires !HasBreak(p)
    ensures Paragraphs(p) == [p]
  {
    NeverBroken(p);
    OnlyParagraph(p);
  }

  /** Joinable paragraphs with blank lines between them are split into just those paragraphs. */
  lemma {:induction false} JoinedAreSplit(paragraphs: seq<string>)
    requires paragraphs != [] && Joinable(paragraphs)
    ensures Paragraphs(JoinWith("\n\n", paragraphs)) == paragraphs
    decreases |paragraphs|
  {
    hide Paragraphs, HasBreak, EndsInLine;
    var first, rest := paragraphs[0], paragraphs[1..];
    JoinableTail(paragraphs);
    assert paragraphs == [first] + rest;
    if rest == [] {
      LastAlone(first);
    } else {
      JoinedAreSplit(rest);
      JoinTwo(first, JoinWith("\n\n", rest));
    }
  }

  // --- The kept paragraphs can be joined ---------------------------------------------------------------

  lemma NoBreakIn(line: string)
    requires line == "\n"
    ensures !BreakAt(line)
  {
  }

  lemma CutEndsInLine(text: string, first: string, tail: string)
    requires text == first + tail && FirstBreak(text) == |first| && tail != "" && tail[0] == '\n'
    ensures EndsInLine(first)
  {
    hide BreakAt;
    var line := first + "\n";
    assert !BreakAt(line[|first|..]) by { NoBreakIn(line[|first|..]); }
    forall i | 0 <= i < |line|
      ensures !BreakAt(line[i..])
    {
      if i < |first| {
        FirstBreakIsFirst(text, i);
        assert line[i..] + tail[1..] == text[i..];
        if BreakAt(line[i..]) {
          BreakStays(line[i..], tail[1..]);
        }
      }
    }
  }

  lemma {:induction false} ParagraphsAreJoinable(text: string)
    ensures Paragraphs(text) != [] && Joinable(Paragraphs(text))
    decreases |text|
  {
    var first, tail := CutAtBreak(text);
    if tail == "" {
      UpToFirstBreak(text, first, tail);
      assert first + "" == first;
      OnlyParagraph(text);
    } else {
      MoreParagraphs(text, first, tail);
      CutEndsInLine(text, first, tail);
      ParagraphsAreJoinable(AfterBreak(tail));
      JoinableCons(first, Paragraphs(AfterBreak(tail)));
    }
  }

  lemma JoinableCons(first: string, rest: seq<string>)
    requires Joinable(rest) && (if rest == [] then !HasBreak(first) else EndsInLine(first))
    ensures Joinable([first] + rest)
  {
  }

  lemma JoinableTail(paragraphs: seq<string>)
    requires paragraphs != [] && Joinable(paragraphs)
    ensures Joinable(paragraphs[1..]) && !HasBreak(paragraphs[0])
    ensures |paragraphs| > 1 ==> EndsInLine(paragraphs[0])
  {
    var rest := paragraphs[1..];
    forall i | 0 <= i < |rest|
      ensures if i < |rest| - 1 then EndsInLine(rest[i]) else !HasBreak(rest[i])
    {
      assert rest[i] == paragraphs[i + 1];
    }
    if |paragraphs| > 1 {
      LineHasNoBreak(paragraphs[0]);
    }
  }

  lemma {:induction false} FreshAreJoinable(known: seq<string>, paragraphs: seq<string>)
    requires Joinable(paragraphs)
    ensures Joinable(Fresh(known, paragraphs))
    decreases |paragraphs|
  {
    if paragraphs != [] {
      var first, rest := paragraphs[0], paragraphs[1..];
      JoinableTail(paragraphs);
      if IsNew(known, first) {
        FreshAreJoinable(known + ContentLines(first), rest);
        JoinableCons(first, Fresh(known + ContentLines(first), rest));
      } else {
        FreshAreJoinable(known, rest);
      }
    }
  }

  lemma {:induction false} LeadingCut(s: string) returns (cut: string)
    ensures s == cut + DropLeading({'\n'}, s)
  {
    cut := "";
    if s != "" && s[0] == '\n' {
      var more := LeadingCut(s[1..]);
      cut := [s[0]] + more;
    }
  }

  lemma {:induction false} TrailingCut(s: string) returns (cut: string)
    ensures s == DropTrailing({'\n'}, s) + cut && (cut != "" ==> cut[0] == '\n')
  {
    cut := "";
    if s != "" && Last(s) == '\n' {
      var more := TrailingCut(s[..|s| - 1]);
      cut := more + "\n";
    }
  }

  lemma StripCuts(p: string) returns (front: string, back: string)
    ensures p == front + (StripNewlines(p) + back) && (back != "" ==> back[0] == '\n')
  {
    front := LeadingCut(p);
    back := TrailingCut(DropLeading({'\n'}, p));
  }

  lemma MiddleIsUnbroken(p: string, front: string, middle: string, back: string)
    requires p == front + (middle + back) && !HasBreak(p)
    ensures !HasBreak(middle) && !HasBreak(middle + back)
  {
    hide HasBreak;
    if HasBreak(middle) {
      BreakInside(middle, back);
    }
    if HasBreak(middle + back) {
      BreakLater(front, middle + back);
    }
  }

  lemma MiddleEndsInLine(p: string, front: string, middle: string, back: string)
    requires p == front + (middle + back) && (back != "" ==> back[0] == '\n') && EndsInLine(p)
    ensures EndsInLine(middle)
  {
    hide HasBreak;
    if back == "" {
      assert p + "\n" == front + (middle + "\n" + "");
      MiddleIsUnbroken(p + "\n", front, middle + "\n", "");
    } else {
      LineHasNoBreak(p);
      assert p == front + (middle + "\n" + back[1..]);
      MiddleIsUnbroken(p, front, middle + "\n", back[1..]);
    }
  }

  lemma StrippedIsJoinable(p: string)
    ensures !HasBreak(p) ==> !HasBreak(StripNewlines(p))
    ensures EndsInLine(p) ==> EndsInLine(StripNewlines(p))
  {
    hide HasBreak, StripNewlines, EndsInLine;
    var front, back := StripCuts(p);
    if !HasBreak(p) {
      MiddleIsUnbroken(p, front, StripNewlines(p), back);
    }
    if EndsInLine(p) {
      MiddleEndsInLine(p, front, StripNewlines(p), back);
    }
  }

  lemma StrippedAreJoinable(paragraphs: seq<string>)
    requires Joinable(paragraphs)
    ensures Joinable(AllStripped(paragraphs))
  {
    forall i | 0 <= i < |paragraphs|
      ensures if i < |paragraphs| - 1 then EndsInLine(AllStripped(paragraphs)[i])
              else !HasBreak(AllStripped(paragraphs)[i])
    {
      StrippedIsJoinable(paragraphs[i]);
    }
  }

  // --- The theorem ---------------------------------------------------------------------------------------

  /**
   What an append adds. When every paragraph with lines is new it is the content to the letter; when
   some are skipped and none is new, nothing; otherwise a text whose paragraphs are just the new
   ones, in order, without the line ends around them.
   */
  lemma KeptParagraphsStayApart(body: string, content: string)
    ensures var paragraphs, rest := Paragraphs(content), WithoutDuplicates(body, content);
      var kept := Fresh(ContentLines(body), paragraphs);
      if |kept| == NonBlankCount(paragraphs) then rest == content
      else if kept == [] then rest == ""
      else Paragraphs(rest) == AllStripped(kept)
  {
    var paragraphs := Paragraphs(content);
    var kept := Fresh(ContentLines(body), paragraphs);
    SiftingKeepsFresh(ContentLines(body), paragraphs);
    ParagraphsAreJoinable(content);
    FreshAreJoinable(ContentLines(body), paragraphs);
    StrippedAreJoinable(kept);
    if kept != [] {
      JoinedAreSplit(AllStripped(kept));
    }
  }
}

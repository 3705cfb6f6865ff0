/**
 Each part of a memory file can be rewritten without disturbing the other.
 */
module MemoryRoundTrip {
  import opened Common
  import opened TextLines
  import opened MemoryAppend
  import opened MemoryCodec

  // --- A text seen as prefix, block and rest ------------------------------------------------------

  /**
   What the laws need of the marker lines: they are lines, not empty, without carriage return,
   and no colon of the end marker is followed by a space, as in every entry.
   */
  predicate MarksOk(m: Marks) {
    && OneLine(m.start) && OneLine(m.end) && m.start != "" && m.end != ""
    && '\r' !in m.start && '\r' !in m.end
    && forall i :: 0 <= i < |m.end| - 1 && m.end[i] == ':' ==> m.end[i + 1] != ' '
  }

  lemma MarkersAreLines()
    ensures OneLine(METADATA_START) && OneLine(METADATA_END)
  {
  }

  lemma MarkersHaveNoReturn()
    ensures '\r' !in METADATA_START && '\r' !in METADATA_END
  {
  }

  lemma EndMarkerColons()
    ensures forall i :: 0 <= i < |METADATA_END| - 1 && METADATA_END[i] == ':' ==> METADATA_END[i + 1] != ' '
  {
  }

  lemma MarkersAreOk()
    ensures MarksOk(MARKS)
  {
    MarkersAreLines();
    MarkersHaveNoReturn();
    EndMarkerColons();
  }

  predicate EntryText(m: Marks, line: string) {
    OneLine(line) && line != m.end
  }

  predicate EntryTexts(m: Marks, lines: seq<string>) {
    forall i :: 0 <= i < |lines| ==> EntryText(m, lines[i])
  }

  predicate HasStartLine(m: Marks, text: string) {
    m.start in SplitLines(text)
  }

  datatype Placed = Placed(prefix: string, lines: seq<string>, rest: string)
  {
    function Text(m: Marks): string {
      prefix + BlockText(m, lines) + rest
    }

    predicate Valid(m: Marks) {
      && (prefix == "" || Last(prefix) == '\n')
      && !HasStartLine(m, prefix)
      && EntryTexts(m, lines)
      && (rest == "" || rest[0] == '\n')
    }

    /** What follows the block, whose end takes one newline with it. */
    function Suffix(): string {
      if rest == "" then "" else rest[1..]
    }

    function Place(m: Marks): Block {
      Block(|prefix|, |prefix| + |BlockText(m, lines)| + Taken(rest), lines)
    }
  }

  function Taken(rest: string): nat {
    if rest == "" then 0 else 1
  }

  lemma JoinStep(line: string, lines: seq<string>)
    requires lines != []
    ensures JoinWith("\n", [line] + lines) == line + "\n" + JoinWith("\n", lines)
  {
    assert ([line] + lines)[1..] == lines;
  }

  /** The search result for a text, hidden from the line splitting. */
  ghost predicate Finds(m: Marks, text: string, offset: nat, at: Search, found: Option<Block>) {
    FindFrom(m, KeepEnds(text), offset, at) == found
  }

  lemma EntryStep(
      m: Marks, line: string, joined: string, rest: string, offset: nat, start: nat, acc: seq<string>,
      found: Option<Block>)
    requires EntryText(m, line)
    requires Finds(m, joined + rest, offset + |line| + 1, Inside(start, acc + [line]), found)
    ensures Finds(m, line + "\n" + joined + rest, offset, Inside(start, acc), found)
  {
    assert line + "\n" + joined + rest == line + "\n" + (joined + rest);
    FindStep(m, line, joined + rest, offset, Inside(start, acc));
  }

  function Enclosed(m: Marks, lines: seq<string>): string {
    JoinWith("\n", lines + [m.end])
  }

  lemma EnclosedStep(m: Marks, line: string, lines: seq<string>)
    ensures Enclosed(m, [line] + lines) == line + "\n" + Enclosed(m, lines)
  {
    assert [line] + lines + [m.end] == [line] + (lines + [m.end]);
    JoinStep(line, lines + [m.end]);
  }

  lemma EnclosedNone(m: Marks)
    ensures Enclosed(m, []) == m.end
  {
    assert [] + [m.end] == [m.end];
  }

  lemma BlockTextIs(m: Marks, lines: seq<string>)
    ensures BlockText(m, lines) == m.start + "\n" + Enclosed(m, lines)
  {
    assert [m.start] + lines + [m.end] == [m.start] + (lines + [m.end]);
    JoinStep(m.start, lines + [m.end]);
  }

  lemma Front(lines: seq<string>, acc: seq<string>)
    requires lines != []
    ensures lines == [lines[0]] + lines[1..] && acc + [lines[0]] + lines[1..] == acc + lines
  {
  }

  lemma EndLine(m: Marks, line: string, rest: string, offset: nat, start: nat, acc: seq<string>)
    requires line == m.end && OneLine(line) && line != "" && (rest == "" || rest[0] == '\n')
    ensures Finds(m, line + rest, offset, Inside(start, acc), Some(Block(start, offset + |line| + Taken(rest), acc)))
  {
    if rest == "" {
      assert line + rest == line;
      FindLast(m, line, offset, Inside(start, acc));
    } else {
      assert line + rest == line + "\n" + rest[1..];
      FindStep(m, line, rest[1..], offset, Inside(start, acc));
    }
  }

  lemma NoEntries(m: Marks, rest: string, offset: nat, start: nat, acc: seq<string>, found: Option<Block>)
    requires MarksOk(m)
    requires rest == "" || rest[0] == '\n'
    requires found == Some(Block(start, offset + |Enclosed(m, [])| + Taken(rest), acc))
    ensures Finds(m, Enclosed(m, []) + rest, offset, Inside(start, acc), found)
  {
    EnclosedNone(m);
    EndLine(m, Enclosed(m, []), rest, offset, start, acc);
  }

  lemma {:induction false} FindInside(
      m: Marks, lines: seq<string>, rest: string, offset: nat, start: nat, acc: seq<string>, found: Option<Block>)
    requires MarksOk(m)
    requires EntryTexts(m, lines) && (rest == "" || rest[0] == '\n')
    requires found == Some(Block(start, offset + |Enclosed(m, lines)| + Taken(rest), acc + lines))
    ensures Finds(m, Enclosed(m, lines) + rest, offset, Inside(start, acc), found)
  {
    if lines == [] {
      assert acc + lines == acc;
      NoEntries(m, rest, offset, start, acc, found);
    } else {
      var line, tail := lines[0], lines[1..];
      Front(lines, acc);
      EnclosedStep(m, line, tail);
      FindInside(m, tail, rest, offset + |line| + 1, start, acc + [line], found);
      EntryStep(m, line, Enclosed(m, tail), rest, offset, start, acc, found);
    }
  }

  lemma NotStartLine(m: Marks, line: string, rest: string)
    requires OneLine(line) && !HasStartLine(m, line + "\n" + rest)
    ensures line != m.start && !HasStartLine(m, rest)
  {
    SplitLinesStep(line, rest);
    var lines := [line] + SplitLines(rest);
    assert lines[0] == line;
    assert HasStartLine(m, rest) ==> m.start in lines;
  }

  lemma OutsideStep(m: Marks, line: string, rest: string, text: string, offset: nat, found: Option<Block>)
    requires OneLine(line) && line != m.start
    requires Finds(m, rest + text, offset + |line| + 1, Outside, found)
    ensures Finds(m, line + "\n" + rest + text, offset, Outside, found)
  {
    assert line + "\n" + rest + text == line + "\n" + (rest + text);
    FindStep(m, line, rest + text, offset, Outside);
  }

  lemma {:induction false} FindPastPrefix(m: Marks, prefix: string, text: string, offset: nat, found: Option<Block>)
    requires (prefix == "" || Last(prefix) == '\n') && !HasStartLine(m, prefix)
    requires Finds(m, text, offset + |prefix|, Outside, found)
    ensures Finds(m, prefix + text, offset, Outside, found)
    decreases |prefix|
  {
    var line, more, rest := FirstLine(prefix);
    if more {
      NotStartLine(m, line, rest);
      assert rest == "" || Last(rest) == '\n';
      FindPastPrefix(m, rest, text, offset + |line| + 1, found);
      OutsideStep(m, line, rest, text, offset, found);
    } else {
      assert prefix == "" && prefix + text == text;
    }
  }

  lemma FindStartLine(m: Marks, line: string, rest: string, offset: nat, found: Option<Block>)
    requires line == m.start && OneLine(line)
    requires Finds(m, rest, offset + |line| + 1, Inside(offset, []), found)
    ensures Finds(m, line + "\n" + rest, offset, Outside, found)
  {
    FindStep(m, line, rest, offset, Outside);
  }

  lemma PlacedText(m: Marks, p: Placed)
    ensures p.Text(m) == p.prefix + (m.start + "\n" + (Enclosed(m, p.lines) + p.rest))
    ensures |BlockText(m, p.lines)| == |m.start| + 1 + |Enclosed(m, p.lines)|
  {
    BlockTextIs(m, p.lines);
    Rebracket(p.prefix, m.start, "\n", Enclosed(m, p.lines), p.rest);
  }

  lemma Rebracket(a: string, b: string, c: string, d: string, e: string)
    ensures a + (b + c + d) + e == a + (b + c + (d + e))
  {
  }

  lemma FindFresh(m: Marks, lines: seq<string>, rest: string, offset: nat, start: nat, found: Option<Block>)
    requires MarksOk(m)
    requires EntryTexts(m, lines) && (rest == "" || rest[0] == '\n')
    requires found == Some(Block(start, offset + |Enclosed(m, lines)| + Taken(rest), lines))
    ensures Finds(m, Enclosed(m, lines) + rest, offset, Inside(start, []), found)
  {
    assert [] + lines == lines;
    FindInside(m, lines, rest, offset, start, [], found);
  }

  lemma FindFromStart(m: Marks, line: string, lines: seq<string>, rest: string, offset: nat, found: Option<Block>)
    requires MarksOk(m)
    requires line == m.start && OneLine(line) && EntryTexts(m, lines) && (rest == "" || rest[0] == '\n')
    requires found == Some(Block(offset, offset + |line| + 1 + |Enclosed(m, lines)| + Taken(rest), lines))
    ensures Finds(m, line + "\n" + (Enclosed(m, lines) + rest), offset, Outside, found)
  {
    FindFresh(m, lines, rest, offset + |line| + 1, offset, found);
    FindStartLine(m, line, Enclosed(m, lines) + rest, offset, found);
  }

  /** The block of a placed text is found where it stands. */
  lemma PlacedIsFound(m: Marks, p: Placed)
    requires MarksOk(m)
    requires p.Valid(m)
    ensures FindBlock(m, p.Text(m)) == Some(p.Place(m))
  {
    var line := m.start;
    PlacedText(m, p);
    FindFromStart(m, line, p.lines, p.rest, |p.prefix|, Some(p.Place(m)));
    FindPastPrefix(m, p.prefix, line + "\n" + (Enclosed(m, p.lines) + p.rest), 0, Some(p.Place(m)));
  }

  /** One line of a text: what the search does there. */
  lemma FindsStep(m: Marks, line: string, tail: string, offset: nat, at: Search, found: Option<Block>)
    requires OneLine(line) && Finds(m, line + "\n" + tail, offset, at, found)
    ensures if at.Inside? && line == m.end then found == Some(Block(at.start, offset + |line| + 1, at.lines))
      else Finds(m, tail, offset + |line| + 1, After(m, line, offset, at), found)
  {
    FindStep(m, line, tail, offset, at);
  }

  lemma FindsLast(m: Marks, line: string, offset: nat, at: Search, found: Option<Block>)
    requires OneLine(line) && Finds(m, line, offset, at, found)
    ensures found ==
      if line != "" && at.Inside? && line == m.end then Some(Block(at.start, offset + |line|, at.lines)) else None
  {
    FindLast(m, line, offset, at);
  }

  ghost predicate InsideIs(m: Marks, text: string, lines: seq<string>, rest: string) {
    && text == Enclosed(m, lines) + rest
    && EntryTexts(m, lines)
    && (rest == "" || rest[0] == '\n')
  }

  lemma EndsHere(m: Marks, text: string, line: string, more: bool, tail: string)
    returns (lines: seq<string>, rest: string)
    requires line == m.end && text == (if more then line + "\n" + tail else line)
    ensures lines == [] && InsideIs(m, text, lines, rest)
  {
    lines, rest := [], if more then "\n" + tail else "";
    EnclosedNone(m);
    assert line + rest == text;
  }

  lemma EntryFirst(m: Marks, line: string, text: string, others: seq<string>, rest: string)
    requires EntryText(m, line) && InsideIs(m, text, others, rest)
    ensures InsideIs(m, line + "\n" + text, [line] + others, rest)
  {
    EnclosedStep(m, line, others);
    assert line + "\n" + (Enclosed(m, others) + rest) == (line + "\n" + Enclosed(m, others)) + rest;
  }

  /** The first line of a text in which the search succeeds. */
  lemma SearchLine(m: Marks, text: string, offset: nat, at: Search, block: Block)
    returns (line: string, more: bool, tail: string)
    requires Finds(m, text, offset, at, Some(block))
    ensures OneLine(line) && text == (if more then line + "\n" + tail else line)
    ensures !more ==> at.Inside? && line == m.end
    ensures at.Inside? && line == m.end ==> block.lines == at.lines
    ensures at.Outside? || line != m.end ==>
      Finds(m, tail, offset + |line| + 1, After(m, line, offset, at), Some(block))
  {
    line, more, tail := FirstLine(text);
    if more {
      FindsStep(m, line, tail, offset, at, Some(block));
    } else {
      FindsLast(m, line, offset, at, Some(block));
    }
  }

  /** Within the block, the first line either is the end marker or an entry before the rest. */
  lemma SearchInside(m: Marks, text: string, offset: nat, start: nat, acc: seq<string>, block: Block)
    returns (ended: bool, line: string, tail: string, rest: string)
    requires Finds(m, text, offset, Inside(start, acc), Some(block))
    ensures ended ==> InsideIs(m, text, [], rest) && block.lines == acc
    ensures !ended ==> EntryText(m, line) && text == line + "\n" + tail
    ensures !ended ==> Finds(m, tail, offset + |line| + 1, Inside(start, acc + [line]), Some(block))
  {
    var more;
    line, more, tail := SearchLine(m, text, offset, Inside(start, acc), block);
    ended, rest := line == m.end, "";
    if ended {
      var lines;
      lines, rest := EndsHere(m, text, line, more, tail);
    }
  }

  lemma {:induction false} FoundInside(m: Marks, text: string, offset: nat, start: nat, acc: seq<string>, block: Block)
    returns (lines: seq<string>, rest: string)
    requires Finds(m, text, offset, Inside(start, acc), Some(block))
    ensures InsideIs(m, text, lines, rest) && block.lines == acc + lines
    decreases |text|
  {
    var ended, line, tail;
    ended, line, tail, rest := SearchInside(m, text, offset, start, acc, block);
    if ended {
      lines := [];
      assert acc + [] == acc;
    } else {
      lines, rest := FoundInside(m, tail, offset + |line| + 1, start, acc + [line], block);
      EntryFirst(m, line, tail, lines, rest);
      Chain(acc, [line], lines);
      lines := [line] + lines;
    }
  }

  lemma StartsAtOnce(m: Marks, line: string, text: string, lines: seq<string>, rest: string)
    requires MarksOk(m)
    requires line == m.start && InsideIs(m, text, lines, rest)
    ensures line + "\n" + text == Placed("", lines, rest).Text(m)
    ensures Placed("", lines, rest).Valid(m)
  {
    PlacedText(m, Placed("", lines, rest));
    SplitOne("");
    assert "" + (line + "\n" + text) == line + "\n" + text;
  }

  lemma SkippedLine(m: Marks, line: string, prefix: string)
    requires OneLine(line) && line != m.start && !HasStartLine(m, prefix)
    ensures !HasStartLine(m, line + "\n" + prefix)
  {
    SplitLinesStep(line, prefix);
  }

  lemma LineBefore(m: Marks, line: string, q: Placed) returns (p: Placed)
    requires OneLine(line) && line != m.start && q.Valid(m)
    ensures p.Valid(m) && p.Text(m) == line + "\n" + q.Text(m) && p.lines == q.lines
  {
    p := Placed(line + "\n" + q.prefix, q.lines, q.rest);
    SkippedLine(m, line, q.prefix);
    PrefixBefore(line + "\n", q.prefix, BlockText(m, q.lines), q.rest);
  }

  lemma PrefixBefore(a: string, b: string, c: string, d: string)
    ensures a + (b + c + d) == a + b + c + d
  {
  }

  lemma {:induction false} FoundOutside(m: Marks, text: string, offset: nat, block: Block) returns (p: Placed)
    requires MarksOk(m)
    requires Finds(m, text, offset, Outside, Some(block))
    ensures p.Valid(m) && text == p.Text(m)
    decreases |text|
  {
    var line, more, tail := SearchLine(m, text, offset, Outside, block);
    if line == m.start {
      var lines, rest := FoundInside(m, tail, offset + |line| + 1, offset, [], block);
      p := Placed("", lines, rest);
      StartsAtOnce(m, line, tail, lines, rest);
    } else {
      var q := FoundOutside(m, tail, offset + |line| + 1, block);
      p := LineBefore(m, line, q);
    }
  }

  /** Wherever a block is found, the text is a prefix without start line, that block and the rest. */
  lemma FoundIsPlaced(m: Marks, text: string) returns (p: Placed)
    requires MarksOk(m)
    requires FindBlock(m, text).Some?
    ensures p.Valid(m) && text == p.Text(m) && FindBlock(m, text) == Some(p.Place(m))
  {
    p := FoundOutside(m, text, 0, FindBlock(m, text).value);
    PlacedIsFound(m, p);
  }

  lemma {:induction false} NoStartFindsNothing(m: Marks, text: string, offset: nat)
    requires !HasStartLine(m, text)
    ensures Finds(m, text, offset, Outside, None)
    decreases |text|
  {
    var line, more, rest := FirstLine(text);
    if more {
      NotStartLine(m, line, rest);
      FindStep(m, line, rest, offset, Outside);
      NoStartFindsNothing(m, rest, offset + |line| + 1);
    } else {
      FindLast(m, line, offset, Outside);
    }
  }
}

/**
 One text file holding a metadata block and a free body. The block is a start marker line,
 one line per entry and an end marker line; what is around it is the body.
 */
module MemoryCodec {
  import opened Common
  import opened TextLines
  import opened MemoryAppend

  const METADATA_START := "<!-- clawchat:metadata:start -->"
  const METADATA_END := "<!-- clawchat:metadata:end -->"

  /** The two marker lines; the search and its laws hold for any two. */
  datatype Marks = Marks(start: string, end: string)

  const MARKS := Marks(METADATA_START, METADATA_END)

  /** A dictionary in insertion order. */
  type Fields = seq<(string, string)>

  // --- Line ends ----------------------------------------------------------------------------

  /** Each of CR LF, CR and LF becomes a newline. */
  function NormalizeLineEndings(s: string): (r: string)
    ensures '\r' !in r
    ensures '\r' !in s ==> r == s
    decreases |s|
  {
    if s == "" then ""
    else if s[0] == '\r' then
      var width := if |s| > 1 && s[1] == '\n' then 2 else 1;
      "\n" + NormalizeLineEndings(s[width..])
    else
      var rest := NormalizeLineEndings(s[1..]);
      assert s == [s[0]] + s[1..];
      [s[0]] + rest
  }

  /** Each run of line breaks becomes one space. */
  function NormalizeValue(s: string, afterBreak: bool := false): (r: string)
    ensures '\r' !in r && '\n' !in r
    ensures '\r' !in s && '\n' !in s ==> r == s
  {
    if s == "" then ""
    else if s[0] == '\r' || s[0] == '\n' then
      (if afterBreak then "" else " ") + NormalizeValue(s[1..], true)
    else
      var rest := NormalizeValue(s[1..], false);
      assert s == [s[0]] + s[1..];
      [s[0]] + rest
  }

  /** Every CR LF, and every CR alone, becomes one newline; the parts around it are normalised as they are. */
  lemma {:induction false} BreakBecomesNewline(a: string, lineBreak: string, b: string)
    requires lineBreak == "\r\n" || (lineBreak == "\r" && (b == "" || b[0] != '\n'))
    ensures NormalizeLineEndings(a + lineBreak + b) == NormalizeLineEndings(a) + "\n" + NormalizeLineEndings(b)
    decreases |a|
  {
    var s := a + lineBreak + b;
    if a == "" {
      assert s == lineBreak + b && s[|lineBreak|..] == b;
    } else {
      var width := if a[0] == '\r' && |a| > 1 && a[1] == '\n' then 2 else 1;
      assert s[width..] == a[width..] + lineBreak + b;
      BreakBecomesNewline(a[width..], lineBreak, b);
      var first := if a[0] == '\r' then "\n" else [a[0]];
      AppendThree(first, NormalizeLineEndings(a[width..]), "\n", NormalizeLineEndings(b));
    }
  }

  lemma AppendThree(first: string, a: string, b: string, c: string)
    ensures first + (a + b + c) == (first + a) + b + c
  {
  }

  predicate Breaks(s: string) {
    forall i :: 0 <= i < |s| ==> s[i] == '\r' || s[i] == '\n'
  }

  lemma {:induction false} MoreBreaks(run: string, b: string)
    requires Breaks(run) && (b != "" ==> b[0] != '\r' && b[0] != '\n')
    ensures NormalizeValue(run + b, true) == NormalizeValue(b, false)
  {
    if run == "" {
      assert run + b == b;
    } else {
      assert (run + b)[1..] == run[1..] + b;
      MoreBreaks(run[1..], b);
      assert "" + NormalizeValue(b, false) == NormalizeValue(b, false);
    }
  }

  lemma LeadingRun(run: string, b: string)
    requires run != "" && Breaks(run) && (b != "" ==> b[0] != '\r' && b[0] != '\n')
    ensures NormalizeValue(run + b) == " " + NormalizeValue(b)
  {
    assert (run + b)[1..] == run[1..] + b;
    MoreBreaks(run[1..], b);
  }

  lemma OtherChar(c: char, rest: string)
    requires c != '\r' && c != '\n'
    ensures NormalizeValue([c] + rest) == [c] + NormalizeValue(rest)
  {
    assert ([c] + rest)[1..] == rest;
  }

  /** A whole run of line breaks becomes one space. */
  lemma {:induction false} RunBecomesSpace(a: string, run: string, b: string)
    requires '\r' !in a && '\n' !in a && run != "" && Breaks(run) && (b != "" ==> b[0] != '\r' && b[0] != '\n')
    ensures NormalizeValue(a + (run + b)) == a + (" " + NormalizeValue(b))
  {
    LeadingRun(run, b);
    CharsStay(a, run + b);
  }

  lemma {:induction false} CharsStay(a: string, rest: string)
    requires '\r' !in a && '\n' !in a
    ensures NormalizeValue(a + rest) == a + NormalizeValue(rest)
  {
    if a == "" {
      assert a + rest == rest && a + NormalizeValue(rest) == NormalizeValue(rest);
    } else {
      var c, tail := a[0], a[1..];
      assert c in a && a == [c] + tail;
      assert a + rest == [c] + (tail + rest) && a + NormalizeValue(rest) == [c] + (tail + NormalizeValue(rest));
      CharsStay(tail, rest);
      OtherChar(c, tail + rest);
    }
  }

  // --- Finding the block ----------------------------------------------------------------------

  datatype Block = Block(start: nat, end: nat, lines: seq<string>)

  datatype Search = Outside | Inside(start: nat, lines: seq<string>)

  function Chomp(line: string): string {
    if line != "" && Last(line) == '\n' then line[..|line| - 1] else line
  }

  function FindFrom(m: Marks, lines: seq<string>, offset: nat, at: Search): Option<Block>
    decreases |lines|
  {
    if lines == [] then None
    else
      var line, next := Chomp(lines[0]), offset + |lines[0]|;
      match at
      case Outside =>
        FindFrom(m, lines[1..], next, if line == m.start then Inside(offset, []) else Outside)
      case Inside(start, found) =>
        if line == m.end then Some(Block(start, next, found))
        else FindFrom(m, lines[1..], next, Inside(start, found + [line]))
  }

  function FindBlock(m: Marks, text: string): Option<Block> {
    FindFrom(m, KeepEnds(text), 0, Outside)
  }

  method FindMetadataBlock(m: Marks, content: string) returns (block: Option<Block>)
    ensures block == FindBlock(m, content)
  {
    var offset: nat := 0;
    var startOffset: nat := 0;
    var metadataLines: seq<string> := [];
    var inBlock := false;
    var lines := KeepEnds(content);
    var i := 0;
    while i < |lines|
      invariant 0 <= i <= |lines|
      invariant FindFrom(m, lines[i..], offset, if inBlock then Inside(startOffset, metadataLines) else Outside)
             == FindBlock(m, content)
    {
      var line := lines[i];
      assert lines[i..] == [line] + lines[i + 1..];
      SearchOne(m, line, lines[i + 1..], offset, if inBlock then Inside(startOffset, metadataLines) else Outside);
      var stripped := Chomp(line);
      if !inBlock {
        if stripped == m.start {
          startOffset := offset;
          inBlock := true;
          metadataLines := [];
        }
      } else if stripped == m.end {
        return Some(Block(startOffset, offset + |line|, metadataLines));
      } else {
        metadataLines := metadataLines + [stripped];
      }
      offset := offset + |line|;
      i := i + 1;
    }
    return None;
  }

  // --- Entries --------------------------------------------------------------------------------

  /** Index of the first colon, or the length of the line. */
  function ColonAt(line: string): (n: nat)
    ensures n <= |line| && (n < |line| ==> line[n] == ':') && ':' !in line[..n]
  {
    if line == "" || line[0] == ':' then 0
    else
      var n := 1 + ColonAt(line[1..]);
      assert line[..n] == [line[0]] + line[1..][..n - 1];
      n
  }

  function WithoutLeadingSpace(value: string): string {
    if value != "" && value[0] == ' ' then value[1..] else value
  }

  function AddEntry(metadata: map<string, string>, line: string): map<string, string> {
    var colon := ColonAt(line);
    if colon == |line| then metadata
    else metadata[Strip(BLANK, line[..colon]) := WithoutLeadingSpace(line[colon + 1..])]
  }

  function Entries(lines: seq<string>): map<string, string> {
    if lines == [] then map[] else AddEntry(Entries(lines[..|lines| - 1]), Last(lines))
  }

  method ParseMetadata(lines: seq<string>) returns (metadata: map<string, string>)
    ensures metadata == Entries(lines)
  {
    metadata := map[];
    var i := 0;
    while i < |lines|
      invariant 0 <= i <= |lines|
      invariant metadata == Entries(lines[..i])
    {
      assert lines[..i + 1][..i] == lines[..i];
      var line := lines[i];
      var colon := ColonAt(line);
      if colon < |line| {
        metadata := metadata[Strip(BLANK, line[..colon]) := WithoutLeadingSpace(line[colon + 1..])];
      }
      i := i + 1;
    }
    assert lines[..i] == lines;
  }

  function EntryLine(entry: (string, string)): string {
    entry.0 + ": " + NormalizeValue(entry.1)
  }

  function EntryLines(metadata: Fields): (lines: seq<string>)
    ensures |lines| == |metadata|
    ensures forall i :: 0 <= i < |lines| ==> lines[i] == EntryLine(metadata[i])
  {
    seq(|metadata|, i requires 0 <= i < |metadata| => EntryLine(metadata[i]))
  }

  function BlockText(m: Marks, lines: seq<string>): string {
    JoinWith("\n", [m.start] + lines + [m.end])
  }

  function FormatBlock(m: Marks, metadata: Fields): string {
    BlockText(m, EntryLines(metadata))
  }

  /** The dictionary the entries stand for, line breaks of the values turned to spaces. */
  function Normalized(metadata: Fields): map<string, string> {
    if metadata == [] then map[]
    else Normalized(metadata[..|metadata| - 1])[Last(metadata).0 := NormalizeValue(Last(metadata).1)]
  }

  /** A key that survives being written as `key: value` on a line. */
  predicate ReadableKey(key: string) {
    ':' !in key && '\n' !in key && '\r' !in key && Unpadded(BLANK, key)
  }

  predicate ReadableKeys(metadata: Fields) {
    forall i :: 0 <= i < |metadata| ==> ReadableKey(metadata[i].0)
  }

  // --- The whole file ---------------------------------------------------------------------------

  datatype Memory = Memory(metadata: map<string, string>, body: string)

  function StripSeparator(body: string): string {
    if body != "" && body[0] == '\n' then body[1..] else body
  }

  /** The block's place lies within the text. */
  predicate Within(block: Block, text: string) {
    block.start <= block.end <= |text|
  }

  function Parse(m: Marks, content: string): Memory {
    var text := NormalizeLineEndings(content);
    match FindBlock(m, text)
    case None => Memory(map[], text)
    case Some(block) =>
      FindBlockWithin(m, text);
      Memory(Entries(block.lines), text[..block.start] + StripSeparator(text[block.end..]))
  }

  function WithBody(blockText: string, body: string): string {
    if body != "" then blockText + "\n\n" + body else blockText
  }

  function ReplaceMetadata(m: Marks, content: string, metadata: Fields): string {
    var text := NormalizeLineEndings(content);
    match FindBlock(m, text)
    case None => WithBody(FormatBlock(m, metadata), text)
    case Some(block) =>
      FindBlockWithin(m, text);
      var suffix := text[block.end..];
      var separated := if suffix != "" && suffix[0] != '\n' then "\n" + suffix else suffix;
      text[..block.start] + FormatBlock(m, metadata) + separated
  }

  function ReplaceBody(m: Marks, content: string, newBody: string): string {
    var text, body := NormalizeLineEndings(content), NormalizeLineEndings(newBody);
    match FindBlock(m, text)
    case None => body
    case Some(block) =>
      FindBlockWithin(m, text);
      WithBody(DropTrailing({'\n'}, text[block.start..block.end]), body)
  }

  // --- Where the block is -------------------------------------------------------------------------

  lemma ChompLine(line: string)
    requires OneLine(line)
    ensures Chomp(line + "\n") == line && Chomp(line) == line
  {
    assert (line + "\n")[..|line|] == line;
  }

  function After(m: Marks, line: string, offset: nat, at: Search): Search
    requires at.Inside? ==> line != m.end
  {
    match at
    case Outside => if line == m.start then Inside(offset, []) else Outside
    case Inside(start, found) => Inside(start, found + [line])
  }

  lemma FindStep(m: Marks, line: string, rest: string, offset: nat, at: Search)
    requires OneLine(line)
    ensures FindFrom(m, KeepEnds(line + "\n" + rest), offset, at)
         == if at.Inside? && line == m.end then Some(Block(at.start, offset + |line| + 1, at.lines))
            else FindFrom(m, KeepEnds(rest), offset + |line| + 1, After(m, line, offset, at))
  {
    KeepEndsStep(line, rest);
    ChompLine(line);
    var lines := KeepEnds(rest);
    assert KeepEnds(line + "\n" + rest) == [line + "\n"] + lines;
    SearchOne(m, line + "\n", lines, offset, at);
  }

  lemma SearchOne(m: Marks, first: string, rest: seq<string>, offset: nat, at: Search)
    ensures FindFrom(m, [first] + rest, offset, at)
         == if at.Inside? && Chomp(first) == m.end then Some(Block(at.start, offset + |first|, at.lines))
            else FindFrom(m, rest, offset + |first|, After(m, Chomp(first), offset, at))
  {
    assert ([first] + rest)[1..] == rest;
  }

  lemma FindLast(m: Marks, line: string, offset: nat, at: Search)
    requires OneLine(line)
    ensures FindFrom(m, KeepEnds(line), offset, at)
         == if line != "" && at.Inside? && line == m.end then Some(Block(at.start, offset + |line|, at.lines)) else None
  {
    KeepEndsOne(line);
    ChompLine(line);
  }

  /** A found block lies between the start and the end of what was searched. */
  predicate FoundUpTo(found: Option<Block>, end: nat) {
    found.Some? ==> found.value.start <= found.value.end <= end
  }

  lemma {:induction false} FoundWithin(m: Marks, lines: seq<string>, offset: nat, at: Search)
    requires at.Inside? ==> at.start <= offset
    ensures FoundUpTo(FindFrom(m, lines, offset, at), offset + |Flatten(lines)|)
  {
    if lines != [] {
      var line := Chomp(lines[0]);
      if at.Outside? || line != m.end {
        FoundWithin(m, lines[1..], offset + |lines[0]|, After(m, line, offset, at));
      }
    }
  }

  lemma {:induction false} KeepEndsKeepsAll(text: string)
    ensures Flatten(KeepEnds(text)) == text
    decreases |text|
  {
    var line, more, rest := FirstLine(text);
    if more {
      KeepEndsStep(line, rest);
      KeepEndsKeepsAll(rest);
      var lines := KeepEnds(rest);
      assert ([line + "\n"] + lines)[1..] == lines;
    } else {
      KeepEndsOne(line);
      assert [line][1..] == [] && line + "" == line;
    }
  }

  lemma FindBlockWithin(m: Marks, text: string)
    ensures FindBlock(m, text).Some? ==> Within(FindBlock(m, text).value, text)
  {
    FoundWithin(m, KeepEnds(text), 0, Outside);
    KeepEndsKeepsAll(text);
  }
}

/**
 What rewriting either part of a memory file does to the two parts.
 */
module MemoryTheorems {
  import opened Common
  import opened TextLines
  import opened MemoryAppend
  import opened MemoryCodec
  import opened MemoryRoundTrip

  // --- Entries --------------------------------------------------------------------------------

  lemma {:induction false} ColonAfter(key: string, rest: string)
    requires ':' !in key && rest != "" && rest[0] == ':'
    ensures ColonAt(key + rest) == |key|
  {
    if key == "" {
      assert key + rest == rest;
    } else {
      assert (key + rest)[1..] == key[1..] + rest;
      assert key[0] in key;
      ColonAfter(key[1..], rest);
    }
  }

  lemma EntryColon(key: string, value: string) returns (colon: nat)
    requires ':' !in key
    ensures colon == ColonAt(key + ": " + value) == |key| < |key + ": " + value|
    ensures (key + ": " + value)[..colon] == key
    ensures WithoutLeadingSpace((key + ": " + value)[colon + 1..]) == value
  {
    var line := key + ": " + value;
    assert line == key + (": " + value);
    ColonAfter(key, ": " + value);
    colon := |key|;
    assert line[colon + 1..] == " " + value;
    assert (" " + value)[1..] == value;
  }

  /** A line written for an entry is read back as that entry. */
  lemma EntryRoundTrip(metadata: map<string, string>, entry: (string, string))
    requires ReadableKey(entry.0)
    ensures AddEntry(metadata, EntryLine(entry)) == metadata[entry.0 := NormalizeValue(entry.1)]
  {
    var key, value := entry.0, NormalizeValue(entry.1);
    var colon := EntryColon(entry.0, value);
    StripUnpads(BLANK, key);
  }

  lemma {:induction false} EntriesRoundTrip(metadata: Fields)
    requires ReadableKeys(metadata)
    ensures Entries(EntryLines(metadata)) == Normalized(metadata)
  {
    if metadata != [] {
      var before, entry := metadata[..|metadata| - 1], Last(metadata);
      EntriesRoundTrip(before);
      assert EntryLines(metadata)[..|metadata| - 1] == EntryLines(before);
      EntryRoundTrip(Entries(EntryLines(before)), entry);
    }
  }

  /** An entry never reads as the end marker. */
  lemma EntryIsNotEnd(m: Marks, entry: (string, string))
    requires MarksOk(m)
    requires ReadableKey(entry.0)
    ensures EntryText(m, EntryLine(entry)) && '\r' !in EntryLine(entry)
  {
    var line := EntryLine(entry);
    var value := NormalizeValue(entry.1);
    assert line[|entry.0|] == ':' && line[|entry.0| + 1] == ' ';
    forall i | 0 <= i < |line|
      ensures line[i] != '\n' && line[i] != '\r'
    {
      if i < |entry.0| {
        assert line[i] == entry.0[i];
      } else if i >= |entry.0| + 2 {
        assert line[i] == value[i - |entry.0| - 2];
      }
    }
  }

  lemma EntriesAreTexts(m: Marks, metadata: Fields)
    requires MarksOk(m)
    requires ReadableKeys(metadata)
    ensures EntryTexts(m, EntryLines(metadata))
    ensures forall i :: 0 <= i < |metadata| ==> '\r' !in EntryLines(metadata)[i]
  {
    forall i | 0 <= i < |metadata|
      ensures EntryText(m, EntryLines(metadata)[i]) && '\r' !in EntryLines(metadata)[i]
    {
      EntryIsNotEnd(m, metadata[i]);
    }
  }

  lemma {:induction false} JoinedHasNoReturn(lines: seq<string>)
    requires lines != [] && forall i :: 0 <= i < |lines| ==> '\r' !in lines[i]
    ensures '\r' !in JoinWith("\n", lines)
  {
    if |lines| > 1 {
      JoinedHasNoReturn(lines[1..]);
    }
  }

  lemma BlockHasNoReturn(m: Marks, metadata: Fields)
    requires MarksOk(m)
    requires ReadableKeys(metadata)
    ensures '\r' !in FormatBlock(m, metadata)
  {
    EntriesAreTexts(m, metadata);
    var lines := [m.start] + EntryLines(metadata) + [m.end];
    forall i | 0 <= i < |lines|
      ensures '\r' !in lines[i]
    {
      assert i == 0 ==> lines[i] == m.start;
      assert i == |lines| - 1 ==> lines[i] == m.end;
      if 1 <= i < |lines| - 1 {
        assert lines[i] == EntryLines(metadata)[i - 1];
      }
    }
    JoinedHasNoReturn(lines);
  }

  // --- Reading a placed text ----------------------------------------------------------------------

  lemma ParsePlaced(m: Marks, p: Placed)
    requires MarksOk(m)
    requires p.Valid(m) && '\r' !in p.Text(m)
    ensures Parse(m, p.Text(m)) == Memory(Entries(p.lines), p.prefix + StripSeparator(p.Suffix()))
  {
    PlacedIsFound(m, p);
    PlacedParts(m, p);
  }

  lemma PlacedParts(m: Marks, p: Placed)
    ensures Within(p.Place(m), p.Text(m))
    ensures p.Text(m)[..p.Place(m).start] == p.prefix && p.Text(m)[p.Place(m).end..] == p.Suffix()
    ensures p.Text(m)[p.Place(m).start..p.Place(m).end]
         == BlockText(m, p.lines) + (if p.rest == "" then "" else [p.rest[0]])
  {
  }

  function Separated(suffix: string): string {
    if suffix != "" && suffix[0] != '\n' then "\n" + suffix else suffix
  }

  lemma ReplacePlacedMetadata(m: Marks, p: Placed, metadata: Fields)
    requires MarksOk(m)
    requires p.Valid(m) && '\r' !in p.Text(m)
    ensures ReplaceMetadata(m, p.Text(m), metadata)
         == Placed(p.prefix, EntryLines(metadata), Separated(p.Suffix())).Text(m)
  {
    PlacedIsFound(m, p);
    PlacedParts(m, p);
  }

  lemma BlockEndsUnpadded(m: Marks, lines: seq<string>, newlines: string)
    requires MarksOk(m)
    requires newlines == "" || newlines == "\n"
    ensures DropTrailing({'\n'}, BlockText(m, lines) + newlines) == BlockText(m, lines)
  {
    var text := BlockText(m, lines);
    assert Last(m.end) == m.end[|m.end| - 1] != '\n';
    JoinEndsWith([m.start] + lines, m.end);
    if newlines == "\n" {
      assert (text + newlines)[..|text|] == text;
    } else {
      assert text + newlines == text;
    }
  }

  lemma {:induction false} JoinEndsWith(lines: seq<string>, last: string)
    requires last != ""
    ensures JoinWith("\n", lines + [last]) != "" && Last(JoinWith("\n", lines + [last])) == Last(last)
  {
    if lines == [] {
      assert lines + [last] == [last];
    } else {
      assert lines + [last] == [lines[0]] + (lines[1..] + [last]);
      JoinStep(lines[0], lines[1..] + [last]);
      JoinEndsWith(lines[1..], last);
    }
  }

  function BodyRest(body: string): string {
    if body == "" then "" else "\n\n" + body
  }

  lemma BlockCutOut(m: Marks, p: Placed) returns (blockText: string)
    requires MarksOk(m)
    requires p.Valid(m)
    ensures Within(p.Place(m), p.Text(m))
    ensures blockText == DropTrailing({'\n'}, p.Text(m)[p.Place(m).start..p.Place(m).end]) == BlockText(m, p.lines)
  {
    blockText := BlockText(m, p.lines);
    PlacedParts(m, p);
    BlockEndsUnpadded(m, p.lines, if p.rest == "" then "" else "\n");
  }

  lemma ReplacePlacedBody(m: Marks, p: Placed, body: string)
    requires MarksOk(m)
    requires p.Valid(m) && '\r' !in p.Text(m)
    ensures ReplaceBody(m, p.Text(m), body) == Placed("", p.lines, BodyRest(NormalizeLineEndings(body))).Text(m)
  {
    PlacedIsFound(m, p);
    var blockText := BlockCutOut(m, p);
    PlacedWithBody(m, p.lines, NormalizeLineEndings(body));
  }

  lemma PlacedWithBody(m: Marks, lines: seq<string>, body: string)
    ensures WithBody(BlockText(m, lines), body) == Placed("", lines, BodyRest(body)).Text(m)
  {
    var blockText := BlockText(m, lines);
    assert "" + blockText == blockText && blockText + "" == blockText;
    assert blockText + ("\n\n" + body) == blockText + "\n\n" + body;
  }

  // --- Rewriting one part ------------------------------------------------------------------------

  lemma FromEmptyPrefix(m: Marks, lines: seq<string>, rest: string)
    requires MarksOk(m)
    requires EntryTexts(m, lines) && (rest == "" || rest[0] == '\n')
    ensures Placed("", lines, rest).Valid(m)
  {
    SplitOne("");
  }

  lemma PartsHaveNoReturn(m: Marks, p: Placed, q: Placed)
    requires '\r' !in p.Text(m) && '\r' !in q.prefix && '\r' !in q.rest && q.lines == p.lines
    ensures '\r' !in q.Text(m)
  {
    forall c | c in BlockText(m, p.lines)
      ensures c in p.Text(m)
    {
    }
  }

  lemma NewBlockHasNoReturn(m: Marks, p: Placed, metadata: Fields)
    requires MarksOk(m)
    requires ReadableKeys(metadata) && p.lines == EntryLines(metadata)
    requires '\r' !in p.prefix && '\r' !in p.rest
    ensures '\r' !in p.Text(m)
  {
    BlockHasNoReturn(m, metadata);
  }

  lemma OwnPartsHaveNoReturn(m: Marks, p: Placed)
    requires '\r' !in p.Text(m)
    ensures '\r' !in p.prefix && '\r' !in p.rest && '\r' !in p.Suffix() && '\r' !in Separated(p.Suffix())
  {
    forall c | c in p.prefix || c in p.rest
      ensures c in p.Text(m)
    {
    }
  }

  predicate HasBlock(m: Marks, content: string) {
    FindBlock(m, NormalizeLineEndings(content)).Some?
  }

  /** The block, if any, opens the file. */
  predicate BlockFirst(m: Marks, content: string) {
    match FindBlock(m, NormalizeLineEndings(content))
    case None => true
    case Some(block) => block.start == 0
  }

  /** The text after the block begins with two newlines. */
  predicate DoubledBreak(m: Marks, content: string) {
    var text := NormalizeLineEndings(content);
    FindBlockWithin(m, text);
    match FindBlock(m, text)
    case None => false
    case Some(block) => "\n\n" <= text[block.end..]
  }

  lemma ReadBack(m: Marks, q: Placed, metadata: map<string, string>, body: string)
    requires MarksOk(m)
    requires q.Valid(m) && '\r' !in q.Text(m)
    requires Entries(q.lines) == metadata && q.prefix + StripSeparator(q.Suffix()) == body
    ensures Parse(m, q.Text(m)) == Memory(metadata, body)
    ensures HasBlock(m, q.Text(m)) && BlockFirst(m, q.Text(m)) == (q.prefix == "")
  {
    ParsePlaced(m, q);
    PlacedIsFound(m, q);
  }

  lemma BodyAfterBlock(m: Marks, p: Placed, body: string)
    requires MarksOk(m)
    requires p.Valid(m) && '\r' !in p.Text(m) && '\r' !in body
    ensures Parse(m, Placed("", p.lines, BodyRest(body)).Text(m)) == Memory(Entries(p.lines), body)
    ensures HasBlock(m, Placed("", p.lines, BodyRest(body)).Text(m))
    ensures BlockFirst(m, Placed("", p.lines, BodyRest(body)).Text(m))
  {
    var q := Placed("", p.lines, BodyRest(body));
    PartsHaveNoReturn(m, p, q);
    BlockAndBody(m, q, body);
  }

  /** A body write to a file with a block keeps the metadata and stores any body whatsoever. */
  lemma BodyWriteKeepsMetadata(m: Marks, content: string, body: string)
    requires MarksOk(m)
    requires HasBlock(m, content)
    ensures Parse(m, ReplaceBody(m, content, body)) == Memory(Parse(m, content).metadata, NormalizeLineEndings(body))
    ensures HasBlock(m, ReplaceBody(m, content, body)) && BlockFirst(m, ReplaceBody(m, content, body))
  {
    var p := FoundIsPlaced(m, NormalizeLineEndings(content));
    ParsePlaced(m, p);
    ReplacePlacedBody(m, p, body);
    BodyAfterBlock(m, p, NormalizeLineEndings(body));
  }

  /** Without a block a body write stores the body exactly when the body itself has no block. */
  lemma BodyWriteWithoutBlock(m: Marks, content: string, body: string)
    requires MarksOk(m)
    requires !HasBlock(m, content)
    ensures Parse(m, ReplaceBody(m, content, body)) == Memory(map[], NormalizeLineEndings(body)) <==> !HasBlock(m, body)
  {
    var b := NormalizeLineEndings(body);
    if HasBlock(m, body) {
      var p := FoundIsPlaced(m, b);
      ParsePlaced(m, p);
      BlockTextIs(m, p.lines);
      assert |p.prefix + StripSeparator(p.Suffix())| < |p.Text(m)|;
    }
  }

  lemma TwoNewlines(suffix: string)
    ensures "\n\n" <= suffix <==> |suffix| > 1 && suffix[0] == '\n' && suffix[1] == '\n'
  {
  }

  lemma SeparatorLost(prefix: string, suffix: string)
    ensures prefix + StripSeparator(Placed("", [], Separated(suffix)).Suffix()) == prefix + StripSeparator(suffix)
       <==> !("\n\n" <= suffix)
  {
    var separated := Separated(suffix);
    if "\n\n" <= suffix {
      assert |StripSeparator(separated[1..])| == |suffix| - 2;
    } else if suffix != "" && suffix[0] != '\n' {
      assert separated[1..] == suffix;
    } else {
      TwoNewlines(suffix);
    }
  }

  /**
   A metadata write stores the metadata, and keeps the body of any file exactly when the text
   after its block does not begin with two newlines.
   */
  lemma MetadataWriteKeepsBody(m: Marks, content: string, metadata: Fields)
    requires MarksOk(m)
    requires ReadableKeys(metadata)
    ensures Parse(m, ReplaceMetadata(m, content, metadata)).metadata == Normalized(metadata)
    ensures Parse(m, ReplaceMetadata(m, content, metadata)).body == Parse(m, content).body
       <==> !DoubledBreak(m, content)
    ensures HasBlock(m, ReplaceMetadata(m, content, metadata))
    ensures BlockFirst(m, content) ==> BlockFirst(m, ReplaceMetadata(m, content, metadata))
  {
    var text := NormalizeLineEndings(content);
    EntriesAreTexts(m, metadata);
    EntriesRoundTrip(metadata);
    if HasBlock(m, content) {
      RewriteBlock(m, text, metadata);
    } else {
      NewBlock(m, text, metadata);
    }
  }

  lemma NewBlock(m: Marks, text: string, metadata: Fields)
    requires MarksOk(m)
    requires ReadableKeys(metadata) && '\r' !in text
    requires EntryTexts(m, EntryLines(metadata)) && Entries(EntryLines(metadata)) == Normalized(metadata)
    ensures Parse(m, WithBody(FormatBlock(m, metadata), text)) == Memory(Normalized(metadata), text)
    ensures HasBlock(m, WithBody(FormatBlock(m, metadata), text))
    ensures BlockFirst(m, WithBody(FormatBlock(m, metadata), text))
  {
    var lines := EntryLines(metadata);
    var q := Placed("", lines, BodyRest(text));
    NewBlockHasNoReturn(m, q, metadata);
    PlacedWithBody(m, lines, text);
    BlockAndBody(m, q, text);
  }

  lemma BlockAndBody(m: Marks, q: Placed, body: string)
    requires MarksOk(m) && EntryTexts(m, q.lines) && '\r' !in q.Text(m)
    requires q.prefix == "" && q.rest == BodyRest(body)
    ensures Parse(m, q.Text(m)) == Memory(Entries(q.lines), body)
    ensures HasBlock(m, q.Text(m)) && BlockFirst(m, q.Text(m))
  {
    FromEmptyPrefix(m, q.lines, q.rest);
    assert body != "" ==> q.Suffix() == "\n" + body && ("\n" + body)[1..] == body;
    assert q.prefix + StripSeparator(q.Suffix()) == body;
    ReadBack(m, q, Entries(q.lines), body);
  }

  lemma RewriteBlock(m: Marks, text: string, metadata: Fields)
    requires MarksOk(m)
    requires ReadableKeys(metadata) && FindBlock(m, text).Some? && '\r' !in text
    requires EntryTexts(m, EntryLines(metadata)) && Entries(EntryLines(metadata)) == Normalized(metadata)
    ensures Parse(m, ReplaceMetadata(m, text, metadata)).metadata == Normalized(metadata)
    ensures Parse(m, ReplaceMetadata(m, text, metadata)).body == Parse(m, text).body <==> !DoubledBreak(m, text)
    ensures HasBlock(m, ReplaceMetadata(m, text, metadata))
    ensures BlockFirst(m, ReplaceMetadata(m, text, metadata)) == BlockFirst(m, text)
  {
    var p := FoundIsPlaced(m, text);
    var q := Placed(p.prefix, EntryLines(metadata), Separated(p.Suffix()));
    ReplacePlacedMetadata(m, p, metadata);
    OwnPartsHaveNoReturn(m, p);
    NewBlockHasNoReturn(m, q, metadata);
    ParsePlaced(m, p);
    ReadBack(m, q, Normalized(metadata), p.prefix + StripSeparator(q.Suffix()));
    SeparatorLost(p.prefix, p.Suffix());
    PlacedParts(m, p);
  }
}

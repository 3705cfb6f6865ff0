/**
 The memory file as a state: any sequence of metadata and body writes behaves like writes to
 a plain pair of metadata and body.
 */
module MemoryFile {
  import opened Common
  import opened TextLines
  import opened MemoryAppend
  import opened MemoryCodec
  import opened MemoryRoundTrip
  import opened MemoryTheorems

  datatype Target = Owner | User | Group

  function AllowedFields(target: Target): set<string> {
    match target
    case Owner => {
      "updated_at", "agent_user_id", "agent_owner_id", "agent_nickname", "agent_avatar_url", "agent_bio",
      "agent_owner_nickname", "agent_owner_avatar_url", "agent_owner_bio", "agent_owner_locale", "agent_behavior" }
    case User => { "updated_at", "id", "nickname", "avatar_url", "bio", "profile_type" }
    case Group => {
      "updated_at", "group_id", "group_type", "group_title", "group_description", "group_owner_id",
      "group_owner_nickname", "group_owner_profile_type", "group_created_at", "participant_ids" }
  }

  /** The texts a new file gets in place of a blank behaviour or description. */
  datatype Defaults = Defaults(ownerBehavior: string, groupBio: string)

  function Filtered(target: Target, metadata: Fields): Fields {
    if metadata == [] then []
    else
      var kept := Filtered(target, metadata[..|metadata| - 1]);
      if Last(metadata).0 in AllowedFields(target) then kept + [Last(metadata)] else kept
  }

  predicate IsBlank(value: string) {
    Strip(BLANK, value) == ""
  }

  /** Fills a field that is present but blank. */
  function FillField(metadata: Fields, key: string, value: string): Fields {
    seq(|metadata|, i requires 0 <= i < |metadata| =>
      if metadata[i].0 == key && IsBlank(metadata[i].1) then (key, value) else metadata[i])
  }

  function WithInitialDefaults(target: Target, present: bool, metadata: Fields, defaults: Defaults): Fields {
    if present then metadata
    else match target
      case Owner => FillField(metadata, "agent_behavior", defaults.ownerBehavior)
      case Group => FillField(metadata, "group_description", defaults.groupBio)
      case User => metadata
  }

  /** What a metadata write puts into the file. */
  function Prepared(target: Target, present: bool, metadata: Fields, defaults: Defaults): Fields {
    WithInitialDefaults(target, present, Filtered(target, metadata), defaults)
  }

  // --- Writes to the file -----------------------------------------------------------------------

  datatype Write = WriteMetadata(fields: Fields) | Replace(content: string) | Append(content: string)

  function Existing(file: Option<string>): string {
    match file
    case None => ""
    case Some(text) => NormalizeLineEndings(text)
  }

  /** What an append adds; empty when it is refused or everything is present. */
  function Addition(body: string, content: string): string {
    if content == "" then "" else WithoutDuplicates(body, content)
  }

  function Apply(m: Marks, target: Target, defaults: Defaults, file: Option<string>, w: Write): Option<string> {
    var existing := Existing(file);
    match w
    case WriteMetadata(fields) => Some(ReplaceMetadata(m, existing, Prepared(target, file.Some?, fields, defaults)))
    case Replace(content) => Some(ReplaceBody(m, existing, NormalizeLineEndings(content)))
    case Append(raw) =>
      var content, body := NormalizeLineEndings(raw), Parse(m, existing).body;
      if Addition(body, content) == "" then file else Some(ReplaceBody(m, existing, Appended(body, content)))
  }

  datatype Outcome = Refused | Done(appended: bool, skipped: nat)

  datatype Mode = AppendMode | ReplaceMode

  class MemoryStore {
    const target: Target
    const defaults: Defaults
    var file: Option<string>

    constructor (target: Target, defaults: Defaults)
      ensures this.target == target && this.defaults == defaults && file == None
    {
      this.target, this.defaults, file := target, defaults, None;
    }

    method WriteBody(mode: Mode, raw: string) returns (outcome: Outcome)
      modifies this
      ensures file == Apply(MARKS, target, defaults, old(file), if mode.AppendMode? then Append(raw) else Replace(raw))
      ensures outcome.Refused? <==> mode.AppendMode? && NormalizeLineEndings(raw) == ""
      ensures outcome.Done? ==> (outcome.appended <==>
        mode.AppendMode? && Addition(Parse(MARKS, Existing(old(file))).body, NormalizeLineEndings(raw)) != "")
      ensures outcome.Done? ==> outcome.skipped == (if mode.ReplaceMode? then 0
        else
          var lines := ContentLines(Parse(MARKS, Existing(old(file))).body);
          SiftAll(lines, Paragraphs(NormalizeLineEndings(raw))).skipped)
      ensures mode.AppendMode? && (outcome.Refused? || !outcome.appended) ==> file == old(file)
    {
      var content := NormalizeLineEndings(raw);
      var existing := Existing(file);
      var skipped := 0;
      var body := content;
      if mode.AppendMode? {
        if content == "" {
          return Refused;
        }
        var existingBody := Parse(MARKS, existing).body;
        content, skipped := DropDuplicateParagraphs(existingBody, content);
        if content == "" {
          return Done(false, skipped);
        }
        body := AppendBody(existingBody, content);
      }
      file := Some(ReplaceBody(MARKS, existing, body));
      outcome := Done(mode.AppendMode?, skipped);
    }

    method WriteFields(metadata: Fields)
      modifies this
      ensures file == Apply(MARKS, target, defaults, old(file), WriteMetadata(metadata))
    {
      var present := file.Some?;
      var existing := Existing(file);
      var filtered := Filtered(target, metadata);
      filtered := WithInitialDefaults(target, present, filtered, defaults);
      file := Some(ReplaceMetadata(MARKS, existing, filtered));
    }
  }

  // --- Writes to a plain pair --------------------------------------------------------------------

  datatype Note = Note(present: bool, memory: Memory)

  function Intended(target: Target, defaults: Defaults, note: Note, w: Write): Note {
    var metadata, body := note.memory.metadata, note.memory.body;
    match w
    case WriteMetadata(fields) => Note(true, Memory(Normalized(Prepared(target, note.present, fields, defaults)), body))
    case Replace(content) => Note(true, Memory(metadata, NormalizeLineEndings(content)))
    case Append(raw) =>
      var content := NormalizeLineEndings(raw);
      if Addition(body, content) == "" then note else Note(true, Memory(metadata, Appended(body, content)))
  }

  /** No start marker line and no leading newline. */
  predicate Plain(m: Marks, body: string) {
    !HasStartLine(m, body) && (body != "" ==> body[0] != '\n')
  }

  predicate PlainWrite(m: Marks, w: Write) {
    match w
    case WriteMetadata(_) => true
    case Replace(content) => Plain(m, NormalizeLineEndings(content))
    case Append(content) => Plain(m, NormalizeLineEndings(content))
  }

  function Files(m: Marks, target: Target, defaults: Defaults, writes: seq<Write>): Option<string> {
    if writes == [] then None
    else Apply(m, target, defaults, Files(m, target, defaults, writes[..|writes| - 1]), Last(writes))
  }

  function Notes(target: Target, defaults: Defaults, writes: seq<Write>): Note {
    if writes == [] then Note(false, Memory(map[], ""))
    else Intended(target, defaults, Notes(target, defaults, writes[..|writes| - 1]), Last(writes))
  }

  // --- Field names can be read back ---------------------------------------------------------------

  predicate FieldName(key: string) {
    forall i :: 0 <= i < |key| ==> 'a' <= key[i] <= 'z' || key[i] == '_'
  }

  lemma FieldNameIsReadable(key: string)
    requires FieldName(key)
    ensures ReadableKey(key)
  {
  }

  lemma OwnerFieldNames()
    ensures forall key :: key in AllowedFields(Owner) ==> FieldName(key)
  {
  }

  lemma UserFieldNames()
    ensures forall key :: key in AllowedFields(User) ==> FieldName(key)
  {
  }

  lemma GroupFieldNames()
    ensures forall key :: key in AllowedFields(Group) ==> FieldName(key)
  {
  }

  lemma AllowedIsFieldName(target: Target, key: string)
    requires key in AllowedFields(target)
    ensures FieldName(key)
  {
    match target
    case Owner => OwnerFieldNames();
    case User => UserFieldNames();
    case Group => GroupFieldNames();
  }

  /** Filtering keeps exactly the allowed fields. */
  lemma {:induction false} FilteredKeys(target: Target, metadata: Fields)
    ensures forall e :: e in Filtered(target, metadata) <==> e in metadata && e.0 in AllowedFields(target)
  {
    if metadata != [] {
      FilteredKeys(target, metadata[..|metadata| - 1]);
      assert metadata == metadata[..|metadata| - 1] + [Last(metadata)];
    }
  }

  lemma {:induction false} FilteredPlaces(target: Target, metadata: Fields) returns (places: seq<nat>)
    ensures FoundAt(metadata, places, Filtered(target, metadata))
    ensures forall i :: 0 <= i < |metadata| ==> (i in places <==> metadata[i].0 in AllowedFields(target))
  {
    hide AllowedFields;
    places := [];
    if metadata != [] {
      places := FilteredPlaces(target, metadata[..|metadata| - 1]);
      if Last(metadata).0 in AllowedFields(target) {
        places := places + [|metadata| - 1];
      }
    }
  }

  /** The field that is given a text when it comes blank with a new file. */
  predicate GetsDefault(target: Target, key: string) {
    (target == Owner && key == "agent_behavior") || (target == Group && key == "group_description")
  }

  /**
   A metadata write puts the allowed fields into the file, in order and as they are; except that a
   new owner or group file gets the text for its behaviour or description where that has no other
   characters than blanks.
   */
  lemma PreparedExactly(target: Target, present: bool, metadata: Fields, defaults: Defaults)
    returns (places: seq<nat>)
    ensures var fields := Prepared(target, present, metadata, defaults);
      && Ascending(places) && |places| == |fields|
      && (forall i :: 0 <= i < |metadata| ==> (i in places <==> metadata[i].0 in AllowedFields(target)))
      && forall k :: 0 <= k < |fields| ==>
        && places[k] < |metadata| && fields[k].0 == metadata[places[k]].0
        && fields[k].1 ==
          if !present && GetsDefault(target, fields[k].0) && AllIn(BLANK, metadata[places[k]].1)
          then (if target == Owner then defaults.ownerBehavior else defaults.groupBio)
          else metadata[places[k]].1
  {
    hide AllowedFields, Filtered, AllIn, IsBlank;
    places := FilteredPlaces(target, metadata);
    forall value: string
      ensures IsBlank(value) <==> AllIn(BLANK, value)
    {
      BlankExactly(value);
    }
  }

  lemma BlankExactly(value: string)
    ensures IsBlank(value) <==> AllIn(BLANK, value)
  {
    StripExactly(BLANK, value, "");
    if AllIn(BLANK, value) {
      assert AllIn(BLANK, "") && value == value + ("" + "");
    }
  }

  lemma PreparedIsReadable(target: Target, present: bool, metadata: Fields, defaults: Defaults)
    ensures ReadableKeys(Prepared(target, present, metadata, defaults))
  {
    var filtered, fields := Filtered(target, metadata), Prepared(target, present, metadata, defaults);
    FilteredKeys(target, metadata);
    forall i | 0 <= i < |fields|
      ensures ReadableKey(fields[i].0)
    {
      assert |fields| == |filtered| && fields[i].0 == filtered[i].0 && filtered[i] in filtered;
      AllowedIsFieldName(target, fields[i].0);
      FieldNameIsReadable(fields[i].0);
    }
  }

  // --- Appending keeps bodies plain ----------------------------------------------------------------

  /** Every line of the text is one of these. */
  predicate LinesAmong(text: string, lines: set<string>) {
    forall l :: l in SplitLines(text) ==> l in lines
  }

  lemma AmongJoin(a: string, b: string, lines: set<string>)
    ensures LinesAmong(a + "\n" + b, lines) <==> LinesAmong(a, lines) && LinesAmong(b, lines)
  {
    SplitLinesJoin(a, b);
    forall l
      ensures l in SplitLines(a + "\n" + b) <==> l in SplitLines(a) || l in SplitLines(b)
    {
    }
  }

  lemma AmongEmpty(lines: set<string>)
    ensures LinesAmong("", lines) <==> "" in lines
  {
    SplitOne("");
    assert "" in SplitLines("");
  }

  lemma {:induction false} AmongDropLeading(text: string, lines: set<string>)
    requires LinesAmong(text, lines)
    ensures LinesAmong(DropLeading({'\n'}, text), lines)
  {
    if text != "" && text[0] == '\n' {
      assert text == "" + "\n" + text[1..];
      AmongJoin("", text[1..], lines);
      AmongDropLeading(text[1..], lines);
    }
  }

  lemma {:induction false} AmongDropTrailing(text: string, lines: set<string>)
    requires LinesAmong(text, lines)
    ensures LinesAmong(DropTrailing({'\n'}, text), lines)
  {
    if text != "" && Last(text) == '\n' {
      var front := text[..|text| - 1];
      assert text == front + "\n" + "";
      AmongJoin(front, "", lines);
      AmongDropTrailing(front, lines);
    }
  }

  lemma AmongBothParts(first: string, pad: string, rest: string, lines: set<string>)
    requires LinesAmong(first + ("\n" + pad + "\n" + rest), lines)
    ensures LinesAmong(first, lines) && LinesAmong(rest, lines)
  {
    assert first + ("\n" + pad + "\n" + rest) == first + "\n" + (pad + "\n" + rest);
    AmongJoin(first, pad + "\n" + rest, lines);
    AmongJoin(pad, rest, lines);
  }

  lemma {:induction false} AmongParagraphs(text: string, lines: set<string>)
    requires LinesAmong(text, lines)
    ensures forall p :: p in Paragraphs(text) ==> LinesAmong(p, lines)
    decreases |text|
  {
    var first, more, pad, rest := FirstParagraph(text);
    if more {
      AmongBothParts(first, pad, rest, lines);
      AmongParagraphs(rest, lines);
    }
  }

  /** A kept paragraph: no newline at its ends, not empty, its lines among the content's. */
  predicate Keepable(paragraph: string, lines: set<string>) {
    paragraph != "" && Unpadded({'\n'}, paragraph) && LinesAmong(paragraph, lines)
  }

  lemma StrippedIsKeepable(paragraph: string, lines: set<string>)
    requires LinesAmong(paragraph, lines) && ContentLines(paragraph) != []
    ensures Keepable(StripNewlines(paragraph), lines)
  {
    AmongDropLeading(paragraph, lines);
    AmongDropTrailing(DropLeading({'\n'}, paragraph), lines);
    StripUnpads({'\n'}, paragraph);
    StrippedKeepsLines(paragraph);
    EmptyHasNoContent();
  }

  lemma {:induction false} KeptAreKeepable(known: seq<string>, paragraphs: seq<string>, lines: set<string>)
    requires forall p :: p in paragraphs ==> LinesAmong(p, lines)
    ensures forall p :: p in SiftAll(known, paragraphs).kept ==> Keepable(p, lines)
  {
    if paragraphs != [] {
      KeptAreKeepable(known, paragraphs[..|paragraphs| - 1], lines);
      var paragraph := Last(paragraphs);
      assert LinesAmong(paragraph, lines);
      if ContentLines(paragraph) != [] {
        StrippedIsKeepable(paragraph, lines);
      }
    }
  }

  lemma {:induction false} AmongJoined(kept: seq<string>, lines: set<string>)
    requires "" in lines && forall p :: p in kept ==> Keepable(p, lines)
    ensures LinesAmong(JoinParagraphs(kept), lines)
    ensures kept != [] ==> JoinParagraphs(kept) != "" && JoinParagraphs(kept)[0] != '\n'
  {
    AmongEmpty(lines);
    if |kept| > 1 {
      var before, p := kept[..|kept| - 1], Last(kept);
      AmongJoined(before, lines);
      var joined := JoinParagraphs(before);
      JoinSnoc("\n\n", before, p);
      assert kept == before + [p];
      assert joined + "\n\n" + p == joined + "\n" + ("" + "\n" + p);
      AmongJoin(joined, "" + "\n" + p, lines);
      AmongJoin("", p, lines);
      assert Keepable(p, lines);
    } else if |kept| == 1 {
      assert Keepable(kept[0], lines);
    }
  }

  lemma AdditionIsAmong(body: string, content: string, lines: set<string>)
    requires "" in lines && LinesAmong(content, lines) && (content != "" ==> content[0] != '\n')
    ensures LinesAmong(WithoutDuplicates(body, content), lines)
    ensures WithoutDuplicates(body, content) != "" ==> WithoutDuplicates(body, content)[0] != '\n'
  {
    var known, paragraphs := ContentLines(body), Paragraphs(content);
    AmongParagraphs(content, lines);
    KeptAreKeepable(known, paragraphs, lines);
    AmongJoined(SiftAll(known, paragraphs).kept, lines);
  }

  lemma AppendBodyAmong(body: string, content: string, lines: set<string>)
    requires LinesAmong(body, lines) && LinesAmong(content, lines)
    requires content != "" ==> content[0] != '\n'
    ensures LinesAmong(AppendBody(body, content), lines)
  {
    if body != "" && Last(body) == '\n' {
      var front := body[..|body| - 1];
      assert body == front + "\n" + "" && body + content == front + "\n" + content;
      AmongJoin(front, "", lines);
      AmongJoin(front, content, lines);
    } else {
      AmongJoin(body, content, lines);
    }
  }

  lemma {:induction false} ReturnsAreInLines(text: string)
    ensures '\r' in text <==> exists l :: l in SplitLines(text) && '\r' in l
    decreases |text|
  {
    var line, more, rest := FirstLine(text);
    if more {
      SplitLinesStep(line, rest);
      ReturnsAreInLines(rest);
      assert line == ([line] + SplitLines(rest))[0];
      if l :| l in SplitLines(rest) && '\r' in l {
        assert l in [line] + SplitLines(rest);
      }
    } else {
      SplitOne(text);
      assert '\r' in text ==> text in SplitLines(text);
    }
  }

  function LinesOf(text: string): set<string> {
    set l | l in SplitLines(text)
  }

  lemma AppendedIsAmong(body: string, content: string, lines: set<string>)
    requires lines == LinesOf(body) + LinesOf(content) + {""}
    requires content != "" ==> content[0] != '\n'
    ensures LinesAmong(Appended(body, content), lines)
  {
    AdditionIsAmong(body, content, lines);
    AppendBodyAmong(body, WithoutDuplicates(body, content), lines);
  }

  lemma PlainLines(m: Marks, body: string, content: string, lines: set<string>)
    requires MarksOk(m)
    requires lines == LinesOf(body) + LinesOf(content) + {""}
    requires Plain(m, body) && Plain(m, content) && '\r' !in body && '\r' !in content
    ensures m.start !in lines && forall l :: l in lines ==> '\r' !in l
  {
    ReturnsAreInLines(body);
    ReturnsAreInLines(content);
  }

  lemma AmongPlain(m: Marks, text: string, lines: set<string>)
    requires MarksOk(m)
    requires LinesAmong(text, lines) && m.start !in lines && forall l :: l in lines ==> '\r' !in l
    ensures !HasStartLine(m, text) && '\r' !in text
  {
    ReturnsAreInLines(text);
  }

  lemma AppendedStart(m: Marks, body: string, content: string)
    requires MarksOk(m)
    requires Plain(m, body) && Plain(m, content)
    ensures Appended(body, content) != "" ==> Appended(body, content)[0] != '\n'
  {
    var lines := LinesOf(content) + {""};
    AdditionIsAmong(body, content, lines);
  }

  /** Appending plain content to a plain body gives a plain body, and no carriage return. */
  lemma AppendedIsPlain(m: Marks, body: string, content: string)
    requires MarksOk(m)
    requires Plain(m, body) && Plain(m, content) && '\r' !in body && '\r' !in content
    ensures Plain(m, Appended(body, content)) && '\r' !in Appended(body, content)
  {
    var lines := LinesOf(body) + LinesOf(content) + {""};
    AppendedIsAmong(body, content, lines);
    PlainLines(m, body, content, lines);
    AmongPlain(m, Appended(body, content), lines);
    AppendedStart(m, body, content);
  }

  // --- The file refines the pair ---------------------------------------------------------------------

  /** A missing file stands for an empty pair; a file parses to its pair, its block first. */
  predicate Represents(m: Marks, file: Option<string>, note: Note) {
    && note.present == file.Some?
    && Plain(m, note.memory.body)
    && '\r' !in note.memory.body
    && match file
       case None => note.memory == Memory(map[], "")
       case Some(text) => Parse(m, text) == note.memory && BlockFirst(m, text)
  }

  lemma ExistingReads(m: Marks, file: Option<string>, note: Note)
    requires MarksOk(m)
    requires Represents(m, file, note)
    ensures Parse(m, Existing(file)) == note.memory && BlockFirst(m, Existing(file))
    ensures !DoubledBreak(m, Existing(file))
    ensures !HasBlock(m, Existing(file)) ==> note.memory.metadata == map[]
  {
    var text := Existing(file);
    if file == None {
      EmptyHasNoBlock(m);
    } else {
      BlockFirstNotDoubled(m, text);
    }
  }

  lemma EmptyHasNoBlock(m: Marks)
    ensures Parse(m, "") == Memory(map[], "") && !HasBlock(m, "")
  {
    KeepEndsOne("");
  }

  lemma BlockFirstNotDoubled(m: Marks, text: string)
    requires MarksOk(m)
    requires BlockFirst(m, text) && Plain(m, Parse(m, text).body)
    ensures !DoubledBreak(m, text)
  {
    var t := NormalizeLineEndings(text);
    FindBlockWithin(m, t);
    if FindBlock(m, t).Some? {
      var suffix := t[FindBlock(m, t).value.end..];
      assert t[..0] + StripSeparator(suffix) == StripSeparator(suffix);
    }
  }

  lemma PlainHasNoBlock(m: Marks, body: string)
    requires MarksOk(m)
    requires Plain(m, body) && '\r' !in body
    ensures !HasBlock(m, body)
  {
    NoStartFindsNothing(m, body, 0);
  }

  lemma BodyStored(m: Marks, file: Option<string>, note: Note, body: string)
    requires MarksOk(m)
    requires Represents(m, file, note) && Plain(m, body) && '\r' !in body
    ensures Represents(m, Some(ReplaceBody(m, Existing(file), body)), Note(true, Memory(note.memory.metadata, body)))
  {
    ExistingReads(m, file, note);
    if HasBlock(m, Existing(file)) {
      BodyWriteKeepsMetadata(m, Existing(file), body);
    } else {
      PlainHasNoBlock(m, body);
      BodyWriteWithoutBlock(m, Existing(file), body);
    }
  }

  lemma MetadataStored(m: Marks, file: Option<string>, note: Note, metadata: Fields)
    requires MarksOk(m)
    requires Represents(m, file, note) && ReadableKeys(metadata)
    ensures Represents(m, Some(ReplaceMetadata(m, Existing(file), metadata)),
      Note(true, Memory(Normalized(metadata), note.memory.body)))
  {
    ExistingReads(m, file, note);
    MetadataWriteKeepsBody(m, Existing(file), metadata);
  }

  lemma WriteRefines(m: Marks, target: Target, defaults: Defaults, file: Option<string>, note: Note, w: Write)
    requires MarksOk(m)
    requires Represents(m, file, note) && PlainWrite(m, w)
    ensures Represents(m, Apply(m, target, defaults, file, w), Intended(target, defaults, note, w))
  {
    ExistingReads(m, file, note);
    match w
    case WriteMetadata(fields) =>
      PreparedIsReadable(target, note.present, fields, defaults);
      MetadataStored(m, file, note, Prepared(target, note.present, fields, defaults));
    case Replace(content) =>
      BodyStored(m, file, note, NormalizeLineEndings(content));
    case Append(raw) =>
      var content := NormalizeLineEndings(raw);
      AppendedIsPlain(m, note.memory.body, content);
      BodyStored(m, file, note, Appended(note.memory.body, content));
  }

  /**
   After any plain writes to a file that did not exist, the file parses to the pair that the same
   writes give: the last metadata written, and the body.
   */
  lemma {:induction false} FileRefinesPair(m: Marks, target: Target, defaults: Defaults, writes: seq<Write>)
    requires MarksOk(m)
    requires forall i :: 0 <= i < |writes| ==> PlainWrite(m, writes[i])
    ensures Represents(m, Files(m, target, defaults, writes), Notes(target, defaults, writes))
    ensures var file, note := Files(m, target, defaults, writes), Notes(target, defaults, writes);
      && note.present == file.Some?
      && (file.Some? ==> Parse(m, file.value) == note.memory)
  {
    if writes == [] {
      SplitOne("");
    } else {
      var before := writes[..|writes| - 1];
      FileRefinesPair(m, target, defaults, before);
      var file, note := Files(m, target, defaults, before), Notes(target, defaults, before);
      WriteRefines(m, target, defaults, file, note, Last(writes));
    }
  }

  /** The same with the marker lines of the repository. */
  lemma MemoryFileRefinesPair(target: Target, defaults: Defaults, writes: seq<Write>)
    requires forall i :: 0 <= i < |writes| ==> PlainWrite(MARKS, writes[i])
    ensures var file, note := Files(MARKS, target, defaults, writes), Notes(target, defaults, writes);
      && note.present == file.Some?
      && (file.Some? ==> Parse(MARKS, file.value) == note.memory)
  {
    MarkersAreOk();
    FileRefinesPair(MARKS, target, defaults, writes);
  }

  lemma NotesSnoc(target: Target, defaults: Defaults, writes: seq<Write>, w: Write)
    ensures Notes(target, defaults, writes + [w]) == Intended(target, defaults, Notes(target, defaults, writes), w)
  {
    assert (writes + [w])[..|writes|] == writes && Last(writes + [w]) == w;
  }

  lemma BodyWritesKeepMetadata(target: Target, defaults: Defaults, note: Note, w: Write)
    requires !w.WriteMetadata?
    ensures Intended(target, defaults, note, w).memory.metadata == note.memory.metadata
  {
  }

  lemma MetadataStaysOnce(
      target: Target, defaults: Defaults, writes: seq<Write>, w: Write, metadata: map<string, string>)
    requires Notes(target, defaults, writes).memory.metadata == metadata && !w.WriteMetadata?
    ensures Notes(target, defaults, writes + [w]).memory.metadata == metadata
  {
    NotesSnoc(target, defaults, writes, w);
    BodyWritesKeepMetadata(target, defaults, Notes(target, defaults, writes), w);
  }

  lemma OneMoreWrite(writes: seq<Write>, later: seq<Write>)
    requires later != []
    ensures writes + later == (writes + [later[0]]) + later[1..]
  {
  }

  /** Body writes, however many, leave the metadata as it was. */
  lemma {:induction false} MetadataStays(
      target: Target, defaults: Defaults, writes: seq<Write>, later: seq<Write>, metadata: map<string, string>)
    requires Notes(target, defaults, writes).memory.metadata == metadata
    requires forall i :: 0 <= i < |later| ==> !later[i].WriteMetadata?
    ensures Notes(target, defaults, writes + later).memory.metadata == metadata
    decreases |later|
  {
    if later == [] {
      assert writes + later == writes;
    } else {
      MetadataStaysOnce(target, defaults, writes, later[0], metadata);
      MetadataStays(target, defaults, writes + [later[0]], later[1..], metadata);
      OneMoreWrite(writes, later);
    }
  }

  /** What a pair's metadata holds: the last metadata written, whatever bodies came after. */
  lemma LastMetadataStays(target: Target, defaults: Defaults, writes: seq<Write>, later: seq<Write>, fields: Fields)
    requires forall i :: 0 <= i < |later| ==> !later[i].WriteMetadata?
    ensures Notes(target, defaults, writes + [WriteMetadata(fields)] + later).memory.metadata
         == Normalized(Prepared(target, Notes(target, defaults, writes).present, fields, defaults))
  {
    NotesSnoc(target, defaults, writes, WriteMetadata(fields));
    var first := writes + [WriteMetadata(fields)];
    MetadataStays(target, defaults, first, later, Notes(target, defaults, first).memory.metadata);
  }

  /**
   Appending the same content to a file again leaves the file as it was, exactly when the content
   has a non-blank line.
   */
  lemma AppendTwiceIsAppendOnce(
      m: Marks, target: Target, defaults: Defaults, file: Option<string>, note: Note, raw: string)
    requires MarksOk(m)
    requires Represents(m, file, note) && PlainWrite(m, Append(raw)) && NormalizeLineEndings(raw) != ""
    ensures var once := Apply(m, target, defaults, file, Append(raw));
      Apply(m, target, defaults, once, Append(raw)) == once <==> ContentLines(NormalizeLineEndings(raw)) != []
  {
    var content, body := NormalizeLineEndings(raw), note.memory.body;
    var once := Apply(m, target, defaults, file, Append(raw));
    var noted := Intended(target, defaults, note, Append(raw));
    ExistingReads(m, file, note);
    WriteRefines(m, target, defaults, file, note, Append(raw));
    ExistingReads(m, once, noted);
    assert noted.memory.body == Appended(body, content);
    AppendIsIdempotent(body, content);
    if ContentLines(content) == [] {
      WriteRefines(m, target, defaults, once, noted, Append(raw));
    }
  }
}

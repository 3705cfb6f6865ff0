/**
 The path normaliser of the URL redactor: a stack of segments that drops "." and
 pops on "..", against the dot-segment algorithm of section 5.2.4 of RFC 3986.
 */
module PathSegments {
  import opened Common

  // --- Segments of a path --------------------------------------------------------------

  predicate NoSlash(s: string) {
    forall i :: 0 <= i < |s| ==> s[i] != '/'
  }

  predicate Plain(segments: seq<string>) {
    forall i :: 0 <= i < |segments| ==> NoSlash(segments[i])
  }

  /** Index of the first slash, or the length of the text. */
  function FirstSlash(s: string): (n: nat)
    ensures n <= |s| && NoSlash(s[..n]) && (n < |s| ==> s[n] == '/')
  {
    if s == "" || s[0] == '/' then 0
    else
      var n := FirstSlash(s[1..]);
      assert s[..n + 1] == [s[0]] + s[1..][..n];
      n + 1
  }

  /** `text.split("/")`. */
  function Split(s: string): (segments: seq<string>)
    ensures segments != [] && Plain(segments)
    decreases |s|
  {
    var n := FirstSlash(s);
    if n == |s| then [s] else [s[..n]] + Split(s[n + 1..])
  }

  /** `"/".join(segments)`. */
  function Join(segments: seq<string>): string
    requires segments != []
  {
    JoinWith("/", segments)
  }

  lemma {:induction false} SplitThenJoin(s: string)
    ensures Join(Split(s)) == s
    decreases |s|
  {
    var n := FirstSlash(s);
    if n < |s| {
      SplitThenJoin(s[n + 1..]);
      assert s == s[..n] + "/" + s[n + 1..];
      assert Split(s)[1..] == Split(s[n + 1..]);
    } else {
      assert s[..n] == s;
    }
  }

  lemma {:induction false} FirstSlashOf(a: string, rest: string)
    requires NoSlash(a) && (rest == "" || rest[0] == '/')
    ensures FirstSlash(a + rest) == |a|
  {
    if a == "" {
      assert a + rest == rest;
    } else {
      assert (a + rest)[1..] == a[1..] + rest;
      FirstSlashOf(a[1..], rest);
    }
  }

  lemma {:induction false} JoinThenSplit(segments: seq<string>)
    requires segments != [] && Plain(segments)
    ensures Split(Join(segments)) == segments
  {
    if |segments| == 1 {
      FirstSlashOf(segments[0], "");
      assert segments[0] + "" == segments[0];
    } else {
      var a, rest := segments[0], Join(segments[1..]);
      JoinThenSplit(segments[1..]);
      FirstSlashOf(a, "/" + rest);
      assert Join(segments) == a + ("/" + rest);
      var s := Join(segments);
      assert s[..|a|] == a && s[|a| + 1..] == rest;
    }
  }

  // --- The stack loop -----------------------------------------------------------------------

  function LowerE(c: char): char {
    if c == 'E' then 'e' else c
  }

  /** `part.lower().replace("%2e", ".")`, as far as it decides about dots. */
  function DotForm(part: string): string {
    if |part| >= 3 && part[0] == '%' && part[1] == '2' && LowerE(part[2]) == 'e' then "." + DotForm(part[3..])
    else if part == "" then ""
    else [LowerE(part[0])] + DotForm(part[1..])
  }

  predicate IsDot(part: string) { DotForm(part) == "." }

  predicate IsDotDot(part: string) { DotForm(part) == ".." }

  function Pop(parts: seq<string>): seq<string> {
    if |parts| > 1 then parts[..|parts| - 1] else parts
  }

  /** What one segment does to the stack; a final dot segment leaves an empty one. */
  function Push(parts: seq<string>, part: string, final: bool): seq<string> {
    if IsDot(part) || IsDotDot(part) then
      (if IsDotDot(part) then Pop(parts) else parts) + (if final then [""] else [])
    else parts + [part]
  }

  function Reduce(parts: seq<string>, segments: seq<string>): seq<string>
    decreases |segments|
  {
    if segments == [] then parts
    else Reduce(Push(parts, segments[0], |segments| == 1), segments[1..])
  }

  function Normalise(path: string): seq<string> {
    Reduce([], Split(path))
  }

  /** The stack after segments none of which is the last of the path. */
  function ReduceOpen(parts: seq<string>, segments: seq<string>): seq<string>
    decreases |segments|
  {
    if segments == [] then parts else ReduceOpen(Push(parts, segments[0], false), segments[1..])
  }

  lemma {:induction false} ReduceOpenSnoc(parts: seq<string>, segments: seq<string>, x: string)
    ensures ReduceOpen(parts, segments + [x]) == Push(ReduceOpen(parts, segments), x, false)
    decreases |segments|
  {
    if segments == [] {
      assert segments + [x] == [x] && [x][1..] == [];
    } else {
      assert (segments + [x])[1..] == segments[1..] + [x];
      ReduceOpenSnoc(Push(parts, segments[0], false), segments[1..], x);
    }
  }

  lemma {:induction false} ReduceLast(parts: seq<string>, segments: seq<string>, x: string)
    ensures Reduce(parts, segments + [x]) == Push(ReduceOpen(parts, segments), x, true)
    decreases |segments|
  {
    if segments == [] {
      assert segments + [x] == [x] && [x][1..] == [];
    } else {
      assert (segments + [x])[1..] == segments[1..] + [x];
      ReduceLast(Push(parts, segments[0], false), segments[1..], x);
    }
  }

  /** The loop over the segments, pushing and popping in place. */
  method NormaliseSegments(path: string) returns (parts: seq<string>)
    ensures parts == Normalise(path)
  {
    var segments := Split(path);
    parts := [];
    for i := 0 to |segments|
      invariant i < |segments| ==> parts == ReduceOpen([], segments[..i])
      invariant i == |segments| ==> parts == Reduce([], segments)
    {
      var part := segments[i];
      assert segments[..i + 1] == segments[..i] + [part];
      ReduceOpenSnoc([], segments[..i], part);
      ReduceLast([], segments[..i], part);
      assert i == |segments| - 1 ==> segments == segments[..i] + [part];
      var dot := DotForm(part);
      if dot == "." || dot == ".." {
        if dot == ".." && |parts| > 1 {
          parts := parts[..|parts| - 1];
        }
        if i == |segments| - 1 {
          parts := parts + [""];
        }
      } else {
        parts := parts + [part];
      }
    }
  }

  // --- Section 5.2.4 of RFC 3986 ------------------------------------------------------------

  predicate HasPrefix(s: string, p: string) {
    |p| <= |s| && s[..|p|] == p
  }

  /** Step 2C: the output without its last segment and the slash before it. */
  function DropLastSegment(out: string): string {
    if out == "" then ""
    else if Last(out) == '/' then out[..|out| - 1]
    else DropLastSegment(out[..|out| - 1])
  }

  /** One pass of the two-buffer loop: steps 2A to 2E in order. */
  function RfcStep(input: string, out: string): (r: (string, string))
    requires input != ""
    ensures |r.0| < |input|
  {
    if HasPrefix(input, "../") then (input[3..], out)
    else if HasPrefix(input, "./") then (input[2..], out)
    else if HasPrefix(input, "/./") then (input[2..], out)
    else if input == "/." then ("/", out)
    else if HasPrefix(input, "/../") then (input[3..], DropLastSegment(out))
    else if input == "/.." then ("/", DropLastSegment(out))
    else if input == "." || input == ".." then ("", out)
    else
      var n := if input[0] == '/' then 1 + FirstSlash(input[1..]) else FirstSlash(input);
      (input[n..], out + input[..n])
  }

  function RemoveDotSegments(input: string, out: string): string
    decreases |input|
  {
    if input == "" then out else RemoveDotSegments(RfcStep(input, out).0, RfcStep(input, out).1)
  }

  // --- The loop is the algorithm -----------------------------------------------------------

  /** Every segment that reads as dots written as plain dots. */
  function PlainDots(part: string): string {
    if IsDot(part) then "." else if IsDotDot(part) then ".." else part
  }

  function Decoded(segments: seq<string>): (r: seq<string>)
    ensures |r| == |segments|
  {
    seq(|segments|, i requires 0 <= i < |segments| => PlainDots(segments[i]))
  }

  predicate NoEncodedDots(segments: seq<string>) {
    forall i :: 0 <= i < |segments| ==> PlainDots(segments[i]) == segments[i]
  }

  lemma {:induction false} DropLastOf(out: string, x: string)
    requires NoSlash(x)
    ensures DropLastSegment(out + "/" + x) == out
  {
    var s := out + "/" + x;
    if x == "" {
      assert s[..|s| - 1] == out;
    } else {
      assert s[..|s| - 1] == out + "/" + x[..|x| - 1];
      assert Last(s) == Last(x);
      DropLastOf(out, x[..|x| - 1]);
    }
  }

  lemma PopDrops(parts: seq<string>)
    requires parts != [] && parts[0] == "" && Plain(parts)
    ensures DropLastSegment(Join(parts)) == Join(Pop(parts))
  {
    if |parts| > 1 {
      var front := parts[..|parts| - 1];
      assert parts == front + [Last(parts)];
      JoinSnoc("/", front, Last(parts));
      DropLastOf(Join(front), Last(parts));
    }
  }

  lemma DotSteps(rest: string, out: string)
    requires rest == "" || rest[0] == '/'
    ensures RfcStep("/." + rest, out) == (if rest == "" then "/" else rest, out)
    ensures RfcStep("/.." + rest, out) == (if rest == "" then "/" else rest, DropLastSegment(out))
  {
    var one, two := "/." + rest, "/.." + rest;
    assert one[1] == '.' && (rest != "" ==> one[2] == '/');
    assert two[1] == '.' && two[2] == '.' && (rest != "" ==> two[3] == '/');
    if rest != "" {
      assert one[..3] == "/./" && one[2..] == rest;
      assert two[..4] == "/../" && two[3..] == rest;
      assert two[..3][2] == '.';
    }
  }

  lemma PrefixChars(s: string, p: string, i: nat)
    requires i < |p|
    ensures HasPrefix(s, p) ==> s[i] == p[i]
  {
    if HasPrefix(s, p) {
      assert s[..|p|][i] == p[i];
    }
  }

  /** A path segment that is no dot segment goes to the output whole. */
  lemma SegmentStep(part: string, rest: string, out: string)
    requires NoSlash(part) && part != "." && part != ".."
    requires rest == "" || rest[0] == '/'
    ensures RfcStep("/" + part + rest, out) == (rest, out + "/" + part)
  {
    NoDotPrefix(part, rest);
    WholeSegment("/" + part + rest, part, rest, out);
  }

  predicate StartsWithDots(input: string) {
    HasPrefix(input, "../") || HasPrefix(input, "./") || HasPrefix(input, "/./") || HasPrefix(input, "/../")
      || input in ["/.", "/..", ".", ".."]
  }

  lemma NoDotPrefix(part: string, rest: string)
    requires NoSlash(part) && part != "." && part != ".."
    requires rest == "" || rest[0] == '/'
    ensures !StartsWithDots("/" + part + rest)
  {
    var input := "/" + part + rest;
    var n := |part|;
    assert input[0] == '/' && forall i :: 0 <= i < n ==> input[1 + i] == part[i];
    assert n + 1 < |input| ==> input[n + 1] == '/';
    PrefixChars(input, "/./", 1);
    PrefixChars(input, "/./", 2);
    PrefixChars(input, "/../", 1);
    PrefixChars(input, "/../", 2);
    PrefixChars(input, "/../", 3);
    PrefixChars(input, "../", 0);
    PrefixChars(input, "./", 0);
  }

  lemma WholeSegment(input: string, part: string, rest: string, out: string)
    requires input == "/" + part + rest && NoSlash(part) && (rest == "" || rest[0] == '/') && !StartsWithDots(input)
    ensures RfcStep(input, out) == (rest, out + "/" + part)
  {
    FirstSlashOf(part, rest);
    assert input[1..] == part + rest && input[1 + |part|..] == rest && input[..1 + |part|] == "/" + part;
    assert out + ("/" + part) == out + "/" + part;
  }

  /** Joined segments with their leading slash, or nothing. */
  function Tail(segments: seq<string>): string {
    if segments == [] then "" else "/" + Join(segments)
  }

  lemma TailFirst(segments: seq<string>)
    requires segments != []
    ensures Tail(segments) == "/" + segments[0] + Tail(segments[1..])
  {
  }

  lemma RootStep(out: string)
    ensures RemoveDotSegments("/", out) == out + "/"
  {
    SegmentStep("", "", out);
    assert "/" + "" + "" == "/";
    assert out + "/" + "" == out + "/";
    assert RemoveDotSegments("", out + "/") == out + "/";
  }

  lemma PlainPush(parts: seq<string>, part: string, final: bool)
    requires PlainDots(part) == part
    ensures var end := if final then [""] else [];
      Push(parts, part, final) ==
        if part == "." then parts + end else if part == ".." then Pop(parts) + end else parts + [part]
  {
    assert DotForm("") == "";
    assert ("."[1..]) == "" && (".."[1..]) == ".";
    assert DotForm(".") == "." && DotForm("..") == "..";
  }

  lemma DotFollows(popped: seq<string>, after: string, final: bool)
    requires popped != [] && (final <==> after == "")
    ensures RemoveDotSegments(if final then "/" else after, Join(popped))
         == RemoveDotSegments(after, Join(popped + (if final then [""] else [])))
  {
    if final {
      RootStep(Join(popped));
      JoinSnoc("/", popped, "");
      assert Join(popped + [""]) == Join(popped) + "/";
    } else {
      assert popped + [] == popped;
    }
  }

  function EndMark(final: bool): seq<string> {
    if final then [""] else []
  }

  lemma DotSegmentFollows(parts: seq<string>, rest: seq<string>)
    requires parts != []
    ensures RemoveDotSegments("/." + Tail(rest), Join(parts))
         == RemoveDotSegments(Tail(rest), Join(parts + EndMark(rest == [])))
  {
    DotSteps(Tail(rest), Join(parts));
    DotFollows(parts, Tail(rest), rest == []);
  }

  lemma DotDotSegmentFollows(parts: seq<string>, rest: seq<string>)
    requires parts != [] && parts[0] == "" && Plain(parts)
    ensures RemoveDotSegments("/.." + Tail(rest), Join(parts))
         == RemoveDotSegments(Tail(rest), Join(Pop(parts) + EndMark(rest == [])))
  {
    PopDrops(parts);
    DotSteps(Tail(rest), Join(parts));
    DotFollows(Pop(parts), Tail(rest), rest == []);
  }

  lemma PlainSegmentFollows(parts: seq<string>, part: string, rest: seq<string>)
    requires parts != [] && NoSlash(part) && part != "." && part != ".."
    ensures RemoveDotSegments("/" + part + Tail(rest), Join(parts))
         == RemoveDotSegments(Tail(rest), Join(parts + [part]))
  {
    SegmentStep(part, Tail(rest), Join(parts));
    JoinSnoc("/", parts, part);
  }

  /** One segment: the algorithm's steps for it match what it does to the stack. */
  lemma SegmentFollows(parts: seq<string>, part: string, rest: seq<string>, next: seq<string>)
    requires parts != [] && parts[0] == "" && Plain(parts)
    requires NoSlash(part) && PlainDots(part) == part && next == Push(parts, part, rest == [])
    ensures next != [] && next[0] == "" && Plain(next)
    ensures RemoveDotSegments("/" + part + Tail(rest), Join(parts)) == RemoveDotSegments(Tail(rest), Join(next))
  {
    PlainPush(parts, part, rest == []);
    if part == "." {
      assert "/" + part == "/.";
      DotSegmentFollows(parts, rest);
    } else if part == ".." {
      assert "/" + part == "/..";
      DotDotSegmentFollows(parts, rest);
    } else {
      PlainSegmentFollows(parts, part, rest);
    }
  }

  lemma {:induction false} LoopFollowsAlgorithm(parts: seq<string>, segments: seq<string>)
    requires parts != [] && parts[0] == "" && Plain(parts)
    requires Plain(segments) && NoEncodedDots(segments)
    ensures Reduce(parts, segments) != [] && Reduce(parts, segments)[0] == "" && Plain(Reduce(parts, segments))
    ensures RemoveDotSegments(Tail(segments), Join(parts)) == Join(Reduce(parts, segments))
    decreases |segments|
  {
    if segments != [] {
      var part, rest := segments[0], segments[1..];
      assert PlainDots(part) == part;
      TailFirst(segments);
      var next := Push(parts, part, rest == []);
      SegmentFollows(parts, part, rest, next);
      LoopFollowsAlgorithm(next, rest);
    }
  }

  /** Main result: on every path with a leading slash and no encoded dots, the
      segment loop computes what section 5.2.4 of RFC 3986 computes. */
  lemma LoopIsRfc3986(path: string)
    requires path != "" && path[0] == '/' && NoEncodedDots(Split(path))
    ensures Normalise(path) != []
    ensures Join(Normalise(path)) == RemoveDotSegments(path, "")
  {
    var segments := Split(path);
    SplitThenJoin(path);
    RootFirst(path);
    var rest := segments[1..];
    assert path == Tail(rest);
    assert Push([], "", false) == [""];
    assert Join([""]) == "";
    LoopFollowsAlgorithm([""], rest);
  }

  lemma RootFirst(path: string)
    requires path != "" && path[0] == '/'
    ensures Split(path)[0] == "" && |Split(path)| >= 2 && path == Tail(Split(path)[1..])
  {
    SplitThenJoin(path);
    assert FirstSlash(path) == 0;
    assert path[..0] == "";
  }

  // --- Encoded dots ------------------------------------------------------------------------------

  lemma DotFormOfPlain(part: string)
    ensures IsDot(PlainDots(part)) == IsDot(part) && IsDotDot(PlainDots(part)) == IsDotDot(part)
  {
    assert DotForm("") == "";
    assert ("."[1..]) == "" && (".."[1..]) == ".";
    assert DotForm(".") == "." && DotForm("..") == "..";
  }

  lemma {:induction false} ReduceDecoded(parts: seq<string>, segments: seq<string>)
    ensures Reduce(parts, segments) == Reduce(parts, Decoded(segments))
    decreases |segments|
  {
    if segments != [] {
      DotFormOfPlain(segments[0]);
      assert Decoded(segments)[1..] == Decoded(segments[1..]);
      ReduceDecoded(Push(parts, segments[0], |segments| == 1), segments[1..]);
    }
  }

  /** With encoded dots the loop computes what the algorithm computes once they
      are written as dots. */
  lemma LoopReadsEncodedDots(path: string)
    requires path != "" && path[0] == '/'
    ensures Normalise(path) != []
    ensures Join(Normalise(path)) == RemoveDotSegments(Join(Decoded(Split(path))), "")
  {
    var segments := Split(path);
    var decoded := Decoded(segments);
    RootFirst(path);
    ReduceDecoded([], segments);
    assert Plain(decoded);
    forall i | 0 <= i < |decoded| ensures PlainDots(decoded[i]) == decoded[i] {
      DotFormOfPlain(segments[i]);
    }
    assert DotForm("") == "";
    assert decoded[0] == "";
    JoinThenSplit(decoded);
    assert Join(decoded) == "" + "/" + Join(decoded[1..]);
    LoopIsRfc3986(Join(decoded));
  }

  /** The ways a dot may be written in a path. */
  const DOT_TEXTS: set<string> := {".", "%2e", "%2E"}

  lemma NoDotFormIsEmpty(part: string)
    requires part != ""
    ensures DotForm(part) != ""
  {
  }

  lemma DotFormOfDot(dot: string, rest: string)
    requires dot in DOT_TEXTS
    ensures DotForm(dot + rest) == "." + DotForm(rest)
  {
    assert (dot + rest)[|dot|..] == rest;
  }

  lemma FirstDot(part: string) returns (dot: string, rest: string)
    requires part != "" && DotForm(part)[0] == '.'
    ensures dot in DOT_TEXTS && part == dot + rest && DotForm(part) == "." + DotForm(rest)
  {
    var n := if part[0] == '.' then 1 else 3;
    dot, rest := part[..n], part[n..];
    assert dot == if n == 1 then "." else ['%', '2', part[2]];
  }

  /** A segment counts as dots exactly when it is one or two dots, each plain or encoded. */
  lemma DotsAreWritten(part: string)
    ensures IsDot(part) <==> part in DOT_TEXTS
    ensures IsDotDot(part) <==> exists a, b :: a in DOT_TEXTS && b in DOT_TEXTS && part == a + b
  {
    assert DotForm("") == "";
    if IsDot(part) || IsDotDot(part) {
      var a, rest := FirstDot(part);
      assert DotForm(part)[1..] == DotForm(rest);
      if rest != "" {
        NoDotFormIsEmpty(rest);
      }
      if IsDot(part) {
        assert rest == "" && a + "" == a;
      } else {
        var b, left := FirstDot(rest);
        assert DotForm(rest)[1..] == DotForm(left);
        if left != "" {
          NoDotFormIsEmpty(left);
        }
        assert left == "" && rest == b + "" && b + "" == b;
      }
    }
    if part in DOT_TEXTS {
      DotFormOfDot(part, "");
      assert part + "" == part;
    }
    if a, b :| a in DOT_TEXTS && b in DOT_TEXTS && part == a + b {
      DotFormOfDot(b, "");
      assert b + "" == b;
      DotFormOfDot(a, b);
    }
  }

  // --- No dot segment is left, and normalising again changes nothing --------------------------------

  predicate NoDots(parts: seq<string>) {
    forall i :: 0 <= i < |parts| ==> !IsDot(parts[i]) && !IsDotDot(parts[i])
  }

  lemma {:induction false} ReduceLeavesNoDots(parts: seq<string>, segments: seq<string>)
    requires NoDots(parts) && Plain(parts) && Plain(segments)
    ensures NoDots(Reduce(parts, segments)) && Plain(Reduce(parts, segments))
    decreases |segments|
  {
    if segments != [] {
      assert DotForm("") == "";
      ReduceLeavesNoDots(Push(parts, segments[0], |segments| == 1), segments[1..]);
    }
  }

  lemma {:induction false} ReduceKeepsDotless(parts: seq<string>, segments: seq<string>)
    requires NoDots(segments)
    ensures Reduce(parts, segments) == parts + segments
    decreases |segments|
  {
    if segments == [] {
      assert parts + segments == parts;
    } else {
      ReduceKeepsDotless(parts + [segments[0]], segments[1..]);
      assert parts + [segments[0]] + segments[1..] == parts + segments;
    }
  }

  /** The result has no dot segment, plain or encoded, and is a fixed point. */
  lemma NormaliseIsIdempotent(path: string)
    requires path != "" && path[0] == '/'
    ensures Normalise(path) != [] && NoDots(Normalise(path))
    ensures Split(Join(Normalise(path))) == Normalise(path)
    ensures Normalise(Join(Normalise(path))) == Normalise(path)
  {
    var parts := Normalise(path);
    LoopReadsEncodedDots(path);
    ReduceLeavesNoDots([], Split(path));
    JoinThenSplit(parts);
    ReduceKeepsDotless([], parts);
    assert [] + parts == parts;
  }
}

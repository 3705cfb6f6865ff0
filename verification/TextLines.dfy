/**
 Splitting a text at its newlines.
 */
module TextLines {
  import opened Common

  /** Index of the first newline from i on, or the length of the text. */
  function NewlineFrom(s: string, i: nat): (n: nat)
    requires i <= |s|
    ensures i <= n <= |s| && (n < |s| ==> s[n] == '\n') && (forall j :: i <= j < n ==> s[j] != '\n')
    decreases |s| - i
  {
    if i == |s| || s[i] == '\n' then i else NewlineFrom(s, i + 1)
  }

  /** Index of the first newline, or the length of the text. */
  function LineEnd(s: string): (n: nat)
    ensures n <= |s| && (n < |s| ==> s[n] == '\n') && (forall i :: 0 <= i < n ==> s[i] != '\n')
  {
    NewlineFrom(s, 0)
  }

  lemma LineEndOf(line: string, rest: string)
    requires OneLine(line)
    requires rest == "" || rest[0] == '\n'
    ensures LineEnd(line + rest) == |line|
  {
    assert forall i :: 0 <= i < |line| ==> (line + rest)[i] == line[i];
    assert rest != "" ==> (line + rest)[|line|] == '\n';
  }

  /** Splitting at every newline. */
  function SplitLines(text: string): seq<string>
    decreases |text|
  {
    var n := LineEnd(text);
    if n == |text| then [text] else [text[..n]] + SplitLines(text[n + 1..])
  }

  lemma SplitLinesStep(line: string, rest: string)
    requires OneLine(line)
    ensures SplitLines(line + "\n" + rest) == [line] + SplitLines(rest)
  {
    var text := line + "\n" + rest;
    LineEndOf(line, "\n" + rest);
    assert text == line + ("\n" + rest);
    assert text[..|line|] == line && text[|line| + 1..] == rest;
  }

  /** A text is its only line, or its first line, a newline and the rest. */
  lemma FirstLine(text: string) returns (line: string, more: bool, rest: string)
    ensures OneLine(line)
    ensures more ==> text == line + "\n" + rest && |rest| < |text|
    ensures !more ==> text == line
  {
    var n := LineEnd(text);
    line, more := text[..n], n < |text|;
    rest := if more then text[n + 1..] else "";
  }

  lemma Regroup(a: string, b: string, c: string, d: string, e: string)
    ensures (a + b + c) + d + e == a + b + (c + d + e)
  {
  }

  /** Splitting distributes over a newline, wherever it stands. */
  lemma {:induction false} SplitLinesJoin(a: string, b: string)
    ensures SplitLines(a + "\n" + b) == SplitLines(a) + SplitLines(b)
    decreases |a|
  {
    var line, more, rest := FirstLine(a);
    if more {
      Regroup(line, "\n", rest, "\n", b);
      SplitLinesStep(line, rest + "\n" + b);
      SplitLinesStep(line, rest);
      SplitLinesJoin(rest, b);
      Chain([line], SplitLines(rest), SplitLines(b));
    } else {
      SplitLinesStep(a, b);
      SplitOne(a);
    }
  }

  lemma Chain(a: seq<string>, b: seq<string>, c: seq<string>)
    ensures a + (b + c) == (a + b) + c
  {
  }

  lemma SplitOne(line: string)
    requires OneLine(line)
    ensures SplitLines(line) == [line]
  {
    LineEndOf(line, "");
    assert line + "" == line;
  }

  /** Python's `splitlines(keepends=True)`, for texts whose only line ends are newlines. */
  function KeepEnds(text: string): seq<string>
    decreases |text|
  {
    var n := LineEnd(text);
    if text == "" then []
    else if n == |text| then [text]
    else [text[..n + 1]] + KeepEnds(text[n + 1..])
  }

  predicate OneLine(s: string) {
    forall i :: 0 <= i < |s| ==> s[i] != '\n'
  }

  lemma KeepEndsStep(line: string, rest: string)
    requires OneLine(line)
    ensures KeepEnds(line + "\n" + rest) == [line + "\n"] + KeepEnds(rest)
  {
    var text := line + "\n" + rest;
    LineEndOf(line, "\n" + rest);
    assert text == line + ("\n" + rest);
    assert text[..|line| + 1] == line + "\n" && text[|line| + 1..] == rest;
  }

  lemma KeepEndsOne(line: string)
    requires OneLine(line)
    ensures KeepEnds(line) == if line == "" then [] else [line]
  {
    LineEndOf(line, "");
    assert line + "" == line;
  }
}

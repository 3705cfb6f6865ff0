/**
 Fitting history lines into a character budget, newest kept first.
 */
module CatchUpLines {
  import opened Common

  /** Length of the lines joined by newlines. */
  function JoinedLength(lines: seq<string>): nat {
    if lines == [] then 0
    else if |lines| == 1 then |lines[0]|
    else |lines[0]| + 1 + JoinedLength(lines[1..])
  }

  function Reversed<T>(s: seq<T>): seq<T> {
    if s == [] then [] else [Last(s)] + Reversed(s[..|s| - 1])
  }

  /** The line cut so that it and its ellipsis fill the budget. */
  function CutLine(line: string, budget: int): string
    requires budget < |line|
  {
    line[..Max(0, budget - 1)] + "\U{2026}"
  }

  function LastLines(lines: seq<string>, n: nat): seq<string>
    requires n <= |lines|
  {
    lines[|lines| - n..]
  }

  predicate Fits(lines: seq<string>, budget: int, n: nat)
    requires n <= |lines|
  {
    JoinedLength(LastLines(lines, n)) <= budget
  }

  /** Either the most last lines that fit, or, when not even one does, the cut newest line. */
  predicate KeepsMost(lines: seq<string>, budget: int, kept: seq<string>) {
    if lines == [] then kept == []
    else if |Last(lines)| > budget then kept == [CutLine(Last(lines), budget)]
    else
      && 0 < |kept| <= |lines|
      && kept == LastLines(lines, |kept|)
      && Fits(lines, budget, |kept|)
      && forall n :: |kept| < n <= |lines| ==> !Fits(lines, budget, n)
  }

  lemma {:induction false} JoinedPrepend(line: string, lines: seq<string>)
    ensures JoinedLength([line] + lines) == |line| + (if lines == [] then 0 else 1 + JoinedLength(lines))
  {
    assert ([line] + lines)[1..] == lines;
  }

  lemma LastLinesStep(lines: seq<string>, n: nat)
    requires n < |lines|
    ensures LastLines(lines, n + 1) == [lines[|lines| - 1 - n]] + LastLines(lines, n)
  {
  }

  /** More lines are longer. */
  lemma {:induction false} LongerDoesNotFit(lines: seq<string>, budget: int, n: nat, m: nat)
    requires n <= m <= |lines| && !Fits(lines, budget, n)
    ensures !Fits(lines, budget, m)
    decreases m
  {
    if n < m {
      LongerDoesNotFit(lines, budget, n, m - 1);
      LastLinesStep(lines, m - 1);
      JoinedPrepend(lines[|lines| - m], LastLines(lines, m - 1));
    }
  }

  /** Lines taken so far, newest first. */
  predicate KeptSoFar(lines: seq<string>, budget: int, kept: seq<string>, used: nat) {
    && |kept| <= |lines|
    && Reversed(kept) == LastLines(lines, |kept|)
    && used == JoinedLength(LastLines(lines, |kept|))
    && (kept != [] ==> used <= budget && |Last(lines)| <= budget)
  }

  function Cost(line: string, kept: seq<string>): nat {
    |line| + (if kept != [] then 1 else 0)
  }

  lemma TakeOne(lines: seq<string>, budget: int, kept: seq<string>, used: nat, line: string)
    requires KeptSoFar(lines, budget, kept, used) && |kept| < |lines| && line == lines[|lines| - 1 - |kept|]
    ensures JoinedLength(LastLines(lines, |kept| + 1)) == used + Cost(line, kept)
    ensures used + Cost(line, kept) <= budget ==> KeptSoFar(lines, budget, kept + [line], used + Cost(line, kept))
  {
    LastLinesStep(lines, |kept|);
    JoinedPrepend(line, LastLines(lines, |kept|));
    assert (kept + [line])[..|kept|] == kept && Last(kept + [line]) == line;
  }

  lemma NoRoomForMore(lines: seq<string>, budget: int, kept: seq<string>, used: nat, line: string)
    requires KeptSoFar(lines, budget, kept, used) && kept != [] && |kept| < |lines|
    requires line == lines[|lines| - 1 - |kept|]
    requires used + Cost(line, kept) > budget
    ensures KeepsMost(lines, budget, Reversed(kept))
  {
    TakeOne(lines, budget, kept, used, line);
    forall n | |kept| < n <= |lines|
      ensures !Fits(lines, budget, n)
    {
      LongerDoesNotFit(lines, budget, |kept| + 1, n);
    }
  }

  lemma CutNewest(lines: seq<string>, budget: int, line: string)
    requires lines != [] && line == Last(lines) && |line| > budget
    ensures KeepsMost(lines, budget, Reversed([] + [CutLine(line, budget)]))
  {
    var cut := CutLine(line, budget);
    assert [] + [cut] == [cut] && [cut][..0] == [];
    assert Reversed([cut]) == [cut] + Reversed([cut][..0]);
  }

  lemma AllKept(lines: seq<string>, budget: int, kept: seq<string>, used: nat)
    requires KeptSoFar(lines, budget, kept, used) && |kept| == |lines|
    ensures KeepsMost(lines, budget, Reversed(kept))
  {
  }

  method KeepNewest(lines: seq<string>, budget: int) returns (shown: seq<string>)
    ensures KeepsMost(lines, budget, shown)
  {
    var kept: seq<string> := [];
    var used: nat := 0;
    var i := |lines|;
    assert KeptSoFar(lines, budget, kept, used);
    while i > 0
      invariant 0 <= i <= |lines| && |kept| == |lines| - i
      invariant KeptSoFar(lines, budget, kept, used)
    {
      var line := lines[i - 1];
      var cost := Cost(line, kept);
      if used + cost > budget {
        if kept == [] {
          kept := kept + [CutLine(line, budget)];
          CutNewest(lines, budget, line);
        } else {
          NoRoomForMore(lines, budget, kept, used, line);
        }
        return Reversed(kept);
      }
      TakeOne(lines, budget, kept, used, line);
      kept := kept + [line];
      used := used + cost;
      i := i - 1;
    }
    AllKept(lines, budget, kept, used);
    shown := Reversed(kept);
  }

  /** The rule leaves one result: what is kept is determined by the lines and the budget. */
  lemma KeptIsUnique(lines: seq<string>, budget: int, a: seq<string>, b: seq<string>)
    requires KeepsMost(lines, budget, a) && KeepsMost(lines, budget, b)
    ensures a == b
  {
  }

  /** What is kept fits: exactly the budget for a cut line, as long as the budget is not below one. */
  lemma KeptFitsBudget(lines: seq<string>, budget: int, kept: seq<string>)
    requires KeepsMost(lines, budget, kept) && lines != []
    ensures kept != [] && |kept| <= |lines|
    ensures JoinedLength(kept) <= budget <==> budget >= 1 || (budget == 0 && Last(lines) == "")
    ensures |Last(lines)| > budget >= 1 ==> JoinedLength(kept) == budget
  {
  }
}

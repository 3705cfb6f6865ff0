/**
 Packing a reply into a fixed budget of UTF-16 code units. Texts are sequences of
 code units, so a cut may fall inside a surrogate pair, as it may in the reader.
 */
module ReplyPack {
  import opened Common

  type CodeUnit = u: nat | u < 0x1_0000

  type Text = seq<CodeUnit>

  const ELLIPSIS: Text := [0x2026]
  const NEWLINE: Text := [10]
  const REPLY_UNITS := 12000
  const ENTRY_UNITS := 8000
  const FIELD_UNITS := 256
  const MARKERS_UNITS := 2048

  // --- Clipping and file markers ------------------------------------------------------

  /** A cap includes its ellipsis. */
  function Clip(value: Text, cap: nat): (r: Text)
    requires cap >= 1
    ensures |r| == Min(|value|, cap)
    ensures |value| <= cap ==> r == value
    ensures |value| > cap ==> r[..cap - 1] == value[..cap - 1] && r[cap - 1..] == ELLIPSIS
  {
    if |value| <= cap then value else value[..cap - 1] + ELLIPSIS
  }

  function Escape(value: Text): Text {
    if value == [] then []
    else
      (match value[0]
       case 92 => [92, 92]
       case 13 => [92, 114]
       case 10 => [92, 110]
       case u => [u]) + Escape(value[1..])
  }

  /** "  [file name]", or "  [file]" without a name. */
  function Marker(name: Text): (m: Text)
    ensures 0 < |m| <= FIELD_UNITS + 10
  {
    if name == [] then [32, 32, 91, 102, 105, 108, 101, 93]
    else [32, 32, 91, 102, 105, 108, 101, 32] + Clip(Escape(name), FIELD_UNITS) + [93]
  }

  function Markers(names: seq<Text>): (m: Text) {
    if names == [] then [] else Markers(names[..|names| - 1]) + Marker(Last(names))
  }

  lemma {:induction false} MarkersGrow(names: seq<Text>, k: nat)
    requires k <= |names|
    ensures |Markers(names[..k])| + (|names| - k) <= |Markers(names)|
    decreases |names| - k
  {
    if k == |names| {
      assert names[..k] == names;
    } else {
      MarkersGrow(names, k + 1);
      assert names[..k + 1][..k] == names[..k];
    }
  }

  /** `k` whole markers, and the ellipsis for the files that remain, fit the cap. */
  predicate MarkersFit(names: seq<Text>, k: nat)
    requires k <= |names|
  {
    |Markers(names[..k])| + (if k < |names| then 1 else 0) <= MARKERS_UNITS
  }

  lemma MarkersTake(names: seq<Text>, i: nat)
    requires i < |names|
    ensures Markers(names[..i + 1]) == Markers(names[..i]) + Marker(names[i])
  {
    assert names[..i + 1][..i] == names[..i] && Last(names[..i + 1]) == names[i];
  }

  /** Once one more marker does not fit, no larger number of them does. */
  lemma MarkersStop(names: seq<Text>, i: nat, k: nat)
    requires i < k <= |names| && !MarkersFit(names, i + 1)
    ensures !MarkersFit(names, k)
  {
    MarkersGrow(names[..k], i + 1);
    assert names[..k][..i + 1] == names[..i + 1];
  }

  /** Whole markers only: as many as fit, with an ellipsis if files remain. */
  method FileMarkers(names: seq<Text>) returns (tail: Text, shown: nat)
    ensures shown <= |names| && MarkersFit(names, shown)
    ensures tail == Markers(names[..shown]) + (if shown < |names| then ELLIPSIS else [])
    ensures |tail| <= MARKERS_UNITS
    ensures forall k :: shown < k <= |names| ==> !MarkersFit(names, k)
  {
    tail := [];
    for i := 0 to |names|
      invariant tail == Markers(names[..i])
      invariant MarkersFit(names, i)
    {
      var marker := Marker(names[i]);
      var reserve := if i + 1 < |names| then 1 else 0;
      MarkersTake(names, i);
      if |tail| + |marker| + reserve > MARKERS_UNITS {
        forall k | i < k <= |names| ensures !MarkersFit(names, k) {
          MarkersStop(names, i, k);
        }
        return tail + ELLIPSIS, i;
      }
      tail := tail + marker;
    }
    assert names[..|names|] == names;
    shown := |names|;
  }

  // --- Packing ------------------------------------------------------------------------------

  /** A reply's parts: the header for a count, and the cursor for what is left out. */
  datatype Reply = Reply(header: nat -> Text, more: Option<nat> -> Text)

  function Longest(r: Reply, lines: nat): (n: nat)
    ensures |r.more(None)| <= n
    ensures forall i :: 0 <= i < lines ==> |r.more(Some(i))| <= n
    ensures n == |r.more(None)| || exists i :: 0 <= i < lines && n == |r.more(Some(i))|
  {
    if lines == 0 then |r.more(None)| else Max(Longest(r, lines - 1), |r.more(Some(lines - 1))|)
  }

  /** Units left for entries once the header and any cursor are paid for. */
  function Room(r: Reply, lines: nat): int {
    REPLY_UNITS - |r.header(lines)| - Longest(r, lines)
  }

  function EntryCap(r: Reply, lines: nat): (cap: nat)
    ensures cap >= 1
  {
    Min(ENTRY_UNITS, Max(1, Room(r, lines) - 2))
  }

  function Clipped(lines: seq<Text>, cap: nat): (r: seq<Text>)
    requires cap >= 1
    ensures |r| == |lines|
  {
    seq(|lines|, i requires 0 <= i < |lines| => Clip(lines[i], cap))
  }

  /** Units of the first `n` lines, each with the newline before it. */
  function Units(lines: seq<Text>, n: nat): nat
    requires n <= |lines|
  {
    if n == 0 then 0 else Units(lines, n - 1) + 1 + |lines[n - 1]|
  }

  lemma {:induction false} UnitsGrow(lines: seq<Text>, m: nat, n: nat)
    requires m <= n <= |lines|
    ensures Units(lines, m) + (n - m) <= Units(lines, n)
    decreases n - m
  {
    if m < n {
      UnitsGrow(lines, m, n - 1);
    }
  }

  predicate FitsBudget(spent: nat, lines: seq<Text>, n: nat, budget: int)
    requires n <= |lines|
  {
    spent + Units(lines, n) <= budget
  }

  /** The largest number of whole lines within the budget (none if even that fails). */
  ghost predicate MostThatFit(spent: nat, lines: seq<Text>, n: nat, budget: int) {
    && n <= |lines|
    && (n > 0 ==> FitsBudget(spent, lines, n, budget))
    && (forall k :: n < k <= |lines| ==> !FitsBudget(spent, lines, k, budget))
  }

  lemma MostThatFitUnique(spent: nat, lines: seq<Text>, m: nat, n: nat, budget: int)
    requires MostThatFit(spent, lines, m, budget) && MostThatFit(spent, lines, n, budget)
    ensures m == n
  {
  }

  method Fit(header: Text, lines: seq<Text>, budget: int) returns (shown: nat)
    ensures MostThatFit(|header|, lines, shown, budget)
  {
    var spent := |header|;
    shown := 0;
    for i := 0 to |lines|
      invariant shown == i && spent == |header| + Units(lines, i)
      invariant i > 0 ==> spent <= budget
    {
      if spent + 1 + |lines[i]| > budget {
        forall k | i < k <= |lines| ensures !FitsBudget(|header|, lines, k, budget) {
          UnitsGrow(lines, i + 1, k);
        }
        return;
      }
      spent := spent + 1 + |lines[i]|;
      shown := shown + 1;
    }
  }

  lemma {:induction false} JoinedUnits(head: Text, lines: seq<Text>, n: nat)
    requires n <= |lines|
    ensures |JoinWith(NEWLINE, [head] + lines[..n])| == |head| + Units(lines, n)
  {
    if n > 0 {
      JoinedUnits(head, lines, n - 1);
      assert [head] + lines[..n] == ([head] + lines[..n - 1]) + [lines[n - 1]];
      JoinSnoc(NEWLINE, [head] + lines[..n - 1], lines[n - 1]);
    }
  }

  /** What a packed reply shows: the header, some whole (clipped) lines, and the
      cursor naming the first line left out if any is. */
  ghost predicate Packs(r: Reply, lines: seq<Text>, forceMore: bool, text: Text, shown: nat) {
    var clipped := Clipped(lines, EntryCap(r, |lines|));
    && shown <= |lines|
    && text == JoinWith(NEWLINE, [r.header(shown)] + clipped[..shown]
         + (if forceMore || shown < |lines| then [r.more(if shown < |lines| then Some(shown) else None)] else []))
  }

  /** The choice of how many lines to show that the packing makes. */
  ghost predicate Chosen(r: Reply, lines: seq<Text>, forceMore: bool, shown: nat) {
    var clipped := Clipped(lines, EntryCap(r, |lines|));
    var spent := |r.header(|lines|)|;
    if !forceMore && FitsBudget(spent, clipped, |lines|, REPLY_UNITS) then shown == |lines|
    else MostThatFit(spent, clipped, shown, REPLY_UNITS - 1 - Longest(r, |lines|))
  }

  /** Every line fits, and no cursor is called for. */
  lemma ChosenAll(r: Reply, lines: seq<Text>, clipped: seq<Text>)
    requires lines != [] && clipped == Clipped(lines, EntryCap(r, |lines|))
    requires MostThatFit(|r.header(|lines|)|, clipped, |lines|, REPLY_UNITS)
    ensures Chosen(r, lines, false, |lines|)
  {
  }

  /** Not every line fits, or a cursor is called for anyway. */
  lemma ChosenMost(r: Reply, lines: seq<Text>, clipped: seq<Text>, forceMore: bool, all: int, shown: nat)
    requires clipped == Clipped(lines, EntryCap(r, |lines|))
    requires forceMore || (0 <= all < |lines| && MostThatFit(|r.header(|lines|)|, clipped, all, REPLY_UNITS))
    requires MostThatFit(|r.header(|lines|)|, clipped, shown, REPLY_UNITS - 1 - Longest(r, |lines|))
    ensures Chosen(r, lines, forceMore, shown)
  {
  }

  method ChooseShown(r: Reply, lines: seq<Text>, clipped: seq<Text>, forceMore: bool) returns (shown: nat)
    requires lines != [] && clipped == Clipped(lines, EntryCap(r, |lines|))
    ensures shown <= |lines| && Chosen(r, lines, forceMore, shown)
  {
    var header := r.header(|lines|);
    var all := -1;
    if !forceMore {
      all := Fit(header, clipped, REPLY_UNITS);
    }
    if all < |lines| {
      shown := Fit(header, clipped, REPLY_UNITS - 1 - Longest(r, |lines|));
      ChosenMost(r, lines, clipped, forceMore, all, shown);
    } else {
      shown := all;
      ChosenAll(r, lines, clipped);
    }
  }

  method Pack(r: Reply, lines: seq<Text>, forceMore: bool) returns (text: Text, shown: nat)
    requires lines != []
    ensures Packs(r, lines, forceMore, text, shown)
    ensures Chosen(r, lines, forceMore, shown)
  {
    var clipped := Clipped(lines, EntryCap(r, |lines|));
    shown := ChooseShown(r, lines, clipped, forceMore);
    var end := if forceMore || shown < |lines| then [r.more(if shown < |lines| then Some(shown) else None)] else [];
    text := JoinWith(NEWLINE, [r.header(shown)] + clipped[..shown] + end);
  }

  /** A larger count never makes a shorter header. */
  ghost predicate HeadersGrow(r: Reply, lines: nat) {
    forall m, n :: 0 <= m <= n <= lines ==> |r.header(m)| <= |r.header(n)|
  }

  /** With a unit to spare for the newline, a packed reply keeps to its budget. */
  lemma ReplyWithinBudget(r: Reply, lines: seq<Text>, forceMore: bool, text: Text, shown: nat)
    requires Packs(r, lines, forceMore, text, shown) && Chosen(r, lines, forceMore, shown)
    requires HeadersGrow(r, |lines|) && Room(r, |lines|) >= 1
    ensures |text| <= REPLY_UNITS
  {
    var clipped := Clipped(lines, EntryCap(r, |lines|));
    var head := r.header(shown);
    JoinedUnits(head, clipped, shown);
    if forceMore || shown < |lines| {
      var end := r.more(if shown < |lines| then Some(shown) else None);
      JoinSnoc(NEWLINE, [head] + clipped[..shown], end);
    } else {
      assert [head] + clipped[..shown] + [] == [head] + clipped[..shown];
    }
  }

  /** A truncated reply of non-empty lines shows an entry exactly when header and
      longest cursor leave at least three units: newline, one unit of entry, newline. */
  lemma TruncatedShowsOneExactlyWhen(r: Reply, lines: seq<Text>, forceMore: bool, shown: nat)
    requires Chosen(r, lines, forceMore, shown) && lines != []
    requires forall i :: 0 <= i < |lines| ==> lines[i] != []
    requires forceMore || shown < |lines|
    ensures shown >= 1 <==> Room(r, |lines|) >= 3
  {
    var clipped := Clipped(lines, EntryCap(r, |lines|));
    assert Units(clipped, 1) == 1 + |clipped[0]|;
    assert |clipped[0]| == Min(|lines[0]|, EntryCap(r, |lines|));
    var budget := REPLY_UNITS - 1 - Longest(r, |lines|);
    if Room(r, |lines|) >= 3 {
      assert FitsBudget(|r.header(|lines|)|, clipped, 1, budget);
    } else {
      UnitsGrow(clipped, 1, Max(1, shown));
    }
  }

  // --- Headers that count -----------------------------------------------------------------------

  function Decimal(n: nat): Text {
    (if n < 10 then [] else Decimal(n / 10)) + [48 + n % 10]
  }

  lemma {:induction false} DecimalGrows(m: nat, n: nat)
    requires m <= n
    ensures |Decimal(m)| <= |Decimal(n)|
  {
    if m >= 10 {
      DecimalGrows(m / 10, n / 10);
    }
  }

  /** Both replies' headers are fixed texts around the number of entries shown. */
  lemma CountingHeadersGrow(r: Reply, before: Text, after: Text, lines: nat)
    requires forall n :: 0 <= n <= lines ==> r.header(n) == before + Decimal(n) + after
    ensures HeadersGrow(r, lines)
  {
    forall m, n | 0 <= m <= n <= lines ensures |r.header(m)| <= |r.header(n)| {
      DecimalGrows(m, n);
    }
  }
}

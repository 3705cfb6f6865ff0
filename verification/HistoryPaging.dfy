/**
 Paged reading of a conversation's ledger: each reply shows the start of a list and
 prints a cursor for the rest, in a "from this time" form or, where times tie, in an
 "around this id" form. Following the cursors reads a range completely.
 */
module HistoryPaging {
  import opened Common
  import opened Timestamps

  /** A ledger entry. `at` is absent when the time text cannot be read; the entry is
      then ordered by the time its row was stored. Times count thousandths of a millisecond. */
  datatype Entry = Entry(id: string, ts: string, at: Option<int>, chronologicalAt: int, order: int)

  /** Arguments of a read after blank texts became absent and the limit was clamped. */
  datatype Request = Request(around: Option<string>, from_: Option<string>, to: Option<string>, limit: nat)

  /** How time arguments are read, for the earliest and for the latest time. */
  datatype Reader = Reader(earliest: string -> Option<int>, latest: string -> Option<int>)

  datatype Reply =
    | Invalid
    | NothingThere
    | Page(entries: seq<Entry>, next: Option<Entry>, continuation: bool)

  // --- One read -----------------------------------------------------------------------

  function Bound(parse: string -> Option<int>, text: Option<string>): Option<int> {
    match text case Some(t) => parse(t) case None => None
  }

  predicate BoundsReadable(r: Reader, q: Request) {
    (q.from_.Some? ==> r.earliest(q.from_.value).Some?) && (q.to.Some? ==> r.latest(q.to.value).Some?)
  }

  predicate InRangeOf(e: Entry, start: Option<int>, end: Option<int>) {
    e.at.Some? && (start.Some? ==> start.value <= e.at.value) && (end.Some? ==> e.at.value <= end.value)
  }

  predicate NotAfter(e: Entry, end: Option<int>) {
    end.Some? ==> e.chronologicalAt <= end.value
  }

  function Kept<T>(keep: T -> bool, s: seq<T>): seq<T> {
    if s == [] then [] else Kept(keep, s[..|s| - 1]) + (if keep(Last(s)) then [Last(s)] else [])
  }

  function Ranged(ledger: seq<Entry>, start: Option<int>, end: Option<int>): seq<Entry> {
    Kept((e: Entry) => InRangeOf(e, start, end), ledger)
  }

  function UpTo(ledger: seq<Entry>, end: Option<int>): seq<Entry> {
    Kept((e: Entry) => NotAfter(e, end), ledger)
  }

  /** Index of the first entry with the id, or the length of the ledger. */
  function IndexOf(ledger: seq<Entry>, id: string): (i: nat)
    ensures i <= |ledger| && (i < |ledger| ==> ledger[i].id == id)
  {
    if ledger == [] || ledger[0].id == id then 0 else 1 + IndexOf(ledger[1..], id)
  }

  function Take<T>(s: seq<T>, n: nat): seq<T> {
    if n < |s| then s[..n] else s
  }

  function Window(ledger: seq<Entry>, at: nat, cap: nat): seq<Entry>
    requires at < |ledger| && cap > 0
  {
    var offset := Max(0, Min(at - (cap - 1) / 2, |ledger| - cap));
    Take(ledger[offset..], cap)
  }

  function PageOf(found: seq<Entry>, cap: nat, continuation: bool): Reply {
    if found == [] then NothingThere
    else Page(Take(found, cap), if cap < |found| then Some(found[cap]) else None, continuation)
  }

  /** The entries a read selects, before they are cut to a page. */
  function Read(r: Reader, ledger: seq<Entry>, q: Request): Reply
    requires q.limit > 0
  {
    if !BoundsReadable(r, q) then Invalid
    else
      var start, end := Bound(r.earliest, q.from_), Bound(r.latest, q.to);
      match q.around
      case Some(id) =>
        var at := IndexOf(ledger, id);
        if at == |ledger| then Invalid
        else if start == Some(ledger[at].chronologicalAt) then
          PageOf(Take(UpTo(ledger[at..], end), q.limit + 1), q.limit, true)
        else PageOf(Window(ledger, at, q.limit), q.limit, false)
      case None =>
        if start.Some? || end.Some? then PageOf(Take(Ranged(ledger, start, end), q.limit + 1), q.limit, false)
        else PageOf(if |ledger| > q.limit then ledger[|ledger| - q.limit..] else ledger, q.limit, false)
  }

  /** The first entry a reply leaves out when `shown` of its page fit. */
  function Omitted(page: Reply, shown: nat): Option<Entry>
    requires page.Page? && shown <= |page.entries|
  {
    if shown < |page.entries| then Some(page.entries[shown]) else page.next
  }

  predicate SameTimeShown(page: Reply, shown: nat, e: Entry)
    requires page.Page? && shown <= |page.entries|
  {
    exists i :: 0 <= i < shown && page.entries[i].chronologicalAt == e.chronologicalAt
  }

  /** The cursor that names an omitted entry. The time form says no limit, so the
      next read may choose one. */
  function CursorTo(page: Reply, q: Request, shown: nat, e: Entry, nextLimit: nat): Request
    requires page.Page? && shown <= |page.entries|
  {
    if page.continuation || SameTimeShown(page, shown, e) || e.at.None? then
      var stamp := if e.at.None? then StampText(e.chronologicalAt / 1000) else e.ts;
      Request(Some(e.id), Some(stamp), q.to, q.limit)
    else Request(None, Some(e.ts), q.to, nextLimit)
  }

  function Cursor(page: Reply, q: Request, shown: nat, nextLimit: nat): Option<Request>
    requires page.Page? && shown <= |page.entries|
  {
    match Omitted(page, shown)
    case None => None
    case Some(e) => Some(CursorTo(page, q, shown, e, nextLimit))
  }

  // --- Following the cursors ----------------------------------------------------------------

  /** Per reply: how many entries fit, perhaps none, and the limit asked for next. */
  datatype Choice = Choice(shown: nat, limit: nat)

  datatype Walk = Walk(shown: seq<Entry>, rest: Option<Request>)

  function AtLeastOne(n: nat): (m: nat)
    ensures m >= 1
  {
    if n == 0 then 1 else n
  }

  /** One reply: the entries it shows and the request its cursor names. A refused request stays. */
  function Answer(r: Reader, ledger: seq<Entry>, q: Request, choice: Choice): (w: Walk)
    requires q.limit > 0
    ensures w.rest.Some? ==> w.rest.value.limit > 0
  {
    match Read(r, ledger, q)
    case Invalid => Walk([], Some(q))
    case NothingThere => Walk([], None)
    case Page(entries, next, continuation) =>
      var n := Min(choice.shown, |entries|);
      Walk(entries[..n], Cursor(Page(entries, next, continuation), q, n, AtLeastOne(choice.limit)))
  }

  function Follow(r: Reader, ledger: seq<Entry>, q: Request, script: seq<Choice>): (w: Walk)
    requires q.limit > 0
    ensures w.rest.Some? ==> w.rest.value.limit > 0
    decreases |script|
  {
    if script == [] then Walk([], Some(q))
    else
      var w := Answer(r, ledger, q, script[0]);
      if w.rest.None? then w
      else
        var more := Follow(r, ledger, w.rest.value, script[1..]);
        Walk(w.shown + more.shown, more.rest)
  }

  /** Going on where a walk stopped. */
  function GoingOn(r: Reader, ledger: seq<Entry>, w: Walk, script: seq<Choice>): Walk
    requires w.rest.Some? ==> w.rest.value.limit > 0
  {
    if w.rest.None? then w
    else
      var more := Follow(r, ledger, w.rest.value, script);
      Walk(w.shown + more.shown, more.rest)
  }

  lemma {:induction false} FollowConcat(r: Reader, ledger: seq<Entry>, q: Request, a: seq<Choice>, b: seq<Choice>)
    requires q.limit > 0
    ensures Follow(r, ledger, q, a + b) == GoingOn(r, ledger, Follow(r, ledger, q, a), b)
    decreases |a|
  {
    if a == [] {
      assert a + b == b;
      assert [] + Follow(r, ledger, q, b).shown == Follow(r, ledger, q, b).shown;
    } else {
      assert (a + b)[0] == a[0] && (a + b)[1..] == a[1..] + b;
      var w := Answer(r, ledger, q, a[0]);
      if w.rest.Some? {
        FollowConcat(r, ledger, w.rest.value, a[1..], b);
      }
    }
  }

  // --- Ledgers as they are stored ---------------------------------------------------------------

  /** The time can be read, and the cursor's time text is read as that time. */
  predicate Readable(r: Reader, e: Entry) {
    e.at == Some(e.chronologicalAt) && r.earliest(e.ts) == e.at
  }

  /** A row whose time text cannot be read has the time its row was stored, in whole milliseconds. */
  predicate Unreadable(e: Entry) {
    e.at == None && e.ts == "invalid time" && e.chronologicalAt % 1000 == 0
  }

  predicate Before(a: Entry, b: Entry) {
    a.chronologicalAt < b.chronologicalAt || (a.chronologicalAt == b.chronologicalAt && a.order < b.order)
  }

  /** Sorted by time and then row, with unique ids. */
  ghost predicate Sorted(ledger: seq<Entry>) {
    forall i, j :: 0 <= i < j < |ledger| ==> Before(ledger[i], ledger[j]) && ledger[i].id != ledger[j].id
  }

  ghost predicate Stored(r: Reader, ledger: seq<Entry>) {
    Sorted(ledger) && forall i :: 0 <= i < |ledger| ==> Readable(r, ledger[i]) || Unreadable(ledger[i])
  }

  ghost predicate Orderly(r: Reader, ledger: seq<Entry>) {
    Sorted(ledger) && forall i :: 0 <= i < |ledger| ==> Readable(r, ledger[i])
  }

  // --- What is kept of a list -----------------------------------------------------------------------

  lemma {:induction false} KeptConcat<T>(keep: T -> bool, a: seq<T>, b: seq<T>)
    ensures Kept(keep, a + b) == Kept(keep, a) + Kept(keep, b)
  {
    if b == [] {
      assert a + b == a;
    } else {
      KeptConcat(keep, a, b[..|b| - 1]);
      assert (a + b)[..|a + b| - 1] == a + b[..|b| - 1] && Last(a + b) == Last(b);
    }
  }

  lemma {:induction false} KeptMember<T>(keep: T -> bool, s: seq<T>, x: T)
    ensures x in Kept(keep, s) <==> x in s && keep(x)
  {
    if s != [] {
      KeptMember(keep, s[..|s| - 1], x);
      assert s == s[..|s| - 1] + [Last(s)];
    }
  }

  lemma {:induction false} KeptAgree<T>(keep: T -> bool, other: T -> bool, s: seq<T>)
    requires forall i :: 0 <= i < |s| ==> keep(s[i]) == other(s[i])
    ensures Kept(keep, s) == Kept(other, s)
  {
    if s != [] {
      KeptAgree(keep, other, s[..|s| - 1]);
    }
  }

  lemma {:induction false} KeptTwice<T>(keep: T -> bool, first: T -> bool, s: seq<T>)
    requires forall i :: 0 <= i < |s| && keep(s[i]) ==> first(s[i])
    ensures Kept(keep, Kept(first, s)) == Kept(keep, s)
  {
    if s != [] {
      var front, last := s[..|s| - 1], [Last(s)];
      KeptTwice(keep, first, front);
      KeptConcat(keep, Kept(first, front), if first(Last(s)) then last else []);
      assert last[..0] == [] && Kept(keep, last) == if keep(Last(s)) then last else [];
    }
  }

  /** The first of a list is the first kept if it is kept at all. */
  lemma KeptHead<T>(keep: T -> bool, s: seq<T>)
    requires s != [] && keep(s[0])
    ensures Kept(keep, s) != [] && Kept(keep, s)[0] == s[0]
  {
    assert s == [s[0]] + s[1..];
    KeptConcat(keep, [s[0]], s[1..]);
    assert [s[0]][..0] == [] && Kept(keep, [s[0]]) == [] + [s[0]];
  }

  lemma {:induction false} KeptSorted(keep: Entry -> bool, ledger: seq<Entry>)
    requires Sorted(ledger)
    ensures Sorted(Kept(keep, ledger))
  {
    if ledger != [] {
      var front, kept := ledger[..|ledger| - 1], Kept(keep, ledger[..|ledger| - 1]);
      KeptSorted(keep, front);
      forall i | 0 <= i < |kept|
        ensures Before(kept[i], Last(ledger)) && kept[i].id != Last(ledger).id
      {
        KeptMember(keep, front, kept[i]);
        var k :| 0 <= k < |front| && front[k] == kept[i];
        assert ledger[k] == front[k];
      }
    }
  }

  /** In a list without repeated ids, a tail that begins with the p-th entry is the tail from p on. */
  lemma TailFrom(whole: seq<Entry>, a: seq<Entry>, b: seq<Entry>, p: nat)
    requires Sorted(whole) && whole == a + b && b != [] && p < |whole| && whole[p] == b[0]
    ensures |a| == p && b == whole[p..]
  {
    assert whole[|a|] == b[0];
    SameEntrySamePlace(whole, p, |a|);
  }

  lemma SameEntrySamePlace(ledger: seq<Entry>, i: nat, j: nat)
    requires Sorted(ledger) && i < |ledger| && j < |ledger| && ledger[i] == ledger[j]
    ensures i == j
  {
  }

  lemma {:induction false} IndexOfMember(ledger: seq<Entry>, x: Entry)
    requires Sorted(ledger) && x in ledger
    ensures IndexOf(ledger, x.id) < |ledger| && ledger[IndexOf(ledger, x.id)] == x
  {
    if ledger[0].id != x.id {
      assert x in ledger[1..];
      assert Sorted(ledger[1..]);
      IndexOfMember(ledger[1..], x);
    } else {
      var i :| 0 <= i < |ledger| && ledger[i] == x;
    }
  }

  lemma RangedMember(ledger: seq<Entry>, start: Option<int>, end: Option<int>, x: Entry)
    ensures x in Ranged(ledger, start, end) <==> x in ledger && InRangeOf(x, start, end)
  {
    KeptMember((e: Entry) => InRangeOf(e, start, end), ledger, x);
  }

  /** What a range selects of a stored ledger can all be read. */
  lemma RangedOrderly(r: Reader, ledger: seq<Entry>, start: Option<int>, end: Option<int>)
    requires Stored(r, ledger)
    ensures Orderly(r, Ranged(ledger, start, end))
    ensures forall i :: 0 <= i < |Ranged(ledger, start, end)| ==> InRangeOf(Ranged(ledger, start, end)[i], start, end)
  {
    var range := Ranged(ledger, start, end);
    KeptSorted((e: Entry) => InRangeOf(e, start, end), ledger);
    forall i | 0 <= i < |range|
      ensures Readable(r, range[i]) && InRangeOf(range[i], start, end)
    {
      RangedMember(ledger, start, end, range[i]);
    }
  }

  /** A later range of the ledger is that range of the earlier one. */
  lemma RangedWithin(ledger: seq<Entry>, start: Option<int>, end: Option<int>, t: int)
    requires start.Some? ==> start.value <= t
    ensures Ranged(Ranged(ledger, start, end), Some(t), end) == Ranged(ledger, Some(t), end)
  {
    KeptTwice((e: Entry) => InRangeOf(e, Some(t), end), (e: Entry) => InRangeOf(e, start, end), ledger);
  }

  lemma {:induction false} KeptNone<T>(keep: T -> bool, s: seq<T>)
    requires forall i :: 0 <= i < |s| ==> !keep(s[i])
    ensures Kept(keep, s) == []
  {
    if s != [] {
      KeptNone(keep, s[..|s| - 1]);
    }
  }

  lemma {:induction false} KeptAll<T>(keep: T -> bool, s: seq<T>)
    requires forall i :: 0 <= i < |s| ==> keep(s[i])
    ensures Kept(keep, s) == s
  {
    if s != [] {
      KeptAll(keep, s[..|s| - 1]);
      assert s == s[..|s| - 1] + [Last(s)];
    }
  }

  lemma KeptTail<T>(keep: T -> bool, a: seq<T>, b: seq<T>)
    requires forall i :: 0 <= i < |a| ==> !keep(a[i])
    requires forall i :: 0 <= i < |b| ==> keep(b[i])
    ensures Kept(keep, a + b) == b
  {
    KeptConcat(keep, a, b);
    KeptNone(keep, a);
    KeptAll(keep, b);
  }

  lemma FromTheTime(r: Reader, range: seq<Entry>, p: nat, end: Option<int>, i: nat)
    requires Orderly(r, range) && p < |range| && (p > 0 ==> range[p - 1].chronologicalAt < range[p].chronologicalAt)
    requires i < |range| && NotAfter(range[i], end)
    ensures InRangeOf(range[i], Some(range[p].chronologicalAt), end) <==> i >= p
  {
    assert Readable(r, range[i]);
    if i + 1 < p {
      assert Before(range[i], range[p - 1]);
    } else if p < i {
      assert Before(range[p], range[i]);
    }
  }

  /** From the p-th entry on a list of entries in range is what it has from that entry's time on,
      when the one before is older. */
  lemma TailIsRanged(r: Reader, range: seq<Entry>, p: nat, end: Option<int>)
    requires Orderly(r, range) && p < |range| && (p > 0 ==> range[p - 1].chronologicalAt < range[p].chronologicalAt)
    requires forall i :: 0 <= i < |range| ==> NotAfter(range[i], end)
    ensures Ranged(range, Some(range[p].chronologicalAt), end) == range[p..]
  {
    var t, a, b := range[p].chronologicalAt, range[..p], range[p..];
    forall i | 0 <= i < |a|
      ensures !InRangeOf(a[i], Some(t), end)
    {
      FromTheTime(r, range, p, end, i);
    }
    forall i | 0 <= i < |b|
      ensures InRangeOf(b[i], Some(t), end)
    {
      FromTheTime(r, range, p, end, p + i);
    }
    assert range == a + b;
    KeptTail((e: Entry) => InRangeOf(e, Some(t), end), a, b);
  }

  // --- How times are read ------------------------------------------------------------------------------

  predicate IsDate(text: string) {
    |text| == 10 && text[4] == '-' && text[7] == '-'
    && AllDigits(text[..4]) && AllDigits(text[5..7]) && AllDigits(text[8..])
  }

  /** How a time argument is read: a bare date stands for the start or end of that day. */
  function TimeArgument(text: string, latest: bool, local: int -> Option<int>): Option<int> {
    ParseIso(if IsDate(text) then text + (if latest then "T23:59:59.999" else "T00:00:00") else text, local)
  }

  function TimeReader(local: int -> Option<int>): Reader {
    Reader((text: string) => TimeArgument(text, false, local), (text: string) => TimeArgument(text, true, local))
  }

  /** An entry whose frame carries a whole millisecond count within the format's range. */
  predicate Numeric(e: Entry, ms: int) {
    InRange(ms) && e.ts == Stamp(ms) && e.at == Some(ms * 1000) && e.chronologicalAt == ms * 1000
  }

  /** A bare date is the start of its day, with or without its clock written out. */
  lemma DateIsMidnight(text: string, local: int -> Option<int>)
    requires IsDate(text)
    ensures ParseIso(text + "T00:00:00", local) == ParseIso(text, local)
  {
    var long := text + "T00:00:00";
    var f := YearOnly(Number(text[..4]));
    assert long[..4] == text[..4] && long[4..] == text[4..] + "T00:00:00";
    assert text[4..][1..3] == text[5..7] && text[4..][4..] == text[8..];
    DatePartsRead(f, text[4..]);
    assert IsDigit(text[..4][0]) && text[0] == text[..4][0] == long[0];
    OnlyFourDigits(text);
    OnlyFourDigits(long);
  }

  lemma OnlyFourDigits(text: string)
    requires |text| >= 6 && StartsWithDigits(text, 4) && text[4] == '-'
    ensures ParseYear(1, text, 6) == ParseFrom(MonthPart, YearOnly(1 * Number(text[..4])), text[4..])
  {
    assert text[..5][4] == '-' && text[..6][4] == '-';
    assert ParseYear(1, text, 6) == ParseYear(1, text, 5) == ParseYear(1, text, 4);
    assert ParseYear(1, text, 3) == None;
  }

  lemma DatePartsRead(f: Fields, parts: string)
    requires |parts| == 6 && parts[0] == '-' && parts[3] == '-' && AllDigits(parts[1..3]) && AllDigits(parts[4..])
    requires f.hour == 0 && f.minute == 0 && f.second == 0 && f.zone == Local
    ensures ParseFrom(MonthPart, f, parts + "T00:00:00") == ParseFrom(MonthPart, f, parts)
  {
    var long := parts + "T00:00:00";
    var month := f.(month := Number(parts[1..3]));
    var day := month.(day := Number(parts[4..]));
    assert parts[1..][..2] == parts[1..3] && long[1..][..2] == parts[1..3];
    assert long[1..][2..] == parts[3..] + "T00:00:00" && parts[1..][2..] == parts[3..];
    assert parts[3..][1..] == parts[4..] && (parts[3..] + "T00:00:00")[1..] == parts[4..] + "T00:00:00";
    DayPartsRead(month, parts[3..], parts[4..]);
  }

  lemma DayPartsRead(f: Fields, part: string, digits: string)
    requires |digits| == 2 && AllDigits(digits) && part == "-" + digits
    requires f.hour == 0 && f.minute == 0 && f.second == 0 && f.zone == Local
    ensures ParseFrom(DayPart, f, part + "T00:00:00") == ParseFrom(DayPart, f, part)
  {
    var long := part + "T00:00:00";
    assert part[1..] == digits && digits[..2] == digits && digits[2..] == "";
    assert long[1..] == digits + "T00:00:00" && long[1..][..2] == digits && long[1..][2..] == "T00:00:00";
    ZeroClockRead(f.(day := Number(digits)));
  }

  lemma ZeroSeconds(f: Fields)
    requires f.second == 0 && f.zone == Local
    ensures ParseFrom(SecondPart, f, ":" + (Two(0) + "")) == Some(f)
  {
    FieldRead(SecondPart, f, 0, "");
  }

  lemma ZeroMinutes(f: Fields, seconds: string)
    requires f.minute == 0 && ParseFrom(SecondPart, f, seconds) == Some(f)
    ensures ParseFrom(MinutePart, f, ":" + (Two(0) + seconds)) == Some(f)
  {
    FieldRead(MinutePart, f, 0, seconds);
  }

  lemma ZeroHours(f: Fields, minutes: string)
    requires f.hour == 0 && ParseFrom(MinutePart, f, minutes) == Some(f)
    ensures ParseFrom(ClockPart, f, "T" + (Two(0) + minutes)) == Some(f)
  {
    FieldRead(ClockPart, f, 0, minutes);
  }

  lemma TwoZeros()
    ensures Two(0) == "00"
  {
    assert PowerOfTen(2) == 100 && PowerOfTen(1) == 10;
    assert Padded(0, 1) == "" + "0";
  }

  lemma ZeroClockRead(f: Fields)
    requires f.hour == 0 && f.minute == 0 && f.second == 0 && f.zone == Local
    ensures ParseFrom(ClockPart, f, "T00:00:00") == Some(f)
  {
    TwoZeros();
    var seconds := ":" + (Two(0) + "");
    var minutes := ":" + (Two(0) + seconds);
    assert "T" + (Two(0) + minutes) == "T00:00:00";
    ZeroSeconds(f);
    ZeroMinutes(f, seconds);
    ZeroHours(f, minutes);
  }

  /** An entry as a row gives it: its time text can be read and says its time, or it cannot be read. */
  predicate Made(local: int -> Option<int>, e: Entry) {
    (e.at == Some(e.chronologicalAt) && ParseIso(e.ts, local) == e.at) || Unreadable(e)
  }

  lemma MadeIsReadable(e: Entry, local: int -> Option<int>)
    requires Made(local, e)
    ensures Readable(TimeReader(local), e) || Unreadable(e)
  {
    if IsDate(e.ts) {
      DateIsMidnight(e.ts, local);
    }
  }

  lemma NumericIsReadable(e: Entry, ms: int, local: int -> Option<int>)
    requires Numeric(e, ms)
    ensures Made(local, e) && Readable(TimeReader(local), e)
  {
    ParserInvertsPrinter(ms, local);
    StampIsNoDate(ms);
  }

  lemma StampIsNoDate(ms: int)
    requires InRange(ms)
    ensures !IsDate(Stamp(ms))
  {
    DayInRange(ms);
    assert |Stamp(ms)| > 10;
  }

  /** The reader takes a printed time back, and refuses the numbers that are printed for no time. */
  ghost predicate ReadsStamps(r: Reader) {
    forall ms: int :: r.earliest(StampText(ms)) == if InRange(ms) then Some(ms * 1000) else None
  }

  lemma TimeReaderReadsStamps(local: int -> Option<int>)
    ensures ReadsStamps(TimeReader(local))
  {
    forall ms: int
      ensures TimeReader(local).earliest(StampText(ms)) == if InRange(ms) then Some(ms * 1000) else None
    {
      if InRange(ms) {
        ParserInvertsPrinter(ms, local);
        StampIsNoDate(ms);
      } else {
        NumberTextIsNoTime(ms, local);
      }
    }
  }
}

/**
 Printing a millisecond count as an ISO 8601 time, and the parser that reads such
 times back. The parser follows the reader's pattern step by step; a result is
 counted in thousandths of a millisecond, so that fractions stay whole.
 */
module Timestamps {
  import opened Common
  import opened Calendar

  const MAX_MS := 8640000000000000

  // --- Digits -------------------------------------------------------------------------

  predicate IsDigit(c: char) { '0' <= c <= '9' }

  function Digit(n: int): (c: char)
    requires 0 <= n <= 9
    ensures IsDigit(c) && c as int - 48 == n
  {
    (48 + n) as char
  }

  predicate AllDigits(s: string) {
    forall i :: 0 <= i < |s| ==> IsDigit(s[i])
  }

  /** The number a run of digits denotes. */
  function Number(digits: string): nat
    requires AllDigits(digits)
  {
    if digits == [] then 0 else 10 * Number(digits[..|digits| - 1]) + (Last(digits) as int - 48)
  }

  function PowerOfTen(width: nat): nat {
    if width == 0 then 1 else 10 * PowerOfTen(width - 1)
  }

  /** A number padded with zeros to a width. */
  function Padded(n: nat, width: nat): (s: string)
    requires n < PowerOfTen(width)
    ensures |s| == width && AllDigits(s)
  {
    if width == 0 then "" else Padded(n / 10, width - 1) + [Digit(n % 10)]
  }

  lemma {:induction false} NumberOfPadded(n: nat, width: nat)
    requires n < PowerOfTen(width)
    ensures Number(Padded(n, width)) == n
  {
    if width > 0 {
      NumberOfPadded(n / 10, width - 1);
      var s := Padded(n, width);
      assert s[..|s| - 1] == Padded(n / 10, width - 1);
    }
  }

  // --- The printer ------------------------------------------------------------------------

  function YearText(year: int): string
    requires -999999 <= year <= 999999
  {
    assert PowerOfTen(4) == 10000 && PowerOfTen(6) == 1000000;
    if 0 <= year <= 9999 then Padded(year, 4)
    else if year < 0 then "-" + Padded(-year, 6)
    else "+" + Padded(year, 6)
  }

  function Two(n: nat): (s: string)
    requires n < 100
    ensures |s| == 2 && AllDigits(s)
  {
    assert PowerOfTen(2) == 100;
    Padded(n, 2)
  }

  function Three(n: nat): (s: string)
    requires n < 1000
    ensures |s| == 3 && AllDigits(s)
  {
    assert PowerOfTen(3) == 1000;
    Padded(n, 3)
  }

  predicate InRange(ms: int) {
    -MAX_MS <= ms <= MAX_MS
  }

  lemma DayInRange(ms: int)
    requires InRange(ms)
    ensures -999999 <= DateOf(ms / 1000 / 86400).year <= 999999
  {
    YearRange(ms / 1000 / 86400);
  }

  /** The digits after a decimal point. */
  predicate IsFraction(digits: string) {
    digits != "" && AllDigits(digits)
  }

  function ClockText(secondOfDay: nat, fraction: string): string
    requires secondOfDay < 86400
  {
    Two(secondOfDay / 3600) + ":" + Two(secondOfDay / 60 % 60) + ":" + Two(secondOfDay % 60) + "." + fraction + "Z"
  }

  function TimeText(d: Date, secondOfDay: nat, fraction: string): string
    requires Valid(d) && -999999 <= d.year <= 999999 && secondOfDay < 86400
  {
    YearText(d.year) + "-" + Two(d.month) + "-" + Two(d.day) + "T" + ClockText(secondOfDay, fraction)
  }

  /** A whole millisecond count as text; whole seconds go through the calendar. */
  function Stamp(ms: int): string
    requires InRange(ms)
  {
    DayInRange(ms);
    TimeText(DateOf(ms / 1000 / 86400), ms / 1000 % 86400, Three(ms % 1000))
  }

  function Digits(n: nat): (s: string)
    ensures s != "" && AllDigits(s)
  {
    (if n < 10 then "" else Digits(n / 10)) + [Digit(n % 10)]
  }

  /** How a number out of range is printed instead. */
  function NumberText(n: int): string {
    if n < 0 then "-" + Digits(-n) else Digits(n)
  }

  function StampText(ms: int): string {
    if InRange(ms) then Stamp(ms) else NumberText(ms)
  }

  // --- The parser ---------------------------------------------------------------------------

  datatype Zone = Local | Offset(minutes: int)

  datatype Fields = Fields(
    year: int, month: nat, day: nat, hour: nat, minute: nat, second: nat, micros: nat, zone: Zone)

  predicate StartsWithDigits(s: string, n: nat) {
    n <= |s| && AllDigits(s[..n])
  }

  predicate StartsWithOneOf(s: string, cs: string) {
    s != "" && s[0] in cs
  }

  function SkipOne(s: string, c: char): string {
    if s != "" && s[0] == c then s[1..] else s
  }

  function DigitRun(s: string): (n: nat)
    ensures n <= |s| && AllDigits(s[..n])
  {
    if s == "" || !IsDigit(s[0]) then 0
    else
      var n := DigitRun(s[1..]);
      assert s[..n + 1] == [s[0]] + s[1..][..n];
      n + 1
  }

  /** `int(digits.ljust(6, "0")[:6])`. */
  function Micros(digits: string): nat
    requires AllDigits(digits)
  {
    if |digits| >= 6 then Number(digits[..6]) else Number(digits + Zeros(6 - |digits|))
  }

  function Zeros(n: nat): (s: string)
    ensures |s| == n && AllDigits(s)
  {
    if n == 0 then "" else Zeros(n - 1) + "0"
  }

  /** The parts of the pattern after the year, in order. */
  datatype Part = MonthPart | DayPart | ClockPart | MinutePart | SecondPart | FractionPart | ZonePart

  function PartsLeft(p: Part): nat {
    match p
    case MonthPart => 6
    case DayPart => 5
    case ClockPart => 4
    case MinutePart => 3
    case SecondPart => 2
    case FractionPart => 1
    case ZonePart => 0
  }

  /** The zone at the end: nothing, Z, or a signed hour with optional minutes. */
  function ZoneOf(text: string): Option<Zone> {
    var s := SkipOne(text, ' ');
    if s == "" then Some(Local)
    else if s == "z" || s == "Z" then Some(Offset(0))
    else if (s[0] == '+' || s[0] == '-') && StartsWithDigits(s[1..], 2) then
      var sign := if s[0] == '-' then -1 else 1;
      var hours := Number(s[1..][..2]);
      var rest := SkipOne(s[3..], ':');
      if s[3..] == "" then Some(Offset(sign * (hours * 60)))
      else if StartsWithDigits(rest, 2) && |rest| == 2 then Some(Offset(sign * (hours * 60 + Number(rest[..2]))))
      else None
    else None
  }

  /** Reads the pattern from one part on. A missing minute, second or fraction
      leaves the zone next; a clock may be missing altogether. */
  function ParseFrom(part: Part, f: Fields, s: string): Option<Fields>
    decreases PartsLeft(part)
  {
    match part
    case MonthPart =>
      var t := SkipOne(s, '-');
      if StartsWithDigits(t, 2) then ParseFrom(DayPart, f.(month := Number(t[..2])), t[2..]) else None
    case DayPart =>
      var t := SkipOne(s, '-');
      if StartsWithDigits(t, 2) then ParseFrom(ClockPart, f.(day := Number(t[..2])), t[2..]) else None
    case ClockPart =>
      if s == "" then Some(f)
      else if StartsWithOneOf(s, " T") && StartsWithDigits(s[1..], 2) then
        ParseFrom(MinutePart, f.(hour := Number(s[1..][..2])), s[3..])
      else None
    case MinutePart =>
      var t := SkipOne(s, ':');
      if StartsWithDigits(t, 2) then ParseFrom(SecondPart, f.(minute := Number(t[..2])), t[2..])
      else ParseFrom(ZonePart, f, s)
    case SecondPart =>
      var t := SkipOne(s, ':');
      if StartsWithDigits(t, 2) then ParseFrom(FractionPart, f.(second := Number(t[..2])), t[2..])
      else ParseFrom(ZonePart, f, s)
    case FractionPart =>
      if StartsWithOneOf(s, ".,") && DigitRun(s[1..]) > 0 then
        var n := DigitRun(s[1..]);
        ParseFrom(ZonePart, f.(micros := Micros(s[1..][..n])), s[1 + n..])
      else ParseFrom(ZonePart, f, s)
    case ZonePart =>
      match ZoneOf(s) case Some(zone) => Some(f.(zone := zone)) case None => None
  }

  function YearOnly(year: int): Fields {
    Fields(year, 0, 0, 0, 0, 0, 0, Local)
  }

  /** The year takes as many of six, five or four digits as let the rest match. */
  function ParseYear(sign: int, s: string, width: nat): Option<Fields>
    requires width <= 6
    decreases width
  {
    if width < 4 then None
    else
      var parsed :=
        if !StartsWithDigits(s, width) then None
        else ParseFrom(MonthPart, YearOnly(sign * Number(s[..width])), s[width..]);
      if parsed.Some? then parsed else ParseYear(sign, s, width - 1)
  }

  function ParseFields(text: string): Option<Fields> {
    if StartsWithOneOf(text, "+-") then ParseYear(if text[0] == '-' then -1 else 1, text[1..], 6)
    else ParseYear(1, text, 6)
  }

  /** Seconds since the epoch of the fields read as UTC; overflowing months carry. */
  function SecondsOf(f: Fields): int {
    var month := f.month - 1;
    var days := DayNumber(f.year + month / 12, month % 12 + 1, f.day);
    (days * 24 + f.hour) * 3600 + f.minute * 60 + f.second
  }

  function Evaluate(f: Fields, local: int -> Option<int>): Option<int> {
    var result := match f.zone
      case Offset(minutes) => Some((SecondsOf(f) - minutes * 60) * 1000)
      case Local => local(SecondsOf(f));
    if result.Some? && InRange(result.value) then Some(result.value * 1000 + f.micros) else None
  }

  /** The time a text denotes, in thousandths of a millisecond. What the host says
      about local times, in milliseconds, is a parameter. */
  function ParseIso(text: string, local: int -> Option<int>): Option<int> {
    match ParseFields(text)
    case None => None
    case Some(f) => Evaluate(f, local)
  }

  // --- The parser inverts the printer ----------------------------------------------------------

  lemma TwoRead(n: nat, rest: string)
    requires n < 100
    ensures StartsWithDigits(Two(n) + rest, 2)
    ensures (Two(n) + rest)[..2] == Two(n) && (Two(n) + rest)[2..] == rest && Number(Two(n)) == n
  {
    assert PowerOfTen(2) == 100;
    NumberOfPadded(n, 2);
    assert (Two(n) + rest)[..2] == Two(n);
  }

  lemma {:induction false} DigitRunOf(digits: string, rest: string)
    requires AllDigits(digits) && (rest == "" || !IsDigit(rest[0]))
    ensures DigitRun(digits + rest) == |digits|
  {
    if digits == "" {
      assert digits + rest == rest;
    } else {
      assert (digits + rest)[1..] == digits[1..] + rest;
      DigitRunOf(digits[1..], rest);
    }
  }

  lemma MicrosOfThree(milli: nat)
    requires milli < 1000
    ensures Micros(Three(milli)) == milli * 1000
  {
    var t := Three(milli);
    assert PowerOfTen(3) == 1000;
    NumberOfPadded(milli, 3);
    var t1, t2, t3 := t + "0", t + "00", t + "000";
    assert Zeros(3) == "000" by { assert Zeros(1) == "0"; assert Zeros(2) == "00"; }
    assert t1[..3] == t && t2[..4] == t1 && t3[..5] == t2;
    assert Number(t1) == 10 * milli;
    assert Number(t2) == 100 * milli;
    assert Number(t3) == 1000 * milli;
  }

  lemma FractionRead(f: Fields, fraction: string)
    requires IsFraction(fraction)
    ensures ParseFrom(FractionPart, f, "." + fraction + "Z") == Some(f.(micros := Micros(fraction), zone := Offset(0)))
  {
    var s := "." + fraction + "Z";
    assert s[1..] == fraction + "Z";
    DigitRunOf(fraction, "Z");
    assert s[1..][..|fraction|] == fraction && s[1 + |fraction|..] == "Z";
    assert ZoneOf("Z") == Some(Offset(0));
    var read := f.(micros := Micros(fraction));
    assert ParseFrom(ZonePart, read, "Z") == Some(read.(zone := Offset(0)));
  }

  /** A separator and two digits at the front of the text are one field. */
  lemma FieldRead(part: Part, f: Fields, n: nat, rest: string)
    requires n < 100
    ensures part == MonthPart ==> ParseFrom(part, f, "-" + (Two(n) + rest)) == ParseFrom(DayPart, f.(month := n), rest)
    ensures part == DayPart ==> ParseFrom(part, f, "-" + (Two(n) + rest)) == ParseFrom(ClockPart, f.(day := n), rest)
    ensures part == ClockPart ==>
      ParseFrom(part, f, "T" + (Two(n) + rest)) == ParseFrom(MinutePart, f.(hour := n), rest)
    ensures part == MinutePart ==>
      ParseFrom(part, f, ":" + (Two(n) + rest)) == ParseFrom(SecondPart, f.(minute := n), rest)
    ensures part == SecondPart ==>
      ParseFrom(part, f, ":" + (Two(n) + rest)) == ParseFrom(FractionPart, f.(second := n), rest)
  {
    var t := Two(n) + rest;
    TwoRead(n, rest);
    assert ("-" + t)[1..] == t && ("T" + t)[1..] == t && (":" + t)[1..] == t;
    assert ("T" + t)[3..] == t[2..];
  }

  lemma ClockRead(f: Fields, secondOfDay: nat, fraction: string)
    requires secondOfDay < 86400 && IsFraction(fraction)
    ensures ParseFrom(ClockPart, f, "T" + ClockText(secondOfDay, fraction))
         == Some(f.(hour := secondOfDay / 3600, minute := secondOfDay / 60 % 60, second := secondOfDay % 60,
                    micros := Micros(fraction), zone := Offset(0)))
  {
    var h, m, s := secondOfDay / 3600, secondOfDay / 60 % 60, secondOfDay % 60;
    var tail3 := "." + fraction + "Z";
    var tail2 := ":" + (Two(s) + tail3);
    var tail1 := ":" + (Two(m) + tail2);
    assert "T" + ClockText(secondOfDay, fraction) == "T" + (Two(h) + tail1);
    var f1 := f.(hour := h);
    var f2 := f1.(minute := m);
    FieldRead(ClockPart, f, h, tail1);
    FieldRead(MinutePart, f1, m, tail2);
    FieldRead(SecondPart, f2, s, tail3);
    FractionRead(f2.(second := s), fraction);
  }

  lemma YearRead(sign: int, digits: string, rest: string)
    requires AllDigits(digits) && (|digits| == 4 || |digits| == 6)
    requires rest != "" && rest[0] == '-'
    requires ParseFrom(MonthPart, YearOnly(sign * Number(digits)), rest).Some?
    ensures ParseYear(sign, digits + rest, 6) == ParseFrom(MonthPart, YearOnly(sign * Number(digits)), rest)
  {
    var s := digits + rest;
    assert s[..|digits|] == digits && s[|digits|..] == rest;
    if |digits| == 4 {
      assert s[4] == '-' && s[..5][4] == '-' && (|s| >= 6 ==> s[..6][4] == '-');
      assert !StartsWithDigits(s, 6) && !StartsWithDigits(s, 5);
      assert ParseYear(sign, s, 6) == ParseYear(sign, s, 5) == ParseYear(sign, s, 4);
    }
  }

  lemma SignedRead(sign: char, digits: string, year: int, rest: string)
    requires AllDigits(digits) && |digits| == 6
    requires (sign == '-' && year + Number(digits) == 0) || (sign == '+' && year == Number(digits))
    requires rest != "" && rest[0] == '-' && ParseFrom(MonthPart, YearOnly(year), rest).Some?
    ensures ParseFields([sign] + (digits + rest)) == ParseFrom(MonthPart, YearOnly(year), rest)
  {
    YearRead(if sign == '-' then -1 else 1, digits, rest);
    assert ([sign] + (digits + rest))[1..] == digits + rest;
  }

  lemma PlainRead(digits: string, rest: string)
    requires AllDigits(digits) && |digits| == 4
    requires rest != "" && rest[0] == '-' && ParseFrom(MonthPart, YearOnly(Number(digits)), rest).Some?
    ensures ParseFields(digits + rest) == ParseFrom(MonthPart, YearOnly(Number(digits)), rest)
  {
    YearRead(1, digits, rest);
    assert IsDigit((digits + rest)[0]);
  }

  lemma YearTextRead(year: int, rest: string)
    requires -999999 <= year <= 999999
    requires rest != "" && rest[0] == '-' && ParseFrom(MonthPart, YearOnly(year), rest).Some?
    ensures ParseFields(YearText(year) + rest) == ParseFrom(MonthPart, YearOnly(year), rest)
  {
    assert PowerOfTen(4) == 10000 && PowerOfTen(6) == 1000000;
    if 0 <= year <= 9999 {
      NumberOfPadded(year, 4);
      PlainRead(Padded(year, 4), rest);
    } else {
      var sign, size := if year < 0 then '-' else '+', if year < 0 then -year else year;
      NumberOfPadded(size, 6);
      SignedRead(sign, Padded(size, 6), year, rest);
      assert YearText(year) + rest == [sign] + (Padded(size, 6) + rest);
    }
  }

  lemma FieldsOfText(d: Date, sod: nat, fraction: string)
    requires Valid(d) && -999999 <= d.year <= 999999 && sod < 86400 && IsFraction(fraction)
    ensures ParseFields(TimeText(d, sod, fraction))
         == Some(Fields(d.year, d.month, d.day, sod / 3600, sod / 60 % 60, sod % 60, Micros(fraction), Offset(0)))
  {
    var clock := "T" + ClockText(sod, fraction);
    var afterMonth := "-" + (Two(d.day) + clock);
    var rest := "-" + (Two(d.month) + afterMonth);
    assert TimeText(d, sod, fraction) == YearText(d.year) + rest;
    var f := YearOnly(d.year);
    FieldRead(MonthPart, f, d.month, afterMonth);
    FieldRead(DayPart, f.(month := d.month), d.day, clock);
    ClockRead(f.(month := d.month, day := d.day), sod, fraction);
    YearTextRead(d.year, rest);
  }

  lemma SplitDay(seconds: int)
    ensures seconds == seconds / 86400 * 86400 + seconds % 86400
    ensures var sod := seconds % 86400; sod == sod / 3600 * 3600 + sod / 60 % 60 * 60 + sod % 60
  {
  }

  lemma SecondsOfDate(d: Date, sod: nat, micros: nat)
    requires Valid(d) && sod < 86400
    ensures SecondsOf(Fields(d.year, d.month, d.day, sod / 3600, sod / 60 % 60, sod % 60, micros, Offset(0)))
         == DayNumber(d.year, d.month, d.day) * 86400 + sod
  {
    assert (d.month - 1) / 12 == 0 && (d.month - 1) % 12 == d.month - 1;
    SplitDay(sod);
  }

  lemma EvaluateUtc(f: Fields, seconds: int, total: int, local: int -> Option<int>)
    requires f.zone == Offset(0) && SecondsOf(f) == seconds && InRange(seconds * 1000)
    requires total == seconds * 1000 * 1000 + f.micros
    ensures Evaluate(f, local) == Some(total)
  {
  }

  lemma SplitSecond(ms: int)
    ensures ms == ms / 1000 * 1000 + ms % 1000
    ensures InRange(ms) ==> InRange(ms / 1000 * 1000)
  {
  }

  lemma TextParses(d: Date, sod: nat, fraction: string, seconds: int, total: int, local: int -> Option<int>)
    requires Valid(d) && -999999 <= d.year <= 999999 && sod < 86400 && IsFraction(fraction)
    requires seconds == DayNumber(d.year, d.month, d.day) * 86400 + sod && InRange(seconds * 1000)
    requires total == seconds * 1000 * 1000 + Micros(fraction)
    ensures ParseIso(TimeText(d, sod, fraction), local) == Some(total)
  {
    FieldsOfText(d, sod, fraction);
    SecondsOfDate(d, sod, Micros(fraction));
    var f := Fields(d.year, d.month, d.day, sod / 3600, sod / 60 % 60, sod % 60, Micros(fraction), Offset(0));
    EvaluateUtc(f, seconds, total, local);
  }

  lemma StampParts(ms: int) returns (d: Date, sod: nat, milli: nat, seconds: int)
    requires InRange(ms)
    ensures Valid(d) && -999999 <= d.year <= 999999 && sod < 86400 && milli < 1000
    ensures Stamp(ms) == TimeText(d, sod, Three(milli))
    ensures d == DateOf(ms / 1000 / 86400) && sod == ms / 1000 % 86400 && seconds == ms / 1000
    ensures seconds == DayNumber(d.year, d.month, d.day) * 86400 + sod && InRange(seconds * 1000)
    ensures ms * 1000 == seconds * 1000 * 1000 + milli * 1000
  {
    seconds, milli := ms / 1000, ms % 1000;
    d, sod := DateOf(seconds / 86400), seconds % 86400;
    DayInRange(ms);
    FormulaCountsDays(seconds / 86400);
    SplitDay(seconds);
    SplitSecond(ms);
  }

  /** Round trip: every whole millisecond count of either sign, up to the largest
      the format allows, is read back exactly, whatever the local time zone. */
  lemma ParserInvertsPrinter(ms: int, local: int -> Option<int>)
    requires InRange(ms)
    ensures ParseIso(Stamp(ms), local) == Some(ms * 1000)
  {
    var d, sod, milli, seconds := StampParts(ms);
    MicrosOfThree(milli);
    TextParses(d, sod, Three(milli), seconds, ms * 1000, local);
  }

  /** A whole second with any fraction written behind it. */
  function StampWith(ms: int, fraction: string): (text: string)
    requires InRange(ms)
    ensures |text| > 10 + |fraction|
  {
    DayInRange(ms);
    TimeText(DateOf(ms / 1000 / 86400), ms / 1000 % 86400, fraction)
  }

  /** Any number of fraction digits is accepted. */
  lemma FractionsAreUnbounded(ms: int, fraction: string, total: int, local: int -> Option<int>)
    requires InRange(ms) && IsFraction(fraction) && total == ms / 1000 * 1000 * 1000 + Micros(fraction)
    ensures ParseIso(StampWith(ms, fraction), local) == Some(total)
  {
    var d, sod, milli, seconds := StampParts(ms);
    TextParses(d, sod, fraction, seconds, total, local);
  }

  // --- Numbers out of range are no times ---------------------------------------------------------

  lemma {:induction false} ManyDigits(n: nat, k: nat)
    requires n >= PowerOfTen(k)
    ensures |Digits(n)| > k
  {
    if k > 0 {
      ManyDigits(n / 10, k - 1);
    }
  }

  lemma DigitsLeftOver(f: Fields, s: string)
    requires AllDigits(s) && |s| > 4
    ensures ParseFrom(MonthPart, f, s) == None
  {
    var t := s[2..];
    assert AllDigits(t) && !StartsWithOneOf(t[2..], " T") by {
      assert IsDigit(t[2..][0]);
    }
    assert SkipOne(s, '-') == s && SkipOne(t, '-') == t;
  }

  lemma {:induction false} DigitsAreNoTime(sign: int, s: string, width: nat)
    requires AllDigits(s) && |s| > 10 && width <= 6
    ensures ParseYear(sign, s, width) == None
  {
    if width >= 4 {
      DigitsLeftOver(YearOnly(sign * Number(s[..width])), s[width..]);
      DigitsAreNoTime(sign, s, width - 1);
    }
  }

  /** A number too large for a time is printed as one that is not read as a time. */
  lemma NumberTextIsNoTime(ms: int, local: int -> Option<int>)
    requires !InRange(ms)
    ensures ParseIso(NumberText(ms), local) == None && |NumberText(ms)| > 10 && NumberText(ms)[4] != '-'
  {
    var size := if ms < 0 then -ms else ms;
    assert PowerOfTen(10) == 10000000000;
    ManyDigits(size, 10);
    var s := Digits(size);
    DigitsAreNoTime(if ms < 0 then -1 else 1, s, 6);
    if ms < 0 {
      assert ("-" + s)[1..] == s && ("-" + s)[4] == s[3];
    } else {
      assert IsDigit(s[0]) && IsDigit(s[4]);
    }
  }

  /** Different times print differently. */
  lemma StampInjective(a: int, b: int)
    requires InRange(a) && InRange(b) && Stamp(a) == Stamp(b)
    ensures a == b
  {
    ParserInvertsPrinter(a, seconds => None);
    ParserInvertsPrinter(b, seconds => None);
  }
}

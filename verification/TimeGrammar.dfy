/**
 All the ways a time may be written: each is read as the fields it spells, and a numeric zone as the
 UTC time it stands for.
 */
module TimeGrammar {
  import opened Common
  import opened Calendar
  import opened Timestamps

  // --- Written times --------------------------------------------------------------------------------

  datatype ZoneForm =
    | NoZone
    | Utc(lower: bool)
    | Hours(negative: bool, hours: nat)
    | HoursMinutes(negative: bool, hours: nat, colon: bool, minutes: nat)

  /** What follows the hour: nothing, minutes, seconds, or seconds with a fraction. */
  datatype Precision =
    | ToHour
    | ToMinute(colon: bool, minute: nat)
    | ToSecond(colon: bool, minute: nat, colon2: bool, second: nat)
    | ToFraction(colon: bool, minute: nat, colon2: bool, second: nat, comma: bool, digits: string)

  datatype Clock = NoClock | Clock(space: bool, hour: nat, precision: Precision, gap: bool, zone: ZoneForm)

  datatype YearSign = Bare | Plus | Minus

  datatype Written = Written(
    sign: YearSign, year: string, dash: bool, month: nat, dash2: bool, day: nat, clock: Clock)

  predicate IsZone(z: ZoneForm) {
    match z
    case Hours(_, hours) => hours < 100
    case HoursMinutes(_, hours, _, minutes) => hours < 100 && minutes < 100
    case _ => true
  }

  predicate IsPrecision(p: Precision) {
    match p
    case ToHour => true
    case ToMinute(_, minute) => minute < 100
    case ToSecond(_, minute, _, second) => minute < 100 && second < 100
    case ToFraction(_, minute, _, second, _, digits) => minute < 100 && second < 100 && IsFraction(digits)
  }

  predicate IsClock(c: Clock) {
    c.Clock? ==> c.hour < 100 && IsPrecision(c.precision) && IsZone(c.zone)
  }

  predicate IsWritten(w: Written) {
    4 <= |w.year| <= 6 && AllDigits(w.year) && w.month < 100 && w.day < 100 && IsClock(w.clock)
  }

  function Mark(present: bool, c: char): string {
    if present then [c] else ""
  }

  function ZoneText(z: ZoneForm): string
    requires IsZone(z)
  {
    match z
    case NoZone => ""
    case Utc(lower) => if lower then "z" else "Z"
    case Hours(negative, hours) => [if negative then '-' else '+'] + Two(hours)
    case HoursMinutes(negative, hours, colon, minutes) =>
      [if negative then '-' else '+'] + (Two(hours) + (Mark(colon, ':') + Two(minutes)))
  }

  function PreciseText(p: Precision, rest: string): string
    requires IsPrecision(p)
  {
    match p
    case ToHour => rest
    case ToMinute(colon, minute) => Mark(colon, ':') + (Two(minute) + rest)
    case ToSecond(colon, minute, colon2, second) =>
      Mark(colon, ':') + (Two(minute) + (Mark(colon2, ':') + (Two(second) + rest)))
    case ToFraction(colon, minute, colon2, second, comma, digits) =>
      Mark(colon, ':') + (Two(minute) + (Mark(colon2, ':') + (Two(second) +
        ([if comma then ',' else '.'] + (digits + rest)))))
  }

  function ClockOf(c: Clock): string
    requires IsClock(c)
  {
    if c.NoClock? then ""
    else [if c.space then ' ' else 'T'] + (Two(c.hour) + PreciseText(c.precision, Mark(c.gap, ' ') + ZoneText(c.zone)))
  }

  function DateRest(w: Written): string
    requires IsWritten(w)
  {
    Mark(w.dash, '-') + (Two(w.month) + (Mark(w.dash2, '-') + (Two(w.day) + ClockOf(w.clock))))
  }

  function Text(w: Written): string
    requires IsWritten(w)
  {
    (match w.sign case Bare => "" case Plus => "+" case Minus => "-") + (w.year + DateRest(w))
  }

  // --- What they say -----------------------------------------------------------------------------------

  function ZoneSaid(z: ZoneForm): Zone {
    match z
    case NoZone => Local
    case Utc(_) => Offset(0)
    case Hours(negative, hours) => Offset(if negative then -(60 * hours) else 60 * hours)
    case HoursMinutes(negative, hours, _, minutes) =>
      Offset(if negative then -(60 * hours + minutes) else 60 * hours + minutes)
  }

  function PreciselySaid(p: Precision, f: Fields): Fields
    requires IsPrecision(p)
  {
    match p
    case ToHour => f
    case ToMinute(_, minute) => f.(minute := minute)
    case ToSecond(_, minute, _, second) => f.(minute := minute, second := second)
    case ToFraction(_, minute, _, second, _, digits) =>
      f.(minute := minute, second := second, micros := Micros(digits))
  }

  function ClockSaid(c: Clock, f: Fields): Fields
    requires IsClock(c)
  {
    if c.NoClock? then f else PreciselySaid(c.precision, f.(hour := c.hour)).(zone := ZoneSaid(c.zone))
  }

  function YearSaid(w: Written): int
    requires IsWritten(w)
  {
    if w.sign == Minus then 0 - Number(w.year) else Number(w.year)
  }

  function Said(w: Written): Fields
    requires IsWritten(w)
  {
    ClockSaid(w.clock, YearOnly(YearSaid(w)).(month := w.month, day := w.day))
  }

  // --- Reading them, from the end -----------------------------------------------------------------------

  lemma TwoStarts(n: nat, rest: string)
    requires n < 100
    ensures |Two(n) + rest| >= 2 && IsDigit((Two(n) + rest)[0]) && IsDigit((Two(n) + rest)[1])
    ensures StartsWithDigits(Two(n) + rest, 2) && (Two(n) + rest)[..2] == Two(n) && (Two(n) + rest)[2..] == rest
    ensures Number(Two(n)) == n
  {
    TwoRead(n, rest);
    assert AllDigits(Two(n));
  }

  lemma SkipMark(present: bool, c: char, n: nat, rest: string)
    requires n < 100 && !IsDigit(c)
    ensures SkipOne(Mark(present, c) + (Two(n) + rest), c) == Two(n) + rest
  {
    TwoStarts(n, rest);
    if present {
      assert ([c] + (Two(n) + rest))[1..] == Two(n) + rest;
    } else {
      assert "" + (Two(n) + rest) == Two(n) + rest;
    }
  }

  lemma HoursAreRead(negative: bool, hours: nat)
    requires hours < 100
    ensures ZoneOf(ZoneText(Hours(negative, hours))) == Some(ZoneSaid(Hours(negative, hours)))
  {
    var text := ZoneText(Hours(negative, hours));
    assert text[1..] == Two(hours) + "" && text[3..] == "";
    TwoStarts(hours, "");
  }

  lemma SignedZone(negative: bool, hours: nat, minutes: nat, rest: string)
    requires hours < 100 && minutes < 100 && rest != "" && SkipOne(rest, ':') == Two(minutes)
    ensures ZoneOf([if negative then '-' else '+'] + (Two(hours) + rest))
         == Some(Offset(if negative then -(60 * hours + minutes) else 60 * hours + minutes))
  {
    var text := [if negative then '-' else '+'] + (Two(hours) + rest);
    assert text[1..] == Two(hours) + rest && text[3..] == rest;
    TwoStarts(hours, rest);
    TwoStarts(minutes, "");
    assert Two(minutes) + "" == Two(minutes) && Two(minutes)[..2] == Two(minutes);
  }

  lemma MinutesAtEnd(colon: bool, minutes: nat)
    requires minutes < 100
    ensures SkipOne(Mark(colon, ':') + Two(minutes), ':') == Two(minutes) && Mark(colon, ':') + Two(minutes) != ""
  {
    SkipMark(colon, ':', minutes, "");
    TwoStarts(minutes, "");
    assert Two(minutes) + "" == Two(minutes);
  }

  lemma HoursMinutesAreRead(negative: bool, hours: nat, colon: bool, minutes: nat)
    requires hours < 100 && minutes < 100
    ensures ZoneOf(ZoneText(HoursMinutes(negative, hours, colon, minutes)))
         == Some(ZoneSaid(HoursMinutes(negative, hours, colon, minutes)))
  {
    hide ZoneOf, Two, Mark, SkipOne;
    MinutesAtEnd(colon, minutes);
    SignedZone(negative, hours, minutes, Mark(colon, ':') + Two(minutes));
  }

  lemma GapIsSkipped(text: string)
    requires text == "" || text[0] != ' '
    ensures ZoneOf(" " + text) == ZoneOf(text) && ZoneOf("" + text) == ZoneOf(text)
  {
    assert (" " + text)[1..] == text && "" + text == text;
  }

  lemma ZoneIsRead(gap: bool, z: ZoneForm)
    requires IsZone(z)
    ensures ZoneOf(Mark(gap, ' ') + ZoneText(z)) == Some(ZoneSaid(z))
  {
    hide ZoneOf;
    GapIsSkipped(ZoneText(z));
    match z
    case NoZone => SimpleZones();
    case Utc(lower) => SimpleZones();
    case Hours(negative, hours) => HoursAreRead(negative, hours);
    case HoursMinutes(negative, hours, colon, minutes) => HoursMinutesAreRead(negative, hours, colon, minutes);
  }

  lemma SimpleZones()
    ensures ZoneOf("") == Some(Local) && ZoneOf("z") == Some(Offset(0)) && ZoneOf("Z") == Some(Offset(0))
  {
  }

  /** A zone does not begin like a minute, a second or a fraction. */
  predicate ZoneLike(s: string) {
    s == "" || s[0] in " zZ+-"
  }

  lemma ZoneBegins(gap: bool, z: ZoneForm)
    requires IsZone(z)
    ensures ZoneLike(Mark(gap, ' ') + ZoneText(z))
  {
  }

  lemma FractionIsRead(f: Fields, comma: bool, digits: string, rest: string)
    requires IsFraction(digits) && ZoneLike(rest)
    ensures ParseFrom(FractionPart, f, [if comma then ',' else '.'] + (digits + rest))
         == ParseFrom(ZonePart, f.(micros := Micros(digits)), rest)
  {
    var s := [if comma then ',' else '.'] + (digits + rest);
    assert s[1..] == digits + rest;
    DigitRunOf(digits, rest);
    assert s[1..][..|digits|] == digits && s[1 + |digits|..] == rest;
  }

  lemma MarkedIsRead(part: Part, f: Fields, present: bool, n: nat, rest: string)
    requires n < 100
    ensures part == MonthPart ==>
      ParseFrom(part, f, Mark(present, '-') + (Two(n) + rest)) == ParseFrom(DayPart, f.(month := n), rest)
    ensures part == DayPart ==>
      ParseFrom(part, f, Mark(present, '-') + (Two(n) + rest)) == ParseFrom(ClockPart, f.(day := n), rest)
    ensures part == MinutePart ==>
      ParseFrom(part, f, Mark(present, ':') + (Two(n) + rest)) == ParseFrom(SecondPart, f.(minute := n), rest)
    ensures part == SecondPart ==>
      ParseFrom(part, f, Mark(present, ':') + (Two(n) + rest)) == ParseFrom(FractionPart, f.(second := n), rest)
  {
    SkipMark(present, '-', n, rest);
    SkipMark(present, ':', n, rest);
    TwoStarts(n, rest);
  }

  lemma StraightToZone(part: Part, f: Fields, rest: string)
    requires part == MinutePart || part == SecondPart || part == FractionPart
    requires ZoneLike(rest)
    ensures ParseFrom(part, f, rest) == ParseFrom(ZonePart, f, rest)
  {
    assert rest != "" ==> SkipOne(rest, ':') == rest && !IsDigit(rest[0]);
    assert rest != "" ==> (forall n: nat :: 0 < n <= |rest| ==> rest[..n][0] == rest[0]);
  }

  lemma PrecisionIsRead(f: Fields, p: Precision, rest: string)
    requires IsPrecision(p) && ZoneLike(rest)
    ensures ParseFrom(MinutePart, f, PreciseText(p, rest)) == ParseFrom(ZonePart, PreciselySaid(p, f), rest)
  {
    match p
    case ToHour => StraightToZone(MinutePart, f, rest);
    case ToMinute(colon, minute) =>
      MarkedIsRead(MinutePart, f, colon, minute, rest);
      StraightToZone(SecondPart, f.(minute := minute), rest);
    case ToSecond(colon, minute, colon2, second) =>
      MarkedIsRead(MinutePart, f, colon, minute, Mark(colon2, ':') + (Two(second) + rest));
      MarkedIsRead(SecondPart, f.(minute := minute), colon2, second, rest);
      StraightToZone(FractionPart, f.(minute := minute, second := second), rest);
    case ToFraction(colon, minute, colon2, second, comma, digits) =>
      var fraction := [if comma then ',' else '.'] + (digits + rest);
      MarkedIsRead(MinutePart, f, colon, minute, Mark(colon2, ':') + (Two(second) + fraction));
      MarkedIsRead(SecondPart, f.(minute := minute), colon2, second, fraction);
      FractionIsRead(f.(minute := minute, second := second), comma, digits, rest);
  }

  lemma HourIsRead(f: Fields, space: bool, hour: nat, rest: string)
    requires hour < 100
    ensures ParseFrom(ClockPart, f, [if space then ' ' else 'T'] + (Two(hour) + rest))
         == ParseFrom(MinutePart, f.(hour := hour), rest)
  {
    var s := [if space then ' ' else 'T'] + (Two(hour) + rest);
    TwoStarts(hour, rest);
    assert s[1..] == Two(hour) + rest && s[3..] == rest;
  }

  lemma EndIsRead(f: Fields, gap: bool, z: ZoneForm)
    requires IsZone(z)
    ensures ParseFrom(ZonePart, f, Mark(gap, ' ') + ZoneText(z)) == Some(f.(zone := ZoneSaid(z)))
  {
    hide ZoneOf;
    ZoneIsRead(gap, z);
  }

  lemma ClockIsRead(f: Fields, c: Clock)
    requires IsClock(c) && f.zone == Local
    ensures ParseFrom(ClockPart, f, ClockOf(c)) == Some(ClockSaid(c, f))
  {
    if c.NoClock? {
      EmptyClockIsRead(f);
    } else {
      hide ParseFrom, PreciseText, PreciselySaid, ZoneText;
      var zone := Mark(c.gap, ' ') + ZoneText(c.zone);
      HourIsRead(f, c.space, c.hour, PreciseText(c.precision, zone));
      ZoneBegins(c.gap, c.zone);
      PrecisionIsRead(f.(hour := c.hour), c.precision, zone);
      EndIsRead(PreciselySaid(c.precision, f.(hour := c.hour)), c.gap, c.zone);
    }
  }

  lemma EmptyClockIsRead(f: Fields)
    ensures ParseFrom(ClockPart, f, "") == Some(f)
  {
  }

  lemma DateIsRead(w: Written, year: int)
    requires IsWritten(w)
    ensures ParseFrom(MonthPart, YearOnly(year), DateRest(w))
         == Some(ClockSaid(w.clock, YearOnly(year).(month := w.month, day := w.day)))
  {
    var day := Mark(w.dash2, '-') + (Two(w.day) + ClockOf(w.clock));
    MarkedIsRead(MonthPart, YearOnly(year), w.dash, w.month, day);
    MarkedIsRead(DayPart, YearOnly(year).(month := w.month), w.dash2, w.day, ClockOf(w.clock));
    ClockIsRead(YearOnly(year).(month := w.month, day := w.day), w.clock);
  }

  // --- The year -----------------------------------------------------------------------------------------

  lemma ClockBegins(c: Clock)
    requires IsClock(c)
    ensures ClockOf(c) == "" || ClockOf(c)[0] == ' ' || ClockOf(c)[0] == 'T'
  {
  }

  /** A year that takes digits of the month as well does not let the rest match. */
  lemma OneDigitMore(w: Written, f: Fields)
    requires IsWritten(w) && !w.dash
    ensures ParseFrom(MonthPart, f, DateRest(w)[1..]) == None
    ensures ParseFrom(MonthPart, f, DateRest(w)[2..]) == None
  {
    hide ParseFrom, ClockOf, Two, Mark;
    var clock := ClockOf(w.clock);
    var day := Mark(w.dash2, '-') + (Two(w.day) + clock);
    ClockBegins(w.clock);
    PlainMonth(w, day);
    NoDayLeft(f.(month := w.day), clock);
    MarkedIsRead(MonthPart, f, w.dash2, w.day, clock);
    NoMonthLeft(f, DateRest(w)[1..], w.dash2, Two(w.month)[1], w.day, clock);
  }

  lemma PlainMonth(w: Written, day: string)
    requires IsWritten(w) && !w.dash && day == Mark(w.dash2, '-') + (Two(w.day) + ClockOf(w.clock))
    ensures IsDigit(Two(w.month)[1]) && |DateRest(w)| >= 2
    ensures DateRest(w)[2..] == day && DateRest(w)[1..] == [Two(w.month)[1]] + day
  {
    hide ClockOf, Two;
    TwoStarts(w.month, "");
    TwoThen(Two(w.month), day);
  }

  lemma TwoThen(two: string, day: string)
    requires |two| == 2
    ensures ("" + (two + day))[2..] == day && ("" + (two + day))[1..] == [two[1]] + day
  {
  }

  /** After the day there are no two digits. */
  lemma NoDayLeft(f: Fields, clock: string)
    requires clock == "" || clock[0] == ' ' || clock[0] == 'T'
    ensures ParseFrom(DayPart, f, clock) == None
  {
    assert |clock| >= 2 ==> clock[..2][0] == clock[0];
  }

  lemma NoMonthLeft(f: Fields, s: string, dash: bool, last: char, day: nat, clock: string)
    requires day < 100 && IsDigit(last) && (clock == "" || clock[0] == ' ' || clock[0] == 'T')
    requires s == [last] + (Mark(dash, '-') + (Two(day) + clock))
    ensures ParseFrom(MonthPart, f, s) == None
  {
    TwoStarts(day, clock);
    assert SkipOne(s, '-') == s;
    if dash {
      assert s[..2][1] == '-';
    } else {
      var left := s[2..];
      assert left == [Two(day)[1]] + clock;
      assert IsDigit(left[0]) && SkipOne(left, '-') == left;
      assert |left| >= 2 ==> left[..2][1] == clock[0];
    }
  }

  lemma NarrowerYear(sign: int, s: string, width: nat)
    requires 4 < width <= 6
    requires StartsWithDigits(s, width) ==>
      ParseFrom(MonthPart, YearOnly(sign * Number(s[..width])), s[width..]) == None
    ensures ParseYear(sign, s, width) == ParseYear(sign, s, width - 1)
  {
    hide ParseFrom;
  }

  lemma DashComesFirst(w: Written)
    requires IsWritten(w)
    ensures |DateRest(w)| >= 4 && (w.dash ==> DateRest(w)[0] == '-')
  {
  }

  lemma WiderYear(sign: int, w: Written, more: nat)
    requires IsWritten(w) && more > 0 && |w.year| + more <= 6
    ensures ParseYear(sign, w.year + DateRest(w), |w.year| + more)
         == ParseYear(sign, w.year + DateRest(w), |w.year| + more - 1)
  {
    hide ParseFrom, ParseYear, DateRest, IsClock;
    var rest := DateRest(w);
    var s, width := w.year + rest, |w.year| + more;
    DashComesFirst(w);
    if StartsWithDigits(s, width) {
      assert s[..width][|w.year|] == rest[0];
      assert s[width..] == rest[more..];
      assert !w.dash;
      OneDigitMore(w, YearOnly(sign * Number(s[..width])));
    }
    NarrowerYear(sign, s, width);
  }

  lemma YearIsRead(sign: int, w: Written)
    requires IsWritten(w)
    requires ParseFrom(MonthPart, YearOnly(sign * Number(w.year)), DateRest(w)).Some?
    ensures ParseYear(sign, w.year + DateRest(w), 6)
         == ParseFrom(MonthPart, YearOnly(sign * Number(w.year)), DateRest(w))
  {
    hide ParseFrom, DateRest;
    var s := w.year + DateRest(w);
    assert s[..|w.year|] == w.year && s[|w.year|..] == DateRest(w);
    if |w.year| < 6 {
      WiderYear(sign, w, 6 - |w.year|);
    }
    if |w.year| < 5 {
      WiderYear(sign, w, 5 - |w.year|);
    }
  }

  lemma SignIsRead(w: Written, body: string)
    requires IsWritten(w) && body != "" && IsDigit(body[0])
    ensures var text := (match w.sign case Bare => "" case Plus => "+" case Minus => "-") + body;
      ParseFields(text) == ParseYear(if w.sign == Minus then -1 else 1, body, 6)
  {
    hide ParseYear;
    assert "" + body == body && ("+" + body)[1..] == body && ("-" + body)[1..] == body;
  }

  /** Every written time is read as the fields it spells. */
  lemma WrittenIsRead(w: Written)
    requires IsWritten(w)
    ensures ParseFields(Text(w)) == Some(Said(w))
  {
    hide ParseFrom, ParseYear, ParseFields, DateRest, ClockSaid;
    var sign := if w.sign == Minus then -1 else 1;
    var body := w.year + DateRest(w);
    assert IsDigit(w.year[0]) && body[0] == w.year[0];
    DateIsRead(w, sign * Number(w.year));
    YearIsRead(sign, w);
    SignIsRead(w, body);
  }

  // --- Numeric zones ----------------------------------------------------------------------------------

  /** Hours and minutes ahead of UTC, in minutes. */
  function MinutesAhead(z: ZoneForm): int
    requires z.Hours? || z.HoursMinutes?
  {
    var size := 60 * z.hours + (if z.HoursMinutes? then z.minutes else 0);
    if z.negative then -size else size
  }

  /** The same time written with another zone. */
  function InZone(w: Written, z: ZoneForm): Written
    requires w.clock.Clock?
  {
    w.(clock := w.clock.(zone := z))
  }

  lemma ZoneShifts(f: Fields, ahead: int, utc: int, local: int -> Option<int>)
    requires Evaluate(f.(zone := Offset(0)), local) == Some(utc)
    ensures var shifted := utc - ahead * 60 * 1000 * 1000;
      Evaluate(f.(zone := Offset(ahead)), local)
      == if InRange((shifted - f.micros) / 1000) then Some(shifted) else None
  {
    hide SecondsOf, InRange;
    ZoneIsNoField(f, Offset(0));
    ZoneIsNoField(f, Offset(ahead));
    WholeMillis((SecondsOf(f) - ahead * 60) * 1000);
  }

  lemma ZoneIsNoField(f: Fields, zone: Zone)
    ensures SecondsOf(f.(zone := zone)) == SecondsOf(f)
  {
  }

  lemma WholeMillis(ms: int)
    ensures (ms * 1000) / 1000 == ms
  {
  }

  /** A time in a numeric zone is the same time in UTC less what the zone is ahead. */
  lemma NumericZoneIsRead(w: Written, z: ZoneForm, utc: int, local: int -> Option<int>)
    requires IsWritten(w) && w.clock.Clock? && IsZone(z) && (z.Hours? || z.HoursMinutes?)
    requires ParseIso(Text(InZone(w, Utc(false))), local) == Some(utc)
    ensures var shifted := utc - MinutesAhead(z) * 60 * 1000 * 1000;
      ParseIso(Text(InZone(w, z)), local)
      == if InRange((shifted - Said(w).micros) / 1000) then Some(shifted) else None
  {
    hide ParseFields, Evaluate, Text;
    WrittenIsRead(InZone(w, z));
    WrittenIsRead(InZone(w, Utc(false)));
    ZoneShifts(Said(w), MinutesAhead(z), utc, local);
  }

  // --- Dates past the end of a month, fractions of any length ------------------------------------------

  lemma CarriedMonth(year: int, month: int, y: int, m: int)
    requires 12 * y + m == 12 * year + month && 1 <= m <= 12
    ensures year + (month - 1) / 12 == y && (month - 1) % 12 + 1 == m
  {
    DivisionUnique(month - 1, 12, y - year, m - 1);
  }

  /** Months past December, or before January, count on into another year, and a day past the end of
      its month counts on into the next: the fields denote the first of the month that many months
      and days on. */
  lemma OverflowCarries(f: Fields, y: int, m: int, first: int)
    requires 12 * y + m == 12 * f.year + f.month && 1 <= m <= 12
    requires DateOf(first) == Date(y, m, 1)
    ensures SecondsOf(f) == (first + f.day - 1) * 86400 + f.hour * 3600 + f.minute * 60 + f.second
  {
    hide DateOf;
    CarriedMonth(f.year, f.month, y, m);
    FormulaCountsDays(first);
  }

  lemma {:induction false} TailingDigits(a: string, b: string)
    requires AllDigits(a) && AllDigits(b)
    ensures AllDigits(a + b)
    ensures Number(a + b) == Number(a) * PowerOfTen(|b|) + Number(b) && Number(b) < PowerOfTen(|b|)
  {
    if b == "" {
      assert a + b == a;
    } else {
      var front := b[..|b| - 1];
      TailingDigits(a, front);
      assert (a + b)[..|a + b| - 1] == a + front && Last(a + b) == Last(b);
      OneMoreDigit(Number(a), PowerOfTen(|front|), Number(front), Last(b) as int - 48);
    }
  }

  lemma OneMoreDigit(head: nat, power: nat, tail: nat, digit: nat)
    requires digit < 10 && tail < power
    ensures 10 * (head * power + tail) + digit == head * (10 * power) + (10 * tail + digit)
    ensures 10 * tail + digit < 10 * power
  {
  }

  lemma {:induction false} ZerosCountNothing(n: nat)
    ensures Number(Zeros(n)) == 0
  {
    if n > 0 {
      ZerosCountNothing(n - 1);
      assert Zeros(n)[..n - 1] == Zeros(n - 1);
    }
  }

  lemma {:induction false} PowersMultiply(a: nat, b: nat)
    ensures PowerOfTen(a + b) == PowerOfTen(a) * PowerOfTen(b) && PowerOfTen(b) >= 1
  {
    if b > 0 {
      PowersMultiply(a, b - 1);
      assert PowerOfTen(a) * (10 * PowerOfTen(b - 1)) == 10 * (PowerOfTen(a) * PowerOfTen(b - 1));
    }
  }

  /** A fraction of any length is read as its whole millionths. */
  lemma FractionIsCut(digits: string)
    requires AllDigits(digits)
    ensures Micros(digits) * PowerOfTen(|digits|) <= Number(digits) * PowerOfTen(6)
          < (Micros(digits) + 1) * PowerOfTen(|digits|)
  {
    var n := |digits|;
    PowersMultiply(0, n);
    if n >= 6 {
      CutDigits(digits);
    } else {
      var zeros := Zeros(6 - n);
      TailingDigits(digits, zeros);
      ZerosCountNothing(6 - n);
      PowersMultiply(6 - n, n);
      assert Micros(digits) == Number(digits) * PowerOfTen(6 - n);
      Reassociate(Number(digits), PowerOfTen(6 - n), PowerOfTen(n));
    }
  }

  lemma Reassociate(x: int, y: int, z: int)
    ensures x * y * z == x * (y * z) && (x * y + 1) * z == x * (y * z) + z
  {
  }

  lemma CutDigits(digits: string)
    requires AllDigits(digits) && |digits| >= 6
    ensures Micros(digits) * PowerOfTen(|digits|) <= Number(digits) * PowerOfTen(6)
          < (Micros(digits) + 1) * PowerOfTen(|digits|)
  {
    hide Number, PowerOfTen;
    var head, tail := digits[..6], digits[6..];
    assert digits == head + tail;
    TailingDigits(head, tail);
    PowersMultiply(6, |tail|);
    PowersMultiply(0, 6);
    Scaled(Number(head), Number(tail), PowerOfTen(|tail|), PowerOfTen(6));
  }

  lemma Scaled(head: nat, tail: nat, p: nat, q: nat)
    requires tail < p && q > 0
    ensures head * (q * p) <= (head * p + tail) * q < (head + 1) * (q * p)
  {
    assert (head * p + tail) * q == head * (q * p) + tail * q;
    assert (head + 1) * (q * p) == head * (q * p) + p * q;
    assert tail * q < p * q;
  }

  // --- Printed times in another zone -----------------------------------------------------------------

  function YearWritten(year: int): (YearSign, string)
    requires -999999 <= year <= 999999
  {
    assert PowerOfTen(4) == 10000 && PowerOfTen(6) == 1000000;
    if 0 <= year <= 9999 then (Bare, Padded(year, 4))
    else if year < 0 then (Minus, Padded(-year, 6))
    else (Plus, Padded(year, 6))
  }

  predicate Printable(d: Date, second: nat, milli: nat) {
    Valid(d) && -999999 <= d.year <= 999999 && second < 86400 && milli < 1000
  }

  /** A printed time, field by field. */
  function AsWritten(d: Date, second: nat, milli: nat, z: ZoneForm): (w: Written)
    requires Printable(d, second, milli) && IsZone(z)
    ensures IsWritten(w)
  {
    var (sign, year) := YearWritten(d.year);
    Written(sign, year, true, d.month, true, d.day,
      Clock(false, second / 3600,
        ToFraction(true, second / 60 % 60, true, second % 60, false, Three(milli)), false, z))
  }

  /** A printed time without its zone. */
  function Zoneless(d: Date, second: nat, milli: nat): string
    requires Printable(d, second, milli)
  {
    YearText(d.year) + "-" + Two(d.month) + "-" + Two(d.day) + "T" +
      Two(second / 3600) + ":" + Two(second / 60 % 60) + ":" + Two(second % 60) + "." + Three(milli)
  }

  lemma PrintedIsZoneless(d: Date, second: nat, milli: nat)
    requires Printable(d, second, milli)
    ensures TimeText(d, second, Three(milli)) == Zoneless(d, second, milli) + "Z"
  {
    hide Two, Three, YearText;
  }

  lemma WrittenClock(second: nat, milli: nat, z: ZoneForm)
    requires second < 86400 && milli < 1000 && IsZone(z)
    ensures ClockOf(Clock(false, second / 3600,
        ToFraction(true, second / 60 % 60, true, second % 60, false, Three(milli)), false, z))
      == "T" + Two(second / 3600) + ":" + Two(second / 60 % 60) + ":" + Two(second % 60) + "."
        + Three(milli) + ZoneText(z)
  {
    hide Two, Three, ZoneText;
    assert "" + ZoneText(z) == ZoneText(z);
  }

  lemma YearAsWritten(year: int)
    requires -999999 <= year <= 999999
    ensures var (sign, digits) := YearWritten(year);
      (match sign case Bare => "" case Plus => "+" case Minus => "-") + digits == YearText(year)
  {
    var (sign, digits) := YearWritten(year);
    assert "" + digits == digits;
  }

  /** The same parts put together from the left and from the right. */
  lemma DateAssociates(sign: string, year: string, month: string, day: string, clock: string)
    ensures sign + (year + ("-" + (month + ("-" + (day + clock)))))
         == sign + year + "-" + month + "-" + day + clock
  {
    Associates(sign, year, "-" + (month + ("-" + (day + clock))));
    Associates(sign + year, "-", month + ("-" + (day + clock)));
    Associates(sign + year + "-", month, "-" + (day + clock));
    Associates(sign + year + "-" + month, "-", day + clock);
    Associates(sign + year + "-" + month + "-", day, clock);
  }

  lemma ClockAssociates(date: string, hour: string, minute: string, second: string, milli: string, zone: string)
    ensures date + ("T" + hour + ":" + minute + ":" + second + "." + milli + zone)
         == date + "T" + hour + ":" + minute + ":" + second + "." + milli + zone
  {
  }

  lemma TextOfWritten(w: Written)
    requires IsWritten(w) && w.dash && w.dash2
    ensures Text(w) == (match w.sign case Bare => "" case Plus => "+" case Minus => "-")
      + w.year + "-" + Two(w.month) + "-" + Two(w.day) + ClockOf(w.clock)
  {
    hide Two, ClockOf;
    var sign := match w.sign case Bare => "" case Plus => "+" case Minus => "-";
    DateAssociates(sign, w.year, Two(w.month), Two(w.day), ClockOf(w.clock));
  }

  lemma WrittenIsZoneless(d: Date, second: nat, milli: nat, z: ZoneForm)
    requires Printable(d, second, milli) && IsZone(z)
    ensures Text(AsWritten(d, second, milli, z)) == Zoneless(d, second, milli) + ZoneText(z)
  {
    hide Two, Three, ZoneText, ClockOf, YearWritten, YearText, Text;
    var w := AsWritten(d, second, milli, z);
    YearAsWritten(d.year);
    WrittenClock(second, milli, z);
    TextOfWritten(w);
    ClockAssociates(YearText(d.year) + "-" + Two(d.month) + "-" + Two(d.day),
      Two(second / 3600), Two(second / 60 % 60), Two(second % 60), Three(milli), ZoneText(z));
  }

  /** The time that a printed one denotes when its last letter gives way to a numeric zone. */
  lemma PrintedInZone(ms: int, z: ZoneForm, local: int -> Option<int>)
    requires InRange(ms) && IsZone(z) && (z.Hours? || z.HoursMinutes?)
    ensures Stamp(ms) != "" && Last(Stamp(ms)) == 'Z'
    ensures var shift := MinutesAhead(z) * 60 * 1000;
      ParseIso(Stamp(ms)[..|Stamp(ms)| - 1] + ZoneText(z), local)
      == if InRange(ms / 1000 * 1000 - shift) then Some((ms - shift) * 1000) else None
  {
    hide TimeText, Zoneless, Text, ZoneText, ParseIso, AsWritten, Three;
    var d, second, milli, seconds := StampParts(ms);
    PrintedIsZoneless(d, second, milli);
    WrittenIsZoneless(d, second, milli, z);
    WrittenIsZoneless(d, second, milli, Utc(false));
    UtcLetter();
    ParserInvertsPrinter(ms, local);
    InZoneIsWritten(d, second, milli, z);
    NumericZoneIsRead(AsWritten(d, second, milli, z), z, ms * 1000, local);
    ShiftedRange(ms, MinutesAhead(z) * 60 * 1000, milli);
  }

  lemma UtcLetter()
    ensures ZoneText(Utc(false)) == "Z"
  {
  }

  lemma InZoneIsWritten(d: Date, second: nat, milli: nat, z: ZoneForm)
    requires Printable(d, second, milli) && IsZone(z)
    ensures InZone(AsWritten(d, second, milli, z), z) == AsWritten(d, second, milli, z)
    ensures InZone(AsWritten(d, second, milli, z), Utc(false)) == AsWritten(d, second, milli, Utc(false))
    ensures AsWritten(d, second, milli, z).clock.Clock?
    ensures Said(AsWritten(d, second, milli, z)).micros == milli * 1000
  {
    MicrosOfThree(milli);
  }

  lemma ShiftedRange(ms: int, shift: int, milli: nat)
    requires milli == ms % 1000
    ensures (ms * 1000 - shift * 1000 - milli * 1000) / 1000 == ms / 1000 * 1000 - shift
  {
    assert ms == ms / 1000 * 1000 + milli;
  }
}

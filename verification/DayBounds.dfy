/**
 Bare dates as bounds of a read: the milliseconds they stand for, and the day that lies between them.
 */
module DayBounds {
  import opened Common
  import opened Calendar
  import opened Timestamps
  import opened TimeGrammar
  import opened HistoryPaging

  function DateText(d: Date): string
    requires Valid(d) && 0 <= d.year <= 9999
  {
    assert PowerOfTen(4) == 10000;
    Padded(d.year, 4) + "-" + Two(d.month) + "-" + Two(d.day)
  }

  function WithClock(d: Date, clock: Clock): (w: Written)
    requires Valid(d) && 0 <= d.year <= 9999 && IsClock(clock)
    ensures IsWritten(w)
  {
    assert PowerOfTen(4) == 10000;
    Written(Bare, Padded(d.year, 4), true, d.month, true, d.day, clock)
  }

  lemma WithClockText(d: Date, clock: Clock)
    requires Valid(d) && 0 <= d.year <= 9999 && IsClock(clock)
    ensures Text(WithClock(d, clock)) == DateText(d) + ClockOf(clock)
  {
    hide Two, ClockOf, Padded, Text;
    TextOfWritten(WithClock(d, clock));
    assert "" + Padded(d.year, 4) == Padded(d.year, 4);
  }

  lemma TwoDigits(n: nat)
    requires n < 100
    ensures Two(n) == [Digit(n / 10), Digit(n % 10)]
  {
    assert PowerOfTen(2) == 100 && PowerOfTen(1) == 10;
    assert Padded(n / 10, 1) == "" + [Digit(n / 10)];
  }

  const MIDNIGHT := Clock(false, 0, ToSecond(true, 0, true, 0), false, NoZone)
  const DAY_END := Clock(false, 23, ToFraction(true, 59, true, 59, false, "999"), false, NoZone)

  lemma MidnightText()
    ensures ClockOf(MIDNIGHT) == "T00:00:00"
  {
    TwoDigits(0);
  }

  lemma ThreeDigits(n: nat)
    requires n < 1000
    ensures Three(n) == [Digit(n / 100), Digit(n / 10 % 10), Digit(n % 10)]
  {
    assert PowerOfTen(3) == 1000 && PowerOfTen(2) == 100;
    TwoDigits(n / 10);
    assert n / 10 / 10 == n / 100;
  }

  lemma DayEndText()
    ensures ClockOf(DAY_END) == "T23:59:59.999"
  {
    TwoDigits(23);
    TwoDigits(59);
    assert "" + "" == "";
  }

  lemma LastMillisecond()
    ensures Micros("999") == 999000
  {
    hide Three, Micros;
    ThreeDigits(999);
    MicrosOfThree(999);
  }

  lemma DateTextIsDate(d: Date)
    requires Valid(d) && 0 <= d.year <= 9999
    ensures IsDate(DateText(d)) && Number(Padded(d.year, 4)) == d.year
  {
    hide Two, Padded;
    assert PowerOfTen(4) == 10000;
    NumberOfPadded(d.year, 4);
  }

  lemma SecondsOfDay(d: Date, day: int, f: Fields)
    requires Valid(d) && DateOf(day) == d && f.year == d.year && f.month == d.month && f.day == d.day
    ensures SecondsOf(f) == day * 86400 + f.hour * 3600 + f.minute * 60 + f.second
  {
    hide DateOf;
    DivisionUnique(d.month - 1, 12, 0, d.month - 1);
    FormulaCountsDays(day);
  }

  /** A bare date is read as the first or the last millisecond of its day at the host. */
  lemma DateIsDayBound(d: Date, day: int, latest: bool, local: int -> Option<int>)
    requires Valid(d) && 0 <= d.year <= 9999 && DateOf(day) == d
    ensures var host := local(day * 86400 + if latest then 86399 else 0);
      TimeArgument(DateText(d), latest, local)
      == if host.Some? && InRange(host.value) then Some(host.value * 1000 + if latest then 999000 else 0) else None
  {
    hide DateOf, ParseFields, SecondsOf, Micros, ClockOf, Two, Text, DateText;
    var clock := if latest then DAY_END else MIDNIGHT;
    var w := WithClock(d, clock);
    DateTextIsDate(d);
    MidnightText();
    DayEndText();
    LastMillisecond();
    WithClockText(d, clock);
    WrittenIsRead(w);
    SecondsOfDay(d, day, Said(w));
  }

  /** At a host a fixed number of seconds ahead of UTC, the range from a date to the same date holds
      the whole milliseconds of that day. */
  lemma RangeOfOneDay(d: Date, ahead: int, local: int -> Option<int>, e: Entry, ms: int)
    requires Valid(d) && 0 <= d.year <= 9999 && -86400 <= ahead <= 86400
    requires forall seconds: int :: local(seconds) == Some((seconds - ahead) * 1000)
    requires e.at == Some(ms * 1000)
    ensures var r := TimeReader(local);
      && r.earliest(DateText(d)).Some? && r.latest(DateText(d)).Some?
      && (InRangeOf(e, r.earliest(DateText(d)), r.latest(DateText(d)))
          <==> DateOf((ms / 1000 + ahead) / 86400) == d)
  {
    hide DateOf, TimeArgument, DateText;
    var day, at := DayNumber(d.year, d.month, d.day), (ms / 1000 + ahead) / 86400;
    DateOfDayNumber(d);
    DateIsDayBound(d, day, false, local);
    DateIsDayBound(d, day, true, local);
    FormulaCountsDays(at);
    DayNumbersInRange(d, ahead);
    WithinDay(ms, ahead, day);
  }

  lemma DayNumbersInRange(d: Date, ahead: int)
    requires Valid(d) && 0 <= d.year <= 9999 && -86400 <= ahead <= 86400
    ensures var day := DayNumber(d.year, d.month, d.day);
      InRange((day * 86400 - ahead) * 1000) && InRange((day * 86400 + 86399 - ahead) * 1000)
  {
    WithinYear(d);
    YearsAscend(0, d.year);
    YearsAscend(d.year + 1, 10000);
  }

  lemma WithinDay(ms: int, ahead: int, day: int)
    ensures (day * 86400 - ahead) * 1000 * 1000 <= ms * 1000
            <= (day * 86400 + 86399 - ahead) * 1000 * 1000 + 999000
        <==> (ms / 1000 + ahead) / 86400 == day
  {
  }
}

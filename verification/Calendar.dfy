/**
 The proleptic Gregorian calendar: a reference that counts dates one by one from
 the epoch, and the closed day formula of the timestamp parser. Month lengths and
 leap years are those of section 5.7 and Appendix C of RFC 3339.
 */
module Calendar {

  datatype Date = Date(year: int, month: int, day: int)

  predicate Leap(year: int) {
    year % 4 == 0 && (year % 100 != 0 || year % 400 == 0)
  }

  function MonthLength(year: int, month: int): int
    requires 1 <= month <= 12
  {
    if month == 2 then (if Leap(year) then 29 else 28)
    else if month == 4 || month == 6 || month == 9 || month == 11 then 30
    else 31
  }

  predicate Valid(d: Date) {
    1 <= d.month <= 12 && 1 <= d.day <= MonthLength(d.year, d.month)
  }

  function Next(d: Date): Date
    requires Valid(d)
  {
    if d.day < MonthLength(d.year, d.month) then Date(d.year, d.month, d.day + 1)
    else if d.month < 12 then Date(d.year, d.month + 1, 1)
    else Date(d.year + 1, 1, 1)
  }

  function Previous(d: Date): Date
    requires Valid(d)
  {
    if d.day > 1 then Date(d.year, d.month, d.day - 1)
    else if d.month > 1 then Date(d.year, d.month - 1, MonthLength(d.year, d.month - 1))
    else Date(d.year - 1, 12, 31)
  }

  const EPOCH := Date(1970, 1, 1)

  /** The date of a day, by counting from the epoch in either direction. */
  function DateOf(day: int): (d: Date)
    ensures Valid(d)
    decreases if day < 0 then -day else day
  {
    if day == 0 then EPOCH
    else if day > 0 then Next(DateOf(day - 1))
    else Previous(DateOf(day + 1))
  }

  // --- The day formula -------------------------------------------------------------

  const DAYS_BEFORE := [0, 31, 59, 90, 120, 151, 181, 212, 243, 273, 304, 334]

  /** Days from the epoch to a date, in closed form; `day` may overflow its month. */
  function DayNumber(year: int, month: int, day: int): int
    requires 1 <= month <= 12
  {
    var y := year - 1;
    365 * y + y / 4 - y / 100 + y / 400 + DAYS_BEFORE[month - 1]
      + (if Leap(year) && month > 2 then 1 else 0) + day - 1 - 719162
  }

  lemma QuotientStep(y: int, k: int)
    requires k > 0
    ensures (y + 1) / k - y / k == if (y + 1) % k == 0 then 1 else 0
  {
    var q, r := y / k, y % k;
    assert y == q * k + r;
    if r + 1 == k {
      assert y + 1 == (q + 1) * k + 0;
      DivisionUnique(y + 1, k, q + 1, 0);
    } else {
      DivisionUnique(y + 1, k, q, r + 1);
    }
  }

  lemma DivisionUnique(x: int, k: int, q: int, r: int)
    requires k > 0 && x == q * k + r && 0 <= r < k
    ensures x / k == q && x % k == r
  {
    var d := x / k - q;
    assert x == (x / k) * k + x % k;
    assert d * k == r - x % k by {
      assert (x / k - q) * k == (x / k) * k - q * k;
    }
    assert d >= 1 ==> d * k >= k;
    assert d <= -1 ==> d * k <= -k;
  }

  lemma DivisibleByFactor(y: int)
    ensures y % 400 == 0 ==> y % 100 == 0
    ensures y % 100 == 0 ==> y % 4 == 0
  {
    var q400, q100 := y / 400, y / 100;
    if y % 400 == 0 {
      assert y == q400 * 400;
      DivisionUnique(y, 100, 4 * q400, 0);
    }
    if y % 100 == 0 {
      assert y == q100 * 100;
      DivisionUnique(y, 4, 25 * q100, 0);
    }
  }

  lemma YearLength(year: int)
    ensures DayNumber(year + 1, 1, 1) - DayNumber(year, 1, 1) == if Leap(year) then 366 else 365
  {
    QuotientStep(year - 1, 4);
    QuotientStep(year - 1, 100);
    QuotientStep(year - 1, 400);
    DivisibleByFactor(year);
  }

  /** Core step: from each date to the next the day formula rises by exactly one. */
  lemma NextDayIsOneMore(d: Date)
    requires Valid(d)
    ensures Valid(Next(d)) && Previous(Next(d)) == d
    ensures var n := Next(d); DayNumber(n.year, n.month, n.day) == DayNumber(d.year, d.month, d.day) + 1
  {
    if d.day == MonthLength(d.year, d.month) && d.month == 12 {
      YearLength(d.year);
    }
  }

  lemma PreviousIsInverse(d: Date)
    requires Valid(d)
    ensures Valid(Previous(d)) && Next(Previous(d)) == d
  {
  }

  /** The formula numbers the counted dates: its value at the date of a day is the day. */
  lemma {:induction false} FormulaCountsDays(day: int)
    ensures var d := DateOf(day); DayNumber(d.year, d.month, d.day) == day
    decreases if day < 0 then -day else day
  {
    if day > 0 {
      FormulaCountsDays(day - 1);
      NextDayIsOneMore(DateOf(day - 1));
    } else if day < 0 {
      FormulaCountsDays(day + 1);
      PreviousIsInverse(DateOf(day + 1));
      NextDayIsOneMore(DateOf(day));
    }
  }

  // --- The formula as a one-to-one numbering ---------------------------------------------

  lemma WithinYear(d: Date)
    requires Valid(d)
    ensures DayNumber(d.year, 1, 1) <= DayNumber(d.year, d.month, d.day) < DayNumber(d.year + 1, 1, 1)
  {
    YearLength(d.year);
  }

  lemma {:induction false} YearsAscend(a: int, b: int)
    requires a <= b
    ensures DayNumber(a, 1, 1) + 365 * (b - a) <= DayNumber(b, 1, 1) <= DayNumber(a, 1, 1) + 366 * (b - a)
    decreases b - a
  {
    if a < b {
      YearsAscend(a, b - 1);
      YearLength(b - 1);
    }
  }

  lemma SameNumberSameDate(d: Date, e: Date)
    requires Valid(d) && Valid(e)
    requires DayNumber(d.year, d.month, d.day) == DayNumber(e.year, e.month, e.day)
    ensures d == e
  {
    WithinYear(d);
    WithinYear(e);
    if d.year < e.year {
      YearsAscend(d.year + 1, e.year);
    } else if e.year < d.year {
      YearsAscend(e.year + 1, d.year);
    }
  }

  /** Every calendar date is the date of exactly the day the formula gives. */
  lemma DateOfDayNumber(d: Date)
    requires Valid(d)
    ensures DateOf(DayNumber(d.year, d.month, d.day)) == d
  {
    var day := DayNumber(d.year, d.month, d.day);
    FormulaCountsDays(day);
    SameNumberSameDate(DateOf(day), d);
  }

  /** Within 100 000 000 days of the epoch every year has at most six digits. */
  lemma YearRange(day: int)
    requires -100000000 <= day <= 100000000
    ensures -999999 <= DateOf(day).year <= 999999
  {
    var d := DateOf(day);
    FormulaCountsDays(day);
    WithinYear(d);
    if d.year > 1970 {
      YearsAscend(1970, d.year);
    } else {
      YearsAscend(d.year + 1, 1971);
    }
  }
}

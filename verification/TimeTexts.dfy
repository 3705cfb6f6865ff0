/**
 The other half of the grammar: a text that is read as a time is a written time, so the reader takes
 those texts and no others.
 */
module TimeTexts {
  import opened Common
  import opened Timestamps
  import opened TimeGrammar

  // --- Two digits --------------------------------------------------------------------------------------

  lemma {:induction false} PaddedOfNumber(digits: string)
    requires AllDigits(digits)
    ensures Number(digits) < PowerOfTen(|digits|) && Padded(Number(digits), |digits|) == digits
  {
    if digits != "" {
      var front := digits[..|digits| - 1];
      PaddedOfNumber(front);
      assert digits == front + [Last(digits)];
      assert IsDigit(Last(digits));
    }
  }

  lemma TwoOf(s: string)
    requires StartsWithDigits(s, 2)
    ensures Number(s[..2]) < 100 && s == Two(Number(s[..2])) + s[2..]
  {
    assert PowerOfTen(2) == 100;
    PaddedOfNumber(s[..2]);
  }

  /** Two digits behind a mark that may be missing. */
  lemma MarkedTwo(s: string, c: char) returns (mark: bool, n: nat, rest: string)
    requires StartsWithDigits(SkipOne(s, c), 2)
    ensures n < 100 && n == Number(SkipOne(s, c)[..2]) && rest == SkipOne(s, c)[2..]
    ensures s == Mark(mark, c) + (Two(n) + rest)
  {
    mark := s[0] == c;
    var t := SkipOne(s, c);
    TwoOf(t);
    n, rest := Number(t[..2]), t[2..];
    assert s == Mark(mark, c) + t;
  }

  // --- From the end ------------------------------------------------------------------------------------

  lemma SignedZoneText(s: string) returns (z: ZoneForm)
    requires ZoneOf(s).Some? && s != "" && s[0] != ' ' && s != "z" && s != "Z"
    ensures IsZone(z) && s == ZoneText(z)
  {
    var negative, tail := s[0] == '-', s[1..];
    TwoOf(tail);
    var hours, rest := Number(tail[..2]), tail[2..];
    assert s == [s[0]] + tail && s[3..] == rest;
    if rest == "" {
      z := Hours(negative, hours);
      assert Two(hours) + rest == Two(hours);
    } else {
      var colon, minutes, nothing := MarkedTwo(rest, ':');
      assert Two(minutes) + nothing == Two(minutes);
      z := HoursMinutes(negative, hours, colon, minutes);
    }
  }

  lemma ZoneIsWritten(s: string) returns (gap: bool, z: ZoneForm)
    requires ZoneOf(s).Some?
    ensures IsZone(z) && s == Mark(gap, ' ') + ZoneText(z)
  {
    gap := s != "" && s[0] == ' ';
    var t := SkipOne(s, ' ');
    assert s == Mark(gap, ' ') + t;
    if t == "" {
      z := NoZone;
    } else if t == "z" || t == "Z" {
      z := Utc(t == "z");
    } else {
      assert SkipOne(t, ' ') == t;
      z := SignedZoneText(t);
    }
  }

  lemma FractionIsWritten(f: Fields, s: string) returns (present: bool, comma: bool, digits: string, rest: string)
    requires ParseFrom(FractionPart, f, s).Some?
    ensures ZoneOf(rest).Some?
    ensures present ==> IsFraction(digits) && s == [if comma then ',' else '.'] + (digits + rest)
    ensures !present ==> s == rest
  {
    present := StartsWithOneOf(s, ".,") && DigitRun(s[1..]) > 0;
    comma, digits, rest := false, "", s;
    if present {
      var tail := s[1..];
      var n := DigitRun(tail);
      comma, digits, rest := s[0] == ',', tail[..n], tail[n..];
      assert s == [s[0]] + tail && tail == digits + rest && s[1 + n..] == rest;
    }
  }

  lemma SecondIsWritten(f: Fields, s: string, colon: bool, minute: nat) returns (p: Precision, rest: string)
    requires minute < 100 && ParseFrom(SecondPart, f, s).Some?
    ensures ZoneOf(rest).Some? && IsPrecision(p)
    ensures PreciseText(p, rest) == Mark(colon, ':') + (Two(minute) + s)
  {
    hide ZoneOf, Two;
    if StartsWithDigits(SkipOne(s, ':'), 2) {
      var colon2, second, more := MarkedTwo(s, ':');
      var present, comma, digits, left := FractionIsWritten(f.(second := second), more);
      rest := left;
      p := if present then ToFraction(colon, minute, colon2, second, comma, digits)
           else ToSecond(colon, minute, colon2, second);
    } else {
      p, rest := ToMinute(colon, minute), s;
    }
  }

  lemma MinuteIsWritten(f: Fields, s: string) returns (p: Precision, rest: string)
    requires ParseFrom(MinutePart, f, s).Some?
    ensures ZoneOf(rest).Some? && IsPrecision(p) && PreciseText(p, rest) == s
  {
    hide ZoneOf, Two;
    if StartsWithDigits(SkipOne(s, ':'), 2) {
      var colon, minute, more := MarkedTwo(s, ':');
      p, rest := SecondIsWritten(f.(minute := minute), more, colon, minute);
    } else {
      p, rest := ToHour, s;
    }
  }

  lemma ClockIsWritten(f: Fields, s: string) returns (c: Clock)
    requires ParseFrom(ClockPart, f, s).Some?
    ensures IsClock(c) && ClockOf(c) == s
  {
    hide ZoneOf, Two, PreciseText, ZoneText;
    if s == "" {
      c := NoClock;
    } else {
      var tail := s[1..];
      TwoOf(tail);
      var hour := Number(tail[..2]);
      assert s == [s[0]] + tail && tail[2..] == s[3..];
      var p, rest := MinuteIsWritten(f.(hour := hour), s[3..]);
      var gap, z := ZoneIsWritten(rest);
      c := Clock(s[0] == ' ', hour, p, gap, z);
    }
  }

  // --- The whole text ----------------------------------------------------------------------------------

  lemma DayIsWritten(f: Fields, s: string) returns (dash: bool, day: nat, c: Clock)
    requires ParseFrom(DayPart, f, s).Some?
    ensures day < 100 && IsClock(c) && s == Mark(dash, '-') + (Two(day) + ClockOf(c))
  {
    hide ClockOf, Two, IsClock;
    var rest;
    dash, day, rest := MarkedTwo(s, '-');
    c := ClockIsWritten(f.(day := day), rest);
  }

  lemma DateIsWritten(sign: YearSign, year: string, f: Fields, s: string) returns (w: Written)
    requires 4 <= |year| <= 6 && AllDigits(year) && ParseFrom(MonthPart, f, s).Some?
    ensures IsWritten(w) && w.sign == sign && w.year == year && DateRest(w) == s
  {
    hide ClockOf, Two, IsClock;
    var dash, month, rest := MarkedTwo(s, '-');
    var dash2, day, c := DayIsWritten(f.(month := month), rest);
    w := Written(sign, year, dash, month, dash2, day, c);
  }

  lemma {:induction false} YearIsWritten(yearSign: YearSign, sign: int, s: string, width: nat) returns (w: Written)
    requires width <= 6 && ParseYear(sign, s, width).Some?
    ensures IsWritten(w) && w.sign == yearSign && s == w.year + DateRest(w)
    decreases width
  {
    hide ParseFrom, DateRest;
    if StartsWithDigits(s, width) && ParseFrom(MonthPart, YearOnly(sign * Number(s[..width])), s[width..]).Some? {
      w := DateIsWritten(yearSign, s[..width], YearOnly(sign * Number(s[..width])), s[width..]);
      assert s == s[..width] + s[width..];
    } else {
      w := YearIsWritten(yearSign, sign, s, width - 1);
    }
  }

  /** A text is read exactly when it is written in the grammar, and then as the fields it spells. */
  lemma ReadExactlyWhenWritten(text: string)
    ensures ParseFields(text).Some? <==> exists w :: IsWritten(w) && Text(w) == text
    ensures forall w :: IsWritten(w) && Text(w) == text ==> ParseFields(text) == Some(Said(w))
  {
    hide ParseYear, IsWritten, DateRest, Said;
    forall w | IsWritten(w) && Text(w) == text
      ensures ParseFields(text) == Some(Said(w))
    {
      WrittenIsRead(w);
    }
    if ParseFields(text).Some? {
      var w := FieldsAreWritten(text);
    }
  }

  lemma FieldsAreWritten(text: string) returns (w: Written)
    requires ParseFields(text).Some?
    ensures IsWritten(w) && Text(w) == text
  {
    hide ParseYear, DateRest;
    if StartsWithOneOf(text, "+-") {
      var minus := text[0] == '-';
      w := YearIsWritten(if minus then Minus else Plus, if minus then -1 else 1, text[1..], 6);
      assert text == [text[0]] + text[1..];
    } else {
      w := YearIsWritten(Bare, 1, text, 6);
      assert "" + text == text;
    }
  }
}

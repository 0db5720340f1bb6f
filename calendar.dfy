/**
 * The part of Go's time package that validateTimeRange relies on:
 * time.Parse with the layout "2006-01-02T15:04:05" (no zone, so UTC),
 * Time.Before, and the proleptic Gregorian calendar behind them.
 */
module Calendar {
  import opened Wrappers
  import opened Text

  /** A parsed wall-clock time; every field is a decimal field of the layout. */
  datatype Timestamp = Timestamp(year: nat, month: nat, day: nat, hour: nat, minute: nat, second: nat)

  /**
   * Why time.Parse refused a value. OutOfRange names the field Go reports
   * ("month", "hour", "minute", "second" or "day"); Unparsable is a value
   * that does not have the digits and separators of the layout.
   */
  datatype TimeError = OutOfRange(value: string, field: string) | Unparsable(value: string)

  const Layout: string := "2006-01-02T15:04:05"

  /** ParseError.Error for the two kinds above (the value is all digits and separators, so quoting adds only the quotes). */
  function TimeErrorMessage(e: TimeError): string {
    match e
    case OutOfRange(v, f) => "parsing time \"" + v + "\": " + f + " out of range"
    case Unparsable(v) => "parsing time \"" + v + "\" as \"" + Layout + "\""
  }

  // ---------------------------------------------------------------------
  // The shape of the layout
  // ---------------------------------------------------------------------

  /** The layout position by position: 'D' stands for an ASCII digit, anything else for itself. */
  function LayoutChar(i: int): char {
    if i == 4 || i == 7 then '-'
    else if i == 10 then 'T'
    else if i == 13 || i == 16 then ':'
    else 'D'
  }

  predicate CharFits(c: char, shape: char) {
    if shape == 'D' then IsDigit(c) else c == shape
  }

  /** v has the 19 bytes of the layout: digits where the layout has a number, its separators elsewhere. */
  predicate FitsLayout(v: string) {
    |v| == 19 && forall i :: 0 <= i < 19 ==> CharFits(v[i], LayoutChar(i))
  }

  function Digit(v: string, i: nat): nat
    requires i < |v| && IsDigit(v[i])
  {
    DigitValue(v[i])
  }

  /** The six decimal fields of a value that fits the layout. */
  function Fields(v: string): (t: Timestamp)
    requires FitsLayout(v)
    ensures t.year < 10000 && t.month < 100 && t.day < 100
    ensures t.hour < 100 && t.minute < 100 && t.second < 100
  {
    assert CharFits(v[0], LayoutChar(0)) && CharFits(v[1], LayoutChar(1));
    assert CharFits(v[2], LayoutChar(2)) && CharFits(v[3], LayoutChar(3));
    assert CharFits(v[5], LayoutChar(5)) && CharFits(v[6], LayoutChar(6));
    assert CharFits(v[8], LayoutChar(8)) && CharFits(v[9], LayoutChar(9));
    assert CharFits(v[11], LayoutChar(11)) && CharFits(v[12], LayoutChar(12));
    assert CharFits(v[14], LayoutChar(14)) && CharFits(v[15], LayoutChar(15));
    assert CharFits(v[17], LayoutChar(17)) && CharFits(v[18], LayoutChar(18));
    Timestamp(
      ((Digit(v, 0) * 10 + Digit(v, 1)) * 10 + Digit(v, 2)) * 10 + Digit(v, 3),
      Digit(v, 5) * 10 + Digit(v, 6),
      Digit(v, 8) * 10 + Digit(v, 9),
      Digit(v, 11) * 10 + Digit(v, 12),
      Digit(v, 14) * 10 + Digit(v, 15),
      Digit(v, 17) * 10 + Digit(v, 18))
  }

  // ---------------------------------------------------------------------
  // The calendar
  // ---------------------------------------------------------------------

  /** isLeap */
  predicate IsLeap(year: nat) {
    year % 4 == 0 && (year % 100 != 0 || year % 400 == 0)
  }

  /** daysIn: the length of a month, February having 29 days in a leap year. */
  function DaysIn(month: nat, year: nat): (r: nat)
    requires 1 <= month <= 12
    ensures 28 <= r <= 31
    ensures r == 29 <==> month == 2 && IsLeap(year)
  {
    if month == 2 then (if IsLeap(year) then 29 else 28)
    else if month == 4 || month == 6 || month == 9 || month == 11 then 30
    else 31
  }

  function YearLength(year: nat): nat {
    if IsLeap(year) then 366 else 365
  }

  /** Days in the years 0 .. year-1. */
  function DaysBeforeYear(year: nat): nat {
    if year == 0 then 0 else DaysBeforeYear(year - 1) + YearLength(year - 1)
  }

  /** Days in the months 1 .. month-1 of year. */
  function DaysBeforeMonth(month: nat, year: nat): nat
    requires month <= 13
  {
    if month <= 1 then 0 else DaysBeforeMonth(month - 1, year) + DaysIn(month - 1, year)
  }

  /** A date and time-of-day that time.Parse accepts. */
  predicate Valid(t: Timestamp) {
    && 1 <= t.month <= 12
    && 1 <= t.day <= DaysIn(t.month, t.year)
    && t.hour < 24 && t.minute < 60 && t.second < 60
  }

  /** Days from 0000-01-01 to the date of t. */
  function DayNumber(t: Timestamp): nat
    requires 1 <= t.month <= 12 && 1 <= t.day
  {
    DaysBeforeYear(t.year) + DaysBeforeMonth(t.month, t.year) + t.day - 1
  }

  function SecondOfDay(t: Timestamp): nat {
    (t.hour * 60 + t.minute) * 60 + t.second
  }

  /** The instant of t, in seconds from 0000-01-01T00:00:00 UTC. */
  function Instant(t: Timestamp): nat
    requires 1 <= t.month <= 12 && 1 <= t.day
  {
    DayNumber(t) * 86400 + SecondOfDay(t)
  }

  /** Time.Before: t is an earlier instant than u; an earlier day always is, a later day never. */
  predicate Before(t: Timestamp, u: Timestamp)
    requires Valid(t) && Valid(u)
    ensures DayNumber(t) < DayNumber(u) ==> Before(t, u)
    ensures DayNumber(u) < DayNumber(t) ==> !Before(t, u)
  {
    SecondOfDayBound(t);
    SecondOfDayBound(u);
    Instant(t) < Instant(u)
  }

  /** A day has 86400 seconds. */
  lemma SecondOfDayBound(t: Timestamp)
    requires Valid(t)
    ensures SecondOfDay(t) < 86400
  {
    assert t.hour * 60 + t.minute <= 23 * 60 + 59;
  }

  /** Field-by-field comparison, year first. */
  predicate LexLess(t: Timestamp, u: Timestamp) {
    || t.year < u.year
    || (t.year == u.year && t.month < u.month)
    || (t.year == u.year && t.month == u.month && t.day < u.day)
    || (t.year == u.year && t.month == u.month && t.day == u.day && t.hour < u.hour)
    || (t.year == u.year && t.month == u.month && t.day == u.day && t.hour == u.hour && t.minute < u.minute)
    || (t.year == u.year && t.month == u.month && t.day == u.day && t.hour == u.hour && t.minute == u.minute
        && t.second < u.second)
  }

  // ---------------------------------------------------------------------
  // time.Parse
  // ---------------------------------------------------------------------

  /**
   * time.Parse(Layout, v). The range checks come in Go's order: month,
   * hour, minute and second while the layout is scanned, the day against
   * its month only once the scan is complete.
   */
  function ParseTimestamp(v: string): (r: Result<Timestamp, TimeError>)
    ensures r.Ok? <==> FitsLayout(v) && Valid(Fields(v))
    ensures r.Ok? ==> r.value == Fields(v)
    ensures r.Err? ==> r.error.value == v
    ensures r.Err? && r.error.OutOfRange? ==>
      r.error.field in {"month", "hour", "minute", "second", "day"}
  {
    if !FitsLayout(v) then Err(Unparsable(v))
    else
      var t := Fields(v);
      if t.month < 1 || 12 < t.month then Err(OutOfRange(v, "month"))
      else if 24 <= t.hour then Err(OutOfRange(v, "hour"))
      else if 60 <= t.minute then Err(OutOfRange(v, "minute"))
      else if 60 <= t.second then Err(OutOfRange(v, "second"))
      else if t.day < 1 || t.day > DaysIn(t.month, t.year) then Err(OutOfRange(v, "day"))
      else Ok(t)
  }

  /**
   * The field reported is the first one out of range in the order month,
   * hour, minute, second, day: an impossible day is named only when every
   * time-of-day field is in range.
   */
  lemma ParseTimestampReportOrder(v: string)
    requires FitsLayout(v)
    ensures var t := Fields(v);
      ParseTimestamp(v).Err? && ParseTimestamp(v).error == OutOfRange(v, "day") <==>
        1 <= t.month <= 12 && t.hour < 24 && t.minute < 60 && t.second < 60
        && !(1 <= t.day <= DaysIn(t.month, t.year))
    ensures var t := Fields(v);
      (ParseTimestamp(v).Err? && ParseTimestamp(v).error == OutOfRange(v, "month")) <==> !(1 <= t.month <= 12)
  {
  }

  // ---------------------------------------------------------------------
  // Formatting: the inverse of ParseTimestamp
  // ---------------------------------------------------------------------

  /** Time.Format(Layout): every field zero-padded to its width. */
  function Format(t: Timestamp): (v: string)
    requires t.year < 10000 && t.month < 100 && t.day < 100
    requires t.hour < 100 && t.minute < 100 && t.second < 100
    ensures |v| == 19
  {
    [DigitChar(t.year / 1000), DigitChar(t.year / 100 % 10), DigitChar(t.year / 10 % 10), DigitChar(t.year % 10),
     '-', DigitChar(t.month / 10), DigitChar(t.month % 10),
     '-', DigitChar(t.day / 10), DigitChar(t.day % 10),
     'T', DigitChar(t.hour / 10), DigitChar(t.hour % 10),
     ':', DigitChar(t.minute / 10), DigitChar(t.minute % 10),
     ':', DigitChar(t.second / 10), DigitChar(t.second % 10)]
  }

  lemma TwoDigits(n: nat)
    requires n < 100
    ensures n / 10 * 10 + n % 10 == n
  {
  }

  lemma FourDigits(n: nat)
    requires n < 10000
    ensures ((n / 1000 * 10 + n / 100 % 10) * 10 + n / 10 % 10) * 10 + n % 10 == n
  {
    assert n / 1000 * 10 + n / 100 % 10 == n / 100;
    assert n / 100 * 10 + n / 10 % 10 == n / 10;
  }

  /** A formatted time has the digits and separators of the layout. */
  lemma FormatFits(t: Timestamp)
    requires t.year < 10000 && t.month < 100 && t.day < 100
    requires t.hour < 100 && t.minute < 100 && t.second < 100
    ensures FitsLayout(Format(t))
  {
    var v := Format(t);
    forall i | 0 <= i < 19 ensures CharFits(v[i], LayoutChar(i)) {
    }
  }

  /** A formatted time fits the layout and reads back as the same fields. */
  lemma FormatFields(t: Timestamp)
    requires t.year < 10000 && t.month < 100 && t.day < 100
    requires t.hour < 100 && t.minute < 100 && t.second < 100
    ensures FitsLayout(Format(t))
    ensures Fields(Format(t)) == t
  {
    FormatFits(t);
    var v := Format(t);
    assert Digit(v, 0) == t.year / 1000 && Digit(v, 1) == t.year / 100 % 10;
    assert Digit(v, 2) == t.year / 10 % 10 && Digit(v, 3) == t.year % 10;
    FourDigits(t.year);
    TwoDigits(t.month);
    TwoDigits(t.day);
    TwoDigits(t.hour);
    TwoDigits(t.minute);
    TwoDigits(t.second);
  }

  /** Parsing undoes formatting for every valid time with a four-digit year. */
  lemma ParseFormat(t: Timestamp)
    requires Valid(t) && t.year < 10000
    ensures ParseTimestamp(Format(t)) == Ok(t)
  {
    FormatFields(t);
  }

  /** Formatting undoes parsing. */
  lemma FormatParse(v: string)
    requires ParseTimestamp(v).Ok?
    ensures Format(ParseTimestamp(v).value) == v
  {
    var t := Fields(v);
    FormatFields(t);
    var w := Format(t);
    forall i | 0 <= i < 19 ensures w[i] == v[i] {
      assert CharFits(v[i], LayoutChar(i)) && CharFits(w[i], LayoutChar(i));
      if LayoutChar(i) == 'D' {
        DigitsAgree(v, w, i);
      }
    }
  }

  /** Two values that fit the layout and have the same fields have the same digits. */
  lemma DigitsAgree(v: string, w: string, i: nat)
    requires FitsLayout(v) && FitsLayout(w) && Fields(v) == Fields(w)
    requires i < 19 && LayoutChar(i) == 'D'
    ensures v[i] == w[i]
  {
    assert CharFits(v[i], 'D') && CharFits(w[i], 'D');
    assert Digit(v, i) == Digit(w, i) by {
      PositionalDigits(v);
      PositionalDigits(w);
    }
  }

  lemma TwoDigitSplit(a: nat, b: nat)
    requires a < 10 && b < 10
    ensures (a * 10 + b) / 10 == a && (a * 10 + b) % 10 == b
  {
  }

  lemma FourDigitSplit(a: nat, b: nat, c: nat, d: nat)
    requires a < 10 && b < 10 && c < 10 && d < 10
    ensures var n := ((a * 10 + b) * 10 + c) * 10 + d;
      n / 1000 == a && n / 100 % 10 == b && n / 10 % 10 == c && n % 10 == d
  {
    var n := ((a * 10 + b) * 10 + c) * 10 + d;
    assert n / 10 == (a * 10 + b) * 10 + c;
    assert n / 100 == a * 10 + b;
    assert n / 1000 == a;
  }

  /** Each digit of a value that fits the layout is determined by its field. */
  lemma PositionalDigits(v: string)
    requires FitsLayout(v)
    ensures var t := Fields(v);
      && Digit(v, 0) == t.year / 1000 && Digit(v, 1) == t.year / 100 % 10
      && Digit(v, 2) == t.year / 10 % 10 && Digit(v, 3) == t.year % 10
      && Digit(v, 5) == t.month / 10 && Digit(v, 6) == t.month % 10
      && Digit(v, 8) == t.day / 10 && Digit(v, 9) == t.day % 10
      && Digit(v, 11) == t.hour / 10 && Digit(v, 12) == t.hour % 10
      && Digit(v, 14) == t.minute / 10 && Digit(v, 15) == t.minute % 10
      && Digit(v, 17) == t.second / 10 && Digit(v, 18) == t.second % 10
  {
    assert CharFits(v[0], LayoutChar(0)) && CharFits(v[1], LayoutChar(1));
    assert CharFits(v[2], LayoutChar(2)) && CharFits(v[3], LayoutChar(3));
    assert CharFits(v[5], LayoutChar(5)) && CharFits(v[6], LayoutChar(6));
    assert CharFits(v[8], LayoutChar(8)) && CharFits(v[9], LayoutChar(9));
    assert CharFits(v[11], LayoutChar(11)) && CharFits(v[12], LayoutChar(12));
    assert CharFits(v[14], LayoutChar(14)) && CharFits(v[15], LayoutChar(15));
    assert CharFits(v[17], LayoutChar(17)) && CharFits(v[18], LayoutChar(18));
    FourDigitSplit(Digit(v, 0), Digit(v, 1), Digit(v, 2), Digit(v, 3));
    TwoDigitSplit(Digit(v, 5), Digit(v, 6));
    TwoDigitSplit(Digit(v, 8), Digit(v, 9));
    TwoDigitSplit(Digit(v, 11), Digit(v, 12));
    TwoDigitSplit(Digit(v, 14), Digit(v, 15));
    TwoDigitSplit(Digit(v, 17), Digit(v, 18));
  }

  // ---------------------------------------------------------------------
  // Time.Before is the field-by-field order
  // ---------------------------------------------------------------------

  /** Every year is at least as long as the years before it need to fit. */
  lemma {:induction false} DaysBeforeYearGrows(y1: nat, y2: nat)
    requires y1 < y2
    ensures DaysBeforeYear(y1) + YearLength(y1) <= DaysBeforeYear(y2)
    decreases y2
  {
    if y1 + 1 < y2 {
      DaysBeforeYearGrows(y1, y2 - 1);
    }
  }

  lemma {:induction false} DaysBeforeMonthGrows(m1: nat, m2: nat, year: nat)
    requires 1 <= m1 < m2 <= 13
    ensures DaysBeforeMonth(m1, year) + DaysIn(m1, year) <= DaysBeforeMonth(m2, year)
    decreases m2
  {
    if m1 + 1 < m2 {
      DaysBeforeMonthGrows(m1, m2 - 1, year);
    }
  }

  /** The twelve months make up the year. */
  lemma MonthsFillYear(year: nat)
    ensures DaysBeforeMonth(13, year) == YearLength(year)
  {
    assert DaysBeforeMonth(2, year) == 31;
    assert DaysBeforeMonth(3, year) == 31 + DaysIn(2, year);
    assert DaysBeforeMonth(4, year) == DaysBeforeMonth(3, year) + 31;
    assert DaysBeforeMonth(5, year) == DaysBeforeMonth(3, year) + 61;
    assert DaysBeforeMonth(6, year) == DaysBeforeMonth(3, year) + 92;
    assert DaysBeforeMonth(7, year) == DaysBeforeMonth(3, year) + 122;
    assert DaysBeforeMonth(8, year) == DaysBeforeMonth(3, year) + 153;
    assert DaysBeforeMonth(9, year) == DaysBeforeMonth(3, year) + 184;
    assert DaysBeforeMonth(10, year) == DaysBeforeMonth(3, year) + 214;
    assert DaysBeforeMonth(11, year) == DaysBeforeMonth(3, year) + 245;
    assert DaysBeforeMonth(12, year) == DaysBeforeMonth(3, year) + 275;
  }

  /** A valid date lies inside its year. */
  lemma DayInYear(t: Timestamp)
    requires Valid(t)
    ensures DaysBeforeYear(t.year) <= DayNumber(t) < DaysBeforeYear(t.year) + YearLength(t.year)
  {
    MonthsFillYear(t.year);
    if t.month < 12 {
      DaysBeforeMonthGrows(t.month, 13, t.year);
    }
  }

  /** Day numbers follow the order of (year, month, day). */
  lemma DayNumberOrder(t: Timestamp, u: Timestamp)
    requires Valid(t) && Valid(u)
    ensures DayNumber(t) < DayNumber(u) <==>
      || t.year < u.year
      || (t.year == u.year && t.month < u.month)
      || (t.year == u.year && t.month == u.month && t.day < u.day)
  {
    DayInYear(t);
    DayInYear(u);
    if t.year < u.year {
      DaysBeforeYearGrows(t.year, u.year);
    } else if u.year < t.year {
      DaysBeforeYearGrows(u.year, t.year);
    } else if t.month < u.month {
      DaysBeforeMonthGrows(t.month, u.month, t.year);
    } else if u.month < t.month {
      DaysBeforeMonthGrows(u.month, t.month, t.year);
    }
  }

  /** Before compares two valid times field by field, year first. */
  lemma BeforeIsLexicographic(t: Timestamp, u: Timestamp)
    requires Valid(t) && Valid(u)
    ensures Before(t, u) <==> LexLess(t, u)
  {
    DayNumberOrder(t, u);
    DayNumberOrder(u, t);
    assert SecondOfDay(t) < 86400 && SecondOfDay(u) < 86400;
    if DayNumber(t) == DayNumber(u) {
      assert t.year == u.year && t.month == u.month && t.day == u.day;
    }
  }
}

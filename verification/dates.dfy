/** Calendar dates as Python's `datetime.date` sees them (proleptic
    Gregorian), with the three operations the booking code performs on them:
    `first_day_next_month`, `date + timedelta(days=n)`, and the
    `"%Y-%m-%d"` text form written by `strftime` and read by `strptime`. */
module Dates {
  import opened Common

  datatype Date = Date(year: int, month: int, day: int) {
    predicate Valid() {
      && year >= 1
      && 1 <= month <= 12
      && 1 <= day <= DaysInMonth(year, month)
    }
  }

  /** A date Python could construct (the year-9999 ceiling is not modelled). */
  type CalendarDate = d: Date | d.Valid() witness Date(1, 1, 1)

  predicate IsLeap(y: int) {
    y % 4 == 0 && (y % 100 != 0 || y % 400 == 0)
  }

  function DaysInMonth(y: int, m: int): int
    requires 1 <= m <= 12
  {
    if m == 2 then (if IsLeap(y) then 29 else 28)
    else if m == 4 || m == 6 || m == 9 || m == 11 then 30
    else 31
  }

  // ---------------------------------------------------------------------------
  // Ordering
  // ---------------------------------------------------------------------------

  /** Chronological order: `a < b` on Python dates. */
  predicate Before(a: Date, b: Date) {
    || a.year < b.year
    || (a.year == b.year && a.month < b.month)
    || (a.year == b.year && a.month == b.month && a.day < b.day)
  }

  /** `a <= b` on Python dates. */
  predicate AtOrBefore(a: Date, b: Date) {
    a == b || Before(a, b)
  }

  lemma BeforeTransitive(a: Date, b: Date, c: Date)
    requires Before(a, b) && Before(b, c)
    ensures Before(a, c)
  {
  }

  lemma BeforeIrreflexive(a: Date)
    ensures !Before(a, a)
  {
  }

  // ---------------------------------------------------------------------------
  // core/models.py: first_day_next_month
  // ---------------------------------------------------------------------------

  /** The first of the month after the month of `d`. */
  function FirstDayNextMonth(d: CalendarDate): (r: CalendarDate)
    ensures r.day == 1
    ensures d.month == 12 ==> r.year == d.year + 1 && r.month == 1
    ensures d.month != 12 ==> r.year == d.year && r.month == d.month + 1
    ensures Before(d, r)
  {
    if d.month == 12 then Date(d.year + 1, 1, 1) else Date(d.year, d.month + 1, 1)
  }

  /** No first-of-month date lies strictly between `d` and
      `FirstDayNextMonth(d)`: it is the earliest first-of-month after `d`. */
  lemma FirstDayNextMonthIsEarliest(d: CalendarDate, e: CalendarDate)
    requires e.day == 1 && Before(d, e)
    ensures AtOrBefore(FirstDayNextMonth(d), e)
  {
  }

  // ---------------------------------------------------------------------------
  // date + timedelta(days=n)
  // ---------------------------------------------------------------------------

  /** The calendar day after `d`. */
  function NextDay(d: CalendarDate): (r: CalendarDate)
    ensures Before(d, r)
  {
    if d.day < DaysInMonth(d.year, d.month) then Date(d.year, d.month, d.day + 1)
    else if d.month < 12 then Date(d.year, d.month + 1, 1)
    else Date(d.year + 1, 1, 1)
  }

  /** Nothing valid lies strictly between a day and the next one. */
  lemma NextDayIsImmediate(d: CalendarDate, e: CalendarDate)
    ensures !(Before(d, e) && Before(e, NextDay(d)))
  {
  }

  /** `d + timedelta(days=n)`. */
  function AddDays(d: CalendarDate, n: nat): CalendarDate
    decreases n
  {
    if n == 0 then d else AddDays(NextDay(d), n - 1)
  }

  /** Adding more days gives a strictly later date. */
  lemma {:induction false} AddDaysStrictlyIncreasing(d: CalendarDate, i: nat, j: nat)
    requires i < j
    ensures Before(AddDays(d, i), AddDays(d, j))
    decreases i
  {
    if i == 0 {
      AddDaysAtOrAfter(NextDay(d), j - 1);
      if AddDays(NextDay(d), j - 1) != NextDay(d) {
        BeforeTransitive(d, NextDay(d), AddDays(NextDay(d), j - 1));
      }
    } else {
      AddDaysStrictlyIncreasing(NextDay(d), i - 1, j - 1);
    }
  }

  lemma {:induction false} AddDaysAtOrAfter(d: CalendarDate, n: nat)
    ensures AtOrBefore(d, AddDays(d, n))
    decreases n
  {
    if n > 0 {
      AddDaysAtOrAfter(NextDay(d), n - 1);
      if AddDays(NextDay(d), n - 1) != NextDay(d) {
        BeforeTransitive(d, NextDay(d), AddDays(NextDay(d), n - 1));
      }
    }
  }

  /** Different offsets give different days. */
  lemma AddDaysInjective(d: CalendarDate, i: nat, j: nat)
    requires i != j
    ensures AddDays(d, i) != AddDays(d, j)
  {
    if i < j {
      AddDaysStrictlyIncreasing(d, i, j);
    } else {
      AddDaysStrictlyIncreasing(d, j, i);
    }
  }

  // ---------------------------------------------------------------------------
  // "%Y-%m-%d": strftime and strptime
  // ---------------------------------------------------------------------------

  /** `%Y`: the year in at least four digits, zero-padded. */
  function Pad4(n: nat): (s: string)
    ensures |s| >= 4 && AllDigits(s)
    ensures n < 10000 ==> |s| == 4
  {
    if n < 10000 then
      [DigitChar(n / 1000), DigitChar(n / 100 % 10), DigitChar(n / 10 % 10), DigitChar(n % 10)]
    else Pad4(n / 10) + [DigitChar(n % 10)]
  }

  /** `d.strftime("%Y-%m-%d")`. */
  function FormatIsoDate(d: CalendarDate): string {
    Pad4(d.year) + "-" + Pad2(d.month) + "-" + Pad2(d.day)
  }

  /** The `%m` directive of `strptime`: one of `1[0-2]`, `0[1-9]`, `[1-9]`,
      which must take up the whole text between the two dashes. */
  function MonthToken(t: string): Option<int> {
    if |t| == 2 && t[0] == '1' && '0' <= t[1] <= '2' then Some(10 + DigitValue(t[1]))
    else if |t| == 2 && t[0] == '0' && '1' <= t[1] <= '9' then Some(DigitValue(t[1]))
    else if |t| == 1 && '1' <= t[0] <= '9' then Some(DigitValue(t[0]))
    else None
  }

  /** The `%d` directive of `strptime`: one of `3[01]`, `[12]\d`, `0[1-9]`,
      `[1-9]`, ` [1-9]`; the text after the second dash must be exactly the
      part the first matching alternative consumes (otherwise "unconverted
      data remains"). */
  function DayToken(t: string): Option<int> {
    if |t| == 2 && t[0] == '3' && '0' <= t[1] <= '1' then Some(30 + DigitValue(t[1]))
    else if |t| == 2 && '1' <= t[0] <= '2' && IsDigit(t[1]) then Some(DigitValue(t[0]) * 10 + DigitValue(t[1]))
    else if |t| == 2 && t[0] == '0' && '1' <= t[1] <= '9' then Some(DigitValue(t[1]))
    else if |t| == 1 && '1' <= t[0] <= '9' then Some(DigitValue(t[0]))
    else if |t| == 2 && t[0] == ' ' && '1' <= t[1] <= '9' then Some(DigitValue(t[1]))
    else None
  }

  /** `datetime.strptime(s, "%Y-%m-%d").date()`, with `None` for the
      `ValueError` it raises: a bad shape, year 0, or a day past the end of
      its month. */
  function ParseIsoDate(s: string): (r: Option<CalendarDate>)
    ensures r.Some? ==> |s| >= 8 && s[4] == '-' && AllDigits(s[..4]) && r.value.year == DigitsValue(s[..4])
  {
    if |s| < 8 || !AllDigits(s[..4]) || s[4] != '-' then None
    else
      var rest := s[5..];
      var k := if rest[1] == '-' then 1 else if |rest| > 3 && rest[2] == '-' then 2 else 0;
      if k == 0 then None
      else
        match (MonthToken(rest[..k]), DayToken(rest[k + 1..]))
        case (Some(m), Some(dd)) =>
          var y := DigitsValue(s[..4]);
          if y >= 1 && dd <= DaysInMonth(y, m) then Some(Date(y, m, dd)) else None
        case _ => None
  }

  lemma Pad4Value(n: nat)
    requires n < 10000
    ensures DigitsValue(Pad4(n)) == n
  {
    var s := Pad4(n);
    assert s[..3][..2] == s[..2] && s[..2][..1] == s[..1] && s[..1][..0] == [];
    assert DigitsValue(s[..1]) == n / 1000;
    assert DigitsValue(s[..2]) == n / 1000 * 10 + n / 100 % 10 == n / 100;
    assert DigitsValue(s[..3]) == n / 100 * 10 + n / 10 % 10 == n / 10;
    assert s == s[..4];
  }

  lemma MonthTokenOfPad2(m: nat)
    requires 1 <= m <= 12
    ensures MonthToken(Pad2(m)) == Some(m)
  {
  }

  lemma DayTokenOfPad2(d: nat)
    requires 1 <= d <= 31
    ensures DayToken(Pad2(d)) == Some(d)
  {
  }

  /** `ParseIsoDate` on any ten-character text laid out as
      `yyyy-mm-dd` with readable parts. */
  lemma ParseOfLayout(s: string, y: int, m: int, dd: int)
    requires |s| == 10 && AllDigits(s[..4]) && s[4] == '-' && s[7] == '-'
    requires IsDigit(s[6])
    requires y == DigitsValue(s[..4]) && y >= 1
    requires MonthToken(s[5..7]) == Some(m) && DayToken(s[8..]) == Some(dd)
    requires 1 <= m <= 12 && dd <= DaysInMonth(y, m)
    ensures ParseIsoDate(s) == Some(Date(y, m, dd))
  {
    var rest := s[5..];
    assert rest[1] == s[6] && rest[2] == s[7];
    assert rest[..2] == s[5..7] && rest[3..] == s[8..];
  }

  /** Reading back a formatted date gives the same date. */
  lemma FormatThenParse(d: CalendarDate)
    requires d.year <= 9999
    ensures ParseIsoDate(FormatIsoDate(d)) == Some(d)
  {
    var y := Pad4(d.year);
    var m := Pad2(d.month);
    var dd := Pad2(d.day);
    var s := FormatIsoDate(d);
    assert s == y + "-" + m + "-" + dd;
    assert s[..4] == y;
    assert s[5..7] == m;
    assert s[8..] == dd;
    assert s[6] == m[1];
    Pad4Value(d.year);
    MonthTokenOfPad2(d.month);
    DayTokenOfPad2(d.day);
    ParseOfLayout(s, d.year, d.month, d.day);
  }
}

/**
 * Gregorian calendar arithmetic on plain (year, month, day) integers, and the
 * part of JavaScript's `Date` that the event pages use: the weekday of
 * `new Date(year, monthIndex, day, 12, 0, 0)`.
 */
module Calendar {

  predicate IsLeapYear(y: int) {
    (y % 4 == 0 && y % 100 != 0) || y % 400 == 0
  }

  function DaysInMonth(y: int, m: int): (n: int)
    requires 1 <= m <= 12
    ensures 28 <= n <= 31
  {
    if m == 2 then (if IsLeapYear(y) then 29 else 28)
    else if m == 4 || m == 6 || m == 9 || m == 11 then 30
    else 31
  }

  predicate ValidDate(y: int, m: int, d: int) {
    1 <= m <= 12 && 1 <= d <= DaysInMonth(y, m)
  }

  datatype Date = Date(year: int, month: int, day: int)

  /** Chronological order of dates: by year, then month, then day. */
  predicate Before(a: Date, b: Date) {
    a.year < b.year || (a.year == b.year && (a.month < b.month || (a.month == b.month && a.day < b.day)))
  }

  /** The calendar day after a valid date. */
  function NextDay(y: int, m: int, d: int): (r: Date)
    requires ValidDate(y, m, d)
    ensures ValidDate(r.year, r.month, r.day)
  {
    if d < DaysInMonth(y, m) then Date(y, m, d + 1)
    else if m < 12 then Date(y, m + 1, 1)
    else Date(y + 1, 1, 1)
  }

  /** Sakamoto's month offsets. */
  const MonthOffset: seq<int> := [0, 3, 2, 5, 0, 3, 5, 1, 4, 6, 2, 4]

  /** Days contributed by the years before `y` (up to a multiple of 7). */
  function YearTerm(y: int): int {
    y + y / 4 - y / 100 + y / 400
  }

  /**
   * The Gregorian weekday of y-m-d, Sunday = 0 ... Saturday = 6. The day may lie
   * outside the month: it then counts on from the month's first day, as `Date` does.
   */
  function DayOfWeek(y: int, m: int, d: int): (w: int)
    requires 1 <= m <= 12
    ensures 0 <= w < 7
  {
    WeekdaySum(y, m, d) % 7
  }

  /** A year contributes one day of weekday shift, two if it is a leap year. */
  lemma YearTermStep(y: int)
    ensures YearTerm(y) - YearTerm(y - 1) == if IsLeapYear(y) then 2 else 1
  {
    DivStep4(y);
    DivStep100(y);
    DivStep400(y);
    CenturyFacts(y);
  }

  lemma DivStep4(y: int)
    ensures y / 4 - (y - 1) / 4 == if y % 4 == 0 then 1 else 0
  {
  }

  lemma DivStep100(y: int)
    ensures y / 100 - (y - 1) / 100 == if y % 100 == 0 then 1 else 0
  {
  }

  lemma DivStep400(y: int)
    ensures y / 400 - (y - 1) / 400 == if y % 400 == 0 then 1 else 0
  {
  }

  lemma CenturyFacts(y: int)
    ensures y % 100 == 0 ==> y % 4 == 0
    ensures y % 400 == 0 ==> y % 100 == 0
  {
  }

  /** The weekday sum of y-m-d before the final reduction mod 7. */
  function WeekdaySum(y: int, m: int, d: int): int
    requires 1 <= m <= 12
  {
    var yy := if m < 3 then y - 1 else y;
    YearTerm(yy) + MonthOffset[m - 1] + d
  }

  lemma ModSevenStep(a: int, b: int, k: int)
    requires b == a + 1 + 7 * k
    ensures b % 7 == (a % 7 + 1) % 7
  {
  }

  /** Each calendar day is the weekday after the previous one, across month and year ends. */
  lemma DayOfWeekAdvances(y: int, m: int, d: int)
    requires ValidDate(y, m, d)
    ensures var n := NextDay(y, m, d);
            DayOfWeek(n.year, n.month, n.day) == (DayOfWeek(y, m, d) + 1) % 7
  {
    var n := NextDay(y, m, d);
    var a := WeekdaySum(y, m, d);
    var b := WeekdaySum(n.year, n.month, n.day);
    if d < DaysInMonth(y, m) {
      ModSevenStep(a, b, 0);
    } else if m == 2 {
      YearTermStep(y);
      ModSevenStep(a, b, -4);
    } else if m == 12 {
      ModSevenStep(a, b, -5);
    } else if m == 1 {
      ModSevenStep(a, b, -4);
    } else {
      var k := (MonthOffset[m] - MonthOffset[m - 1] - DaysInMonth(y, m)) / 7;
      ModSevenStep(a, b, k);
    }
  }

  /** Anchors: 1 February 2026 is a Sunday and 1 January 2025 a Wednesday. */
  lemma KnownWeekdays()
    ensures DayOfWeek(2026, 2, 1) == 0
    ensures DayOfWeek(2025, 1, 1) == 3
  {
  }

  /** `new Date(2026, 1, 1, 12, 0, 0).getDay()` is 0, a Sunday. */
  lemma KnownNoonWeekday()
    ensures LocalNoonWeekday(2026, 1, 1) == 0
  {
    assert DateArgs(2026, 1) == (2026, 2);
    KnownWeekdays();
  }

  /**
   * The year, month and day `new Date(year, monthIndex, day, ...)` stands for:
   * years 0 to 99 are read as 1900 to 1999, and a month index outside 0..11
   * carries into the year.
   */
  function DateArgs(year: int, monthIndex: int): (r: (int, int))
    ensures 1 <= r.1 <= 12
  {
    var fullYear := if 0 <= year <= 99 then 1900 + year else year;
    (fullYear + monthIndex / 12, monthIndex % 12 + 1)
  }

  /** `new Date(year, monthIndex, day, 12, 0, 0).getDay()`. */
  function LocalNoonWeekday(year: int, monthIndex: int, day: int): (w: int)
    ensures 0 <= w < 7
  {
    var (y, m) := DateArgs(year, monthIndex);
    DayOfWeek(y, m, day)
  }

  /** For a valid date with a year past 99 the `Date` weekday is the calendar weekday. */
  lemma LocalNoonWeekdayOfValidDate(y: int, m: int, d: int)
    requires ValidDate(y, m, d) && (y < 0 || y > 99)
    ensures LocalNoonWeekday(y, m - 1, d) == DayOfWeek(y, m, d)
  {
  }

  /** Days from the first of March of year 0 to the first of month `m`, March-based. */
  function MonthStart(m: int): int
    requires 1 <= m <= 12
  {
    var mp := if m > 2 then m - 3 else m + 9;
    (153 * mp + 2) / 5
  }

  /**
   * The number of days from 1 January 1970 to y-m-d, negative before it. As in
   * `DayOfWeek`, the day may lie outside the month and then counts on from the
   * month's first day.
   */
  function DayNumber(y: int, m: int, d: int): int
    requires 1 <= m <= 12
  {
    var yy := if m < 3 then y - 1 else y;
    364 * yy + YearTerm(yy) + MonthStart(m) + d - 1 - 719468
  }

  /** Consecutive calendar days have consecutive day numbers. */
  lemma DayNumberAdvances(y: int, m: int, d: int)
    requires ValidDate(y, m, d)
    ensures var n := NextDay(y, m, d);
            DayNumber(n.year, n.month, n.day) == DayNumber(y, m, d) + 1
  {
    if d == DaysInMonth(y, m) && m == 2 {
      YearTermStep(y);
    }
  }

  lemma MonthStartOffsets()
    ensures forall m | 1 <= m <= 12 :: (MonthStart(m) - MonthOffset[m - 1]) % 7 == 5
  {
  }

  /** Sakamoto's weekday is the weekday counted from 1 January 1970, a Thursday. */
  lemma DayOfWeekOfDayNumber(y: int, m: int, d: int)
    requires 1 <= m <= 12
    ensures DayOfWeek(y, m, d) == (DayNumber(y, m, d) + 4) % 7
  {
    MonthStartOffsets();
    var k := (MonthStart(m) - MonthOffset[m - 1] - 5) / 7;
    var yy := if m < 3 then y - 1 else y;
    assert DayNumber(y, m, d) + 4 == WeekdaySum(y, m, d) + 7 * (52 * yy + k - 102780);
  }

  const SecondsPerDay: int := 86400
  const Noon: int := 43200

  /**
   * The instant, in seconds since the epoch, of second `second` of day number `n`
   * on the wall clock of a zone `offset` seconds ahead of UTC.
   */
  function Instant(n: int, second: int, offset: int): int {
    n * SecondsPerDay + second - offset
  }

  /** The day number instant `t` falls on in a zone `offset` seconds ahead of UTC. */
  function LocalDay(t: int, offset: int): int {
    (t + offset) / SecondsPerDay
  }

  /** `getDay()` of instant `t` in a zone `offset` seconds ahead of UTC. */
  function GetDay(t: int, offset: int): (w: int)
    ensures 0 <= w < 7
  {
    (LocalDay(t, offset) + 4) % 7
  }

  /**
   * The local noon of day `n` built in one zone, read back in any zone less than
   * twelve hours away, still falls on day `n`: building the date at noon keeps
   * such a shift from moving the calendar day.
   */
  lemma NoonSurvivesZoneShift(n: int, offset: int, offset2: int)
    requires -Noon < offset2 - offset < Noon
    ensures LocalDay(Instant(n, Noon, offset), offset2) == n
  {
    assert Instant(n, Noon, offset) + offset2 == n * SecondsPerDay + (Noon + offset2 - offset);
  }

  /** At UTC midnight instead, a zone three hours behind reads the previous day. */
  lemma MidnightShiftsDay(n: int)
    ensures LocalDay(Instant(n, 0, 0), -3 * 3600) == n - 1
  {
    assert Instant(n, 0, 0) - 3 * 3600 == (n - 1) * SecondsPerDay + (SecondsPerDay - 3 * 3600);
  }

  /**
   * `new Date(year, monthIndex, day, 12, 0, 0)` built in a zone `offset` seconds
   * ahead of UTC has, read with `getDay()` in any zone less than twelve hours away,
   * the weekday `LocalNoonWeekday` gives.
   */
  lemma NoonGetDay(year: int, monthIndex: int, day: int, offset: int, offset2: int)
    requires -Noon < offset2 - offset < Noon
    ensures var (y, m) := DateArgs(year, monthIndex);
            GetDay(Instant(DayNumber(y, m, day), Noon, offset), offset2) == LocalNoonWeekday(year, monthIndex, day)
  {
    var (y, m) := DateArgs(year, monthIndex);
    NoonSurvivesZoneShift(DayNumber(y, m, day), offset, offset2);
    DayOfWeekOfDayNumber(y, m, day);
  }

  /**
   * `new Date("YYYY-MM-DD")` is UTC midnight; read with `getDay()` three hours
   * behind UTC it gives the weekday before the calendar's.
   */
  lemma UtcMidnightGetDay(y: int, m: int, d: int)
    requires 1 <= m <= 12
    ensures GetDay(Instant(DayNumber(y, m, d), 0, 0), -3 * 3600) == (DayOfWeek(y, m, d) + 6) % 7
  {
    MidnightShiftsDay(DayNumber(y, m, d));
    DayOfWeekOfDayNumber(y, m, d);
  }
}

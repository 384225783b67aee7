/**
 * Proleptic Gregorian calendar arithmetic, standing in for the date library
 * the calendar relies on (`addDays`, `addWeeks`, `addMonths`, `startOfWeek`,
 * `startOfMonth`, ...). A calendar day is a civil date; `DayNumber` counts
 * days from 1 January of year 0, which makes day arithmetic plain integer
 * arithmetic. Years are astronomical (year 0 exists and is a leap year).
 */
module Dates {

  /** A civil date; `month` is 1-based (January is 1), unlike JavaScript's `Date`. */
  datatype Date = Date(year: int, month: int, day: int) {
    predicate Valid() {
      1 <= month <= 12 && 1 <= day <= DaysInMonth(year, month)
    }
  }

  /** The dates that exist on the calendar. */
  type ValidDate = d: Date | d.Valid() witness Date(2000, 1, 1)

  const MinutesPerDay: int := 1440

  /** A minute of the day, 00:00 through 23:59. */
  type MinuteOfDay = m: int | 0 <= m < MinutesPerDay

  /** A local date and wall-clock time to the minute (a JavaScript `Date` without seconds or time zone). */
  datatype DateTime = DateTime(date: ValidDate, minute: MinuteOfDay)

  predicate IsLeapYear(y: int) {
    y % 4 == 0 && (y % 100 != 0 || y % 400 == 0)
  }

  function DaysInMonth(y: int, m: int): (n: int)
    requires 1 <= m <= 12
    ensures 28 <= n <= 31
    ensures m == 2 ==> (n == 29 <==> IsLeapYear(y))
  {
    if m == 2 then (if IsLeapYear(y) then 29 else 28)
    else if m == 4 || m == 6 || m == 9 || m == 11 then 30
    else 31
  }

  function DaysInYear(y: int): int {
    if IsLeapYear(y) then 366 else 365
  }

  /** Days of year `y` that come before the first of month `m`. */
  function DaysBeforeMonth(y: int, m: int): int
    requires 1 <= m <= 12
  {
    [0, 31, 59, 90, 120, 151, 181, 212, 243, 273, 304, 334][m - 1]
    + (if m > 2 && IsLeapYear(y) then 1 else 0)
  }

  /**
   * Days from 1 January of year 0 to 1 January of year `y`. The three
   * divisions count the leap years in [0, y) (negatively when `y < 0`).
   */
  function DaysBeforeYear(y: int): int {
    365 * y + (y + 3) / 4 - (y + 99) / 100 + (y + 399) / 400
  }

  /** Days since 1 January of year 0 (a Saturday). */
  function DayNumber(d: ValidDate): int {
    DaysBeforeYear(d.year) + DaysBeforeMonth(d.year, d.month) + d.day - 1
  }

  /** Absolute minutes since midnight of 1 January of year 0; the order of instants. */
  function Instant(t: DateTime): int {
    DayNumber(t.date) * MinutesPerDay + t.minute
  }

  /** Month `m` of year `y` starts right after month `m - 1` ends. */
  lemma MonthStep(y: int, m: int)
    requires 1 <= m < 12
    ensures DaysBeforeMonth(y, m + 1) == DaysBeforeMonth(y, m) + DaysInMonth(y, m)
  {
  }

  /** December ends the year. */
  lemma DecemberEndsYear(y: int)
    ensures DaysBeforeMonth(y, 12) + DaysInMonth(y, 12) == DaysInYear(y)
  {
  }

  /** Stepping a floor quotient: it grows by one exactly when the divisor divides the new numerator. */
  lemma DivStep(x: int, k: int)
    requires k > 0
    ensures (x + 1) / k == x / k + (if (x + 1) % k == 0 then 1 else 0)
  {
    var q, r := x / k, x % k;
    assert x == k * q + r && 0 <= r < k;
    if r + 1 < k {
      assert x + 1 == k * q + (r + 1);
      DivModUnique(x + 1, k, q, r + 1);
    } else {
      assert x + 1 == k * (q + 1) + 0;
      DivModUnique(x + 1, k, q + 1, 0);
    }
  }

  /** Euclidean quotient and remainder are unique. */
  lemma DivModUnique(x: int, k: int, q: int, r: int)
    requires k > 0 && 0 <= r < k && x == k * q + r
    ensures x / k == q && x % k == r
  {
    var q', r' := x / k, x % k;
    assert x == k * q' + r' && 0 <= r' < k;
    if q' < q {
      MulAtLeast(k, q - q');
    } else if q' > q {
      MulAtLeast(k, q' - q);
    }
  }

  lemma {:induction false} MulAtLeast(k: int, a: int)
    requires k > 0 && a >= 1
    ensures k * a >= k
    decreases a
  {
    if a > 1 {
      MulAtLeast(k, a - 1);
      assert k * a == k * (a - 1) + k;
    }
  }

  /** A year lasts `DaysInYear` days. */
  lemma YearStep(y: int)
    ensures DaysBeforeYear(y + 1) == DaysBeforeYear(y) + DaysInYear(y)
  {
    QuotientStep(y, 4);
    QuotientStep(y, 100);
    QuotientStep(y, 400);
    var step := (y + 4) / 4 - (y + 3) / 4 - (y + 100) / 100 + (y + 99) / 100 + (y + 400) / 400 - (y + 399) / 400;
    assert DaysBeforeYear(y + 1) == DaysBeforeYear(y) + 365 + step;
    assert step == DaysInYear(y) - 365 by {
      if y % 4 != 0 {
        assert y % 100 != 0 && y % 400 != 0 by { DivisorsOfMultiples(y); }
      } else if y % 100 != 0 {
        assert y % 400 != 0 by { DivisorsOfMultiples(y); }
      } else {
      }
    }
  }

  /** A multiple of 100 is a multiple of 4, and a multiple of 400 is a multiple of 100. */
  lemma DivisorsOfMultiples(y: int)
    ensures y % 100 == 0 ==> y % 4 == 0
    ensures y % 400 == 0 ==> y % 100 == 0
  {
    if y % 100 == 0 {
      DivModUnique(y, 4, 25 * (y / 100), 0);
    }
    if y % 400 == 0 {
      DivModUnique(y, 100, 4 * (y / 400), 0);
    }
  }

  /** Among the numbers `y + 1` to `y + k`, `y + k` is the one more multiple of `k` exactly when `k` divides `y`. */
  lemma QuotientStep(y: int, k: int)
    requires k > 0
    ensures (y + k) / k == (y + k - 1) / k + (if y % k == 0 then 1 else 0)
  {
    DivStep(y + k - 1, k);
    ModShift(y, k);
  }

  /** Adding the modulus does not change the remainder. */
  lemma ModShift(x: int, k: int)
    requires k > 0
    ensures (x + k) % k == x % k
  {
    DivModUnique(x + k, k, x / k + 1, x % k);
  }

  /** Later years start later. */
  lemma {:induction false} YearsIncrease(a: int, b: int)
    requires a < b
    ensures DaysBeforeYear(a + 1) <= DaysBeforeYear(b)
    decreases b - a
  {
    if a + 1 < b {
      YearsIncrease(a, b - 1);
      YearStep(b - 1);
    }
  }

  /** Later months of a year start later, after the earlier month has ended. */
  lemma {:induction false} MonthsIncrease(y: int, a: int, b: int)
    requires 1 <= a < b <= 12
    ensures DaysBeforeMonth(y, a) + DaysInMonth(y, a) <= DaysBeforeMonth(y, b)
    decreases b - a
  {
    MonthStep(y, a);
    if a + 1 < b {
      MonthsIncrease(y, a + 1, b);
    }
  }

  /** A date's day number lies within its year. */
  lemma WithinYear(d: ValidDate)
    ensures DaysBeforeYear(d.year) <= DayNumber(d) < DaysBeforeYear(d.year + 1)
  {
    YearStep(d.year);
    DecemberEndsYear(d.year);
    if d.month < 12 {
      MonthsIncrease(d.year, d.month, 12);
    }
  }

  /** Distinct dates have distinct day numbers. */
  lemma DayNumberInjective(a: ValidDate, b: ValidDate)
    requires DayNumber(a) == DayNumber(b)
    ensures a == b
  {
    SameDayNumberSameYear(a, b);
    if a.month < b.month {
      MonthsIncrease(a.year, a.month, b.month);
    } else if b.month < a.month {
      MonthsIncrease(a.year, b.month, a.month);
    }
  }

  /** Dates with the same day number lie in the same year. */
  lemma SameDayNumberSameYear(a: ValidDate, b: ValidDate)
    requires DayNumber(a) == DayNumber(b)
    ensures a.year == b.year
  {
    WithinYear(a);
    WithinYear(b);
    if a.year < b.year {
      YearsIncrease(a.year, b.year);
    } else if b.year < a.year {
      YearsIncrease(b.year, a.year);
    }
  }

  /** The calendar day after `d`. */
  function NextDay(d: ValidDate): (r: ValidDate)
    ensures DayNumber(r) == DayNumber(d) + 1
  {
    if d.day < DaysInMonth(d.year, d.month) then
      Date(d.year, d.month, d.day + 1)
    else if d.month < 12 then
      MonthStep(d.year, d.month);
      Date(d.year, d.month + 1, 1)
    else
      YearStep(d.year);
      DecemberEndsYear(d.year);
      Date(d.year + 1, 1, 1)
  }

  /** The calendar day before `d`. */
  function PrevDay(d: ValidDate): (r: ValidDate)
    ensures DayNumber(r) == DayNumber(d) - 1
  {
    if d.day > 1 then
      Date(d.year, d.month, d.day - 1)
    else if d.month > 1 then
      MonthStep(d.year, d.month - 1);
      Date(d.year, d.month - 1, DaysInMonth(d.year, d.month - 1))
    else
      YearStep(d.year - 1);
      DecemberEndsYear(d.year - 1);
      Date(d.year - 1, 12, 31)
  }

  /** The date `n` days after `d` (before it when `n` is negative); date-fns `addDays`. */
  function AddDays(d: ValidDate, n: int): (r: ValidDate)
    ensures DayNumber(r) == DayNumber(d) + n
    decreases if n >= 0 then n else -n
  {
    if n == 0 then d
    else if n > 0 then AddDays(NextDay(d), n - 1)
    else AddDays(PrevDay(d), n + 1)
  }

  /** Moving `n` days and back again returns to the start. */
  lemma AddDaysRoundTrip(d: ValidDate, n: int)
    ensures AddDays(AddDays(d, n), -n) == d
  {
    DayNumberInjective(AddDays(AddDays(d, n), -n), d);
  }

  /** Day of the week, Sunday = 0 through Saturday = 6. */
  function Weekday(d: ValidDate): (w: int)
    ensures 0 <= w < 7
  {
    (DayNumber(d) + 6) % 7
  }

  /** Moving `n` days moves the weekday by `n` modulo 7. */
  lemma WeekdayAddDays(d: ValidDate, n: int)
    ensures Weekday(AddDays(d, n)) == (Weekday(d) + n) % 7
  {
    ModAdd(DayNumber(d) + 6, n, 7);
  }

  /** The remainder of a sum depends only on the remainder of its first term. */
  lemma ModAdd(x: int, n: int, k: int)
    requires k > 0
    ensures (x + n) % k == (x % k + n) % k
  {
    var q, w := x / k, x % k;
    var q2, w2 := (w + n) / k, (w + n) % k;
    assert x + n == k * (q + q2) + w2;
    DivModUnique(x + n, k, q + q2, w2);
  }

  /** Moving within the same Sunday-to-Saturday week adds `n` to the weekday. */
  lemma WeekdayWithinWeek(d: ValidDate, n: int)
    requires 0 <= Weekday(d) + n < 7
    ensures Weekday(AddDays(d, n)) == Weekday(d) + n
  {
    WeekdayAddDays(d, n);
    DivModUnique(Weekday(d) + n, 7, 0, Weekday(d) + n);
  }

  /** The Sunday on or before `d`; date-fns `startOfWeek` with its default Sunday start. */
  function StartOfWeek(d: ValidDate): (r: ValidDate)
    ensures Weekday(r) == 0
    ensures DayNumber(r) == DayNumber(d) - Weekday(d)
  {
    WeekdayWithinWeek(d, -Weekday(d));
    AddDays(d, -Weekday(d))
  }

  /** The Saturday on or after `d`; date-fns `endOfWeek`. */
  function EndOfWeek(d: ValidDate): (r: ValidDate)
    ensures Weekday(r) == 6
    ensures DayNumber(r) == DayNumber(d) + 6 - Weekday(d)
  {
    WeekdayWithinWeek(d, 6 - Weekday(d));
    AddDays(d, 6 - Weekday(d))
  }

  /** The first of the month: `d.day - 1` days before `d`. */
  function StartOfMonth(d: ValidDate): (r: ValidDate)
    ensures r.year == d.year && r.month == d.month && r.day == 1
    ensures DayNumber(r) == DayNumber(d) - (d.day - 1)
  {
    Date(d.year, d.month, 1)
  }

  function EndOfMonth(d: ValidDate): (r: ValidDate)
    ensures r.year == d.year && r.month == d.month
    ensures NextDay(r).day == 1
  {
    Date(d.year, d.month, DaysInMonth(d.year, d.month))
  }

  /** Months counted from January of year 0. */
  function MonthIndex(d: Date): int {
    d.year * 12 + d.month - 1
  }

  /**
   * The date `n` months after `d` (before it when `n` is negative); date-fns
   * `addMonths`, which clamps the day of the month to the target month's length.
   */
  function AddMonths(d: ValidDate, n: int): (r: ValidDate)
    ensures MonthIndex(r) == MonthIndex(d) + n
    ensures r.day <= d.day
    ensures r.day == d.day <==> d.day <= DaysInMonth(r.year, r.month)
    ensures r.day < d.day ==> r.day == DaysInMonth(r.year, r.month)
  {
    var t := MonthIndex(d) + n;
    var y, m := t / 12, t % 12 + 1;
    var last := DaysInMonth(y, m);
    Date(y, m, if d.day <= last then d.day else last)
  }

  /** The month index determines the year and the month. */
  lemma MonthIndexInjective(a: Date, b: Date)
    requires 1 <= a.month <= 12 && 1 <= b.month <= 12
    requires MonthIndex(a) == MonthIndex(b)
    ensures a.year == b.year && a.month == b.month
  {
    DivModUnique(MonthIndex(a), 12, a.year, a.month - 1);
    DivModUnique(MonthIndex(b), 12, b.year, b.month - 1);
  }

  /**
   * Going forward `n` months and back `n` months restores the date exactly
   * when its day of the month exists in the month reached.
   */
  lemma AddMonthsRoundTrip(d: ValidDate, n: int)
    ensures var there := AddMonths(d, n);
            AddMonths(there, -n) == d <==> d.day <= DaysInMonth(there.year, there.month)
  {
    var there := AddMonths(d, n);
    var back := AddMonths(there, -n);
    MonthIndexInjective(back, d);
  }

  /**
   * setHours/setMinutes on a date: the instant `total` minutes after its
   * midnight; whole days spill over into following dates.
   */
  function SetClock(d: ValidDate, total: nat): (t: DateTime)
    ensures Instant(t) == DayNumber(d) * MinutesPerDay + total
    ensures t.minute == total % MinutesPerDay
  {
    DateTime(AddDays(d, total / MinutesPerDay), total % MinutesPerDay)
  }

  /** `t` moved `k` minutes later. */
  function AddMinutes(t: DateTime, k: nat): (r: DateTime)
    ensures Instant(r) == Instant(t) + k
    ensures r.minute == (t.minute + k) % MinutesPerDay
  {
    SetClock(t.date, t.minute + k)
  }
}

/**
  The proleptic Gregorian calendar on day numbers counted from 1970-01-01,
  as used when a millisecond epoch timestamp is read as a naive UTC instant
  and split into hour, day, ISO week, month, year and weekday.
 */
module Calendar {

  /** A calendar date: month in 1..12, day in 1..DaysInMonth. */
  datatype Date = Date(year: int, month: int, day: int)

  const EpochYear: int := 1970
  const MsPerHour: int := 3600000
  const MsPerDay: int := 86400000

  predicate IsLeap(y: int) {
    y % 4 == 0 && (y % 100 != 0 || y % 400 == 0)
  }

  function DaysInYear(y: int): int {
    if IsLeap(y) then 366 else 365
  }

  function DaysInMonth(y: int, m: int): int
    requires 1 <= m <= 12
  {
    if m == 2 then (if IsLeap(y) then 29 else 28)
    else if m == 4 || m == 6 || m == 9 || m == 11 then 30
    else 31
  }

  predicate ValidDate(d: Date) {
    1 <= d.month <= 12 && 1 <= d.day <= DaysInMonth(d.year, d.month)
  }

  /** The number of leap years among 1..y (for y < 0, minus those among y+1..0). */
  function LeapYearsThrough(y: int): int {
    y / 4 - y / 100 + y / 400
  }

  lemma LeapYearsStep(y: int)
    ensures LeapYearsThrough(y) == LeapYearsThrough(y - 1) + (if IsLeap(y) then 1 else 0)
  {
    DivStep(y, 4);
    DivStep(y, 100);
    DivStep(y, 400);
  }

  lemma DivStep(x: int, k: int)
    requires k == 4 || k == 100 || k == 400
    ensures x / k == (x - 1) / k + (if x % k == 0 then 1 else 0)
  {
  }

  /** Days from 1970-01-01 to January 1 of year y (negative before 1970). */
  function DaysBeforeYear(y: int): int {
    365 * (y - EpochYear) + LeapYearsThrough(y - 1) - LeapYearsThrough(EpochYear - 1)
  }

  /** The closed form counts whole years: it is 0 at the epoch and grows by
      the length of each year. */
  lemma DaysBeforeYearStep(y: int)
    ensures DaysBeforeYear(EpochYear) == 0
    ensures DaysBeforeYear(y + 1) == DaysBeforeYear(y) + DaysInYear(y)
  {
    LeapYearsStep(y);
  }

  /** Every year before b ends no later than b begins. */
  lemma {:induction false} DaysBeforeYearMonotone(a: int, b: int)
    requires a < b
    ensures DaysBeforeYear(a) + DaysInYear(a) <= DaysBeforeYear(b)
    decreases b - a
  {
    DaysBeforeYearStep(a);
    if a + 1 < b {
      DaysBeforeYearMonotone(a + 1, b);
      DaysBeforeYearStep(a + 1);
    }
  }

  /** Days from January 1 to the first day of month m of year y; m == 13 gives the year's length. */
  function DaysBeforeMonth(y: int, m: int): int
    requires 1 <= m <= 13
  {
    (if m > 2 && IsLeap(y) then 1 else 0) +
    (if m == 1 then 0 else if m == 2 then 31 else if m == 3 then 59
     else if m == 4 then 90 else if m == 5 then 120 else if m == 6 then 151
     else if m == 7 then 181 else if m == 8 then 212 else if m == 9 then 243
     else if m == 10 then 273 else if m == 11 then 304 else if m == 12 then 334
     else 365)
  }

  /** The table is the running sum of the month lengths, ending at the year's length. */
  lemma DaysBeforeMonthSum(y: int, m: int)
    requires 1 <= m <= 12
    ensures DaysBeforeMonth(y, 1) == 0
    ensures DaysBeforeMonth(y, m + 1) == DaysBeforeMonth(y, m) + DaysInMonth(y, m)
    ensures DaysBeforeMonth(y, 13) == DaysInYear(y)
  {
  }

  lemma {:induction false} DaysBeforeMonthMonotone(y: int, a: int, b: int)
    requires 1 <= a < b <= 13
    ensures DaysBeforeMonth(y, a) + DaysInMonth(y, a) <= DaysBeforeMonth(y, b)
    decreases b - a
  {
    DaysBeforeMonthSum(y, a);
    if a + 1 < b {
      DaysBeforeMonthMonotone(y, a + 1, b);
      DaysBeforeMonthSum(y, a + 1);
    }
  }

  /** The day number of a date: days since 1970-01-01. */
  function DaysFromCivil(d: Date): int
    requires 1 <= d.month <= 12
  {
    DaysBeforeYear(d.year) + DaysBeforeMonth(d.year, d.month) + d.day - 1
  }

  /** Searches from year y towards the year that contains day number n. */
  function FindYear(y: int, n: int): (r: int)
    ensures DaysBeforeYear(r) <= n < DaysBeforeYear(r) + DaysInYear(r)
    decreases if n < DaysBeforeYear(y) then DaysBeforeYear(y) - n else n - DaysBeforeYear(y)
  {
    DaysBeforeYearStep(y);
    DaysBeforeYearStep(y - 1);
    if n < DaysBeforeYear(y) then
      if DaysBeforeYear(y - 1) <= n then y - 1 else FindYear(y - 1, n)
    else if n < DaysBeforeYear(y) + DaysInYear(y) then y
    else FindYear(y + 1, n)
  }

  /** The year that contains day number n; the search starts from the mean year length. */
  function YearOf(n: int): (y: int)
    ensures DaysBeforeYear(y) <= n < DaysBeforeYear(y) + DaysInYear(y)
  {
    FindYear(EpochYear + n * 400 / 146097, n)
  }

  /** Only one year contains a given day. */
  lemma YearOfUnique(y: int, n: int)
    requires DaysBeforeYear(y) <= n < DaysBeforeYear(y) + DaysInYear(y)
    ensures YearOf(n) == y
  {
    var r := YearOf(n);
    if r < y {
      DaysBeforeYearMonotone(r, y);
    } else if r > y {
      DaysBeforeYearMonotone(y, r);
    }
  }

  /** Scans months from m for the one holding the 0-based day of year o. */
  function FindMonth(y: int, o: int, m: int): (r: int)
    requires 1 <= m <= 12
    requires DaysBeforeMonth(y, m) <= o < DaysInYear(y)
    ensures m <= r <= 12
    ensures DaysBeforeMonth(y, r) <= o < DaysBeforeMonth(y, r) + DaysInMonth(y, r)
    decreases 12 - m
  {
    DaysBeforeMonthSum(y, m);
    if o < DaysBeforeMonth(y, m) + DaysInMonth(y, m) then m
    else FindMonth(y, o, m + 1)
  }

  /** The date of day number n. */
  function CivilFromDays(n: int): (d: Date)
    ensures ValidDate(d)
    ensures DaysFromCivil(d) == n
  {
    var y := YearOf(n);
    DaysBeforeMonthSum(y, 1);
    var m := FindMonth(y, n - DaysBeforeYear(y), 1);
    Date(y, m, n - DaysBeforeYear(y) - DaysBeforeMonth(y, m) + 1)
  }

  /** Every valid date is the date of its own day number, so DaysFromCivil is
      one-to-one on valid dates and CivilFromDays is its inverse. */
  lemma CivilRoundTrip(d: Date)
    requires ValidDate(d)
    ensures CivilFromDays(DaysFromCivil(d)) == d
  {
    var n := DaysFromCivil(d);
    DaysBeforeMonthMonotone(d.year, d.month, 13);
    YearOfUnique(d.year, n);
    var r := CivilFromDays(n);
    if r.month < d.month {
      DaysBeforeMonthMonotone(d.year, r.month, d.month);
    } else if r.month > d.month {
      DaysBeforeMonthMonotone(d.year, d.month, r.month);
    }
  }

  lemma DaysFromCivilInjective(a: Date, b: Date)
    requires ValidDate(a) && ValidDate(b)
    requires DaysFromCivil(a) == DaysFromCivil(b)
    ensures a == b
  {
    CivilRoundTrip(a);
    CivilRoundTrip(b);
  }

  /** Day of the week, Monday = 0 .. Sunday = 6; 1970-01-01 was a Thursday. */
  function Weekday(n: int): (w: int)
    ensures 0 <= w <= 6
  {
    (n + 3) % 7
  }

  /** Weekdays advance by one each day and repeat every seven days. */
  lemma WeekdayNext(n: int)
    ensures Weekday(n + 1) == (Weekday(n) + 1) % 7
    ensures Weekday(n + 7) == Weekday(n)
  {
    var q, r := (n + 3) / 7, Weekday(n);
    assert n + 3 == 7 * q + r;
    assert n + 10 == 7 * (q + 1) + r;
    if r < 6 {
      assert n + 4 == 7 * q + (r + 1);
    } else {
      assert n + 4 == 7 * (q + 1);
    }
  }

  /** 1970-01-01 was a Thursday. */
  lemma EpochWeekday()
    ensures Weekday(DaysFromCivil(Date(EpochYear, 1, 1))) == 3
  {
    DaysBeforeYearStep(EpochYear);
  }

  /** Going back k days within the same Monday-to-Sunday week lowers the weekday by k. */
  lemma WeekdayBack(n: int, k: int)
    requires 0 <= k <= Weekday(n)
    ensures Weekday(n - k) == Weekday(n) - k
  {
    var q := (n + 3) / 7;
    assert n - k + 3 == 7 * q + (Weekday(n) - k);
  }

  /** The Thursday of the Monday-to-Sunday week holding day n. */
  function WeekThursday(n: int): int {
    n - Weekday(n) + 3
  }

  /** The ISO 8601 week-numbering year: the year holding the week's Thursday. */
  function IsoYear(n: int): int {
    YearOf(WeekThursday(n))
  }

  /** The number of the week whose Thursday is day t, counted within t's year. */
  function WeekOfThursday(t: int): (w: int)
    ensures 1 <= w <= 53
  {
    (t - DaysBeforeYear(YearOf(t))) / 7 + 1
  }

  /** The ISO 8601 week number: week 1 is the week holding the year's first Thursday. */
  function IsoWeek(n: int): (w: int)
    ensures 1 <= w <= 53
  {
    WeekOfThursday(WeekThursday(n))
  }

  /** Days Monday to Sunday of one week share their week number and week year. */
  lemma IsoWeekSameWeek(n: int, k: int)
    requires 0 <= k <= 6
    ensures IsoWeek(n - Weekday(n) + k) == IsoWeek(n)
    ensures IsoYear(n - Weekday(n) + k) == IsoYear(n)
  {
    assert Weekday(n - Weekday(n) + k) == k;
    assert WeekThursday(n - Weekday(n) + k) == WeekThursday(n);
  }

  /** January 4 always lies in week 1 of its own year. */
  lemma IsoWeekOfJanuary4(y: int)
    ensures IsoYear(DaysFromCivil(Date(y, 1, 4))) == y
    ensures IsoWeek(DaysFromCivil(Date(y, 1, 4))) == 1
  {
    var n := DaysFromCivil(Date(y, 1, 4));
    YearOfUnique(y, WeekThursday(n));
  }

  /** A week later the week number grows by one, or a new week year starts at week 1. */
  lemma IsoWeekNext(n: int)
    ensures IsoYear(n + 7) == IsoYear(n) ==> IsoWeek(n + 7) == IsoWeek(n) + 1
    ensures IsoYear(n + 7) != IsoYear(n) ==> IsoYear(n + 7) == IsoYear(n) + 1 && IsoWeek(n + 7) == 1
  {
    WeekThursdayNext(n);
    ThursdayAWeekLater(WeekThursday(n));
  }

  /** The Thursday a week later is in the next week of the same year, or in week 1 of the next year. */
  lemma ThursdayAWeekLater(t: int)
    ensures YearOf(t + 7) == YearOf(t) ==> WeekOfThursday(t + 7) == WeekOfThursday(t) + 1
    ensures YearOf(t + 7) != YearOf(t) ==> YearOf(t + 7) == YearOf(t) + 1 && WeekOfThursday(t + 7) == 1
  {
    if t + 7 < DaysBeforeYear(YearOf(t) + 1) {
      SameYearAWeekLater(t);
    } else {
      NextYearAWeekLater(t);
    }
  }

  lemma WeekThursdayNext(n: int)
    ensures WeekThursday(n + 7) == WeekThursday(n) + 7
  {
    WeekdayNext(n);
  }

  lemma SameYearAWeekLater(t: int)
    requires t + 7 < DaysBeforeYear(YearOf(t) + 1)
    ensures YearOf(t + 7) == YearOf(t)
    ensures WeekOfThursday(t + 7) == WeekOfThursday(t) + 1
  {
    DaysBeforeYearStep(YearOf(t));
    YearOfUnique(YearOf(t), t + 7);
  }

  lemma NextYearAWeekLater(t: int)
    requires t + 7 >= DaysBeforeYear(YearOf(t) + 1)
    ensures YearOf(t + 7) == YearOf(t) + 1
    ensures WeekOfThursday(t + 7) == 1
  {
    var y := YearOf(t);
    DaysBeforeYearStep(y);
    DaysBeforeYearStep(y + 1);
    YearOfUnique(y + 1, t + 7);
  }

  /** The 0-based day of the year of day number n. */
  function DayOfYear(n: int): (o: int)
    ensures 0 <= o < DaysInYear(YearOf(n))
  {
    n - DaysBeforeYear(YearOf(n))
  }

  /** The textbook rule: with o the 0-based day of the year and w the weekday,
      (o - w + 10) / 7 is the week number, where 0 means the last week of the
      previous year and a week whose Thursday falls in the next year is week 1. */
  lemma IsoWeekFromOrdinal(n: int)
    ensures var f := (DayOfYear(n) - Weekday(n) + 10) / 7;
            && (f == 0 ==> IsoYear(n) == YearOf(n) - 1 && IsoWeek(n) == IsoWeek(DaysBeforeYear(YearOf(n)) - 1))
            && (f >= 1 && DayOfYear(n) - Weekday(n) + 3 < DaysInYear(YearOf(n)) ==>
                  IsoYear(n) == YearOf(n) && IsoWeek(n) == f)
            && (DayOfYear(n) - Weekday(n) + 3 >= DaysInYear(YearOf(n)) ==> IsoYear(n) == YearOf(n) + 1 && IsoWeek(n) == 1)
  {
    var k := DayOfYear(n) - Weekday(n) + 3;
    if k < 0 {
      ThursdayInPreviousYear(n);
    } else if k < DaysInYear(YearOf(n)) {
      ThursdayInSameYear(n);
    } else {
      ThursdayInNextYear(n);
    }
  }

  lemma ThursdayInPreviousYear(n: int)
    requires DayOfYear(n) - Weekday(n) + 3 < 0
    ensures IsoYear(n) == YearOf(n) - 1
    ensures IsoWeek(n) == IsoWeek(DaysBeforeYear(YearOf(n)) - 1)
  {
    SameWeekAsLastDayOfYear(n);
    ThursdayYearBefore(n);
  }

  lemma SameWeekAsLastDayOfYear(n: int)
    requires DayOfYear(n) - Weekday(n) + 3 < 0
    ensures WeekThursday(DaysBeforeYear(YearOf(n)) - 1) == WeekThursday(n)
  {
    var o := DayOfYear(n);
    assert DaysBeforeYear(YearOf(n)) - 1 == n - (o + 1);
    WeekdayBack(n, o + 1);
  }

  lemma ThursdayYearBefore(n: int)
    requires DayOfYear(n) - Weekday(n) + 3 < 0
    ensures YearOf(WeekThursday(n)) == YearOf(n) - 1
  {
    var y := YearOf(n);
    DaysBeforeYearStep(y - 1);
    YearOfUnique(y - 1, WeekThursday(n));
  }

  lemma ThursdayInSameYear(n: int)
    requires 0 <= DayOfYear(n) - Weekday(n) + 3 < DaysInYear(YearOf(n))
    ensures IsoYear(n) == YearOf(n)
    ensures IsoWeek(n) == (DayOfYear(n) - Weekday(n) + 10) / 7
  {
    YearOfUnique(YearOf(n), WeekThursday(n));
  }

  lemma ThursdayInNextYear(n: int)
    requires DayOfYear(n) - Weekday(n) + 3 >= DaysInYear(YearOf(n))
    ensures IsoYear(n) == YearOf(n) + 1
    ensures IsoWeek(n) == 1
  {
    var y := YearOf(n);
    DaysBeforeYearStep(y);
    DaysBeforeYearStep(y + 1);
    YearOfUnique(y + 1, WeekThursday(n));
  }

  /** The hour of day of a millisecond timestamp, floored. */
  function HourOfDay(ts: int): (h: int)
    ensures 0 <= h <= 23
  {
    (ts / MsPerHour) % 24
  }

  /** The whole-day and hour-of-day parts of a timestamp locate it: it lies in
      hour h of day ts / MsPerDay. */
  lemma HourOfDayLocates(ts: int)
    ensures (ts / MsPerDay) * MsPerDay + HourOfDay(ts) * MsPerHour <= ts
    ensures ts < (ts / MsPerDay) * MsPerDay + (HourOfDay(ts) + 1) * MsPerHour
  {
    var q := ts / MsPerHour;
    var h := q % 24;
    var d := q / 24;
    assert q == d * 24 + h;
    assert ts == q * MsPerHour + ts % MsPerHour;
    assert ts == d * MsPerDay + h * MsPerHour + ts % MsPerHour;
    assert 0 <= h * MsPerHour + ts % MsPerHour < MsPerDay;
    assert ts / MsPerDay == d;
  }
}

/**
 * A naive local calendar standing in for JavaScript's `Date`: proleptic
 * Gregorian dates from 0000-01-01, no time zones and no daylight saving.
 * The operations mirror the `Date` members the dashboard uses:
 * `new Date(y, m, d, h, mi, s, ms)`, `setDate`, `setHours`, `getTime`,
 * `getDay`, `getMonth` and `getFullYear`.
 */
module Calendar {
  import opened Wrappers
  import opened Decimal

  /** A local date and time; `month` counts from 0, as `getMonth` does. */
  datatype DateTime = DateTime(year: nat, month: nat, day: nat, hour: nat, minute: nat, second: nat, ms: nat)

  const MsPerDay: nat := 86400000

  predicate IsLeapYear(y: nat) {
    y % 4 == 0 && (y % 100 != 0 || y % 400 == 0)
  }

  function DaysInYear(y: nat): nat {
    if IsLeapYear(y) then 366 else 365
  }

  function DaysInMonth(y: nat, m: nat): (n: nat)
    requires m < 12
    ensures 28 <= n <= 31
  {
    if m == 1 then (if IsLeapYear(y) then 29 else 28)
    else if m == 3 || m == 5 || m == 8 || m == 10 then 30
    else 31
  }

  predicate ValidDate(y: nat, m: nat, d: nat) {
    m < 12 && 1 <= d <= DaysInMonth(y, m)
  }

  predicate Valid(t: DateTime) {
    ValidDate(t.year, t.month, t.day) && t.hour < 24 && t.minute < 60 && t.second < 60 && t.ms < 1000
  }

  /** The two instants show the same time of day. */
  predicate SameClock(a: DateTime, b: DateTime) {
    a.hour == b.hour && a.minute == b.minute && a.second == b.second && a.ms == b.ms
  }

  /** Days from 0000-01-01 to 1 January of year `y`. */
  function DaysBeforeYear(y: nat): nat {
    if y == 0 then 0 else DaysBeforeYear(y - 1) + DaysInYear(y - 1)
  }

  /** Days from 1 January of year `y` to the first day of month `m`. */
  function DaysBeforeMonth(y: nat, m: nat): nat
    requires m <= 12
  {
    if m == 0 then 0 else DaysBeforeMonth(y, m - 1) + DaysInMonth(y, m - 1)
  }

  /** Days from 0000-01-01 to the date of `t`. */
  function DayNumber(t: DateTime): int
    requires t.month < 12
  {
    DaysBeforeYear(t.year) + DaysBeforeMonth(t.year, t.month) + t.day - 1
  }

  function MsOfDay(t: DateTime): nat {
    ((t.hour * 60 + t.minute) * 60 + t.second) * 1000 + t.ms
  }

  /** `Date.prototype.getTime`, counted from 0000-01-01 00:00 instead of the Unix epoch. */
  function Time(t: DateTime): int
    requires t.month < 12
  {
    DayNumber(t) * MsPerDay + MsOfDay(t)
  }

  // ---------------------------------------------------------------------
  // Facts about the day count

  lemma YearLength(y: nat)
    ensures DaysBeforeYear(y + 1) == DaysBeforeYear(y) + DaysInYear(y)
  {
  }

  lemma {:induction false} MonthsFillYear(y: nat)
    ensures DaysBeforeMonth(y, 12) == DaysInYear(y)
  {
    var feb := DaysInMonth(y, 1);
    assert DaysBeforeMonth(y, 1) == 31;
    assert DaysBeforeMonth(y, 2) == 31 + feb;
    assert DaysBeforeMonth(y, 3) == 62 + feb;
    assert DaysBeforeMonth(y, 4) == 92 + feb;
    assert DaysBeforeMonth(y, 5) == 123 + feb;
    assert DaysBeforeMonth(y, 6) == 153 + feb;
    assert DaysBeforeMonth(y, 7) == 184 + feb;
    assert DaysBeforeMonth(y, 8) == 215 + feb;
    assert DaysBeforeMonth(y, 9) == 245 + feb;
    assert DaysBeforeMonth(y, 10) == 276 + feb;
    assert DaysBeforeMonth(y, 11) == 306 + feb;
    assert DaysBeforeMonth(y, 12) == 337 + feb;
  }

  lemma {:induction false} DaysBeforeMonthGrows(y: nat, m1: nat, m2: nat)
    requires m1 < m2 <= 12
    ensures DaysBeforeMonth(y, m1) + DaysInMonth(y, m1) <= DaysBeforeMonth(y, m2)
    decreases m2
  {
    if m1 + 1 < m2 {
      DaysBeforeMonthGrows(y, m1, m2 - 1);
    }
  }

  lemma {:induction false} DaysBeforeYearGrows(y1: nat, y2: nat)
    requires y1 < y2
    ensures DaysBeforeYear(y1) + DaysInYear(y1) <= DaysBeforeYear(y2)
    decreases y2
  {
    YearLength(y1);
    if y1 + 1 < y2 {
      DaysBeforeYearGrows(y1, y2 - 1);
      YearLength(y2 - 1);
    }
  }

  /** A date lies within its own year's run of day numbers. */
  lemma DayWithinYear(t: DateTime)
    requires Valid(t)
    ensures DaysBeforeYear(t.year) <= DayNumber(t) < DaysBeforeYear(t.year) + DaysInYear(t.year)
  {
    MonthsFillYear(t.year);
    if t.month < 11 {
      DaysBeforeMonthGrows(t.year, t.month, 12);
    }
  }

  /** The day number determines the calendar date. */
  lemma DayNumberInjective(a: DateTime, b: DateTime)
    requires Valid(a) && Valid(b) && DayNumber(a) == DayNumber(b)
    ensures a.year == b.year && a.month == b.month && a.day == b.day
  {
    DayWithinYear(a);
    DayWithinYear(b);
    if a.year < b.year {
      DaysBeforeYearGrows(a.year, b.year);
    } else if b.year < a.year {
      DaysBeforeYearGrows(b.year, a.year);
    }
    assert a.year == b.year;
    if a.month < b.month {
      DaysBeforeMonthGrows(a.year, a.month, b.month);
    } else if b.month < a.month {
      DaysBeforeMonthGrows(a.year, b.month, a.month);
    }
  }

  /** Calendar order of the dates of two instants (year, then month, then day). */
  predicate DateBefore(a: DateTime, b: DateTime) {
    a.year < b.year
    || (a.year == b.year && a.month < b.month)
    || (a.year == b.year && a.month == b.month && a.day < b.day)
  }

  lemma DateBeforeCounts(a: DateTime, b: DateTime)
    requires Valid(a) && Valid(b) && DateBefore(a, b)
    ensures DayNumber(a) < DayNumber(b)
  {
    DayWithinYear(a);
    DayWithinYear(b);
    if a.year < b.year {
      DaysBeforeYearGrows(a.year, b.year);
    } else if a.month < b.month {
      DaysBeforeMonthGrows(a.year, a.month, b.month);
    }
  }

  /** Day numbers run in calendar order. */
  lemma DayNumberOrder(a: DateTime, b: DateTime)
    requires Valid(a) && Valid(b)
    ensures DayNumber(a) < DayNumber(b) <==> DateBefore(a, b)
  {
    if DateBefore(a, b) {
      DateBeforeCounts(a, b);
    } else if DateBefore(b, a) {
      DateBeforeCounts(b, a);
    }
  }

  lemma {:induction false} DaysBeforeYearLower(y: nat)
    ensures DaysBeforeYear(y) >= 365 * y
  {
    if y > 0 {
      DaysBeforeYearLower(y - 1);
    }
  }

  lemma MsOfDayBound(t: DateTime)
    requires Valid(t)
    ensures MsOfDay(t) < MsPerDay
  {
  }

  /** Instants compare by day first and by time of day second. */
  lemma TimeOrder(a: DateTime, b: DateTime)
    requires Valid(a) && Valid(b)
    ensures Time(a) <= Time(b) <==> DayNumber(a) < DayNumber(b) || (DayNumber(a) == DayNumber(b) && MsOfDay(a) <= MsOfDay(b))
  {
    MsOfDayBound(a);
    MsOfDayBound(b);
    var da, db := DayNumber(a), DayNumber(b);
    if da < db {
      assert da * MsPerDay + MsPerDay <= db * MsPerDay;
    } else if db < da {
      assert db * MsPerDay + MsPerDay <= da * MsPerDay;
    }
  }

  /** Two valid instants with the same `getTime` are the same instant. */
  lemma TimeInjective(a: DateTime, b: DateTime)
    requires Valid(a) && Valid(b) && Time(a) == Time(b)
    ensures a == b
  {
    TimeOrder(a, b);
    TimeOrder(b, a);
    DayNumberInjective(a, b);
  }

  // ---------------------------------------------------------------------
  // Moving by whole days

  /** The same time of day on the following date. */
  function NextDay(t: DateTime): (r: DateTime)
    requires Valid(t)
    ensures Valid(r) && SameClock(r, t)
    ensures DayNumber(r) == DayNumber(t) + 1
  {
    if t.day < DaysInMonth(t.year, t.month) then t.(day := t.day + 1)
    else if t.month < 11 then t.(month := t.month + 1, day := 1)
    else
      MonthsFillYear(t.year);
      YearLength(t.year);
      t.(year := t.year + 1, month := 0, day := 1)
  }

  /** The same time of day on the preceding date. */
  function PrevDay(t: DateTime): (r: DateTime)
    requires Valid(t) && DayNumber(t) > 0
    ensures Valid(r) && SameClock(r, t)
    ensures DayNumber(r) == DayNumber(t) - 1
  {
    if t.day > 1 then t.(day := t.day - 1)
    else if t.month > 0 then t.(month := t.month - 1, day := DaysInMonth(t.year, t.month - 1))
    else
      assert t.year > 0;
      MonthsFillYear(t.year - 1);
      YearLength(t.year - 1);
      t.(year := t.year - 1, month := 11, day := 31)
  }

  /** The same time of day `k` days later (earlier when `k` is negative). */
  function AddDays(t: DateTime, k: int): (r: DateTime)
    requires Valid(t) && DayNumber(t) + k >= 0
    ensures Valid(r) && SameClock(r, t)
    ensures DayNumber(r) == DayNumber(t) + k
    decreases if k >= 0 then k else -k
  {
    if k == 0 then t
    else if k > 0 then AddDays(NextDay(t), k - 1)
    else AddDays(PrevDay(t), k + 1)
  }

  /** Two valid instants on the same day number and with the same clock are equal. */
  lemma SameDayAndClock(a: DateTime, b: DateTime)
    requires Valid(a) && Valid(b) && DayNumber(a) == DayNumber(b) && SameClock(a, b)
    ensures a == b
  {
    DayNumberInjective(a, b);
  }

  // ---------------------------------------------------------------------
  // The `Date` members used by the dashboard

  /**
   * `new Date(y, m, d, h, mi, s, ms)` for years of 100 and later: a month
   * outside 0..11 carries into the year and a day outside the month carries
   * into the neighbouring months, as ECMAScript's MakeDay specifies.
   */
  function NewDate(y: int, m: int, d: int, h: nat, mi: nat, s: nat, ms: nat): (r: DateTime)
    requires y + m / 12 >= 0 && h < 24 && mi < 60 && s < 60 && ms < 1000
    requires DaysBeforeYear(y + m / 12) + DaysBeforeMonth(y + m / 12, m % 12) + d - 1 >= 0
    ensures Valid(r) && r.hour == h && r.minute == mi && r.second == s && r.ms == ms
    ensures DayNumber(r) == DayNumber(DateTime(y + m / 12, m % 12, 1, h, mi, s, ms)) + d - 1
  {
    AddDays(DateTime(y + m / 12, m % 12, 1, h, mi, s, ms), d - 1)
  }

  /** `t.setDate(d)`: day `d` of `t`'s month, carried as `new Date` carries it. */
  function SetDate(t: DateTime, d: int): (r: DateTime)
    requires Valid(t) && DayNumber(t) - t.day + d >= 0
    ensures Valid(r) && SameClock(r, t)
    ensures DayNumber(r) == DayNumber(t) - t.day + d
  {
    NewDate(t.year, t.month, d, t.hour, t.minute, t.second, t.ms)
  }

  /** `t.setHours(h, mi, s, ms)` with every argument in range: same date, new clock. */
  function SetHours(t: DateTime, h: nat, mi: nat, s: nat, ms: nat): (r: DateTime)
    requires Valid(t) && h < 24 && mi < 60 && s < 60 && ms < 1000
    ensures Valid(r) && DayNumber(r) == DayNumber(t)
    ensures r.hour == h && r.minute == mi && r.second == s && r.ms == ms
  {
    t.(hour := h, minute := mi, second := s, ms := ms)
  }

  /** `getDay`: 0 for Sunday through 6 for Saturday (0000-01-01 was a Saturday). */
  function Weekday(t: DateTime): (w: nat)
    requires t.month < 12
    ensures w < 7
  {
    (DayNumber(t) + 6) % 7
  }

  /** `k` days later the weekday has moved on by `k`, modulo 7. */
  lemma WeekdayAfter(t: DateTime, u: DateTime, k: int)
    requires t.month < 12 && u.month < 12 && DayNumber(u) == DayNumber(t) + k
    ensures Weekday(u) == (Weekday(t) + k) % 7
  {
    var a := DayNumber(t) + 6;
    var q := a / 7;
    assert a == 7 * q + a % 7;
    assert a + k == 7 * q + (a % 7 + k);
    ModSevenShift(q, a % 7 + k);
  }

  lemma ModSevenShift(q: int, b: int)
    ensures (7 * q + b) % 7 == b % 7
  {
  }

  /** The English names `toLocaleDateString('en-US', { weekday: 'long' })` gives. */
  const DayNames: seq<string> := ["Sunday", "Monday", "Tuesday", "Wednesday", "Thursday", "Friday", "Saturday"]

  /** The English names `toLocaleDateString('en-US', { month: 'long' })` gives. */
  const MonthNames: seq<string> := ["January", "February", "March", "April", "May", "June",
                                    "July", "August", "September", "October", "November", "December"]

  lemma DayNamesDistinct()
    ensures |DayNames| == 7
    ensures forall i, j :: 0 <= i < j < 7 ==> DayNames[i] != DayNames[j]
  {
  }

  lemma MonthNamesDistinct()
    ensures |MonthNames| == 12
    ensures forall i, j :: 0 <= i < j < 12 ==> MonthNames[i] != MonthNames[j]
  {
  }

  function DayName(t: DateTime): string
    requires t.month < 12
  {
    DayNames[Weekday(t)]
  }

  function MonthName(t: DateTime): string
    requires t.month < 12
  {
    MonthNames[t.month]
  }
}

/**
 * What the comparison ranges of the dashboard mean: membership of an
 * instant in each range stated in calendar terms, and the previous range
 * ending the millisecond before the current one starts.
 */
module DashboardRanges {
  import opened Calendar
  import opened AdminTypes
  import opened Dashboard

  /** Against an instant at midnight, `getTime` order is day order. */
  lemma AfterMidnight(a: DateTime, t: DateTime)
    requires Valid(a) && Valid(t) && MsOfDay(a) == 0
    ensures Time(a) <= Time(t) <==> DayNumber(a) <= DayNumber(t)
  {
    TimeOrder(a, t);
  }

  /** Against the last millisecond of a day, `getTime` order is day order. */
  lemma BeforeDayEnd(t: DateTime, b: DateTime)
    requires Valid(t) && Valid(b) && MsOfDay(b) == MsPerDay - 1
    ensures Time(t) <= Time(b) <==> DayNumber(t) <= DayNumber(b)
  {
    TimeOrder(t, b);
    MsOfDayBound(t);
  }

  /** The days from the first of month `m` of year `y` to its last are exactly the days of that month. */
  lemma {:induction false} MonthSpan(y: nat, m: nat, t: DateTime)
    requires m < 12 && Valid(t)
    ensures DayNumber(FirstOfMonth(y, m)) <= DayNumber(t) <= DayNumber(LastMomentOfMonth(y, m))
        <==> t.year == y && t.month == m
  {
    DayNumberOrder(t, FirstOfMonth(y, m));
    DayNumberOrder(LastMomentOfMonth(y, m), t);
  }

  /** The days of a year are those from January 1 to December 31. */
  lemma {:induction false} YearSpan(y: nat, t: DateTime)
    requires Valid(t)
    ensures DayNumber(FirstOfMonth(y, 0)) <= DayNumber(t) <= DayNumber(LastMomentOfMonth(y, 11))
        <==> t.year == y
  {
    DayNumberOrder(t, FirstOfMonth(y, 0));
    DayNumberOrder(LastMomentOfMonth(y, 11), t);
  }

  /** Weekly: the current range is today and the six days before it, up to now. */
  lemma {:induction false} WeeklyCurrent(now: DateTime, t: DateTime)
    requires ValidNow(now) && Valid(t)
    ensures var rg := PeriodRangesOf(Weekly, now);
      Within(t, rg.currentStart, rg.currentEnd)
      <==> DayNumber(now) - 6 <= DayNumber(t) && Time(t) <= Time(now)
  {
    var rg := PeriodRangesOf(Weekly, now);
    AfterMidnight(rg.currentStart, t);
  }

  /** Weekly: the previous range is the seven whole days before the current one. */
  lemma {:induction false} WeeklyPrevious(now: DateTime, t: DateTime)
    requires ValidNow(now) && Valid(t)
    ensures var rg := PeriodRangesOf(Weekly, now);
      Within(t, rg.prevStart, rg.prevEnd)
      <==> DayNumber(now) - 13 <= DayNumber(t) <= DayNumber(now) - 7
  {
    var rg := PeriodRangesOf(Weekly, now);
    AfterMidnight(rg.prevStart, t);
    BeforeDayEnd(t, rg.prevEnd);
  }

  /** Monthly: the current range is the calendar month of now, to its last millisecond. */
  lemma {:induction false} MonthlyCurrent(now: DateTime, t: DateTime)
    requires ValidNow(now) && Valid(t)
    ensures var rg := PeriodRangesOf(Monthly, now);
      Within(t, rg.currentStart, rg.currentEnd) <==> t.year == now.year && t.month == now.month
  {
    var rg := PeriodRangesOf(Monthly, now);
    AfterMidnight(rg.currentStart, t);
    BeforeDayEnd(t, rg.currentEnd);
    MonthSpan(now.year, now.month, t);
  }

  /** Monthly: the previous range is the calendar month before, across the new year. */
  lemma {:induction false} MonthlyPrevious(now: DateTime, t: DateTime)
    requires ValidNow(now) && Valid(t)
    ensures var rg := PeriodRangesOf(Monthly, now);
      Within(t, rg.prevStart, rg.prevEnd) <==> (t.year, t.month) == PrevMonth(now.year, now.month)
  {
    var rg := PeriodRangesOf(Monthly, now);
    var (py, pm) := PrevMonth(now.year, now.month);
    AfterMidnight(rg.prevStart, t);
    BeforeDayEnd(t, rg.prevEnd);
    MonthSpan(py, pm, t);
  }

  /** Yearly: the current range is the calendar year of now. */
  lemma {:induction false} YearlyCurrent(now: DateTime, t: DateTime)
    requires ValidNow(now) && Valid(t)
    ensures var rg := PeriodRangesOf(Yearly, now);
      Within(t, rg.currentStart, rg.currentEnd) <==> t.year == now.year
  {
    var rg := PeriodRangesOf(Yearly, now);
    AfterMidnight(rg.currentStart, t);
    BeforeDayEnd(t, rg.currentEnd);
    YearSpan(now.year, t);
  }

  /** Yearly: the previous range is the calendar year before. */
  lemma {:induction false} YearlyPrevious(now: DateTime, t: DateTime)
    requires ValidNow(now) && Valid(t)
    ensures var rg := PeriodRangesOf(Yearly, now);
      Within(t, rg.prevStart, rg.prevEnd) <==> t.year == now.year - 1
  {
    var rg := PeriodRangesOf(Yearly, now);
    AfterMidnight(rg.prevStart, t);
    BeforeDayEnd(t, rg.prevEnd);
    YearSpan(now.year - 1, t);
  }

  /** The last millisecond of a day is followed by midnight of the next one. */
  lemma {:induction false} DayEndThenMidnight(a: DateTime, b: DateTime)
    requires Valid(a) && Valid(b) && MsOfDay(a) == MsPerDay - 1 && MsOfDay(b) == 0
    requires DayNumber(a) + 1 == DayNumber(b)
    ensures Time(a) + 1 == Time(b)
  {
  }

  /** In every period the previous range ends the millisecond before the current one starts. */
  lemma {:induction false} RangesAdjacent(period: Period, now: DateTime)
    requires ValidNow(now)
    ensures var rg := PeriodRangesOf(period, now);
      Time(rg.prevEnd) + 1 == Time(rg.currentStart)
  {
    var rg := PeriodRangesOf(period, now);
    match period
    case Weekly =>
      DayEndThenMidnight(rg.prevEnd, rg.currentStart);
    case Monthly =>
      var (py, pm) := PrevMonth(now.year, now.month);
      FirstOfNextMonth(py, pm);
      assert (py + (pm + 1) / 12, (pm + 1) % 12) == (now.year, now.month);
      DayEndThenMidnight(rg.prevEnd, rg.currentStart);
    case Yearly =>
      FirstOfNextMonth(now.year - 1, 11);
      assert (now.year - 1 + (11 + 1) / 12, (11 + 1) % 12) == (now.year, 0);
      DayEndThenMidnight(rg.prevEnd, rg.currentStart);
  }

  /** Hence the `else if` of the stats pass never matters: the two ranges are disjoint. */
  lemma {:induction false} RangesDisjoint(period: Period, now: DateTime, t: DateTime)
    requires ValidNow(now) && Valid(t)
    ensures var rg := PeriodRangesOf(period, now);
      !(Within(t, rg.currentStart, rg.currentEnd) && Within(t, rg.prevStart, rg.prevEnd))
  {
    RangesAdjacent(period, now);
  }

  /** A reservation counts as previous exactly when it is eligible and lies in the previous range. */
  lemma {:induction false} PreviousSlotIsPreviousRange(r: Reservation, period: Period, now: DateTime)
    requires ValidNow(now)
    ensures var s := SettingOf(period, now);
      InSlot(r, s, Previous)
      <==> (Eligible(r) && ParseDate(r.dateTime).Some?
            && Within(InstantOf(r), s.ranges.prevStart, s.ranges.prevEnd))
  {
    if Eligible(r) && ParseDate(r.dateTime).Some? {
      RangesDisjoint(period, now, InstantOf(r));
    }
  }
}

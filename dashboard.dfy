/**
 * The dashboard period aggregator (src/lib/utils/dashboard.ts): reservations,
 * a period and the current instant in; chart buckets and period-over-period
 * statistics out.
 */
module Dashboard {
  import opened Wrappers
  import opened Decimal
  import opened Calendar
  import opened DateText
  import opened AdminTypes

  datatype Period = Weekly | Monthly | Yearly

  /** One point of the chart: its label and what was accumulated under it. */
  datatype ChartDataPoint = ChartDataPoint(xAxis: string, income: int, customer: int)

  datatype DashboardStats = DashboardStats(totalIncome: int, totalCustomers: int, incomeTrend: real, customerTrend: real)

  /** The current and the previous period, each with inclusive bounds. */
  datatype PeriodRanges = PeriodRanges(currentStart: DateTime, currentEnd: DateTime, prevStart: DateTime, prevEnd: DateTime)

  /** An accumulator of the `grouped` record: summed amount and number of reservations. */
  datatype Bucket = Bucket(income: int, customer: int)

  const EmptyBucket := Bucket(0, 0)

  function AddTo(b: Bucket, amount: int): Bucket {
    Bucket(b.income + amount, b.customer + 1)
  }

  // ---------------------------------------------------------------------
  // Helpers

  /**
   * `parseDate`: `new Date(s.replace(' ', 'T'))`, on the stored form
   * "YYYY-MM-DD HH:MM" (or the same with its `T` kept); None otherwise.
   */
  function ParseDate(s: string): (r: Option<DateTime>)
    ensures r.Some? ==> Valid(r.value) && r.value.second == 0 && r.value.ms == 0
  {
    ReadIsoMinutes(ReplaceFirst(s, ' ', 'T'))
  }

  /**
   * A string that parses has sixteen characters with a space or `T` at
   * position 10, and is, with its first space read as `T`, the writing of
   * its instant.
   */
  lemma ParseDateReadsBack(s: string)
    requires ParseDate(s).Some?
    ensures |s| == 16 && (s[10] == ' ' || s[10] == 'T')
    ensures ParseDate(s).value.year < 10000
    ensures IsoMinutes(ParseDate(s).value) == ReplaceFirst(s, ' ', 'T')
  {
    var x := ReplaceFirst(s, ' ', 'T');
    ReadIsoMinutesShape(x);
    ReplaceFirstPointwise(s, ' ', 'T', 10);
    ReadThenWrite(x);
  }

  /** Every stored time stamp parses back to the instant it was written from. */
  lemma ParseStampText(t: DateTime)
    requires Valid(t) && t.year < 10000
    ensures ParseDate(StampText(t)) == Some(t.(second := 0, ms := 0))
  {
    var iso := IsoMinutes(t);
    IsoMinutesParts(t);
    assert forall i :: 0 <= i < 10 ==> iso[i] != 'T' by {
      forall i | 0 <= i < 10 ensures iso[i] != 'T' {
        if i < 4 { assert iso[i] == iso[..4][i]; }
        else if 5 <= i < 7 { assert iso[i] == iso[5..7][i - 5]; }
        else if 8 <= i { assert iso[i] == iso[8..10][i - 8]; }
      }
    }
    ReplaceFirstAt(iso, 'T', ' ', 10);
    var stamp := iso[10 := ' '];
    assert forall i :: 0 <= i < 10 ==> stamp[i] != ' ' by {
      forall i | 0 <= i < 10 ensures stamp[i] != ' ' {
        if i < 4 { assert stamp[i] == iso[..4][i]; }
        else if 5 <= i < 7 { assert stamp[i] == iso[5..7][i - 5]; }
        else if 8 <= i { assert stamp[i] == iso[8..10][i - 8]; }
      }
    }
    ReplaceFirstAt(stamp, ' ', 'T', 10);
    assert stamp[10 := 'T'] == iso;
    WriteThenRead(t);
  }

  /** Only completed and on-going reservations are counted (line 156). */
  predicate Eligible(r: Reservation) {
    r.status == Completed || r.status == OnGoing
  }

  /** Every eligible reservation carries a readable time stamp: the input contract. */
  predicate WellFormed(rs: seq<Reservation>) {
    forall i :: 0 <= i < |rs| ==> Eligible(rs[i]) ==> ParseDate(rs[i].dateTime).Some?
  }

  /** A clock reading the model's `Date` arithmetic covers. */
  predicate ValidNow(now: DateTime) {
    Valid(now) && now.year > 100
  }

  /** `Date` comparison `lo <= t && t <= hi`, which compares `getTime` values. */
  predicate Within(t: DateTime, lo: DateTime, hi: DateTime)
    requires t.month < 12 && lo.month < 12 && hi.month < 12
  {
    Time(lo) <= Time(t) <= Time(hi)
  }

  // ---------------------------------------------------------------------
  // Period ranges

  function StartOfDay(t: DateTime): (r: DateTime)
    requires Valid(t)
    ensures Valid(r)
  {
    SetHours(t, 0, 0, 0, 0)
  }

  function EndOfDay(t: DateTime): (r: DateTime)
    requires Valid(t)
    ensures Valid(r)
  {
    SetHours(t, 23, 59, 59, 999)
  }

  /** The year and month before month `m` of year `y`. */
  function PrevMonth(y: nat, m: nat): (r: (nat, nat))
    requires y > 0 && m < 12
    ensures r.1 < 12
  {
    if m == 0 then (y - 1, 11) else (y, m - 1)
  }

  function FirstOfMonth(y: nat, m: nat): (r: DateTime)
    requires m < 12
    ensures Valid(r) && MsOfDay(r) == 0
  {
    DateTime(y, m, 1, 0, 0, 0, 0)
  }

  function LastMomentOfMonth(y: nat, m: nat): (r: DateTime)
    requires m < 12
    ensures Valid(r)
  {
    DateTime(y, m, DaysInMonth(y, m), 23, 59, 59, 999)
  }

  lemma NowIsLate(now: DateTime)
    requires ValidNow(now)
    ensures DayNumber(now) >= 36500
  {
    DaysBeforeYearLower(now.year);
  }

  /**
   * The ranges of lines 41-82, described by what they are: the week ending
   * now and the week before it, or the calendar month or year of now and the
   * one before it.
   */
  function PeriodRangesOf(period: Period, now: DateTime): (r: PeriodRanges)
    requires ValidNow(now)
    ensures Valid(r.currentStart) && Valid(r.currentEnd) && Valid(r.prevStart) && Valid(r.prevEnd)
  {
    NowIsLate(now);
    match period
    case Weekly =>
      var currentStart := AddDays(StartOfDay(now), -6);
      var prevEnd := EndOfDay(AddDays(currentStart, -1));
      PeriodRanges(currentStart, now, StartOfDay(AddDays(prevEnd, -6)), prevEnd)
    case Monthly =>
      var (py, pm) := PrevMonth(now.year, now.month);
      PeriodRanges(FirstOfMonth(now.year, now.month), LastMomentOfMonth(now.year, now.month),
                   FirstOfMonth(py, pm), LastMomentOfMonth(py, pm))
    case Yearly =>
      PeriodRanges(FirstOfMonth(now.year, 0), LastMomentOfMonth(now.year, 11),
                   FirstOfMonth(now.year - 1, 0), LastMomentOfMonth(now.year - 1, 11))
  }

  lemma FirstOfNextMonth(y: nat, m: nat)
    requires m < 12
    ensures DayNumber(LastMomentOfMonth(y, m)) + 1
         == DayNumber(FirstOfMonth(y + (m + 1) / 12, (m + 1) % 12))
  {
    var last := LastMomentOfMonth(y, m);
    if m == 11 {
      assert (m + 1) / 12 == 1 && (m + 1) % 12 == 0;
      MonthsFillYear(y);
      YearLength(y);
      assert DayNumber(last) + 1 == DaysBeforeYear(y) + DaysBeforeMonth(y, 12);
    } else {
      assert (m + 1) / 12 == 0 && (m + 1) % 12 == m + 1;
      assert DaysBeforeMonth(y, m + 1) == DaysBeforeMonth(y, m) + DaysInMonth(y, m);
    }
  }

  /** `new Date(y, m + 1, 0, 23, 59, 59, 999)` is the last moment of month `m`. */
  lemma DayZeroOfNextMonth(y: nat, m: nat)
    requires y > 0 && m < 12
    ensures DaysBeforeYear(y + (m + 1) / 12) + DaysBeforeMonth(y + (m + 1) / 12, (m + 1) % 12) - 1 >= 0
    ensures NewDate(y, m + 1, 0, 23, 59, 59, 999) == LastMomentOfMonth(y, m)
  {
    var ny, nm := y + (m + 1) / 12, (m + 1) % 12;
    assert m == 11 ==> ny == y + 1 && nm == 0;
    assert m < 11 ==> ny == y && nm == m + 1;
    FirstOfNextMonth(y, m);
    assert DayNumber(FirstOfMonth(ny, nm)) == DaysBeforeYear(ny) + DaysBeforeMonth(ny, nm);
    var r := NewDate(y, m + 1, 0, 23, 59, 59, 999);
    assert DayNumber(r) == DayNumber(FirstOfMonth(ny, nm)) - 1;
    SameDayAndClock(r, LastMomentOfMonth(y, m));
  }

  /** `new Date(y, m, 0, 23, 59, 59, 999)` is the last moment of the month before month `m`. */
  lemma DayZeroOfPreviousEnd(y: nat, m: nat)
    requires y > 1 && m < 12
    ensures DaysBeforeYear(y + m / 12) + DaysBeforeMonth(y + m / 12, m % 12) - 1 >= 0
    ensures var (py, pm) := PrevMonth(y, m);
      NewDate(y, m, 0, 23, 59, 59, 999) == LastMomentOfMonth(py, pm)
  {
    var (py, pm) := PrevMonth(y, m);
    DayZeroOfNextMonth(py, pm);
    assert m / 12 == 0 && m % 12 == m;
    if m == 0 {
      assert py == y - 1 && pm + 1 == 12;
      assert (pm + 1) / 12 == 1 && (pm + 1) % 12 == 0;
    } else {
      assert py == y && pm + 1 == m;
      assert (pm + 1) / 12 == 0 && (pm + 1) % 12 == m;
    }
  }

  /** `new Date(y, m, 1)` for a month index from -1 to 11 is the first of that month. */
  lemma DayOneOfMonth(y: nat, m: int)
    requires y > 0 && -1 <= m < 12
    ensures NewDate(y, m, 1, 0, 0, 0, 0) == FirstOfMonth(y + m / 12, m % 12)
  {
  }

  /**
   * `getPeriodRanges`: the same computation as the source, step by step on
   * cloned `Date` values.
   */
  method GetPeriodRanges(period: Period, now: DateTime) returns (r: PeriodRanges)
    requires ValidNow(now)
    ensures r == PeriodRangesOf(period, now)
  {
    NowIsLate(now);
    var today := now;
    today := SetHours(today, 0, 0, 0, 0);
    if period == Weekly {
      r := WeeklyRanges(now, today);
    } else if period == Monthly {
      r := MonthlyRanges(now, today);
    } else {
      r := YearlyRanges(now, today);
    }
  }

  /** Lines 50-62: the last seven days and the seven before them. */
  method WeeklyRanges(now: DateTime, today: DateTime) returns (r: PeriodRanges)
    requires ValidNow(now) && today == SetHours(now, 0, 0, 0, 0)
    ensures r == PeriodRangesOf(Weekly, now)
  {
    NowIsLate(now);
    var currentStart, currentEnd, prevStart, prevEnd;
    currentEnd := now;
    currentStart := today;
    currentStart := SetDate(currentStart, today.day - 6);
    prevEnd := currentStart;
    prevEnd := SetDate(prevEnd, prevEnd.day - 1);
    prevEnd := SetHours(prevEnd, 23, 59, 59, 999);
    prevStart := prevEnd;
    prevStart := SetDate(prevStart, prevEnd.day - 6);
    prevStart := SetHours(prevStart, 0, 0, 0, 0);
    var spec := PeriodRangesOf(Weekly, now);
    SameDayAndClock(currentStart, spec.currentStart);
    SameDayAndClock(prevEnd, spec.prevEnd);
    SameDayAndClock(prevStart, spec.prevStart);
    r := PeriodRanges(currentStart, currentEnd, prevStart, prevEnd);
  }

  /** Lines 64-70: this calendar month and the one before. */
  method MonthlyRanges(now: DateTime, today: DateTime) returns (r: PeriodRanges)
    requires ValidNow(now) && today == SetHours(now, 0, 0, 0, 0)
    ensures r == PeriodRangesOf(Monthly, now)
  {
    NowIsLate(now);
    var y: int, m: int := today.year, today.month;
    assert y == now.year && m == now.month;
    DayZeroOfNextMonth(y, m);
    DayZeroOfPreviousEnd(y, m);
    DayOneOfMonth(y, m);
    DayOneOfMonth(y, m - 1);
    assert m / 12 == 0 && m % 12 == m;
    var (py, pm) := PrevMonth(y, m);
    assert (m - 1) / 12 == py - y && (m - 1) % 12 == pm;
    var currentStart := NewDate(y, m, 1, 0, 0, 0, 0);
    var currentEnd := NewDate(y, m + 1, 0, 23, 59, 59, 999);
    var prevStart := NewDate(y, m - 1, 1, 0, 0, 0, 0);
    var prevEnd := NewDate(y, m, 0, 23, 59, 59, 999);
    r := PeriodRanges(currentStart, currentEnd, prevStart, prevEnd);
  }

  /** Lines 73-78: this calendar year and the one before. */
  method YearlyRanges(now: DateTime, today: DateTime) returns (r: PeriodRanges)
    requires ValidNow(now) && today == SetHours(now, 0, 0, 0, 0)
    ensures r == PeriodRangesOf(Yearly, now)
  {
    NowIsLate(now);
    var y: int := today.year;
    var currentStart := NewDate(y, 0, 1, 0, 0, 0, 0);
    var currentEnd := NewDate(y, 11, 31, 23, 59, 59, 999);
    var prevStart := NewDate(y - 1, 0, 1, 0, 0, 0, 0);
    var prevEnd := NewDate(y - 1, 11, 31, 23, 59, 59, 999);
    var spec := PeriodRangesOf(Yearly, now);
    SameDayAndClock(currentEnd, spec.currentEnd);
    SameDayAndClock(prevEnd, spec.prevEnd);
    r := PeriodRanges(currentStart, currentEnd, prevStart, prevEnd);
  }

  // ---------------------------------------------------------------------
  // What the aggregation computes, stated over the whole input

  /** The period, the clock reading and the ranges computed from them. */
  datatype Setting = Setting(period: Period, now: DateTime, ranges: PeriodRanges)

  function SettingOf(period: Period, now: DateTime): (s: Setting)
    requires ValidNow(now)
    ensures SettingOk(s)
  {
    Setting(period, now, PeriodRangesOf(period, now))
  }

  predicate SettingOk(s: Setting) {
    && Valid(s.now)
    && Valid(s.ranges.currentStart) && Valid(s.ranges.currentEnd)
    && Valid(s.ranges.prevStart) && Valid(s.ranges.prevEnd)
  }

  /** The instant of a reservation whose time stamp reads. */
  function InstantOf(r: Reservation): (t: DateTime)
    requires ParseDate(r.dateTime).Some?
    ensures Valid(t)
  {
    ParseDate(r.dateTime).value
  }

  /** The two statistic accumulators: current period and previous period. */
  datatype Slot = Current | Previous

  /** Whether a reservation is added to the accumulators of `slot` (lines 156-168). */
  predicate InSlot(r: Reservation, s: Setting, slot: Slot)
    requires SettingOk(s)
  {
    && Eligible(r)
    && ParseDate(r.dateTime).Some?
    && var t := InstantOf(r);
       var rg := s.ranges;
       match slot
       case Current => Within(t, rg.currentStart, rg.currentEnd)
       case Previous => !Within(t, rg.currentStart, rg.currentEnd) && Within(t, rg.prevStart, rg.prevEnd)
  }

  /** Amount and number of the reservations of `rs` that feed `slot`. */
  function SlotTotal(rs: seq<Reservation>, s: Setting, slot: Slot): Bucket
    requires SettingOk(s)
  {
    if rs == [] then EmptyBucket
    else
      var b := SlotTotal(rs[..|rs| - 1], s, slot);
      var r := rs[|rs| - 1];
      if InSlot(r, s, slot) then AddTo(b, r.amount) else b
  }

  /** The chart label an instant is filed under, if any (lines 174-187). */
  function ChartKey(s: Setting, t: DateTime): Option<string>
    requires SettingOk(s) && Valid(t)
  {
    match s.period
    case Weekly =>
      if Within(t, s.ranges.currentStart, s.ranges.currentEnd) then Some(DayName(t)) else None
    case Monthly =>
      if t.year == s.now.year then Some(MonthName(t)) else None
    case Yearly =>
      Some(NatToString(t.year))
  }

  predicate InBucket(r: Reservation, s: Setting, key: string)
    requires SettingOk(s)
  {
    Eligible(r) && ParseDate(r.dateTime).Some? && ChartKey(s, InstantOf(r)) == Some(key)
  }

  /** Amount and number of the reservations of `rs` filed under `key`. */
  function BucketTotal(rs: seq<Reservation>, s: Setting, key: string): Bucket
    requires SettingOk(s)
  {
    if rs == [] then EmptyBucket
    else
      var b := BucketTotal(rs[..|rs| - 1], s, key);
      var r := rs[|rs| - 1];
      if InBucket(r, s, key) then AddTo(b, r.amount) else b
  }

  /** The years of the eligible reservations, in input order. */
  function EligibleYears(rs: seq<Reservation>): (ys: seq<nat>)
    ensures |ys| <= |rs|
  {
    if rs == [] then []
    else
      var r := rs[|rs| - 1];
      var ys := EligibleYears(rs[..|rs| - 1]);
      if Eligible(r) && ParseDate(r.dateTime).Some? then ys + [InstantOf(r).year] else ys
  }

  function MinOf(xs: seq<nat>): (m: nat)
    requires |xs| > 0
    ensures m in xs
    ensures forall i :: 0 <= i < |xs| ==> m <= xs[i]
  {
    if |xs| == 1 then xs[0]
    else
      var m := MinOf(xs[1..]);
      assert forall i :: 1 <= i < |xs| ==> xs[i] == xs[1..][i - 1];
      if xs[0] < m then xs[0] else m
  }

  function MaxOf(xs: seq<nat>): (m: nat)
    requires |xs| > 0
    ensures m in xs
    ensures forall i :: 0 <= i < |xs| ==> xs[i] <= m
  {
    if |xs| == 1 then xs[0]
    else
      var m := MaxOf(xs[1..]);
      assert forall i :: 1 <= i < |xs| ==> xs[i] == xs[1..][i - 1];
      if xs[0] > m then xs[0] else m
  }

  /** The labels of every year from `lo` through `hi`. */
  function YearLabels(lo: nat, hi: nat): (ls: seq<string>)
    ensures |ls| == if lo <= hi then hi - lo + 1 else 0
    ensures forall j :: 0 <= j < |ls| ==> ls[j] == NatToString(lo + j)
  {
    if lo <= hi then seq(hi - lo + 1, (j: int) requires 0 <= j => NatToString(lo + j)) else []
  }

  /** Seven weekday names in order, starting with the weekday of `start`. */
  function WeekLabels(start: DateTime): (ls: seq<string>)
    requires start.month < 12
    ensures |ls| == 7
  {
    seq(7, i => DayNames[(Weekday(start) + i) % 7])
  }

  /** The chart's axis: the labels its points carry, in order. */
  function AxisOf(rs: seq<Reservation>, s: Setting): seq<string>
    requires SettingOk(s)
  {
    match s.period
    case Weekly => WeekLabels(s.ranges.currentStart)
    case Monthly => MonthNames
    case Yearly =>
      var ys := EligibleYears(rs);
      if ys == [] then [NatToString(s.now.year)] else YearLabels(MinOf(ys), MaxOf(ys))
  }

  /** One chart point per label, carrying that label's bucket. */
  function PointsFor(rs: seq<Reservation>, s: Setting, labels: seq<string>): (ps: seq<ChartDataPoint>)
    requires SettingOk(s)
    ensures |ps| == |labels|
  {
    seq(|labels|, j requires 0 <= j < |labels| =>
      ChartDataPoint(labels[j], BucketTotal(rs, s, labels[j]).income, BucketTotal(rs, s, labels[j]).customer))
  }

  function ChartOf(rs: seq<Reservation>, s: Setting): seq<ChartDataPoint>
    requires SettingOk(s)
  {
    PointsFor(rs, s, AxisOf(rs, s))
  }

  /** `calculateTrend` (lines 229-232), in exact arithmetic. */
  function CalculateTrend(curr: int, prev: int): (r: real)
    ensures prev == 0 ==> r == (if curr > 0 then 100.0 else 0.0)
    ensures prev != 0 ==> r * (prev as real) == ((curr - prev) as real) * 100.0
  {
    if prev == 0 then (if curr > 0 then 100.0 else 0.0)
    else ((curr - prev) as real / prev as real) * 100.0
  }

  function StatsOf(rs: seq<Reservation>, s: Setting): DashboardStats
    requires SettingOk(s)
  {
    var cur := SlotTotal(rs, s, Current);
    var prev := SlotTotal(rs, s, Previous);
    DashboardStats(cur.income, cur.customer,
                   CalculateTrend(cur.income, prev.income), CalculateTrend(cur.customer, prev.customer))
  }

  // ---------------------------------------------------------------------
  // The source's procedures

  function InitialLabels(period: Period, currentStart: DateTime): seq<string>
    requires currentStart.month < 12
  {
    match period
    case Weekly => WeekLabels(currentStart)
    case Monthly => MonthNames
    case Yearly => []
  }

  /** `initializeChartData` (lines 87-120): the fixed axes, every bucket empty. */
  method InitializeChartData(period: Period, currentStart: DateTime, currentEnd: DateTime)
    returns (labelOrder: seq<string>, grouped: map<string, Bucket>)
    requires Valid(currentStart)
    ensures labelOrder == InitialLabels(period, currentStart)
    ensures forall k :: k in grouped <==> k in labelOrder
    ensures forall k :: k in grouped ==> grouped[k] == EmptyBucket
  {
    grouped := map[];
    labelOrder := [];
    if period == Weekly {
      for i := 0 to 7
        invariant labelOrder == WeekLabels(currentStart)[..i]
        invariant forall k :: k in grouped <==> k in labelOrder
        invariant forall k :: k in grouped ==> grouped[k] == EmptyBucket
      {
        var d := SetDate(currentStart, currentStart.day + i);
        WeekdayAfter(currentStart, d, i);
        var dayName := DayName(d);
        grouped := grouped[dayName := EmptyBucket];
        labelOrder := labelOrder + [dayName];
      }
    } else if period == Monthly {
      var months := MonthNames;
      for i := 0 to |months|
        invariant labelOrder == months[..i]
        invariant forall k :: k in grouped <==> k in labelOrder
        invariant forall k :: k in grouped ==> grouped[k] == EmptyBucket
      {
        var month := months[i];
        grouped := grouped[month := EmptyBucket];
        labelOrder := labelOrder + [month];
      }
    }
  }

  /** The labels' years read back as numbers (`parseInt`). */
  function YearsOf(labels: seq<string>): (ys: seq<nat>)
    requires forall j :: 0 <= j < |labels| ==> IsDigits(labels[j])
    ensures |ys| == |labels|
    ensures forall j :: 0 <= j < |labels| ==> ys[j] == DigitsValue(labels[j])
  {
    seq(|labels|, j requires 0 <= j < |labels| => DigitsValue(labels[j]))
  }

  /** Two non-empty lists with the same members have the same least and greatest member. */
  lemma SameMembersSameBounds(a: seq<nat>, b: seq<nat>)
    requires |a| > 0
    requires forall i :: 0 <= i < |a| ==> a[i] in b
    requires forall i :: 0 <= i < |b| ==> b[i] in a
    ensures |b| > 0 && MinOf(a) == MinOf(b) && MaxOf(a) == MaxOf(b)
  {
    assert a[0] in b;
  }

  /** `grouped` holds the bucket of every key it has, and every other key's bucket is empty. */
  ghost predicate GroupedFor(grouped: map<string, Bucket>, rs: seq<Reservation>, s: Setting)
    requires SettingOk(s)
  {
    && (forall k :: k in grouped ==> grouped[k] == BucketTotal(rs, s, k))
    && (forall k :: k !in grouped ==> BucketTotal(rs, s, k) == EmptyBucket)
  }

  /**
   * For the yearly view: the labels collected so far are the decimal forms of
   * `years`, which are exactly the years of the eligible reservations seen.
   */
  ghost predicate YearsCollected(labelOrder: seq<string>, grouped: map<string, Bucket>, years: seq<nat>, rs: seq<Reservation>)
  {
    && (forall k :: k in grouped ==> k in labelOrder)
    && YearsMatch(labelOrder, years, EligibleYears(rs))
  }

  /** `labels` spell `years`, and `years` holds the same members as `ey`. */
  predicate YearsMatch(labels: seq<string>, years: seq<nat>, ey: seq<nat>) {
    && |years| == |labels|
    && (forall j :: 0 <= j < |years| ==> labels[j] == NatToString(years[j]))
    && (forall j :: 0 <= j < |years| ==> years[j] in ey)
    && (forall j :: 0 <= j < |ey| ==> ey[j] in years)
  }

  /** `grouped` after adding `amount` to the bucket of `key`, created empty when missing. */
  function FileUnder(grouped: map<string, Bucket>, key: Option<string>, amount: int): map<string, Bucket> {
    match key
    case None => grouped
    case Some(k) =>
      var ready := if k in grouped then grouped else grouped[k := EmptyBucket];
      ready[k := AddTo(ready[k], amount)]
  }

  /** Filing one more eligible reservation keeps `grouped` equal to the buckets of what was seen. */
  lemma GroupedStep(grouped: map<string, Bucket>, seen: seq<Reservation>, res: Reservation, s: Setting)
    requires SettingOk(s) && Eligible(res) && ParseDate(res.dateTime).Some?
    requires GroupedFor(grouped, seen, s)
    ensures GroupedFor(FileUnder(grouped, ChartKey(s, InstantOf(res)), res.amount), seen + [res], s)
  {
    var rs := seen + [res];
    assert rs[..|rs| - 1] == seen;
    var g := FileUnder(grouped, ChartKey(s, InstantOf(res)), res.amount);
    forall k
      ensures k in g ==> g[k] == BucketTotal(rs, s, k)
      ensures k !in g ==> BucketTotal(rs, s, k) == EmptyBucket
    {
      assert BucketTotal(rs, s, k)
          == if InBucket(res, s, k) then AddTo(BucketTotal(seen, s, k), res.amount) else BucketTotal(seen, s, k);
    }
  }

  /** `labels` with `k` appended unless already present (`includes`, then `push`). */
  function PushNew<T(==)>(xs: seq<T>, x: T, present: bool): seq<T> {
    if present then xs else xs + [x]
  }

  /** One more year seen: its spelling is added to the labels unless already there. */
  lemma YearsMatchStep(labels: seq<string>, years: seq<nat>, ey: seq<nat>, y: nat)
    requires YearsMatch(labels, years, ey)
    ensures var k := NatToString(y);
      YearsMatch(PushNew(labels, k, k in labels), PushNew(years, y, k in labels), ey + [y])
  {
    var k := NatToString(y);
    var labels', years', ey' := PushNew(labels, k, k in labels), PushNew(years, y, k in labels), ey + [y];
    forall j | 0 <= j < |years'|
      ensures years'[j] in ey'
    {
      if j < |years| {
        assert years'[j] in ey;
      }
    }
    forall j | 0 <= j < |ey'|
      ensures ey'[j] in years'
    {
      if j < |ey| {
        assert ey'[j] == ey[j];
      } else {
        var jk :| 0 <= jk < |labels'| && labels'[jk] == k;
        NatToStringInjective(years'[jk], y);
      }
    }
  }

  /** Filing one more eligible reservation keeps the yearly labels in step with the years seen. */
  lemma YearsStep(labelOrder: seq<string>, grouped: map<string, Bucket>, years: seq<nat>,
                  seen: seq<Reservation>, res: Reservation, s: Setting)
    requires SettingOk(s) && s.period == Yearly && Eligible(res) && ParseDate(res.dateTime).Some?
    requires YearsCollected(labelOrder, grouped, years, seen)
    ensures var y := InstantOf(res).year;
      var k := NatToString(y);
      YearsCollected(PushNew(labelOrder, k, k in labelOrder), FileUnder(grouped, Some(k), res.amount),
                     PushNew(years, y, k in labelOrder), seen + [res])
  {
    var y := InstantOf(res).year;
    var k := NatToString(y);
    var rs := seen + [res];
    assert rs[..|rs| - 1] == seen;
    assert EligibleYears(rs) == EligibleYears(seen) + [y];
    YearsMatchStep(labelOrder, years, EligibleYears(seen), y);
    var grouped' := FileUnder(grouped, Some(k), res.amount);
    assert forall key :: key in grouped' ==> key in grouped || key == k;
  }

  /** The chart key of one parsed date (lines 174-187). */
  method KeyFor(s: Setting, date: DateTime) returns (key: Option<string>)
    requires SettingOk(s) && Valid(date)
    ensures key == ChartKey(s, date)
  {
    var period, rg, now := s.period, s.ranges, s.now;
    key := None;
    if period == Weekly {
      if Within(date, rg.currentStart, rg.currentEnd) {
        key := Some(DayName(date));
      }
    } else if period == Monthly {
      if date.year == now.year {
        key := Some(MonthName(date));
      }
    } else {
      key := Some(NatToString(date.year));
    }
  }

  /** Files one eligible reservation under its chart key, if it has one (lines 174-199). */
  method FileReservation(res: Reservation, s: Setting,
                         labelOrder: seq<string>, grouped: map<string, Bucket>,
                         ghost years: seq<nat>, ghost seen: seq<Reservation>)
    returns (labelOrder': seq<string>, grouped': map<string, Bucket>, ghost years': seq<nat>)
    requires SettingOk(s)
    requires Eligible(res) && ParseDate(res.dateTime).Some?
    requires GroupedFor(grouped, seen, s)
    requires forall j :: 0 <= j < |labelOrder| ==> labelOrder[j] in grouped
    requires s.period == Yearly ==> YearsCollected(labelOrder, grouped, years, seen)
    ensures GroupedFor(grouped', seen + [res], s)
    ensures forall j :: 0 <= j < |labelOrder'| ==> labelOrder'[j] in grouped'
    ensures s.period != Yearly ==> labelOrder' == labelOrder
    ensures s.period == Yearly ==> YearsCollected(labelOrder', grouped', years', seen + [res])
  {
    var period := s.period;
    var date := ParseDate(res.dateTime).value;
    var amount := res.amount;
    var key := KeyFor(s, date);

    labelOrder', grouped', years' := labelOrder, grouped, years;
    if key.Some? {
      var k := key.value;
      if k !in grouped' {
        grouped' := grouped'[k := EmptyBucket];
        if period == Yearly && k !in labelOrder' {
          labelOrder' := labelOrder' + [k];
          years' := years' + [date.year];
        }
      }
      assert grouped' == if k in grouped then grouped else grouped[k := EmptyBucket];
      grouped' := grouped'[k := AddTo(grouped'[k], amount)];
    }
    GroupedStep(grouped, seen, res, s);
    if period == Yearly {
      var k := key.value;
      assert labelOrder' == PushNew(labelOrder, k, k in labelOrder);
      assert years' == PushNew(years, date.year, k in labelOrder);
      YearsStep(labelOrder, grouped, years, seen, res, s);
    }
  }

  /** How one more reservation moves the stats accumulators. */
  lemma SlotStep(seen: seq<Reservation>, res: Reservation, s: Setting)
    requires SettingOk(s)
    ensures forall slot ::
              SlotTotal(seen + [res], s, slot)
              == if InSlot(res, s, slot) then AddTo(SlotTotal(seen, s, slot), res.amount) else SlotTotal(seen, s, slot)
  {
    var rs := seen + [res];
    assert rs[..|rs| - 1] == seen;
  }

  /** The stats accumulators after one eligible reservation (lines 160-168). */
  method CountStats(res: Reservation, s: Setting,
                    currentIncome: int, currentCustomers: int, prevIncome: int, prevCustomers: int)
    returns (currentIncome': int, currentCustomers': int, prevIncome': int, prevCustomers': int)
    requires SettingOk(s) && Eligible(res) && ParseDate(res.dateTime).Some?
    ensures Bucket(currentIncome', currentCustomers')
         == if InSlot(res, s, Current) then AddTo(Bucket(currentIncome, currentCustomers), res.amount)
            else Bucket(currentIncome, currentCustomers)
    ensures Bucket(prevIncome', prevCustomers')
         == if InSlot(res, s, Previous) then AddTo(Bucket(prevIncome, prevCustomers), res.amount)
            else Bucket(prevIncome, prevCustomers)
  {
    var rg := s.ranges;
    var date := InstantOf(res);
    var amount := res.amount;
    currentIncome', currentCustomers', prevIncome', prevCustomers' := currentIncome, currentCustomers, prevIncome, prevCustomers;
    if Within(date, rg.currentStart, rg.currentEnd) {
      currentIncome' := currentIncome' + amount;
      currentCustomers' := currentCustomers' + 1;
    } else if Within(date, rg.prevStart, rg.prevEnd) {
      prevIncome' := prevIncome' + amount;
      prevCustomers' := prevCustomers' + 1;
    }
  }

  /** A reservation that is neither completed nor on-going changes no bucket and no year. */
  lemma SkipStep(labelOrder: seq<string>, grouped: map<string, Bucket>, years: seq<nat>,
                 seen: seq<Reservation>, res: Reservation, s: Setting)
    requires SettingOk(s) && !Eligible(res)
    requires GroupedFor(grouped, seen, s)
    requires s.period == Yearly ==> YearsCollected(labelOrder, grouped, years, seen)
    ensures GroupedFor(grouped, seen + [res], s)
    ensures s.period == Yearly ==> YearsCollected(labelOrder, grouped, years, seen + [res])
  {
    var rs := seen + [res];
    assert rs[..|rs| - 1] == seen;
    assert EligibleYears(rs) == EligibleYears(seen);
    assert forall k :: BucketTotal(rs, s, k) == BucketTotal(seen, s, k);
  }

  /** The single pass over the reservations (lines 154-200). */
  method SinglePass(rs: seq<Reservation>, s: Setting,
                    labelOrder0: seq<string>, grouped0: map<string, Bucket>)
    returns (current: Bucket, previous: Bucket, labelOrder: seq<string>, grouped: map<string, Bucket>, ghost years: seq<nat>)
    requires SettingOk(s) && WellFormed(rs)
    requires GroupedFor(grouped0, [], s)
    requires forall j :: 0 <= j < |labelOrder0| ==> labelOrder0[j] in grouped0
    requires s.period == Yearly ==> labelOrder0 == [] && grouped0 == map[]
    ensures current == SlotTotal(rs, s, Current) && previous == SlotTotal(rs, s, Previous)
    ensures GroupedFor(grouped, rs, s)
    ensures forall j :: 0 <= j < |labelOrder| ==> labelOrder[j] in grouped
    ensures s.period != Yearly ==> labelOrder == labelOrder0
    ensures s.period == Yearly ==> YearsCollected(labelOrder, grouped, years, rs)
  {
    var currentIncome, currentCustomers, prevIncome, prevCustomers := 0, 0, 0, 0;
    labelOrder, grouped, years := labelOrder0, grouped0, [];
    for i := 0 to |rs|
      invariant Bucket(currentIncome, currentCustomers) == SlotTotal(rs[..i], s, Current)
      invariant Bucket(prevIncome, prevCustomers) == SlotTotal(rs[..i], s, Previous)
      invariant GroupedFor(grouped, rs[..i], s)
      invariant forall j :: 0 <= j < |labelOrder| ==> labelOrder[j] in grouped
      invariant s.period != Yearly ==> labelOrder == labelOrder0
      invariant s.period == Yearly ==> YearsCollected(labelOrder, grouped, years, rs[..i])
    {
      assert rs[..i + 1] == rs[..i] + [rs[i]];
      var res := rs[i];
      SlotStep(rs[..i], res, s);
      if Eligible(res) {
        currentIncome, currentCustomers, prevIncome, prevCustomers :=
          CountStats(res, s, currentIncome, currentCustomers, prevIncome, prevCustomers);
        labelOrder, grouped, years := FileReservation(res, s, labelOrder, grouped, years, rs[..i]);
      } else {
        SkipStep(labelOrder, grouped, years, rs[..i], res, s);
      }
    }
    assert rs[..|rs|] == rs;
    current := Bucket(currentIncome, currentCustomers);
    previous := Bucket(prevIncome, prevCustomers);
  }

  /** The continuous axis from the least to the greatest year (lines 209-219). */
  method FillYears(rs: seq<Reservation>, s: Setting, grouped: map<string, Bucket>, minYear: nat, maxYear: nat)
    returns (newOrder: seq<string>, newGrouped: map<string, Bucket>)
    requires SettingOk(s) && GroupedFor(grouped, rs, s)
    ensures newOrder == YearLabels(minYear, maxYear)
    ensures forall j :: 0 <= j < |newOrder| ==> newOrder[j] in newGrouped
    ensures forall k :: k in newGrouped ==> newGrouped[k] == BucketTotal(rs, s, k)
  {
    newOrder, newGrouped := [], map[];
    var y := minYear;
    while y <= maxYear
      invariant minYear <= y <= if minYear <= maxYear then maxYear + 1 else minYear
      invariant |newOrder| == y - minYear
      invariant forall j :: 0 <= j < |newOrder| ==> newOrder[j] == NatToString(minYear + j)
      invariant forall j :: 0 <= j < |newOrder| ==> newOrder[j] in newGrouped
      invariant forall k :: k in newGrouped ==> newGrouped[k] == BucketTotal(rs, s, k)
      decreases maxYear + 1 - y
    {
      var k := NatToString(y);
      newOrder := newOrder + [k];
      newGrouped := newGrouped[k := if k in grouped then grouped[k] else EmptyBucket];
      y := y + 1;
    }
  }

  /** Buckets that are all empty describe the empty input. */
  lemma EmptyGroupedFor(grouped: map<string, Bucket>, s: Setting)
    requires SettingOk(s)
    requires forall k :: k in grouped ==> grouped[k] == EmptyBucket
    ensures GroupedFor(grouped, [], s)
  {
  }

  /** The output mapping of lines 235-239, read off the labels and the buckets. */
  function PointsOfGrouped(labelOrder: seq<string>, grouped: map<string, Bucket>): (ps: seq<ChartDataPoint>)
    requires forall j :: 0 <= j < |labelOrder| ==> labelOrder[j] in grouped
    ensures |ps| == |labelOrder|
    ensures forall j :: 0 <= j < |ps| ==> ps[j].xAxis == labelOrder[j]
  {
    seq(|labelOrder|, j requires 0 <= j < |labelOrder| =>
      ChartDataPoint(labelOrder[j], grouped[labelOrder[j]].income, grouped[labelOrder[j]].customer))
  }

  lemma PointsOfGroupedIsChart(rs: seq<Reservation>, s: Setting, labelOrder: seq<string>, grouped: map<string, Bucket>)
    requires SettingOk(s) && labelOrder == AxisOf(rs, s)
    requires forall j :: 0 <= j < |labelOrder| ==> labelOrder[j] in grouped
    requires forall k :: k in grouped ==> grouped[k] == BucketTotal(rs, s, k)
    ensures PointsOfGrouped(labelOrder, grouped) == ChartOf(rs, s)
  {
  }

  /** The yearly post-processing (lines 203-225) with years ordered by value. */
  method YearlyAxis(rs: seq<Reservation>, s: Setting, labelOrder: seq<string>, grouped: map<string, Bucket>, ghost years: seq<nat>)
    returns (labelOrder': seq<string>, grouped': map<string, Bucket>)
    requires SettingOk(s) && s.period == Yearly
    requires GroupedFor(grouped, rs, s) && YearsCollected(labelOrder, grouped, years, rs)
    ensures labelOrder' == AxisOf(rs, s)
    ensures forall j :: 0 <= j < |labelOrder'| ==> labelOrder'[j] in grouped'
    ensures forall k :: k in grouped' ==> grouped'[k] == BucketTotal(rs, s, k)
  {
    if |labelOrder| > 0 {
      YearsAreLabels(labelOrder, years);
      var minYear := MinOf(YearsOf(labelOrder));
      var maxYear := MaxOf(YearsOf(labelOrder));
      SameMembersSameBounds(years, EligibleYears(rs));
      labelOrder', grouped' := FillYears(rs, s, grouped, minYear, maxYear);
    } else {
      var currentYear := NatToString(s.now.year);
      labelOrder' := [currentYear];
      grouped' := map[currentYear := EmptyBucket];
    }
  }

  /**
   * `processChartData` (lines 126-247) for the clock reading `now`: one pass
   * over the reservations filling the stats accumulators and the chart
   * buckets, then, for the yearly view, the continuous axis of years.
   */
  method ProcessChartData(rs: seq<Reservation>, period: Period, now: DateTime)
    returns (chartData: seq<ChartDataPoint>, stats: DashboardStats)
    requires ValidNow(now) && WellFormed(rs)
    ensures chartData == ChartOf(rs, SettingOf(period, now))
    ensures stats == StatsOf(rs, SettingOf(period, now))
  {
    var rg := GetPeriodRanges(period, now);
    var s := Setting(period, now, rg);

    var labelOrder: seq<string> := [];
    var grouped: map<string, Bucket> := map[];
    if period != Yearly {
      labelOrder, grouped := InitializeChartData(period, rg.currentStart, rg.currentEnd);
    }
    EmptyGroupedFor(grouped, s);
    var current, previous;
    ghost var years;
    current, previous, labelOrder, grouped, years := SinglePass(rs, s, labelOrder, grouped);
    if period == Yearly {
      labelOrder, grouped := YearlyAxis(rs, s, labelOrder, grouped, years);
    }
    PointsOfGroupedIsChart(rs, s, labelOrder, grouped);

    chartData := PointsOfGrouped(labelOrder, grouped);
    stats := DashboardStats(current.income, current.customer,
                            CalculateTrend(current.income, previous.income),
                            CalculateTrend(current.customer, previous.customer));
  }

  /** The years collected beside the labels are the labels' own values. */
  lemma YearsAreLabels(labels: seq<string>, years: seq<nat>)
    requires |years| == |labels|
    requires forall j :: 0 <= j < |years| ==> labels[j] == NatToString(years[j])
    ensures forall j :: 0 <= j < |labels| ==> IsDigits(labels[j])
    ensures YearsOf(labels) == years
  {
    forall j | 0 <= j < |years| ensures DigitsValue(labels[j]) == years[j] {
      NatToStringRoundTrip(years[j]);
    }
  }
}

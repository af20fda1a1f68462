/**
 * What the dashboard's figures add up to: the chart of every view against
 * the reservations it summarises, the weekly chart against the weekly
 * statistics, the yearly axis against the years booked, the trend's sign,
 * and the irrelevance of reservations that are neither completed nor
 * on-going.
 */
module DashboardTotals {
  import opened Wrappers
  import opened Decimal
  import opened Calendar
  import opened AdminTypes
  import opened Dashboard

  function Plus(a: Bucket, b: Bucket): Bucket {
    Bucket(a.income + b.income, a.customer + b.customer)
  }

  /** Income and customers added over the points of a chart. */
  function PointsTotal(ps: seq<ChartDataPoint>): Bucket {
    if ps == [] then EmptyBucket else Plus(Bucket(ps[0].income, ps[0].customer), PointsTotal(ps[1..]))
  }

  /** The buckets of `ls` added together. */
  function LabelsTotal(rs: seq<Reservation>, s: Setting, ls: seq<string>): Bucket
    requires SettingOk(s)
  {
    if ls == [] then EmptyBucket else Plus(BucketTotal(rs, s, ls[0]), LabelsTotal(rs, s, ls[1..]))
  }

  /** The chart label a reservation is filed under, if any. */
  function KeyOf(r: Reservation, s: Setting): Option<string>
    requires SettingOk(s)
  {
    if Eligible(r) && ParseDate(r.dateTime).Some? then ChartKey(s, InstantOf(r)) else None
  }

  lemma InBucketIsKeyOf(r: Reservation, s: Setting, k: string)
    requires SettingOk(s)
    ensures InBucket(r, s, k) <==> KeyOf(r, s) == Some(k)
  {
  }

  /** Whether a reservation is filed under one of the labels `ls`. */
  predicate KeyIn(r: Reservation, s: Setting, ls: seq<string>)
    requires SettingOk(s)
  {
    KeyOf(r, s).Some? && KeyOf(r, s).value in ls
  }

  /** Amount and number of the reservations filed under one of the labels `ls`. */
  function KeyedTotal(rs: seq<Reservation>, s: Setting, ls: seq<string>): Bucket
    requires SettingOk(s)
  {
    if rs == [] then EmptyBucket
    else
      var b := KeyedTotal(rs[..|rs| - 1], s, ls);
      var r := rs[|rs| - 1];
      if KeyIn(r, s, ls) then AddTo(b, r.amount) else b
  }

  predicate Distinct(ls: seq<string>) {
    forall i, j :: 0 <= i < j < |ls| ==> ls[i] != ls[j]
  }

  lemma {:induction false} PointsTotalOfLabels(rs: seq<Reservation>, s: Setting, ls: seq<string>)
    requires SettingOk(s)
    ensures PointsTotal(PointsFor(rs, s, ls)) == LabelsTotal(rs, s, ls)
  {
    if ls != [] {
      assert PointsFor(rs, s, ls)[1..] == PointsFor(rs, s, ls[1..]);
      PointsTotalOfLabels(rs, s, ls[1..]);
    }
  }

  lemma {:induction false} KeyedTotalNone(rs: seq<Reservation>, s: Setting)
    requires SettingOk(s)
    ensures KeyedTotal(rs, s, []) == EmptyBucket
  {
    if rs != [] {
      KeyedTotalNone(rs[..|rs| - 1], s);
    }
  }

  /** One reservation added to a sum of two disjoint totals is added to one of them. */
  lemma SplitStep(inBoth: bool, inK: bool, inL: bool, a: Bucket, b: Bucket, amount: int)
    requires inBoth <==> inK || inL
    requires !(inK && inL)
    ensures (if inBoth then AddTo(Plus(a, b), amount) else Plus(a, b))
         == Plus(if inK then AddTo(a, amount) else a, if inL then AddTo(b, amount) else b)
  {
  }

  lemma KeyInSplit(r: Reservation, s: Setting, k: string, ls: seq<string>)
    requires SettingOk(s) && k !in ls
    ensures KeyIn(r, s, [k] + ls) <==> InBucket(r, s, k) || KeyIn(r, s, ls)
    ensures !(InBucket(r, s, k) && KeyIn(r, s, ls))
  {
  }

  /** Splitting off one label that occurs nowhere else splits off its bucket. */
  lemma {:induction false} KeyedTotalSplit(rs: seq<Reservation>, s: Setting, k: string, ls: seq<string>)
    requires SettingOk(s) && k !in ls
    ensures KeyedTotal(rs, s, [k] + ls) == Plus(BucketTotal(rs, s, k), KeyedTotal(rs, s, ls))
  {
    if rs != [] {
      var front, r := rs[..|rs| - 1], rs[|rs| - 1];
      KeyedTotalSplit(front, s, k, ls);
      var inBoth, inK, inL := KeyIn(r, s, [k] + ls), InBucket(r, s, k), KeyIn(r, s, ls);
      var a, b := BucketTotal(front, s, k), KeyedTotal(front, s, ls);
      KeyInSplit(r, s, k, ls);
      assert KeyedTotal(front, s, [k] + ls) == Plus(a, b);
      SplitStep(inBoth, inK, inL, a, b, r.amount);
    } else {
      assert KeyedTotal(rs, s, [k] + ls) == EmptyBucket;
      assert BucketTotal(rs, s, k) == EmptyBucket && KeyedTotal(rs, s, ls) == EmptyBucket;
    }
  }

  /** Over distinct labels, adding the buckets counts each reservation at most once. */
  lemma {:induction false} LabelsTotalIsKeyed(rs: seq<Reservation>, s: Setting, ls: seq<string>)
    requires SettingOk(s) && Distinct(ls)
    ensures LabelsTotal(rs, s, ls) == KeyedTotal(rs, s, ls)
  {
    if ls == [] {
      KeyedTotalNone(rs, s);
    } else {
      assert ls == [ls[0]] + ls[1..];
      assert ls[0] !in ls[1..];
      LabelsTotalIsKeyed(rs, s, ls[1..]);
      KeyedTotalSplit(rs, s, ls[0], ls[1..]);
    }
  }

  /** A chart over distinct labels adds up to the reservations filed under its labels. */
  lemma ChartTotalIsKeyed(rs: seq<Reservation>, s: Setting)
    requires SettingOk(s) && Distinct(AxisOf(rs, s))
    ensures PointsTotal(ChartOf(rs, s)) == KeyedTotal(rs, s, AxisOf(rs, s))
  {
    PointsTotalOfLabels(rs, s, AxisOf(rs, s));
    LabelsTotalIsKeyed(rs, s, AxisOf(rs, s));
  }

  // ---------------------------------------------------------------------
  // Weekly view

  /** Position `i` of the weekly axis names weekday `(w + i) mod 7`, written without `%`. */
  lemma WeekLabelAt(start: DateTime, i: nat)
    requires start.month < 12 && i < 7
    ensures var w := Weekday(start);
      WeekLabels(start)[i] == DayNames[if w + i < 7 then w + i else w + i - 7]
  {
    var w := Weekday(start);
    assert (w + i) % 7 == if w + i < 7 then w + i else w + i - 7;
  }

  /** The weekly axis names each weekday exactly once. */
  lemma {:induction false} WeekLabelsAreTheWeek(start: DateTime)
    requires start.month < 12
    ensures Distinct(WeekLabels(start))
    ensures forall d :: 0 <= d < 7 ==> DayNames[d] in WeekLabels(start)
  {
    DayNamesDistinct();
    var w := Weekday(start);
    var ls := WeekLabels(start);
    forall d | 0 <= d < 7
      ensures DayNames[d] in ls
    {
      var i := if d >= w then d - w else d - w + 7;
      WeekLabelAt(start, i);
    }
    forall i, j | 0 <= i < j < 7
      ensures ls[i] != ls[j]
    {
      WeekLabelAt(start, i);
      WeekLabelAt(start, j);
    }
  }

  /** The weekly axis ends with the name of today. */
  lemma {:induction false} WeekEndsToday(now: DateTime)
    requires ValidNow(now)
    ensures WeekLabels(SettingOf(Weekly, now).ranges.currentStart)[6] == DayName(now)
  {
    var cs := SettingOf(Weekly, now).ranges.currentStart;
    assert DayNumber(cs) == DayNumber(now) - 6;
    WeekdayAfter(cs, now, 6);
    assert WeekLabels(cs)[6] == DayNames[(Weekday(cs) + 6) % 7];
  }

  lemma {:induction false} WeeklyKeyedIsCurrent(rs: seq<Reservation>, s: Setting)
    requires SettingOk(s) && s.period == Weekly
    ensures KeyedTotal(rs, s, WeekLabels(s.ranges.currentStart)) == SlotTotal(rs, s, Current)
  {
    if rs != [] {
      WeeklyKeyedIsCurrent(rs[..|rs| - 1], s);
      WeekLabelsAreTheWeek(s.ranges.currentStart);
    }
  }

  /** In the weekly view the chart adds up to the headline income and customer count. */
  lemma WeeklyChartAddsUpToStats(rs: seq<Reservation>, now: DateTime)
    requires ValidNow(now)
    ensures var s := SettingOf(Weekly, now);
      var st := StatsOf(rs, s);
      PointsTotal(ChartOf(rs, s)) == Bucket(st.totalIncome, st.totalCustomers)
  {
    var s := SettingOf(Weekly, now);
    WeekLabelsAreTheWeek(s.ranges.currentStart);
    ChartTotalIsKeyed(rs, s);
    WeeklyKeyedIsCurrent(rs, s);
  }

  // ---------------------------------------------------------------------
  // Monthly view

  /** Amount and number of the eligible reservations of year `y`. */
  function YearTotal(rs: seq<Reservation>, y: nat): Bucket {
    if rs == [] then EmptyBucket
    else
      var b := YearTotal(rs[..|rs| - 1], y);
      var r := rs[|rs| - 1];
      if Eligible(r) && ParseDate(r.dateTime).Some? && InstantOf(r).year == y then AddTo(b, r.amount) else b
  }

  lemma {:induction false} MonthlyKeyedIsYear(rs: seq<Reservation>, s: Setting)
    requires SettingOk(s) && s.period == Monthly
    ensures KeyedTotal(rs, s, MonthNames) == YearTotal(rs, s.now.year)
  {
    if rs != [] {
      MonthlyKeyedIsYear(rs[..|rs| - 1], s);
    }
  }

  /** In the monthly view the chart adds up to the whole current year, not only the current month. */
  lemma MonthlyChartAddsUpToYear(rs: seq<Reservation>, now: DateTime)
    requires ValidNow(now)
    ensures PointsTotal(ChartOf(rs, SettingOf(Monthly, now))) == YearTotal(rs, now.year)
  {
    var s := SettingOf(Monthly, now);
    MonthNamesDistinct();
    ChartTotalIsKeyed(rs, s);
    MonthlyKeyedIsYear(rs, s);
  }

  // ---------------------------------------------------------------------
  // Yearly view

  /** Amount and number of all eligible reservations. */
  function EligibleTotal(rs: seq<Reservation>): Bucket {
    if rs == [] then EmptyBucket
    else
      var b := EligibleTotal(rs[..|rs| - 1]);
      var r := rs[|rs| - 1];
      if Eligible(r) && ParseDate(r.dateTime).Some? then AddTo(b, r.amount) else b
  }

  lemma YearLabelsDistinct(lo: nat, hi: nat)
    ensures Distinct(YearLabels(lo, hi))
  {
    forall i, j | 0 <= i < j < |YearLabels(lo, hi)|
      ensures YearLabels(lo, hi)[i] != YearLabels(lo, hi)[j]
    {
      NatToStringInjective(lo + i, lo + j);
    }
  }

  /** The labels from `lo` to `hi` read back as the consecutive years from `lo`. */
  lemma YearLabelsValues(lo: nat, hi: nat)
    ensures var ls := YearLabels(lo, hi);
      forall j :: 0 <= j < |ls| ==> IsDigits(ls[j]) && DigitsValue(ls[j]) == lo + j
  {
    var ls := YearLabels(lo, hi);
    forall j | 0 <= j < |ls|
      ensures IsDigits(ls[j]) && DigitsValue(ls[j]) == lo + j
    {
      NatToStringRoundTrip(lo + j);
    }
  }

  /** The yearly axis runs, one year at a time, from the earliest year booked to the latest. */
  lemma YearlyAxisConsecutive(rs: seq<Reservation>, now: DateTime)
    requires ValidNow(now) && EligibleYears(rs) != []
    ensures var ys := EligibleYears(rs);
      var axis := AxisOf(rs, SettingOf(Yearly, now));
      && |axis| == MaxOf(ys) - MinOf(ys) + 1
      && forall j :: 0 <= j < |axis| ==> IsDigits(axis[j]) && DigitsValue(axis[j]) == MinOf(ys) + j
  {
    var ys := EligibleYears(rs);
    var lo, hi := MinOf(ys), MaxOf(ys);
    var s := SettingOf(Yearly, now);
    assert AxisOf(rs, s) == YearLabels(lo, hi);
    assert lo <= hi by { assert lo <= ys[0] <= hi; }
    YearLabelsValues(lo, hi);
  }

  /** Every year that has an eligible reservation is on the yearly axis. */
  lemma EligibleYearOnAxis(rs: seq<Reservation>, now: DateTime, j: nat)
    requires ValidNow(now) && j < |EligibleYears(rs)|
    ensures NatToString(EligibleYears(rs)[j]) in AxisOf(rs, SettingOf(Yearly, now))
  {
    var ys := EligibleYears(rs);
    var axis := AxisOf(rs, SettingOf(Yearly, now));
    assert axis[ys[j] - MinOf(ys)] == NatToString(ys[j]);
  }

  lemma {:induction false} YearlyKeyedIsAll(rs: seq<Reservation>, s: Setting, ls: seq<string>)
    requires SettingOk(s) && s.period == Yearly
    requires forall j :: 0 <= j < |EligibleYears(rs)| ==> NatToString(EligibleYears(rs)[j]) in ls
    ensures KeyedTotal(rs, s, ls) == EligibleTotal(rs)
  {
    if rs != [] {
      var front := rs[..|rs| - 1];
      assert forall j :: 0 <= j < |EligibleYears(front)| ==> EligibleYears(front)[j] == EligibleYears(rs)[j];
      YearlyKeyedIsAll(front, s, ls);
      var r := rs[|rs| - 1];
      if Eligible(r) && ParseDate(r.dateTime).Some? {
        assert EligibleYears(rs)[|EligibleYears(rs)| - 1] == InstantOf(r).year;
      }
    }
  }

  /** In the yearly view the chart adds up to every eligible reservation there is. */
  lemma YearlyChartAddsUpToAll(rs: seq<Reservation>, now: DateTime)
    requires ValidNow(now)
    ensures PointsTotal(ChartOf(rs, SettingOf(Yearly, now))) == EligibleTotal(rs)
  {
    var s := SettingOf(Yearly, now);
    var ys := EligibleYears(rs);
    if ys == [] {
      assert Distinct(AxisOf(rs, s));
    } else {
      YearLabelsDistinct(MinOf(ys), MaxOf(ys));
    }
    ChartTotalIsKeyed(rs, s);
    forall j | 0 <= j < |ys|
      ensures NatToString(ys[j]) in AxisOf(rs, s)
    {
      EligibleYearOnAxis(rs, now, j);
    }
    YearlyKeyedIsAll(rs, s, AxisOf(rs, s));
  }

  /** A year on the axis that no eligible reservation falls in shows zero income and customers. */
  lemma {:induction false} YearWithoutReservations(rs: seq<Reservation>, s: Setting, y: nat)
    requires SettingOk(s) && s.period == Yearly
    requires forall j :: 0 <= j < |EligibleYears(rs)| ==> EligibleYears(rs)[j] != y
    ensures BucketTotal(rs, s, NatToString(y)) == EmptyBucket
  {
    if rs != [] {
      var front := rs[..|rs| - 1];
      assert forall j :: 0 <= j < |EligibleYears(front)| ==> EligibleYears(front)[j] == EligibleYears(rs)[j];
      YearWithoutReservations(front, s, y);
      var r := rs[|rs| - 1];
      if Eligible(r) && ParseDate(r.dateTime).Some? {
        assert EligibleYears(rs)[|EligibleYears(rs)| - 1] == InstantOf(r).year;
        NatToStringInjective(InstantOf(r).year, y);
      }
    }
  }

  // ---------------------------------------------------------------------
  // Trend

  /** Against a positive previous figure the trend is positive on growth, zero when flat and negative on decline. */
  lemma TrendSign(curr: int, prev: int)
    requires prev > 0
    ensures CalculateTrend(curr, prev) > 0.0 <==> curr > prev
    ensures CalculateTrend(curr, prev) == 0.0 <==> curr == prev
    ensures CalculateTrend(curr, prev) < 0.0 <==> curr < prev
  {
    var r := CalculateTrend(curr, prev);
    var p := prev as real;
    assert r * p == ((curr - prev) as real) * 100.0;
    if r > 0.0 {
      assert r * p > 0.0;
    } else if r < 0.0 {
      assert r * p < 0.0;
    }
  }

  // ---------------------------------------------------------------------
  // Only completed and on-going reservations matter

  function Eligibles(rs: seq<Reservation>): (es: seq<Reservation>)
    ensures forall i :: 0 <= i < |es| ==> Eligible(es[i])
  {
    if rs == [] then []
    else
      var es := Eligibles(rs[..|rs| - 1]);
      if Eligible(rs[|rs| - 1]) then es + [rs[|rs| - 1]] else es
  }

  lemma {:induction false} EligiblesKeepTotals(rs: seq<Reservation>, s: Setting)
    requires SettingOk(s)
    ensures SlotTotal(Eligibles(rs), s, Current) == SlotTotal(rs, s, Current)
    ensures SlotTotal(Eligibles(rs), s, Previous) == SlotTotal(rs, s, Previous)
    ensures EligibleYears(Eligibles(rs)) == EligibleYears(rs)
    ensures forall k :: BucketTotal(Eligibles(rs), s, k) == BucketTotal(rs, s, k)
  {
    if rs != [] {
      var front := rs[..|rs| - 1];
      EligiblesKeepTotals(front, s);
      var r := rs[|rs| - 1];
      if Eligible(r) {
        var es := Eligibles(rs);
        assert es[..|es| - 1] == Eligibles(front);
      }
    }
  }

  /** Dropping the reservations that are neither completed nor on-going changes neither chart nor stats. */
  lemma OnlyEligibleMatter(rs: seq<Reservation>, period: Period, now: DateTime)
    requires ValidNow(now)
    ensures ChartOf(Eligibles(rs), SettingOf(period, now)) == ChartOf(rs, SettingOf(period, now))
    ensures StatsOf(Eligibles(rs), SettingOf(period, now)) == StatsOf(rs, SettingOf(period, now))
  {
    var s := SettingOf(period, now);
    EligiblesKeepTotals(rs, s);
    assert AxisOf(Eligibles(rs), s) == AxisOf(rs, s);
  }
}

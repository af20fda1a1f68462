/**
 * The yearly axis as the source builds it: `labelOrder.sort()` without a
 * comparator orders the year labels as strings, and the first and last
 * label are then read back as the numeric bounds of the axis. For years of
 * four digits this is the numeric order; across widths it is not.
 */
module DashboardFindings {
  import opened Decimal
  import opened Calendar
  import opened DateText
  import opened AdminTypes
  import opened Dashboard

  /** The yearly labels, one per eligible reservation; repeats change neither the least nor the greatest. */
  function YearStrings(ys: seq<nat>): (ls: seq<string>)
    ensures |ls| == |ys|
    ensures forall j :: 0 <= j < |ys| ==> ls[j] == NatToString(ys[j])
  {
    seq(|ys|, j requires 0 <= j < |ys| => NatToString(ys[j]))
  }

  /** The first label after `labelOrder.sort()`: the least in string order. */
  function SortedFirst(ls: seq<string>): (m: string)
    requires |ls| > 0
    ensures m in ls
  {
    if |ls| == 1 then ls[0]
    else
      var m := SortedFirst(ls[1..]);
      if StringLess(ls[0], m) then ls[0] else m
  }

  /** The last label after `labelOrder.sort()`: the greatest in string order. */
  function SortedLast(ls: seq<string>): (m: string)
    requires |ls| > 0
    ensures m in ls
  {
    if |ls| == 1 then ls[0]
    else
      var m := SortedLast(ls[1..]);
      if StringLess(m, ls[0]) then ls[0] else m
  }

  /**
   * The yearly axis exactly as lines 203-225 build it: the labels sorted as
   * strings, the first and last read back as the bounds of the loop.
   */
  function YearAxisAsWritten(rs: seq<Reservation>, s: Setting): seq<string>
  {
    var labels := YearStrings(EligibleYears(rs));
    if labels == [] then [NatToString(s.now.year)]
    else YearLabels(DigitsValue(SortedFirst(labels)), DigitsValue(SortedLast(labels)))
  }

  /** For four-digit years string order is numeric order. */
  lemma {:induction false} FourDigitOrder(x: nat, y: nat)
    requires 1000 <= x <= 9999 && 1000 <= y <= 9999
    ensures StringLess(NatToString(x), NatToString(y)) <==> x < y
  {
    FourDigitSpelling(x);
    FourDigitSpelling(y);
    NatToStringRoundTrip(x);
    NatToStringRoundTrip(y);
    StringLessSameWidth(NatToString(x), NatToString(y));
  }

  predicate FourDigitYears(ys: seq<nat>) {
    forall j :: 0 <= j < |ys| ==> 1000 <= ys[j] <= 9999
  }

  lemma {:induction false} SortedFirstIsMin(ys: seq<nat>)
    requires |ys| > 0 && FourDigitYears(ys)
    ensures SortedFirst(YearStrings(ys)) == NatToString(MinOf(ys))
  {
    if |ys| > 1 {
      var ls := YearStrings(ys);
      assert ls[1..] == YearStrings(ys[1..]);
      assert FourDigitYears(ys[1..]) by {
        forall j | 0 <= j < |ys[1..]| ensures 1000 <= ys[1..][j] <= 9999 {
          assert ys[1..][j] == ys[j + 1];
        }
      }
      SortedFirstIsMin(ys[1..]);
      FourDigitOrder(ys[0], MinOf(ys[1..]));
    }
  }

  lemma {:induction false} SortedLastIsMax(ys: seq<nat>)
    requires |ys| > 0 && FourDigitYears(ys)
    ensures SortedLast(YearStrings(ys)) == NatToString(MaxOf(ys))
  {
    if |ys| > 1 {
      var ls := YearStrings(ys);
      assert ls[1..] == YearStrings(ys[1..]);
      assert FourDigitYears(ys[1..]) by {
        forall j | 0 <= j < |ys[1..]| ensures 1000 <= ys[1..][j] <= 9999 {
          assert ys[1..][j] == ys[j + 1];
        }
      }
      SortedLastIsMax(ys[1..]);
      FourDigitOrder(MaxOf(ys[1..]), ys[0]);
    }
  }

  /** While every year booked has four digits, the axis as written is the intended one. */
  lemma AsWrittenAgreesForFourDigitYears(rs: seq<Reservation>, s: Setting)
    requires SettingOk(s) && s.period == Yearly && FourDigitYears(EligibleYears(rs))
    ensures YearAxisAsWritten(rs, s) == AxisOf(rs, s)
  {
    var ys := EligibleYears(rs);
    if ys != [] {
      SortedFirstIsMin(ys);
      SortedLastIsMax(ys);
      NatToStringRoundTrip(MinOf(ys));
      NatToStringRoundTrip(MaxOf(ys));
    }
  }

  lemma ExampleSpellings()
    ensures NatToString(999) == "999" && NatToString(2020) == "2020"
  {
  }

  lemma ExampleSorted()
    ensures SortedFirst(["999", "2020"]) == "2020" && SortedLast(["999", "2020"]) == "999"
  {
  }

  /** Bookings in the years 999 and 2020: the sorted labels start at "2020" and end at "999". */
  lemma AsWrittenAxisEmpty(rs: seq<Reservation>, s: Setting)
    requires SettingOk(s) && s.period == Yearly && EligibleYears(rs) == [999, 2020]
    ensures YearAxisAsWritten(rs, s) == []
    ensures |AxisOf(rs, s)| == 1022
  {
    var ls := YearStrings(EligibleYears(rs));
    ExampleSpellings();
    assert ls == ["999", "2020"];
    ExampleSorted();
    NatToStringRoundTrip(2020);
    NatToStringRoundTrip(999);
    assert YearAxisAsWritten(rs, s) == YearLabels(2020, 999);
  }

  /** The years of two eligible bookings, in order. */
  lemma YearsOfTwo(r1: Reservation, r2: Reservation)
    requires Eligible(r1) && ParseDate(r1.dateTime).Some?
    requires Eligible(r2) && ParseDate(r2.dateTime).Some?
    ensures EligibleYears([r1, r2]) == [InstantOf(r1).year, InstantOf(r2).year]
  {
    var rs := [r1, r2];
    assert rs[..1] == [r1] && [r1][..0] == [];
  }

  /** Two completed bookings, in 999 and in 2020, stamped by the application's own writer. */
  function ExampleBookings(t1: DateTime, t2: DateTime): seq<Reservation>
    requires Valid(t1) && t1.year < 10000 && Valid(t2) && t2.year < 10000
  {
    [Reservation("1", "A", "INV-1", StampText(t1), Completed, 50000),
     Reservation("2", "B", "INV-2", StampText(t2), Completed, 50000)]
  }

  /** With bookings in 999 and 2020 the chart as written is empty, while 1022 years lie between them. */
  lemma AsWrittenAxisEmptyExample(now: DateTime, t1: DateTime, t2: DateTime)
    requires ValidNow(now) && Valid(t1) && t1.year == 999 && Valid(t2) && t2.year == 2020
    ensures var s := SettingOf(Yearly, now);
      var rs := ExampleBookings(t1, t2);
      YearAxisAsWritten(rs, s) == [] && |ChartOf(rs, s)| == 1022
  {
    var s := SettingOf(Yearly, now);
    var rs := ExampleBookings(t1, t2);
    ParseStampText(t1);
    ParseStampText(t2);
    YearsOfTwo(rs[0], rs[1]);
    assert rs == [rs[0], rs[1]];
    AsWrittenAxisEmpty(rs, s);
  }
}

/**
 * The admin reservation feed (src/lib/api/admin/reservation.ts): 269
 * generated reservations sorted newest first, and the latest three that
 * wait for approval.
 */
module AdminReservation {
  import opened Wrappers
  import opened Decimal
  import opened Calendar
  import opened DateText
  import opened AdminTypes
  import opened MockTable
  import opened Sorting
  import Dashboard

  /** The random draws behind one generated reservation, each a `Math.random()` value. */
  datatype Draws = Draws(
    customer: string,
    invoice: real,
    year: real,
    month: real,
    day: real,
    hour: real,
    minute: real,
    status: real,
    amount: real)

  predicate Unit(u: real) {
    0.0 <= u < 1.0
  }

  predicate DrawsOk(d: Draws) {
    Unit(d.invoice) && Unit(d.year) && Unit(d.month) && Unit(d.day) && Unit(d.hour)
    && Unit(d.minute) && Unit(d.status) && Unit(d.amount)
  }

  /** The five statuses in the order of the `statuses` table (lines 6-12). */
  const Statuses: seq<Status> := [WaitingApprove, OnGoing, Completed, CanceledByUser, CanceledByAdmin]

  /** The generated instant: a year 2020-2025, any month, a day 1-28 and a clock to the minute. */
  function SeedDate(d: Draws): (t: DateTime)
    requires DrawsOk(d)
    ensures Valid(t) && 2020 <= t.year <= 2025 && 1 <= t.day <= 28 && t.second == 0 && t.ms == 0
  {
    var y, m, day := 2020 + Draw(d.year, 6, 0), Draw(d.month, 12, 0), Draw(d.day, 28, 1);
    var h, mi := Draw(d.hour, 24, 0), Draw(d.minute, 60, 0);
    DaysBeforeYearLower(y);
    var t := NewDate(y, m, day, h, mi, 0, 0);
    assert m / 12 == 0 && m % 12 == m;
    SameDayAndClock(t, DateTime(y, m, day, h, mi, 0, 0));
    t
  }

  /** The record for position `index` of `Array.from` (lines 13-29). */
  function GenerateRow(index: nat, d: Draws): (r: Reservation)
    requires DrawsOk(d)
    ensures r.id == "id-" + NatToString(index + 1)
    ensures r.status in Statuses && 1000 <= r.amount <= 10999
    ensures r.dateTime == StampText(SeedDate(d))
  {
    Reservation(
      "id-" + NatToString(index + 1),
      d.customer,
      "INV-" + NatToString(Draw(d.invoice, 10000, 0)),
      StampText(SeedDate(d)),
      Statuses[Draw(d.status, 5, 0)],
      Draw(d.amount, 10000, 1000))
  }

  /** The generated list before sorting. */
  function Generated(draws: seq<Draws>): (rs: seq<Reservation>)
    requires forall i :: 0 <= i < |draws| ==> DrawsOk(draws[i])
    ensures |rs| == |draws|
    ensures forall i :: 0 <= i < |draws| ==> rs[i] == GenerateRow(i, draws[i])
  {
    seq(|draws|, i requires 0 <= i < |draws| => GenerateRow(i, draws[i]))
  }

  /** Distinct positions get distinct ids. */
  lemma {:induction false} IdsDistinct(i: nat, j: nat)
    requires i != j
    ensures "id-" + NatToString(i + 1) != "id-" + NatToString(j + 1)
  {
    var a, b := "id-" + NatToString(i + 1), "id-" + NatToString(j + 1);
    if a == b {
      assert a[3..] == NatToString(i + 1) && b[3..] == NatToString(j + 1);
      NatToStringInjective(i + 1, j + 1);
    }
  }

  /**
   * `new Date(r.dateTime).getTime()`, the key of the comparator: a stamp in
   * the stored form is read as its ISO form. A stamp that does not read is
   * keyed 0; generated stamps always read.
   */
  function StampKey(r: Reservation): int {
    match Dashboard.ParseDate(r.dateTime)
    case Some(t) => Time(t)
    case None => 0
  }

  /** A generated row is keyed by the instant it was generated from. */
  lemma GeneratedKey(index: nat, d: Draws)
    requires DrawsOk(d)
    ensures StampKey(GenerateRow(index, d)) == Time(SeedDate(d))
  {
    Dashboard.ParseStampText(SeedDate(d));
  }

  /**
   * `getReservations`: the 269 generated records, sorted in place newest
   * first; `perm` says which generated record lands where.
   */
  method GetReservations(draws: seq<Draws>) returns (reservations: seq<Reservation>, ghost perm: seq<nat>)
    requires |draws| == 269 && forall i :: 0 <= i < |draws| ==> DrawsOk(draws[i])
    ensures |reservations| == 269
    ensures Reorders(Generated(draws), reservations, perm)
    ensures multiset(reservations) == multiset(Generated(draws))
    ensures NonIncreasing(reservations, StampKey)
    ensures forall i, j :: 0 <= i < j < |reservations| ==> reservations[i].id != reservations[j].id
  {
    var a := new Reservation[269](i requires 0 <= i < 269 => GenerateRow(i, draws[i]));
    assert a[..] == Generated(draws);
    perm := SortByKeyDescending(a, StampKey);
    reservations := a[..];
    ReorderedIdsDistinct(draws, reservations, perm);
  }

  /** Any rearrangement of the generated list still has pairwise distinct ids. */
  lemma ReorderedIdsDistinct(draws: seq<Draws>, rs: seq<Reservation>, perm: seq<nat>)
    requires forall i :: 0 <= i < |draws| ==> DrawsOk(draws[i])
    requires Reorders(Generated(draws), rs, perm)
    ensures forall i, j :: 0 <= i < j < |rs| ==> rs[i].id != rs[j].id
  {
    forall i, j | 0 <= i < j < |rs|
      ensures rs[i].id != rs[j].id
    {
      var g := Generated(draws);
      var p, q := perm[i], perm[j];
      assert rs[i] == g[p] && rs[j] == g[q];
      RowIdsDistinct(p, q, draws[p], draws[q]);
    }
  }

  lemma RowIdsDistinct(p: nat, q: nat, dp: Draws, dq: Draws)
    requires p != q && DrawsOk(dp) && DrawsOk(dq)
    ensures GenerateRow(p, dp).id != GenerateRow(q, dq).id
  {
    IdsDistinct(p, q);
  }

  /** `filter((r) => r.status === 'waiting-approve')`. */
  function Waiting(rs: seq<Reservation>): (ws: seq<Reservation>)
    ensures |ws| <= |rs|
    ensures forall r :: r in ws <==> r in rs && r.status == WaitingApprove
  {
    if rs == [] then []
    else
      var last := rs[|rs| - 1];
      var front := rs[..|rs| - 1];
      assert rs == front + [last];
      if last.status == WaitingApprove then Waiting(front) + [last] else Waiting(front)
  }

  /** `getLatestWaitingReservations` on the sorted feed: `slice(0, 3)` of the waiting ones. */
  function LatestWaiting(rs: seq<Reservation>): (r: seq<Reservation>)
    ensures |r| == if |Waiting(rs)| < 3 then |Waiting(rs)| else 3
    ensures r == Waiting(rs)[..|r|]
    ensures forall x :: x in r ==> x.status == WaitingApprove
  {
    var ws := Waiting(rs);
    if |ws| < 3 then ws else ws[..3]
  }

  /** Filtering keeps the newest-first order. */
  lemma {:induction false} WaitingKeepsOrder(rs: seq<Reservation>)
    requires NonIncreasing(rs, StampKey)
    ensures NonIncreasing(Waiting(rs), StampKey)
  {
    if rs != [] {
      var last := rs[|rs| - 1];
      var front := rs[..|rs| - 1];
      assert forall i :: 0 <= i < |front| ==> front[i] == rs[i];
      assert NonIncreasing(front, StampKey);
      assert forall k :: 0 <= k < |front| ==> StampKey(front[k]) >= StampKey(last);
      WaitingKeepsOrder(front);
      if last.status == WaitingApprove {
        AppendOlder(Waiting(front), front, last);
      }
    }
  }

  /** Appending a record no newer than any of `front` keeps a filtered list of `front` in order. */
  lemma AppendOlder(ws: seq<Reservation>, front: seq<Reservation>, last: Reservation)
    requires NonIncreasing(ws, StampKey) && forall r :: r in ws ==> r in front
    requires forall k :: 0 <= k < |front| ==> StampKey(front[k]) >= StampKey(last)
    ensures NonIncreasing(ws + [last], StampKey)
  {
    var ws' := ws + [last];
    forall i, j | 0 <= i < j < |ws'| ensures StampKey(ws'[i]) >= StampKey(ws'[j]) {
      if j == |ws| {
        assert ws'[i] in front;
      } else {
        assert ws'[i] == ws[i] && ws'[j] == ws[j];
      }
    }
  }

  /** On a newest-first feed the three picked are at least as recent as every waiting one left out. */
  lemma LatestAreMostRecent(rs: seq<Reservation>)
    requires NonIncreasing(rs, StampKey)
    ensures var picked, ws := LatestWaiting(rs), Waiting(rs);
      forall i, j :: 0 <= i < |picked| <= j < |ws| ==> StampKey(picked[i]) >= StampKey(ws[j])
  {
    WaitingKeepsOrder(rs);
  }

  /**
   * Of any newest-first arrangement of `g`, the three picked are waiting rows
   * of `g`, newest first, and no waiting row of `g` left out is newer.
   */
  lemma PickedAreLatest(rs: seq<Reservation>, g: seq<Reservation>)
    requires NonIncreasing(rs, StampKey) && multiset(rs) == multiset(g)
    ensures var picked := LatestWaiting(rs);
      && |picked| <= 3 && NonIncreasing(picked, StampKey)
      && (forall x :: x in picked ==> x.status == WaitingApprove && x in g)
      && forall w :: w in g && w.status == WaitingApprove && w !in picked ==>
           |picked| == 3 && forall i :: 0 <= i < 3 ==> StampKey(picked[i]) >= StampKey(w)
  {
    var picked, ws := LatestWaiting(rs), Waiting(rs);
    WaitingKeepsOrder(rs);
    LatestAreMostRecent(rs);
    forall x | x in picked ensures x in g {
      assert x in ws;
      assert x in multiset(rs);
    }
    forall w | w in g && w.status == WaitingApprove && w !in picked
      ensures |picked| == 3 && forall i :: 0 <= i < 3 ==> StampKey(picked[i]) >= StampKey(w)
    {
      assert w in multiset(g);
      assert w in rs;
      assert w in ws;
      var j :| 0 <= j < |ws| && ws[j] == w;
    }
  }

  /** `getLatestWaitingReservations`: a fresh feed, then its latest three waiting reservations. */
  method GetLatestWaitingReservations(draws: seq<Draws>) returns (latestThree: seq<Reservation>, ghost feed: seq<Reservation>)
    requires |draws| == 269 && forall i :: 0 <= i < |draws| ==> DrawsOk(draws[i])
    ensures NonIncreasing(feed, StampKey) && exists perm :: Reorders(Generated(draws), feed, perm)
    ensures latestThree == LatestWaiting(feed)
    ensures |latestThree| <= 3 && NonIncreasing(latestThree, StampKey)
    ensures forall x :: x in latestThree ==> x.status == WaitingApprove && x in Generated(draws)
    ensures forall w :: w in Generated(draws) && w.status == WaitingApprove && w !in latestThree ==>
      |latestThree| == 3 && forall i :: 0 <= i < 3 ==> StampKey(latestThree[i]) >= StampKey(w)
  {
    var reservations;
    ghost var perm;
    reservations, perm := GetReservations(draws);
    feed := reservations;
    var waitingReservations := Waiting(reservations);
    latestThree := if |waitingReservations| < 3 then waitingReservations else waitingReservations[..3];
    PickedAreLatest(reservations, Generated(draws));
  }
}

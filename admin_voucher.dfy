/**
 * The admin voucher table (src/lib/api/admin/voucher.ts): a module-level
 * array of vouchers with lookup by id, overwrite by id and append.
 */
module AdminVoucher {
  import opened Wrappers
  import opened Calendar
  import opened DateText
  import opened MockTable

  /**
   * A voucher as the mock table stores it: the start and expiry are the
   * "YYYY-MM-DD HH:MM" strings the seeding writes.
   */
  datatype Voucher = Voucher(
    id: string,
    title: string,
    startDate: string,
    expiredDate: string,
    description: string,
    service: string,
    value: int)

  /** The services a seeded voucher can be for. */
  const Services: seq<string> := ["Premium Haircut", "Classic Haircut", "Shave Bread"]

  /** The four `Math.random()` draws behind one seeded instant. */
  datatype ClockDraws = ClockDraws(month: real, day: real, hour: real, minute: real)

  predicate ClockDrawsOk(c: ClockDraws) {
    0.0 <= c.month < 1.0 && 0.0 <= c.day < 1.0 && 0.0 <= c.hour < 1.0 && 0.0 <= c.minute < 1.0
  }

  /** `new Date(2025, month, day, hour, minute)` with the drawn fields: no field carries. */
  function SeedInstant(c: ClockDraws): (t: DateTime)
    requires ClockDrawsOk(c)
    ensures Valid(t) && t.year == 2025
    ensures t.month == Draw(c.month, 12, 0) && t.day == Draw(c.day, 28, 1)
    ensures t.hour == Draw(c.hour, 24, 0) && t.minute == Draw(c.minute, 60, 0)
    ensures t.second == 0 && t.ms == 0
  {
    var m, d := Draw(c.month, 12, 0), Draw(c.day, 28, 1);
    var h, mi := Draw(c.hour, 24, 0), Draw(c.minute, 60, 0);
    DaysBeforeYearLower(2025);
    var t := NewDate(2025, m, d, h, mi, 0, 0);
    assert m / 12 == 0 && m % 12 == m;
    SameDayAndClock(t, DateTime(2025, m, d, h, mi, 0, 0));
    t
  }

  /**
   * One seeded row (lines 7-33): the id, title and description are given,
   * the dates are stamps of 2025, the service one of three and the value
   * `Math.floor(Math.random() * 100)`, so anything from 0 to 99.
   */
  function SeedVoucher(id: string, title: string, description: string,
                       start: ClockDraws, expiry: ClockDraws, service: real, value: real): (v: Voucher)
    requires ClockDrawsOk(start) && ClockDrawsOk(expiry) && 0.0 <= service < 1.0 && 0.0 <= value < 1.0
    ensures v.id == id && v.title == title && v.description == description
    ensures v.startDate == StampText(SeedInstant(start)) && v.expiredDate == StampText(SeedInstant(expiry))
    ensures v.service in Services
    ensures 0 <= v.value <= 99
  {
    Voucher(id, title, StampText(SeedInstant(start)), StampText(SeedInstant(expiry)), description,
            Services[Draw(service, 3, 0)], Draw(value, 100, 0))
  }

  /** The callback `(b) => b.id === id`. */
  function WithId(id: string): Voucher -> bool {
    (b: Voucher) => b.id == id
  }

  class VoucherStore {
    var vouchers: seq<Voucher>

    /** The table as seeded; the random seeding itself is a parameter. */
    constructor (seed: seq<Voucher>)
      ensures vouchers == seed
    {
      vouchers := seed;
    }

    /** `getVoucherById`: the first voucher with that id, or the not-found error. */
    function GetVoucherById(id: string): (r: Response<Voucher>)
      reads this
      ensures r.success <==> exists j :: 0 <= j < |vouchers| && vouchers[j].id == id
      ensures !r.success ==> r.data.None? && r.error == Some("Voucher not found")
      ensures r.success ==> r.error.None? && r.data.Some? && r.data.value.id == id
      ensures r.success ==> exists i :: IsFirst(vouchers, WithId(id), i) && r.data == Some(vouchers[i])
    {
      Lookup(vouchers, WithId(id), "Voucher not found")
    }

    /** `getVoucher`: the table as it stands. */
    function GetVoucher(): (r: seq<Voucher>)
      reads this
      ensures r == vouchers
    {
      vouchers
    }

    /** `editVoucher`: overwrite the first voucher with the same id; false when there is none. */
    method EditVoucher(updatedVoucher: Voucher) returns (ok: bool)
      modifies this
      ensures (vouchers, ok) == Replace(old(vouchers), WithId(updatedVoucher.id), updatedVoucher)
      ensures ok <==> exists j :: 0 <= j < |old(vouchers)| && old(vouchers)[j].id == updatedVoucher.id
      ensures ok ==> GetVoucherById(updatedVoucher.id) == Response(true, Some(updatedVoucher), None)
      ensures forall id :: id != updatedVoucher.id ==> GetVoucherById(id) == old(GetVoucherById(id))
    {
      ghost var before := vouchers;
      var index := FirstIndex(vouchers, WithId(updatedVoucher.id));
      if index.Some? {
        vouchers := vouchers[index.value := updatedVoucher];
        ok := true;
      } else {
        ok := false;
      }
      if ok {
        ReplaceThenLookup(before, WithId(updatedVoucher.id), updatedVoucher, "Voucher not found");
      }
      forall id | id != updatedVoucher.id
        ensures GetVoucherById(id) == Lookup(before, WithId(id), "Voucher not found")
      {
        ReplaceKeepsOtherLookups(before, WithId(updatedVoucher.id), WithId(id), updatedVoucher, "Voucher not found");
      }
    }

    /** `createVoucher`: append, with no check for a duplicate id. */
    method CreateVoucher(newVoucher: Voucher) returns (ok: bool)
      modifies this
      ensures vouchers == old(vouchers) + [newVoucher] && ok
      ensures GetVoucherById(newVoucher.id)
              == if old(GetVoucherById(newVoucher.id)).success then old(GetVoucherById(newVoucher.id))
                 else Response(true, Some(newVoucher), None)
    {
      AppendThenLookup(vouchers, WithId(newVoucher.id), newVoucher, "Voucher not found");
      vouchers := vouchers + [newVoucher];
      ok := true;
    }
  }
}

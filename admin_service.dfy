/**
 * The admin service table (src/lib/api/admin/service.ts): a module-level
 * array with lookup by id, overwrite by id and append.
 */
module AdminService {
  import opened Wrappers
  import opened MockTable
  import Schema

  /**
   * A row as the array holds it. Two shapes end up in the same array: the
   * seeding writes `serviceName`, while the service form writes `{...data, id}`
   * with the form's `name` and `attainableCoin` and no `serviceName`. Each of
   * those three fields is therefore optional (`undefined` when absent).
   */
  datatype Row = Row(
    id: string,
    serviceName: Option<string>,
    price: real,
    description: string,
    name: Option<string>,
    attainableCoin: Option<real>)

  /** The object `getServiceById` builds: only these four fields are copied. */
  datatype Service = Service(
    id: string,
    serviceName: Option<string>,
    price: real,
    description: string)

  /** The copy `cleanService` of a row. */
  function Clean(row: Row): Service {
    Service(row.id, row.serviceName, row.price, row.description)
  }

  /** One seeded row: the price is `Math.floor(Math.random() * 10000) + 1000` for the draw `u`. */
  function SeedService(id: string, serviceName: string, u: real, description: string): (s: Row)
    requires 0.0 <= u < 1.0
    ensures 1000.0 <= s.price <= 10999.0 && s.price == s.price.Floor as real
    ensures s.id == id && s.serviceName == Some(serviceName) && s.description == description
    ensures s.name.None? && s.attainableCoin.None?
  {
    Row(id, Some(serviceName), Draw(u, 10000, 1000) as real, description, None, None)
  }

  /** The row the edit and create form stores: the parsed form `{...data, id}`. */
  function FormRow(data: Schema.ServiceInput, id: string): (s: Row)
    ensures s.id == id && s.serviceName.None?
    ensures s.name == Some(data.name) && s.attainableCoin == Some(data.attainableCoin)
    ensures s.price == data.price && s.description == data.description
  {
    Row(id, None, data.price, data.description, Some(data.name), Some(data.attainableCoin))
  }

  /** The copy reads neither `name` nor `attainableCoin`: changing them changes nothing it returns. */
  lemma CleanIgnoresFormFields(row: Row, name: Option<string>, coin: Option<real>)
    ensures Clean(row.(name := name, attainableCoin := coin)) == Clean(row)
    ensures Clean(row).serviceName == row.serviceName
  {
  }

  /**
   * As written, a form-stored row is read back with `serviceName` undefined and
   * without the name and coin it was saved with: two forms that differ only in
   * those fields are indistinguishable to the lookup.
   */
  lemma AsWrittenFormRowLosesName(d: Schema.ServiceInput, e: Schema.ServiceInput, id: string)
    requires d.price == e.price && d.description == e.description
    ensures Clean(FormRow(d, id)) == Clean(FormRow(e, id))
    ensures Clean(FormRow(d, id)) == Service(id, None, d.price, d.description)
  {
  }

  /** The `Service` of adminTypes.ts: the form's fields, with `attainableCoin` optional. */
  datatype Declared = Declared(
    id: string, name: Option<string>, price: real, description: string, attainableCoin: Option<real>)

  /** The copy as evidently intended: the fields the declared type names, taken from the row. */
  function IntendedClean(row: Row): (s: Declared)
    ensures s.id == row.id && s.price == row.price && s.description == row.description
    ensures s.name == row.name && s.attainableCoin == row.attainableCoin
  {
    Declared(row.id, row.name, row.price, row.description, row.attainableCoin)
  }

  /** The intended copy gives back every field of the form a row was stored from. */
  lemma IntendedCleanRoundTrip(d: Schema.ServiceInput, id: string)
    ensures var s := IntendedClean(FormRow(d, id));
            s.name.Some? && s.attainableCoin.Some?
            && Schema.ServiceInput(d.id, s.name.value, s.price, s.description, s.attainableCoin.value) == d
    ensures forall e: Schema.ServiceInput :: IntendedClean(FormRow(e, id)) == IntendedClean(FormRow(d, id)) ==> e == d.(id := e.id)
  {
  }

  /** The callback `(b) => b.id === id`. */
  function WithId(id: string): Row -> bool {
    (b: Row) => b.id == id
  }

  class ServiceStore {
    var services: seq<Row>

    /** The table as seeded; the random seeding itself is a parameter. */
    constructor (seed: seq<Row>)
      ensures services == seed
    {
      services := seed;
    }

    /** `getServiceById`: the four-field copy of the first row with that id, or the not-found error. */
    function GetServiceById(id: string): (r: Response<Service>)
      reads this
      ensures r.success <==> exists j :: 0 <= j < |services| && services[j].id == id
      ensures !r.success ==> r.data.None? && r.error == Some("Service not found")
      ensures r.success ==> r.error.None? && r.data.Some? && r.data.value.id == id
      ensures r.success ==> exists i :: IsFirst(services, WithId(id), i) && r.data == Some(Clean(services[i]))
    {
      var found := Lookup(services, WithId(id), "Service not found");
      if found.success then Response(true, Some(Clean(found.data.value)), None)
      else Response(false, None, found.error)
    }

    /** `getService`: the table as it stands. */
    function GetService(): (r: seq<Row>)
      reads this
      ensures r == services
    {
      services
    }

    /** `editService`: overwrite the first row with the same id; false when there is none. */
    method EditService(updatedService: Row) returns (ok: bool)
      modifies this
      ensures (services, ok) == Replace(old(services), WithId(updatedService.id), updatedService)
      ensures ok <==> exists j :: 0 <= j < |old(services)| && old(services)[j].id == updatedService.id
      ensures ok ==> GetServiceById(updatedService.id) == Response(true, Some(Clean(updatedService)), None)
      ensures forall id :: id != updatedService.id ==> GetServiceById(id) == old(GetServiceById(id))
    {
      ghost var before := services;
      var index := FirstIndex(services, WithId(updatedService.id));
      if index.Some? {
        services := services[index.value := updatedService];
        ok := true;
      } else {
        ok := false;
      }
      if ok {
        ReplaceThenLookup(before, WithId(updatedService.id), updatedService, "Service not found");
      }
      forall id | id != updatedService.id
        ensures Lookup(services, WithId(id), "Service not found") == Lookup(before, WithId(id), "Service not found")
      {
        ReplaceKeepsOtherLookups(before, WithId(updatedService.id), WithId(id), updatedService, "Service not found");
      }
    }

    /** `createService`: append, with no check for a duplicate id. */
    method CreateService(newService: Row) returns (ok: bool)
      modifies this
      ensures services == old(services) + [newService] && ok
      ensures GetServiceById(newService.id)
              == if old(GetServiceById(newService.id)).success then old(GetServiceById(newService.id))
                 else Response(true, Some(Clean(newService)), None)
    {
      AppendThenLookup(services, WithId(newService.id), newService, "Service not found");
      services := services + [newService];
      ok := true;
    }
  }
}

/**
 * The admin catalogue table (src/lib/api/admin/catalogue.ts): a module-level
 * array with lookup by id, overwrite by id and append.
 */
module AdminCatalogue {
  import opened Wrappers
  import opened MockTable
  import opened AdminTypes

  /** A catalogue entry: a haircut style with one image URL (the field `type` is named `kind` here). */
  datatype Catalogue = Catalogue(
    id: string,
    name: string,
    kind: CatalogueType,
    description: string,
    image: string)

  /** The callback `(b) => b.id === id`. */
  function WithId(id: string): Catalogue -> bool {
    (b: Catalogue) => b.id == id
  }

  class CatalogueStore {
    var catalogues: seq<Catalogue>

    /** The table as seeded; the random seeding itself is a parameter. */
    constructor (seed: seq<Catalogue>)
      ensures catalogues == seed
    {
      catalogues := seed;
    }

    /** `getCatalogueById`: the first catalogue entry with that id, or the not-found error. */
    function GetCatalogueById(id: string): (r: Response<Catalogue>)
      reads this
      ensures r.success <==> exists j :: 0 <= j < |catalogues| && catalogues[j].id == id
      ensures !r.success ==> r.data.None? && r.error == Some("Catalogue not found")
      ensures r.success ==> r.error.None? && r.data.Some? && r.data.value.id == id
      ensures r.success ==> exists i :: IsFirst(catalogues, WithId(id), i) && r.data == Some(catalogues[i])
    {
      Lookup(catalogues, WithId(id), "Catalogue not found")
    }

    /** `getCatalogue`: the table as it stands. */
    function GetCatalogue(): (r: seq<Catalogue>)
      reads this
      ensures r == catalogues
    {
      catalogues
    }

    /** `editCatalogue`: overwrite the first catalogue entry with the same id; false when there is none. */
    method EditCatalogue(updatedCatalogue: Catalogue) returns (ok: bool)
      modifies this
      ensures (catalogues, ok) == Replace(old(catalogues), WithId(updatedCatalogue.id), updatedCatalogue)
      ensures ok <==> exists j :: 0 <= j < |old(catalogues)| && old(catalogues)[j].id == updatedCatalogue.id
      ensures ok ==> GetCatalogueById(updatedCatalogue.id) == Response(true, Some(updatedCatalogue), None)
      ensures forall id :: id != updatedCatalogue.id ==> GetCatalogueById(id) == old(GetCatalogueById(id))
    {
      ghost var before := catalogues;
      var index := FirstIndex(catalogues, WithId(updatedCatalogue.id));
      if index.Some? {
        catalogues := catalogues[index.value := updatedCatalogue];
        ok := true;
      } else {
        ok := false;
      }
      if ok {
        ReplaceThenLookup(before, WithId(updatedCatalogue.id), updatedCatalogue, "Catalogue not found");
      }
      forall id | id != updatedCatalogue.id
        ensures GetCatalogueById(id) == Lookup(before, WithId(id), "Catalogue not found")
      {
        ReplaceKeepsOtherLookups(before, WithId(updatedCatalogue.id), WithId(id), updatedCatalogue, "Catalogue not found");
      }
    }

    /** `createCatalogue`: append, with no check for a duplicate id. */
    method CreateCatalogue(newCatalogue: Catalogue) returns (ok: bool)
      modifies this
      ensures catalogues == old(catalogues) + [newCatalogue] && ok
      ensures GetCatalogueById(newCatalogue.id)
              == if old(GetCatalogueById(newCatalogue.id)).success then old(GetCatalogueById(newCatalogue.id))
                 else Response(true, Some(newCatalogue), None)
    {
      AppendThenLookup(catalogues, WithId(newCatalogue.id), newCatalogue, "Catalogue not found");
      catalogues := catalogues + [newCatalogue];
      ok := true;
    }
  }
}

/**
 * The customer-facing catalogue (src/lib/api/shared/catalogue.ts): a
 * read-only table whose entries carry one to three image URLs.
 */
module SharedCatalogue {
  import opened Wrappers
  import opened AdminTypes
  import opened MockTable

  /** A catalogue entry as this table seeds it: `image` is a list of URLs. */
  datatype Entry = Entry(
    id: string,
    name: string,
    kind: CatalogueType,
    description: string,
    image: seq<string>)

  /** The callback `(b) => b.id === id`. */
  function WithId(id: string): Entry -> bool {
    (b: Entry) => b.id == id
  }

  /** `getCatalogueById` over the table `catalogues`, which it only reads. */
  function GetCatalogueById(catalogues: seq<Entry>, id: string): (r: Response<Entry>)
    ensures r.success <==> exists j :: 0 <= j < |catalogues| && catalogues[j].id == id
    ensures !r.success ==> r.data.None? && r.error == Some("Catalogue not found")
    ensures r.success ==> r.error.None? && r.data.Some? && r.data.value.id == id
    ensures r.success ==> exists i :: IsFirst(catalogues, WithId(id), i) && r.data == Some(catalogues[i])
  {
    Lookup(catalogues, WithId(id), "Catalogue not found")
  }

  /** `getCatalogue`: the whole table. */
  function GetCatalogue(catalogues: seq<Entry>): (r: seq<Entry>)
    ensures r == catalogues
  {
    catalogues
  }

  /** Every entry of the table is what the lookup by its id answers, unless an earlier entry has the same id. */
  lemma {:induction false} EveryEntryFound(catalogues: seq<Entry>, k: nat)
    requires k < |catalogues|
    ensures var r := GetCatalogueById(catalogues, catalogues[k].id);
      r.success && (r.data == Some(catalogues[k])
                   || exists j :: 0 <= j < k && catalogues[j].id == catalogues[k].id && r.data == Some(catalogues[j]))
  {
    var id := catalogues[k].id;
    var i := FirstIndex(catalogues, WithId(id)).value;
    assert WithId(id)(catalogues[k]);
    assert i <= k;
    if i < k {
      assert catalogues[i].id == id;
    }
  }
}

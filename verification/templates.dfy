/**
 * The template catalog: a fixed, ordered list of template records and the
 * lookup by id that the content form uses to decide whether it can render.
 */
module Templates {
  import opened Wrappers

  /** One catalog entry: a stable id, the preview image path and the display label (`label` in templates.js; `label` is a Dafny keyword). */
  datatype TemplateRecord = TemplateRecord(id: string, src: string, labelText: string)

  /** The catalog in display order. */
  const Catalog: seq<TemplateRecord> := [
    TemplateRecord("template-1", "/temp1.png", "Organizer landing page"),
    TemplateRecord("template-2", "/temp2.png", "Event Landing Page")
  ]

  /** No two records of `catalog` share an id. */
  predicate UniqueIds(catalog: seq<TemplateRecord>) {
    forall i, j :: 0 <= i < j < |catalog| ==> catalog[i].id != catalog[j].id
  }

  /**
   * The position of the first record whose id equals `id`, scanning in
   * catalog order (the `find` callback is a strict equality on ids).
   */
  function FindIndex(catalog: seq<TemplateRecord>, id: string): (r: Option<nat>)
    ensures r.Some? ==> r.value < |catalog| && catalog[r.value].id == id
    ensures r.Some? ==> forall j :: 0 <= j < r.value ==> catalog[j].id != id
    ensures r.None? <==> forall j :: 0 <= j < |catalog| ==> catalog[j].id != id
  {
    if |catalog| == 0 then
      None
    else if catalog[0].id == id then
      Some(0)
    else
      match FindIndex(catalog[1..], id)
      case None => None
      case Some(k) => Some(k + 1)
  }

  /** `catalog.find(t => t.id === id)`: the first matching record, or nothing. */
  function Find(catalog: seq<TemplateRecord>, id: string): (r: Option<TemplateRecord>)
    ensures r.Some? ==> r.value.id == id && r.value in catalog
    ensures r.None? <==> forall t :: t in catalog ==> t.id != id
  {
    match FindIndex(catalog, id)
    case None => None
    case Some(i) => Some(catalog[i])
  }

  /** `findTemplateById`: lookup in the fixed catalog. */
  function FindTemplateById(id: string): (r: Option<TemplateRecord>)
    ensures r.Some? ==> r.value.id == id && r.value in Catalog
    ensures r.None? <==> forall t :: t in Catalog ==> t.id != id
  {
    Find(Catalog, id)
  }

  /** With duplicate ids the earliest record in catalog order wins. */
  lemma FirstMatchWins(catalog: seq<TemplateRecord>, id: string, i: nat)
    requires i < |catalog| && catalog[i].id == id
    requires forall j :: 0 <= j < i ==> catalog[j].id != id
    ensures Find(catalog, id) == Some(catalog[i])
  {
  }

  /** When ids are unique, every record is found by its own id. */
  lemma FindsEveryRecord(catalog: seq<TemplateRecord>, i: nat)
    requires UniqueIds(catalog)
    requires i < |catalog|
    ensures Find(catalog, catalog[i].id) == Some(catalog[i])
  {
    FirstMatchWins(catalog, catalog[i].id, i);
  }

  /** The fixed catalog has distinct ids and each id resolves to its own label. */
  lemma CatalogLookups()
    ensures UniqueIds(Catalog)
    ensures FindTemplateById("template-1").Some?
    ensures FindTemplateById("template-1").value.labelText == "Organizer landing page"
    ensures FindTemplateById("template-2").Some?
    ensures FindTemplateById("template-2").value.labelText == "Event Landing Page"
  {
    FindsEveryRecord(Catalog, 0);
    FindsEveryRecord(Catalog, 1);
  }
}

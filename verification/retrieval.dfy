/** The query-time lookups of api/src/utils.py: resolving free text to the
    nearest indexed node (`vsearch_drug`) and projecting graph rows into
    generics records (`get_generics`) and excipient names (`get_excipients`).
    The store's answers are inputs; the JSON parser is an abstract partial
    function. */
module Retrieval {
  import opened Wrappers
  import opened Text
  import opened Json
  import opened Store

  /** The nearest-neighbour query asks for this many rows. */
  const CandidateLimit: nat := 5

  /** One row of the vector search: the `node_name` and `id` columns. */
  datatype Candidate = Candidate(nodeName: Option<string>, id: string)

  /** The resolved drug handed to the graph lookups. */
  datatype DrugRef = DrugRef(name: string, id: string)

  /** A lookup's answer (`None` when it failed) and its effect on the transaction. */
  datatype Lookup<T> = Lookup(value: Option<T>, txn: Txn)

  // ---------------------------------------------------------------------
  // vsearch_drug
  // ---------------------------------------------------------------------

  /** `ranked` is the store's answer to the distance-ordered query before its
      `LIMIT`; the first row is the nearest one. */
  function VSearchDrug(ranked: Fetch<seq<Candidate>>): (r: Lookup<DrugRef>)
    ensures r.txn == RolledBack <==> r.value.None?
    ensures r.value.Some? <==>
      ranked.Fetched? && 0 < |ranked.rows| && ranked.rows[0].nodeName.Some?
    ensures r.value.Some? ==>
      && Trimmed(r.value.value.name, IsQuote)
      && Trimmed(r.value.value.id, IsQuote)
      && IsPaddingOf(ranked.rows[0].nodeName.value, r.value.value.name, IsQuote)
      && IsPaddingOf(ranked.rows[0].id, r.value.value.id, IsQuote)
  {
    match ranked
    case Failed(_) => Lookup(None, RolledBack)
    case Fetched(all) =>
      var results := Limit(all, CandidateLimit);
      if |results| == 0 then
        Lookup(None, RolledBack)
      else
        match results[0].nodeName
        case None => Lookup(None, RolledBack)
        case Some(name) =>
          Lookup(Some(DrugRef(Strip(name, IsQuote), Strip(results[0].id, IsQuote))), Kept)
  }

  /** Only the nearest row matters: the other candidates, however near or far,
      never change the answer, and no distance threshold applies. */
  lemma VSearchUsesFirstRowOnly(a: seq<Candidate>, b: seq<Candidate>)
    requires 0 < |a| && 0 < |b| && a[0] == b[0]
    ensures VSearchDrug(Fetched(a)) == VSearchDrug(Fetched(b))
  {
    assert Limit(a, CandidateLimit)[0] == a[0];
    assert Limit(b, CandidateLimit)[0] == b[0];
  }

  /** The resolved name and id are exactly the stored ones with every
      surrounding `"` removed. */
  lemma VSearchStripsQuotes(ranked: seq<Candidate>, name: string, id: string)
    requires 0 < |ranked| && ranked[0].nodeName == Some(name) && ranked[0].id == id
    ensures VSearchDrug(Fetched(ranked)).value ==
      Some(DrugRef(Strip(name, IsQuote), Strip(id, IsQuote)))
  {
    var r := VSearchDrug(Fetched(ranked)).value.value;
    StripUnique(name, r.name, IsQuote);
    StripUnique(id, r.id, IsQuote);
  }

  // ---------------------------------------------------------------------
  // get_generics / get_excipients
  // ---------------------------------------------------------------------

  /** Where the two projections find their fields in a returned vertex. */
  const NamePath: KeyPath := ["properties", "name"]
  const IdPath: KeyPath := ["properties", "id"]

  /** One returned row: cut the trailing type tag, parse, walk `path`. */
  function ProjectRow(raw: string, parse: string -> Option<Json>, path: KeyPath): Option<Json>
  {
    match parse(StripTypeTag(raw))
    case None => None
    case Some(tree) => Navigate(tree, path)
  }

  /** A generics record: the `name` and `id` fields, whatever JSON values they hold. */
  datatype Generic = Generic(name: Json, id: Json)

  function GenericOf(raw: string, parse: string -> Option<Json>): Option<Generic>
  {
    match ProjectRow(raw, parse, NamePath)
    case None => None
    case Some(name) =>
      match ProjectRow(raw, parse, IdPath)
      case None => None
      case Some(id) => Some(Generic(name, id))
  }

  /** `rows` holds the single `agtype` column of each matched row, in store order. */
  function GetGenerics(rows: Fetch<seq<string>>, parse: string -> Option<Json>): (r: Lookup<seq<Generic>>)
    ensures r.txn == RolledBack <==> r.value.None?
    ensures r.value.Some? <==>
      && rows.Fetched?
      && forall i :: 0 <= i < |rows.rows| ==>
           ProjectRow(rows.rows[i], parse, NamePath).Some? && ProjectRow(rows.rows[i], parse, IdPath).Some?
    ensures r.value.Some? ==> |r.value.value| == |rows.rows|
    ensures r.value.Some? ==> forall i :: 0 <= i < |rows.rows| ==>
      && ProjectRow(rows.rows[i], parse, NamePath) == Some(r.value.value[i].name)
      && ProjectRow(rows.rows[i], parse, IdPath) == Some(r.value.value[i].id)
  {
    match rows
    case Failed(_) => Lookup(None, RolledBack)
    case Fetched(raws) =>
      match MapAll(raws, raw => GenericOf(raw, parse))
      case None => Lookup(None, RolledBack)
      case Some(out) => Lookup(Some(out), Kept)
  }

  /** Excipients are projected to their names only. */
  function GetExcipients(rows: Fetch<seq<string>>, parse: string -> Option<Json>): (r: Lookup<seq<Json>>)
    ensures r.txn == RolledBack <==> r.value.None?
    ensures r.value.Some? <==>
      rows.Fetched? && forall i :: 0 <= i < |rows.rows| ==> ProjectRow(rows.rows[i], parse, NamePath).Some?
    ensures r.value.Some? ==> |r.value.value| == |rows.rows|
    ensures r.value.Some? ==> forall i :: 0 <= i < |rows.rows| ==>
      ProjectRow(rows.rows[i], parse, NamePath) == Some(r.value.value[i])
  {
    match rows
    case Failed(_) => Lookup(None, RolledBack)
    case Fetched(raws) =>
      match MapAll(raws, raw => ProjectRow(raw, parse, NamePath))
      case None => Lookup(None, RolledBack)
      case Some(out) => Lookup(Some(out), Kept)
  }

  /** A pattern that matches nothing is an empty list, not a failure. */
  lemma NoMatchIsEmptyList(parse: string -> Option<Json>)
    ensures GetGenerics(Fetched([]), parse) == Lookup(Some([]), Kept)
    ensures GetExcipients(Fetched([]), parse) == Lookup(Some([]), Kept)
  {
  }

  /** One row that cannot be parsed or lacks `properties.name` fails the whole
      excipients lookup, whatever the other rows hold. */
  lemma BadRowFailsExcipients(rows: seq<string>, k: nat, parse: string -> Option<Json>)
    requires k < |rows| && ProjectRow(rows[k], parse, NamePath).None?
    ensures GetExcipients(Fetched(rows), parse) == Lookup(None, RolledBack)
  {
  }

  /** The vertex `{"properties": {"name": "Ibuprofen", "id": "D001"}}` tagged
      `::vertex` projects to the single record `{name: "Ibuprofen", id: "D001"}`. */
  lemma IbuprofenProjection(payload: string, parse: string -> Option<Json>)
    requires parse(payload) ==
      Some(Obj(map["properties" := Obj(map["name" := Str("Ibuprofen"), "id" := Str("D001")])]))
    ensures GetGenerics(Fetched([payload + "::vertex"]), parse) ==
      Lookup(Some([Generic(Str("Ibuprofen"), Str("D001"))]), Kept)
  {
    TagRoundTrip(payload, "vertex");
    var raw := payload + "::vertex";
    assert payload + "::" + "vertex" == raw;
    var props := map["name" := Str("Ibuprofen"), "id" := Str("D001")];
    var tree := Obj(map["properties" := Obj(props)]);
    assert NamePath[1..] == ["name"] && ["name"][1..] == [];
    assert IdPath[1..] == ["id"] && ["id"][1..] == [];
    assert Navigate(Obj(props), ["name"]) == Some(Str("Ibuprofen"));
    assert Navigate(Obj(props), ["id"]) == Some(Str("D001"));
    assert Navigate(tree, NamePath) == Some(Str("Ibuprofen"));
    assert Navigate(tree, IdPath) == Some(Str("D001"));
    assert StripTypeTag(raw) == payload;
    assert parse(StripTypeTag(raw)) == Some(tree);
    assert ProjectRow(raw, parse, NamePath) == Some(Str("Ibuprofen"));
    assert ProjectRow(raw, parse, IdPath) == Some(Str("D001"));
    assert GenericOf(raw, parse) == Some(Generic(Str("Ibuprofen"), Str("D001")));
    var r := GetGenerics(Fetched([raw]), parse);
    assert [raw][0] == raw;
    assert r.value.Some?;
    assert r.value.value[0] == Generic(Str("Ibuprofen"), Str("D001"));
    assert r.value.value == [Generic(Str("Ibuprofen"), Str("D001"))];
  }
}

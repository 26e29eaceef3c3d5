/**
 * The record assembler `process_character`: the identifier, the name, seven
 * optional scalars and the five resolved reference columns of one
 * character, or `None` when any step raises.
 */
module Assembler {

  import opened Wrappers
  import opened Json
  import opened Ident
  import opened Fetcher
  import opened Resolver

  /** One row of the `characters` table, in its column order. */
  datatype Row = Row(
    id: int,
    name: Json,
    birthYear: Json,
    eyeColor: Json,
    gender: Json,
    hairColor: Json,
    height: Json,
    homeworld: string,
    mass: Json,
    skinColor: Json,
    films: string,
    species: string,
    starships: string,
    vehicles: string)

  /** The keys read with `character[...]`: a missing one raises `KeyError`. */
  const RequiredKeys: set<string> := {"url", "name", "films", "species", "starships", "vehicles"}

  /** The keys read with `character.get(key, '')`. */
  const OptionalKeys: set<string> :=
    {"birth_year", "eye_color", "gender", "hair_color", "height", "mass", "skin_color"}

  /** The column of a row that holds optional key `key`. */
  function OptionalColumn(row: Row, key: string): Json
    requires key in OptionalKeys
  {
    match key
    case "birth_year" => row.birthYear
    case "eye_color" => row.eyeColor
    case "gender" => row.gender
    case "hair_color" => row.hairColor
    case "height" => row.height
    case "mass" => row.mass
    case _ => row.skinColor
  }

  /**
   * The homeworld column as the code evidently intends it: a falsy or absent
   * homeworld gives "", a truthy one is resolved as a one-URL reference list.
   */
  function ResolveHomeworld(web: Web, homeworld: Json): (r: Option<string>)
    ensures !Truthy(homeworld) ==> r == Some("")
  {
    if Truthy(homeworld) then FetchNames(web, JArr([homeworld])) else Some("")
  }

  /**
   * The homeworld column as written: for a falsy homeworld the bare string ""
   * is handed to `asyncio.gather`, which accepts only awaitables and raises
   * `TypeError`, so the whole record fails.
   */
  function ResolveHomeworldAsWritten(web: Web, homeworld: Json): (r: Option<string>)
    ensures !Truthy(homeworld) ==> r == None
  {
    if Truthy(homeworld) then FetchNames(web, JArr([homeworld])) else None
  }

  /** The five resolved reference columns. */
  datatype References = References(films: string, species: string, starships: string, vehicles: string, homeworld: string)

  /**
   * The five concurrent resolutions of `asyncio.gather` in `process_character`;
   * the gather raises, and the record fails, as soon as one of them raises.
   */
  function ResolveReferences(web: Web, f: map<string, Json>, homeworldOf: (Web, Json) -> Option<string>): (r: Option<References>)
    requires RequiredKeys <= f.Keys
    ensures r.Some? <==>
      && FetchNames(web, f["films"]).Some?
      && FetchNames(web, f["species"]).Some?
      && FetchNames(web, f["starships"]).Some?
      && FetchNames(web, f["vehicles"]).Some?
      && homeworldOf(web, GetOr(f, "homeworld", JNull)).Some?
    ensures r.Some? ==>
      && r.value.films == FetchNames(web, f["films"]).value
      && r.value.species == FetchNames(web, f["species"]).value
      && r.value.starships == FetchNames(web, f["starships"]).value
      && r.value.vehicles == FetchNames(web, f["vehicles"]).value
      && r.value.homeworld == homeworldOf(web, GetOr(f, "homeworld", JNull)).value
  {
    var films := FetchNames(web, f["films"]);
    var species := FetchNames(web, f["species"]);
    var starships := FetchNames(web, f["starships"]);
    var vehicles := FetchNames(web, f["vehicles"]);
    var homeworld := homeworldOf(web, GetOr(f, "homeworld", JNull));
    if films.None? || species.None? || starships.None? || vehicles.None? || homeworld.None? then None
    else Some(References(films.value, species.value, starships.value, vehicles.value, homeworld.value))
  }

  /** The returned dictionary: scalars taken from the character, "" for an absent optional one. */
  function MakeRow(id: int, f: map<string, Json>, refs: References): (row: Row)
    requires "name" in f
    ensures forall key | key in OptionalKeys :: OptionalColumn(row, key) == GetOr(f, key, JStr(""))
  {
    Row(
      id,
      f["name"],
      GetOr(f, "birth_year", JStr("")),
      GetOr(f, "eye_color", JStr("")),
      GetOr(f, "gender", JStr("")),
      GetOr(f, "hair_color", JStr("")),
      GetOr(f, "height", JStr("")),
      refs.homeworld,
      GetOr(f, "mass", JStr("")),
      GetOr(f, "skin_color", JStr("")),
      refs.films,
      refs.species,
      refs.starships,
      refs.vehicles)
  }

  /** `process_character`, with the homeworld step supplied. */
  function Assemble(web: Web, character: Json, homeworldOf: (Web, Json) -> Option<string>): (r: Option<Row>)
    ensures r.Some? <==>
      && character.JObj?
      && RequiredKeys <= character.fields.Keys
      && character.fields["url"].JStr?
      && ExtractId(character.fields["url"].s).Some?
      && ResolveReferences(web, character.fields, homeworldOf).Some?
    ensures r.Some? ==> ExtractId(character.fields["url"].s) == Some(r.value.id)
    ensures r.Some? ==> r.value.name == character.fields["name"]
  {
    if !character.JObj? then None
    else
      var f := character.fields;
      if !(RequiredKeys <= f.Keys) || !f["url"].JStr? then None
      else match ExtractId(f["url"].s)
        case None => None
        case Some(id) =>
          match ResolveReferences(web, f, homeworldOf)
          case None => None
          case Some(refs) => Some(MakeRow(id, f, refs))
  }

  /** `process_character` exactly as written (homeworld-less characters fail). */
  function ProcessCharacterAsWritten(web: Web, character: Json): (r: Option<Row>)
    ensures character.JObj? && !Truthy(GetOr(character.fields, "homeworld", JNull)) ==> r == None
  {
    Assemble(web, character, ResolveHomeworldAsWritten)
  }

  /**
   * The conditions under which `process_character` returns a row: the
   * character is an object holding every required key, its `url` is a
   * string whose last segment is a number, and every reference resolves.
   */
  predicate Processable(web: Web, character: Json) {
    && character.JObj?
    && RequiredKeys <= character.fields.Keys
    && character.fields["url"].JStr?
    && ExtractId(character.fields["url"].s).Some?
    && FetchNames(web, character.fields["films"]).Some?
    && FetchNames(web, character.fields["species"]).Some?
    && FetchNames(web, character.fields["starships"]).Some?
    && FetchNames(web, character.fields["vehicles"]).Some?
    && ResolveHomeworld(web, GetOr(character.fields, "homeworld", JNull)).Some?
  }

  /**
   * `process_character` with the homeworld defect corrected: a row exactly
   * when the character is processable, carrying the number at the end of
   * its `url` and its own name.
   */
  function ProcessCharacter(web: Web, character: Json): (r: Option<Row>)
    ensures r.Some? <==> Processable(web, character)
    ensures r.Some? ==> ExtractId(character.fields["url"].s) == Some(r.value.id)
    ensures r.Some? ==> r.value.name == character.fields["name"]
  {
    Assemble(web, character, ResolveHomeworld)
  }

  /**
   * The columns of a row: the optional scalars as given or "" where absent,
   * and the names each reference field resolves to.
   */
  lemma ProcessCharacterColumns(web: Web, character: Json)
    requires ProcessCharacter(web, character).Some?
    ensures var f, row := character.fields, ProcessCharacter(web, character).value;
      && (forall key | key in OptionalKeys :: OptionalColumn(row, key) == GetOr(f, key, JStr("")))
      && FetchNames(web, f["films"]) == Some(row.films)
      && FetchNames(web, f["species"]) == Some(row.species)
      && FetchNames(web, f["starships"]) == Some(row.starships)
      && FetchNames(web, f["vehicles"]) == Some(row.vehicles)
      && ResolveHomeworld(web, GetOr(f, "homeworld", JNull)) == Some(row.homeworld)
  {
    var f := character.fields;
    var id := ExtractId(f["url"].s).value;
    var refs := ResolveReferences(web, f, ResolveHomeworld).value;
    assert ProcessCharacter(web, character) == Some(MakeRow(id, f, refs));
  }

  /** A missing required key makes the record `None`. */
  lemma MissingRequiredKey(web: Web, fields: map<string, Json>, key: string)
    requires key in RequiredKeys && key !in fields
    ensures ProcessCharacter(web, JObj(fields)) == None
  {
  }

  /** An absent optional scalar is stored as "". */
  lemma AbsentOptionalIsEmpty(web: Web, fields: map<string, Json>, key: string)
    requires key in OptionalKeys && key !in fields
    requires ProcessCharacter(web, JObj(fields)).Some?
    ensures OptionalColumn(ProcessCharacter(web, JObj(fields)).value, key) == JStr("")
  {
  }

  /**
   * A truthy homeworld resolves to the fetched planet's name, to "" when the
   * fetch fails or has no name, and fails only where Python raises.
   */
  lemma HomeworldName(web: Web, homeworld: Json)
    requires Truthy(homeworld)
    ensures match Select(FetchUrl(web, homeworld))
      case Skip => ResolveHomeworld(web, homeworld) == Some("")
      case Take(JStr(name)) => ResolveHomeworld(web, homeworld) == Some(name)
      case _ => ResolveHomeworld(web, homeworld) == None
  {
    var results := Gather(web, [homeworld]);
    assert Iterate(JArr([homeworld])) == Some([homeworld]);
    assert results == [FetchUrl(web, homeworld)];
    assert results[1..] == [];
    assert NamesOf(results[1..]) == Some([]);
  }

  /**
   * The defect: a character with no (or a falsy) homeworld never yields a
   * row as written, whereas the corrected assembler keeps it with an empty
   * homeworld whenever everything else resolves.
   */
  lemma HomeworldlessCharacter(web: Web, character: Json)
    requires character.JObj? && !Truthy(GetOr(character.fields, "homeworld", JNull))
    ensures ProcessCharacterAsWritten(web, character) == None
    ensures ProcessCharacter(web, character).Some? ==> ProcessCharacter(web, character).value.homeworld == ""
  {
  }

  /** Away from the defect, the corrected and the written assembler agree. */
  lemma CorrectionIsLocal(web: Web, character: Json)
    requires !character.JObj? || Truthy(GetOr(character.fields, "homeworld", JNull))
    ensures ProcessCharacterAsWritten(web, character) == ProcessCharacter(web, character)
  {
  }
}

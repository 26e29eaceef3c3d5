/**
 * The loader's `main` without its I/O: list the characters, process each
 * one, drop the failed ones, save the rest.  The record builder is a
 * parameter: `main` as written uses `ProcessCharacterAsWritten`, the
 * corrected loader `ProcessCharacter`.
 */
module Pipeline {

  import opened Wrappers
  import opened Json
  import opened Seqs
  import opened Ident
  import opened Fetcher
  import opened Listing
  import opened Resolver
  import opened Assembler
  import opened Store

  /** `[await process_character(session, char) for char in characters]`, one record at a time. */
  function ProcessAll(web: Web, characters: seq<Json>, process: (Web, Json) -> Option<Row>): (processed: seq<Option<Row>>)
    ensures |processed| == |characters|
    ensures forall k | 0 <= k < |characters| :: processed[k] == process(web, characters[k])
  {
    seq(|characters|, k requires 0 <= k < |characters| => process(web, characters[k]))
  }

  /** `valid_chars = [char for char in processed if char]` */
  function ValidRows(processed: seq<Option<Row>>): seq<Option<Row>> {
    Filter(processed, IsSome)
  }

  /** An entry is kept exactly when it is a processed row; kept and dropped entries account for every entry. */
  lemma ValidRowsSpec(processed: seq<Option<Row>>)
    ensures forall entry :: entry in ValidRows(processed) <==> entry in processed && entry.Some?
    ensures |ValidRows(processed)| + |Filter(processed, Not(IsSome))| == |processed|
  {
    forall entry ensures entry in ValidRows(processed) <==> entry in processed && entry.Some? {
      FilterMembers(processed, IsSome, entry);
    }
    FilterCount(processed, IsSome);
  }

  /** What the run reports. */
  datatype LoadOutcome = NoCharacters | Saved(count: nat) | SaveFailed

  /**
   * The body of `main` after the connections are open: nothing is written
   * when no character was listed; otherwise the valid rows are saved and the
   * outcome says whether every write went through.  `main` runs it with
   * `ProcessCharacterAsWritten`.
   */
  method LoadCharacters(web: Web, table: CharacterTable, process: (Web, Json) -> Option<Row>) returns (outcome: LoadOutcome)
    modifies table
    ensures var found := FetchAllCharacters(web).found;
      var valid := ValidRows(ProcessAll(web, found, process));
      var saved := SaveAll(old(table.rows), valid, table.accepts);
      if found == [] then outcome == NoCharacters && table.rows == old(table.rows)
      else table.rows == saved.rows && outcome == (if saved.ok then Saved(|valid|) else SaveFailed)
  {
    var characters := FetchAllCharacters(web).found;
    if characters == [] {
      return NoCharacters;
    }
    var valid := ValidRows(ProcessAll(web, characters, process));
    var ok := SaveCharacters(table, valid);
    outcome := if ok then Saved(|valid|) else SaveFailed;
  }

  /**
   * Only records whose processing succeeded reach the store: every row in
   * the table after a run was there before or is the row of a listed character.
   */
  lemma OnlyProcessedReachStore(web: Web, rows: map<int, Row>, accepts: Row -> bool, process: (Web, Json) -> Option<Row>)
    ensures var found := FetchAllCharacters(web).found;
      var after := SaveAll(rows, ValidRows(ProcessAll(web, found, process)), accepts).rows;
      forall id | id in after ::
        (id in rows && after[id] == rows[id])
        || exists k | 0 <= k < |found| :: process(web, found[k]) == Some(after[id])
  {
    var found := FetchAllCharacters(web).found;
    var processed := ProcessAll(web, found, process);
    var valid := ValidRows(processed);
    ValidRowsSpec(processed);
    SavedRowsFromBatch(rows, valid, accepts);
    var after := SaveAll(rows, valid, accepts).rows;
    forall id | id in after && !(id in rows && after[id] == rows[id])
      ensures exists k | 0 <= k < |found| :: process(web, found[k]) == Some(after[id])
    {
      assert Some(after[id]) in processed;
      var k :| 0 <= k < |processed| && processed[k] == Some(after[id]);
      assert process(web, found[k]) == Some(after[id]);
    }
  }

  /**
   * As written, every row a run adds or changes belongs to a listed
   * character that has a homeworld: the others never reach the store.
   */
  lemma AsWrittenStoresOnlyHomeworlded(web: Web, characters: seq<Json>, rows: map<int, Row>, accepts: Row -> bool)
    ensures var after := SaveAll(rows, ValidRows(ProcessAll(web, characters, ProcessCharacterAsWritten)), accepts).rows;
      forall id | id in after && !(id in rows && after[id] == rows[id]) ::
        exists k | 0 <= k < |characters| ::
          && characters[k].JObj?
          && Truthy(GetOr(characters[k].fields, "homeworld", JNull))
          && ProcessCharacterAsWritten(web, characters[k]) == Some(after[id])
  {
    var processed := ProcessAll(web, characters, ProcessCharacterAsWritten);
    var valid := ValidRows(processed);
    ValidRowsSpec(processed);
    SavedRowsFromBatch(rows, valid, accepts);
    var after := SaveAll(rows, valid, accepts).rows;
    forall id | id in after && !(id in rows && after[id] == rows[id])
      ensures exists k | 0 <= k < |characters| ::
          && characters[k].JObj?
          && Truthy(GetOr(characters[k].fields, "homeworld", JNull))
          && ProcessCharacterAsWritten(web, characters[k]) == Some(after[id])
    {
      assert Some(after[id]) in processed;
      var k :| 0 <= k < |processed| && processed[k] == Some(after[id]);
      assert ProcessCharacterAsWritten(web, characters[k]) == Some(after[id]);
      assert characters[k].JObj?;
    }
  }

  /** Dropping the failed records before saving makes no difference to the store. */
  lemma FilteringBeforeSaveIsHarmless(rows: map<int, Row>, processed: seq<Option<Row>>, accepts: Row -> bool)
    ensures SaveAll(rows, ValidRows(processed), accepts) == SaveAll(rows, processed, accepts)
  {
    SaveSkipsNone(rows, processed, accepts);
  }

  // A two-character collection: Luke without a homeworld or films, Leia
  // with one film and a homeworld.

  function Ok(body: Json): Exchange {
    Answered(Response(200, Some(body)))
  }

  function Character(id: nat, name: string, films: seq<Json>, homeworld: Json): Json {
    JObj(map[
      "url" := JStr(ItemUrl(id)),
      "name" := JStr(name),
      "films" := JArr(films),
      "species" := JArr([]),
      "starships" := JArr([]),
      "vehicles" := JArr([]),
      "homeworld" := homeworld])
  }

  function Luke(): Json {
    Character(1, "Luke", [], JNull)
  }

  function Leia(): Json {
    Character(2, "Leia", [JStr("f1")], JStr("h1"))
  }

  function ScenarioWeb(url: string): Exchange {
    if url == BaseUrl then Ok(JObj(map["count" := JNum(2)]))
    else if url == ItemUrl(1) then Ok(Luke())
    else if url == ItemUrl(2) then Ok(Leia())
    else if url == "f1" then Ok(JObj(map["name" := JStr("A New Hope")]))
    else if url == "h1" then Ok(JObj(map["name" := JStr("Alderaan")]))
    else TransportError
  }

  function ExpectedRow(id: nat, name: string, films: string, homeworld: string): Row {
    Row(id, JStr(name), JStr(""), JStr(""), JStr(""), JStr(""), JStr(""), homeworld,
        JStr(""), JStr(""), films, "", "", "")
  }

  lemma ScenarioUrls()
    ensures ItemUrl(1) == BaseUrl + "1/" && ItemUrl(2) == BaseUrl + "2/"
  {
    assert ShowNat(1) == "1" && ShowNat(2) == "2";
  }

  /** The scenario's item URLs are told apart from each other and from the collection URL. */
  lemma ScenarioRoutes()
    ensures ScenarioWeb(BaseUrl) == Ok(JObj(map["count" := JNum(2)]))
    ensures ScenarioWeb(ItemUrl(1)) == Ok(Luke())
    ensures ScenarioWeb(ItemUrl(2)) == Ok(Leia())
    ensures ScenarioWeb("f1") == Ok(JObj(map["name" := JStr("A New Hope")]))
    ensures ScenarioWeb("h1") == Ok(JObj(map["name" := JStr("Alderaan")]))
  {
    ScenarioUrls();
    assert |ItemUrl(1)| == |BaseUrl| + 2 == |ItemUrl(2)|;
    assert ItemUrl(1)[|BaseUrl|] != ItemUrl(2)[|BaseUrl|];
    assert |"f1"| == 2 && "f1"[0] != "h1"[0];
  }

  lemma ScenarioTotal()
    ensures ReadTotal(ScenarioWeb(BaseUrl)) == Some(2)
  {
    ScenarioRoutes();
    assert HasCount(ScenarioWeb(BaseUrl), JNum(2));
  }

  lemma ScenarioTruthy()
    ensures Truthy(Luke()) && Truthy(Leia())
  {
    assert "url" in Luke().fields;
    assert "url" in Leia().fields;
  }

  /** A collection of two items whose fetches both succeed lists them in index order. */
  lemma TwoItemListing(web: Web, first: Json, second: Json)
    requires ReadTotal(web(BaseUrl)) == Some(2)
    requires FetchCharacter(web(ItemUrl(1))) == first && FetchCharacter(web(ItemUrl(2))) == second
    requires Truthy(first) && Truthy(second)
    ensures FetchAllCharacters(web).found == [first, second]
  {
    var urls := ItemUrls(2);
    assert urls == [ItemUrl(1), ItemUrl(2)];
    var results := GatherItems(web, urls);
    assert results == [first, second];
    FilterExtremes(results, Truthy);
  }

  /** The listing finds both characters, in index order. */
  lemma ScenarioListing()
    ensures FetchAllCharacters(ScenarioWeb).found == [Luke(), Leia()]
  {
    ScenarioRoutes();
    ScenarioTotal();
    ScenarioTruthy();
    assert FetchCharacter(Ok(Luke())) == Luke() && FetchCharacter(Ok(Leia())) == Leia();
    TwoItemListing(ScenarioWeb, Luke(), Leia());
  }

  /** Every reference list of a scenario character other than films is empty. */
  lemma ScenarioFields(id: nat, name: string, films: seq<Json>, homeworld: Json)
    ensures var f := Character(id, name, films, homeworld).fields;
      && RequiredKeys <= f.Keys
      && f["url"] == JStr(ItemUrl(id)) && f["name"] == JStr(name) && f["films"] == JArr(films)
      && f["species"] == JArr([]) && f["starships"] == JArr([]) && f["vehicles"] == JArr([])
      && GetOr(f, "homeworld", JNull) == homeworld
      && forall key | key in OptionalKeys :: key !in f
  {
    var f := Character(id, name, films, homeworld).fields;
    assert f.Keys == RequiredKeys + {"homeworld"};
    assert OptionalKeys !! f.Keys;
  }

  /**
   * A character whose optional scalars are all absent and whose species,
   * starships and vehicles are empty lists becomes the expected row once its
   * films and homeworld resolve (corrected assembler); the written assembler
   * agrees when the character has a homeworld.
   */
  lemma BareCharacterRow(web: Web, f: map<string, Json>, id: nat, name: string, filmNames: string, homeworldName: string)
    requires RequiredKeys <= f.Keys
    requires f["url"] == JStr(ItemUrl(id)) && f["name"] == JStr(name)
    requires f["species"] == JArr([]) && f["starships"] == JArr([]) && f["vehicles"] == JArr([])
    requires forall key | key in OptionalKeys :: key !in f
    requires FetchNames(web, f["films"]) == Some(filmNames)
    requires ResolveHomeworld(web, GetOr(f, "homeworld", JNull)) == Some(homeworldName)
    ensures ProcessCharacter(web, JObj(f)) == Some(ExpectedRow(id, name, filmNames, homeworldName))
    ensures Truthy(GetOr(f, "homeworld", JNull)) ==>
      ProcessCharacterAsWritten(web, JObj(f)) == Some(ExpectedRow(id, name, filmNames, homeworldName))
  {
    ItemUrlId(id);
    assert FetchNames(web, JArr([])) == Some("");
    var refs := References(filmNames, "", "", "", homeworldName);
    assert ResolveReferences(web, f, ResolveHomeworld) == Some(refs);
    assert MakeRow(id, f, refs) == ExpectedRow(id, name, filmNames, homeworldName);
    if Truthy(GetOr(f, "homeworld", JNull)) {
      CorrectionIsLocal(web, JObj(f));
    }
  }

  /** A scenario character becomes the expected row once its films and homeworld resolve. */
  lemma ScenarioCharacterRow(web: Web, id: nat, name: string, films: seq<Json>, homeworld: Json, filmNames: string, homeworldName: string)
    requires FetchNames(web, JArr(films)) == Some(filmNames)
    requires ResolveHomeworld(web, homeworld) == Some(homeworldName)
    ensures ProcessCharacter(web, Character(id, name, films, homeworld)) == Some(ExpectedRow(id, name, filmNames, homeworldName))
    ensures Truthy(homeworld) ==>
      ProcessCharacterAsWritten(web, Character(id, name, films, homeworld)) == Some(ExpectedRow(id, name, filmNames, homeworldName))
  {
    ScenarioFields(id, name, films, homeworld);
    BareCharacterRow(web, Character(id, name, films, homeworld).fields, id, name, filmNames, homeworldName);
  }

  /** Luke as written: the record is dropped for want of a homeworld. */
  lemma ScenarioLukeAsWritten()
    ensures ProcessCharacterAsWritten(ScenarioWeb, Luke()) == None
  {
    assert GetOr(Luke().fields, "homeworld", JNull) == JNull;
    HomeworldlessCharacter(ScenarioWeb, Luke());
  }

  /** Luke corrected: kept, with an empty homeworld and no films. */
  lemma ScenarioLuke()
    ensures ProcessCharacter(ScenarioWeb, Luke()) == Some(ExpectedRow(1, "Luke", "", ""))
  {
    assert FetchNames(ScenarioWeb, JArr([])) == Some("");
    ScenarioCharacterRow(ScenarioWeb, 1, "Luke", [], JNull, "", "");
  }

  lemma ScenarioFilm()
    ensures FetchNames(ScenarioWeb, JArr([JStr("f1")])) == Some("A New Hope")
  {
    ScenarioRoutes();
    var web: Web := ScenarioWeb;
    var film := JObj(map["name" := JStr("A New Hope")]);
    assert FetchUrl(web, JStr("f1")) == FetchCharacter(Ok(film)) == film;
    assert Gather(web, [JStr("f1")]) == [film];
    assert NamesOf([film][1..]) == Some([]);
  }

  lemma ScenarioHomeworld()
    ensures ResolveHomeworld(ScenarioWeb, JStr("h1")) == Some("Alderaan")
  {
    ScenarioRoutes();
    var web: Web := ScenarioWeb;
    var planet := JObj(map["name" := JStr("Alderaan")]);
    assert FetchUrl(web, JStr("h1")) == FetchCharacter(Ok(planet)) == planet;
    HomeworldName(web, JStr("h1"));
  }

  /** Leia, as written and corrected alike: the film and the homeworld resolve to their names. */
  lemma ScenarioLeia()
    ensures ProcessCharacter(ScenarioWeb, Leia()) == Some(ExpectedRow(2, "Leia", "A New Hope", "Alderaan"))
    ensures ProcessCharacterAsWritten(ScenarioWeb, Leia()) == Some(ExpectedRow(2, "Leia", "A New Hope", "Alderaan"))
  {
    ScenarioFilm();
    ScenarioHomeworld();
    ScenarioCharacterRow(ScenarioWeb, 2, "Leia", [JStr("f1")], JStr("h1"), "A New Hope", "Alderaan");
  }

  /** Of two processed characters, the rows that survive the filter, in order. */
  lemma PairRows(web: Web, first: Json, second: Json, process: (Web, Json) -> Option<Row>)
    ensures process(web, first).Some? && process(web, second).Some? ==>
      ValidRows(ProcessAll(web, [first, second], process)) == [process(web, first), process(web, second)]
    ensures process(web, first).None? && process(web, second).Some? ==>
      ValidRows(ProcessAll(web, [first, second], process)) == [process(web, second)]
    ensures process(web, first).Some? && process(web, second).None? ==>
      ValidRows(ProcessAll(web, [first, second], process)) == [process(web, first)]
    ensures process(web, first).None? && process(web, second).None? ==>
      ValidRows(ProcessAll(web, [first, second], process)) == []
  {
    var x, y := process(web, first), process(web, second);
    var processed := ProcessAll(web, [first, second], process);
    assert processed == [x, y];
    assert processed[1..] == [y] && processed[1..][1..] == [];
    assert Filter([y], IsSome) == if y.Some? then [y] else [];
  }

  /** Corrected, both characters yield rows. */
  lemma ScenarioProcessed()
    ensures ValidRows(ProcessAll(ScenarioWeb, [Luke(), Leia()], ProcessCharacter))
      == [Some(ExpectedRow(1, "Luke", "", "")), Some(ExpectedRow(2, "Leia", "A New Hope", "Alderaan"))]
  {
    ScenarioLuke();
    ScenarioLeia();
    PairRows(ScenarioWeb, Luke(), Leia(), ProcessCharacter);
  }

  /** As written, only Leia yields a row. */
  lemma ScenarioProcessedAsWritten()
    ensures ValidRows(ProcessAll(ScenarioWeb, [Luke(), Leia()], ProcessCharacterAsWritten))
      == [Some(ExpectedRow(2, "Leia", "A New Hope", "Alderaan"))]
  {
    ScenarioLukeAsWritten();
    ScenarioLeia();
    PairRows(ScenarioWeb, Luke(), Leia(), ProcessCharacterAsWritten);
  }

  lemma ScenarioSaved(luke: Row, leia: Row)
    requires luke.id == 1 && leia.id == 2
    ensures SaveAll(map[], [Some(luke), Some(leia)], _ => true) == SaveResult(map[1 := luke, 2 := leia], true)
  {
    var batch := [Some(luke), Some(leia)];
    var accepts: Row -> bool := _ => true;
    assert batch[1..] == [Some(leia)] && batch[1..][1..] == [];
    assert SaveAll(map[], batch, accepts) == SaveAll(map[1 := luke], [Some(leia)], accepts);
    assert SaveAll(map[1 := luke], [Some(leia)], accepts) == SaveAll(map[1 := luke, 2 := leia], [], accepts);
  }

  /**
   * `main` as written, into an empty table that accepts every write: Luke,
   * who has no homeworld, is dropped, and only id 2 is stored.
   */
  lemma ScenarioEndToEndAsWritten()
    ensures var found := FetchAllCharacters(ScenarioWeb).found;
      SaveAll(map[], ValidRows(ProcessAll(ScenarioWeb, found, ProcessCharacterAsWritten)), _ => true)
        == SaveResult(map[2 := ExpectedRow(2, "Leia", "A New Hope", "Alderaan")], true)
  {
    var leia := ExpectedRow(2, "Leia", "A New Hope", "Alderaan");
    var accepts: Row -> bool := _ => true;
    ScenarioListing();
    ScenarioProcessedAsWritten();
    assert [Some(leia)][1..] == [];
    assert SaveAll(map[], [Some(leia)], accepts) == SaveAll(map[2 := leia], [], accepts);
  }

  /** The corrected loader, same table: two rows, ids 1 and 2. */
  lemma ScenarioEndToEndCorrected()
    ensures var found := FetchAllCharacters(ScenarioWeb).found;
      SaveAll(map[], ValidRows(ProcessAll(ScenarioWeb, found, ProcessCharacter)), _ => true)
        == SaveResult(map[1 := ExpectedRow(1, "Luke", "", ""), 2 := ExpectedRow(2, "Leia", "A New Hope", "Alderaan")], true)
  {
    ScenarioListing();
    ScenarioProcessed();
    ScenarioSaved(ExpectedRow(1, "Luke", "", ""), ExpectedRow(2, "Leia", "A New Hope", "Alderaan"));
  }
}

# Star Wars character loader, modelled in Dafny

The loader (`load_data.py`) reads the character collection of a public REST
API, resolves each character's cross-references (films, species, starships,
vehicles, homeworld) into comma-joined names, and upserts one row per
character into a PostgreSQL table keyed by `id`. This project models that
fetch, enrich and upsert pipeline. It leaves out the HTTP client, the database
driver and the clock, and proves properties of what is left.

Modules, leaf to root:

- `Json` (json.dfy): decoded JSON values as Python sees them. `JNull` is
  Python's `None`. `Truthy` is Python's truth value.
- `Seqs` (seqs.dfy): order-preserving filtering, the shape of the loader's
  `[x for x in xs if ...]` comprehensions.
- `Ident` (ident.dfy): the identifier `int(url.rstrip('/').split('/')[-1])`.
- `Fetcher` (fetcher.dfy): `fetch_character`. The network is a parameter
  `Web`, which gives the outcome of a GET for each URL: a transport error, or
  a status code with a body that may or may not decode.
- `Listing` (listing.dfy): `fetch_all_characters`. It reads `count`, builds
  the item URLs 1..count, gathers them in order and keeps the truthy results.
- `Resolver` (resolver.dfy): `fetch_names`. It gathers one reference list and
  joins the `name` of each result that has one with `", "`.
- `Assembler` (assembler.dfy): `process_character`, which builds the
  14-column row or gives `None`. It holds the code as written and the
  corrected version (see Findings).
- `Store` (store.dfy): the `characters` table as a class with a
  `map<int, Row>` field. `save_characters` is a method whose loop upserts one
  row at a time and stops at the first rejected write. The function `SaveAll`
  specifies it.
- `Pipeline` (pipeline.dfy): the data steps of `main` (list, process, drop
  failures, save), plus a worked two-character scenario. The record builder
  is a parameter. `main` as written is the pipeline run with
  `ProcessCharacterAsWritten`. The members marked "corrected" below run it
  with `ProcessCharacter`.

Facts about the code that the model keeps:

- `rstrip('/')` removes every trailing slash.
- `asyncio.gather` returns results in argument order, so the joined names
  are in input order.
- A fetch succeeds only on status 200.
- The `count` request in `fetch_all_characters` never checks the status. Any
  decodable object with an integer (or boolean) `count` is used.
- Without a homeworld, the code drops the record instead of storing `""`
  (see Findings). The as-written pipeline lemmas show this end to end.
- The worked scenario gives `species`, `starships` and `vehicles` as empty
  lists, because `process_character` reads those keys with `character[...]`
  (load_data.py:92-94).
- There are seven optional scalars: `birth_year`, `eye_color`, `gender`,
  `hair_color`, `height`, `mass` and `skin_color`.

## Model

| member | source | states |
|---|---|---|
| Ident.RStripSlash | load_data.py:81 | the result is a prefix of the URL that does not end in `/`, and everything removed is `/` |
| Ident.LastSegment | load_data.py:81 | the result is a slash-free suffix that is either the whole text or preceded by `/`, i.e. `split('/')[-1]` |
| Ident.ParseNat | load_data.py:81 | a value exists exactly for non-empty strings of decimal digits |
| Ident.ShowNat | load_data.py:70 | `str(i)` is a non-empty digit string with no leading zero except for 0 itself |
| Ident.ParseShowNat | load_data.py:70 | parsing the decimal form of `i` gives back `i` |
| Ident.ShowParseNat | load_data.py:81 | printing the parsed value of a canonical digit string gives back the string |
| Ident.RStripAppendedSlashes | load_data.py:81 | stripping removes exactly the slashes appended to a text that does not end in one |
| Ident.LastSegmentAfterSlash | load_data.py:81 | the last segment of `prefix/seg` is `seg` when `seg` has no slash |
| Ident.ExtractIdOfNumberedUrl | load_data.py:81 | the id of `prefix/n` followed by any number of slashes is `n` (`.../1/` gives 1, `.../12//` gives 12) |
| Ident.NonNumericSegmentHasNoId | load_data.py:81 | a last segment that holds a non-digit yields no id, so `int()` raises |
| Ident.ExtractId | load_data.py:81 | an id exists exactly when the last segment, after the trailing slashes are stripped, is a non-empty run of digits, and it is the number those digits denote |
| Fetcher.FetchCharacter | load_data.py:45-52 | on status 200 with a decodable body the result is the body; on any other status, on an undecodable body and on a transport error it is `None` |
| Fetcher.FetchUrl | load_data.py:47-52 | a string URL gives the `fetch_character` result of the answer to that URL; a value that is not a string cannot be requested and gives `None` |
| Listing.ReadTotal | load_data.py:65-67 | an object body whose `count` is the integer n gives total n, whatever the status; a boolean `count` gives 1 or 0; every other answer (a transport error, an undecodable or non-object body, no `count`, a `count` of another JSON type) gives no total |
| Listing.ItemUrl | load_data.py:70 | the item URL is the collection URL followed by a run of digits and a `/` |
| Listing.ItemUrls | load_data.py:70 | `range(1, total + 1)`: max(total, 0) URLs, the k-th for item k+1 |
| Listing.GatherItems | load_data.py:70-71 | one result per item URL, in argument order: the k-th result is the fetch of the k-th URL |
| Listing.FoundWithinRequested | load_data.py:55-75 | `FetchAllCharacters` keeps at most one record per request, and every record it keeps is truthy |
| Listing.ItemUrlId | load_data.py:70 | the item URL built for index `i` has id `i` |
| Listing.ItemUrlsIds | load_data.py:70 | the k-th item URL has id k+1 |
| Listing.ListingRequests | load_data.py:70-71 | with count `total`, exactly `total` requests are issued (none for `total <= 0`), for indices 1..total in increasing order |
| Listing.ListingFound | load_data.py:71-72 | a record is kept exactly when some request returned it and it is truthy; kept plus failed requests account for every request |
| Listing.NothingToList | load_data.py:67-75 | an unreadable count, or a count of zero or less, gives no requests and no records |
| Listing.ListingAllSucceed | load_data.py:70-72 | when every item fetch succeeds, every result is kept in index order |
| Resolver.Select | load_data.py:88 | a result contributes a name exactly when it is an object with a `name` key, and the name is that value |
| Resolver.Iterate | load_data.py:86 | a list is visited item by item and a string character by character; any other value cannot be iterated (see Left out for objects) |
| Resolver.Gather | load_data.py:86-87 | one fetch result per URL, in argument order: the k-th result is the fetch of the k-th URL |
| Resolver.Selections | load_data.py:88 | one selection per fetch result, the k-th being the selection of the k-th result |
| Resolver.NamesOf | load_data.py:88 | never more names than results; `NamesOfSpec` states exactly which |
| Resolver.Join | load_data.py:88 | `", ".join`: the empty list joins to `""`, and a non-empty join starts with the first name |
| Resolver.JoinEndsWithLast | load_data.py:88 | a non-empty join ends with the last name |
| Resolver.FetchNames | load_data.py:83-88 | an empty or falsy reference list resolves to `""`, never `None` |
| Resolver.NamesOfSpec | load_data.py:86-88 | the names collected are exactly those of the results that have one, in input order; with K results of which M have none there are K−M names; collection fails exactly when a result makes Python raise |
| Resolver.FetchNamesSpec | load_data.py:83-88 | a non-empty list whose fetches raise nothing resolves to the `", "`-join of exactly the fetched names, in input order, and to `""` when no fetch gave a name |
| Resolver.FindSep | load_data.py:88 | the position found is the first occurrence of `", "`, and there is none exactly when no occurrence exists |
| Resolver.FindSepNoComma | load_data.py:88 | in a comma-free name followed by `", "`, the first separator is right after the name |
| Resolver.SplitJoin | load_data.py:88 | splitting a `", "`-join of comma-free names gives back the names, so the joined string holds exactly those names |
| Assembler.ResolveHomeworld | load_data.py:95 | corrected: a falsy or absent homeworld resolves to `""` (as written the record fails, see Findings) |
| Assembler.ResolveHomeworldAsWritten | load_data.py:90-96 | as written, a falsy homeworld makes the gather raise |
| Assembler.ResolveReferences | load_data.py:90-96 | the five references resolve exactly when each of the five resolutions succeeds (one that raises fails the whole gather), and each column is its own resolution |
| Assembler.Assemble | load_data.py:78-116 | for a given homeworld step, a row exists exactly when the character is an object with the required keys, a string `url` with a numeric last segment, and references that resolve; the row carries that id and the character's name |
| Assembler.MakeRow | load_data.py:98-113 | each optional scalar column holds the character's value, or `""` when the key is absent |
| Assembler.ProcessCharacterAsWritten | load_data.py:78-116 | as written, a character object with no (or a falsy) homeworld never yields a row |
| Assembler.ProcessCharacter | load_data.py:78-116 | corrected: a row exists exactly when the character is an object with all required keys, a string `url` whose last segment is a number, and references that all resolve; the row's id is that number and its name is the character's |
| Assembler.ProcessCharacterColumns | load_data.py:90-113 | corrected: optional scalars default to `""`; the five reference columns are the resolver's strings |
| Assembler.MissingRequiredKey | load_data.py:81-116 | a missing `url`, `name`, `films`, `species`, `starships` or `vehicles` makes the record `None` |
| Assembler.AbsentOptionalIsEmpty | load_data.py:101-108 | an absent optional scalar is stored as `""` |
| Assembler.HomeworldName | load_data.py:95 | a truthy homeworld resolves to the planet's name, to `""` when the fetch fails or has no name, and fails only where Python raises |
| Assembler.HomeworldlessCharacter | load_data.py:95 | without a homeworld the record is dropped as written, and kept with homeworld `""` by the corrected assembler |
| Assembler.CorrectionIsLocal | load_data.py:90-96 | apart from a missing homeworld, the corrected and the written assembler agree |
| Store.CharacterTable.Upsert | load_data.py:124-145 | an accepted write leaves `row` under `row.id`, whether or not that key existed, and changes nothing else; a rejected write changes nothing |
| Store.SaveAll | load_data.py:119-149 | a save never removes a key (the lemmas below give the rest) |
| Store.SaveCharacters | load_data.py:119-149 | the new table and the returned flag are those of `SaveAll` on the old table |
| Store.LastRowSpec | load_data.py:122-145 | `LastRow`: the row found is the last entry with that id, and no entry has the id when none is found |
| Store.FirstRejected | load_data.py:147-149 | the position found holds a rejected row and every row before it is accepted |
| Store.SaveOkIff | load_data.py:121-149 | the save returns `True` exactly when the database accepts every row in the batch |
| Store.SaveSuccess | load_data.py:122-146 | after a full save, each id in the batch holds the row of the last record with that id, and every other key is unchanged |
| Store.SaveFailure | load_data.py:121-149 | a failed save stops at the first rejected row: the rows before it are written, nothing from it on is |
| Store.SaveKeepsKeys | load_data.py:127 | a table where every key names its own row keeps that property: one row per id |
| Store.SavedRowsFromBatch | load_data.py:122-145 | every row afterwards was there before or came from the batch |
| Store.SaveSkipsNone | load_data.py:123 | falsy entries are skipped: removing them first changes nothing |
| Store.SaveIdempotent | load_data.py:124-140 | saving a batch again after it has gone through changes nothing |
| Store.UpsertTwice | load_data.py:127-140 | two upserts with the same id leave a single row holding the second |
| Pipeline.ProcessAll | load_data.py:175 | one result of the record builder per listed character, in order: the k-th entry is the built record of the k-th character |
| Pipeline.ValidRowsSpec | load_data.py:176 | `ValidRows` keeps an entry exactly when it is a processed row (not `None`); kept and dropped entries account for every entry |
| Pipeline.LoadCharacters | load_data.py:169-181 | nothing is written when no character was listed; otherwise the valid rows are saved and the outcome reports success with their count, or failure; `main` runs it with the as-written builder |
| Pipeline.OnlyProcessedReachStore | load_data.py:175-178 | for either builder, every row in the table after a run was there before or is the built row of a listed character |
| Pipeline.AsWrittenStoresOnlyHomeworlded | load_data.py:175-178 | as written, every row a run adds or changes comes from a listed character object with a truthy homeworld |
| Pipeline.FilteringBeforeSaveIsHarmless | load_data.py:176-178 | dropping the failed records before saving gives the same table as letting the save skip them |
| Pipeline.BareCharacterRow | load_data.py:78-116 | corrected: a character whose `url` is the item URL for `id`, whose `species`, `starships` and `vehicles` are empty lists and which has no optional scalar becomes the row with its id, its name, `""` scalars and its resolved films and homeworld; as written it becomes the same row when its homeworld is truthy |
| Pipeline.TwoItemListing | load_data.py:65-72 | with `count` 2 and two truthy item fetches, the listing is those two records in index order |
| Pipeline.ScenarioListing | load_data.py:65-72 | the scenario's listing is both characters in index order |
| Pipeline.ScenarioLukeAsWritten | load_data.py:95 | as written, the homeworld-less character of the scenario is dropped |
| Pipeline.ScenarioLuke | load_data.py:78-116 | corrected, that character becomes id 1, name "Luke", films `""`, homeworld `""` |
| Pipeline.ScenarioLeia | load_data.py:83-113 | as written and corrected alike, the second character becomes id 2, films "A New Hope", homeworld "Alderaan" |
| Pipeline.PairRows | load_data.py:175-176 | of two built records, exactly the successful ones survive the filter, in order (all four cases) |
| Pipeline.ScenarioProcessedAsWritten | load_data.py:175-176 | as written, only the second character's row survives the filter |
| Pipeline.ScenarioProcessed | load_data.py:175-176 | corrected: both characters' rows survive the filter, in order |
| Pipeline.ScenarioEndToEndAsWritten | load_data.py:169-178 | as written, end to end into an empty table that accepts every write, only id 2 is stored |
| Pipeline.ScenarioEndToEndCorrected | load_data.py:169-178 | corrected: the same run stores exactly the two expected rows under ids 1 and 2 |

## Left out

- HTTP transport, TLS settings, the aiohttp session and JSON decoding (load_data.py:58-66, 163-168) are replaced by the `Web` parameter. A body that does not decode is `None` in `Response`.
- The `Web` oracle is a function, so a URL fetched several times in one run gets the same answer each time (a film shared by several characters, for example). A server whose answers change during a run is not modelled.
- The concurrency of `asyncio.gather` is left out. Gathers are order-preserving sequential maps. Fetches still running after a sibling raises are not modelled, and neither are tasks that stay scheduled after `gather` itself raises.
- `test_connection`, `get_db_connection` and its retry-with-sleep loop (load_data.py:21-42) are connection I/O.
- `migrate_db.py` (database creation, DDL, the timestamp trigger) is left out, and so are the `created_at`/`updated_at` columns.
- Printing, timing and `sys.exit` in `main` (load_data.py:152-188) are left out. So is its outer `except`, which nothing in the model can reach.
- Store.CharacterTable.Upsert: why the database rejects a write is a parameter, `accepts`, that depends only on the row. Concrete causes are not modelled: an id outside PostgreSQL `INTEGER`, a null `name`, a non-string value bound to a `TEXT` column, or a connection that drops after some number of writes.
- Ident.ParseNat: Python's `int()` also accepts surrounding whitespace, a sign, underscores between digits and non-ASCII digits. The model accepts only a non-empty run of ASCII digits and treats the other forms as failures.
- Resolver.Iterate: a truthy reference field that is a JSON object would make Python fetch each of its keys. A `map` has no key order, so the model treats that case as a failure of the record.
- Json: JSON numbers are integers. Floating-point values (for example a fractional `count`) are not modelled.

## Findings

| source | as written | input that shows it | evidently intended | confidence | as-written member | corrected member |
|---|---|---|---|---|---|---|
| load_data.py:95 | For a falsy homeworld the expression gives the bare string `""` as an argument of `asyncio.gather`. `gather` accepts only awaitables and raises `TypeError`. `process_character` catches it and returns `None`, so the character is never stored | the character `{"url": ".../people/1/", "name": "Luke", "films": [], "species": [], "starships": [], "vehicles": [], "homeworld": null}` (Pipeline.ScenarioLukeAsWritten, Assembler.HomeworldlessCharacter; end to end, Pipeline.ScenarioEndToEndAsWritten stores only id 2) | the character is stored with homeworld `""`, as the resolver does for an empty reference list | high, not executed | Assembler.ProcessCharacterAsWritten | Assembler.ProcessCharacter |

# opggvisualizer core in Dafny

opggvisualizer keeps a local SQLite database of League of Legends data.
It holds the static champion catalog from Data Dragon and a summoner's
recent ranked games from op.gg. This project models the part that does the
work, as pure functions on an immutable store:

- **the relational store** (`internal/db`): the schema and its foreign keys, the fetch ledger, the champion upsert, the insert-only game tables with their best-effort child rows, and the two wipes;
- **the two fetch-and-store runs** (`internal/client`): a 24-hour freshness gate on the ledger, the requests, the loops that skip whatever fails, and the ledger update;
- **configuration from the environment** (`internal/config`);
- **`Image.FullURL`** (`internal/models`).

Modules, one per file:

| module | file | what it holds |
|---|---|---|
| `Wrappers` | wrappers.dfy | `Option`, `Result` |
| `Models` | models.dfy | the records of models.go, `FullURL`, Go's `int(float64)` |
| `Decimal` | decimal.dfy | `strconv.Itoa` and a parser for its output |
| `Json` | json.dfy | encoding/json's rendering of `[]string`, and a decoder for it |
| `Db` | db.dfy | the `Store`, its invariant, the schema, the ledger, `DELETE FROM` |
| `ChampionStore` | champion_store.dfy | champions.go |
| `GameStore` | game_store.dfy | games.go |
| `Client` | client.dfy | URLs, the freshness gate, run outcomes |
| `FetchChampions` | fetch_champions.dfy | fetchChampions.go |
| `FetchGames` | fetch_games.dfy | fetchGames.go |
| `Config` | config.dfy | config.go |

How the store is modelled:

- Tables keyed by a text primary key are maps: `games`, `champions` and the `fetch` ledger.
- `teams` and `participants` are maps from their AUTOINCREMENT id, with a counter that never goes back.
- The three child tables are sequences of rows in insertion order.
- `Valid` is the store invariant: every enforced foreign key resolves, and every surrogate id is at most its counter.
- Every statement takes a "driver fails" flag. A loop takes one such flag per position. A run takes an oracle `Stmt -> bool` that names each statement by its position in the batch.
- A panic is a run outcome (`Panicked`).
- Time is whole Unix seconds, and `now` is a parameter.
- Parsing RFC 3339 text is a given partial function `parse`.
- Each network request is replaced by the value it decoded to.

## Model

| member | source | states |
|---|---|---|
| Models.FullURLRoundTrip | internal/models/models.go:218-220 | The portrait URL is the CDN prefix, the version, `/img/champion/` and the file name: splitting it gives back the version and the file name (when the version has no `/`) |
| Models.FullURLIgnoresLayout | internal/models/models.go:206-220 | Two images with the same version and file name have the same URL, whatever their size, sprite, group or position |
| Models.Trunc | internal/db/games.go:138-153 | `int(f)` truncates toward zero: the result is within one of `f`, on the side of zero |
| Decimal.ItoaRoundTrip | internal/db/games.go:128-129 | Parsing the decimal text of a champion id gives the id back |
| Decimal.ItoaCanonical | internal/db/games.go:128-129 | The decimal text has no leading zero, no `-0` and no `+` |
| Decimal.ItoaMatches | internal/db/games.go:128-129 | A text equals the rendering of `n` exactly when it is canonical and parses to `n` |
| Decimal.ItoaInjective | internal/db/games.go:128-129 | Distinct ids render to distinct texts |
| Decimal.DigitsRoundTrip | internal/db/games.go:128-129 | The digits of a natural number evaluate back to it |
| Decimal.ValueDigitsRoundTrip | internal/db/games.go:128-129 | A digit string without a leading zero is the rendering of its value |
| Json.Hex4RoundTrip | internal/db/champions.go:14 | A `\u` escape's four hex digits read back as the code unit they encode |
| Json.EscapeCharRoundTrip | internal/db/champions.go:14 | The escape of one character, followed by any text, decodes to that character and that text |
| Json.EscapeStringRoundTrip | internal/db/champions.go:14 | An escaped tag followed by a closing quote decodes to the tag and whatever follows the quote |
| Json.EscapeStringPlain | internal/db/champions.go:14 | A tag made of printable characters other than `"`, `\`, `<`, `>` and `&` is written as it is |
| Json.ElementsRoundTrip | internal/db/champions.go:14 | The comma-joined quoted tags decode to the same tags, in order |
| Json.EncodeStringArrayRoundTrip | internal/db/champions.go:14 | The stored tags text decodes to the champion's tags in their original order |
| Json.EncodeStringArrayInjective | internal/db/champions.go:14 | Different tag lists are stored as different texts |
| Db.FirstFailing | internal/db/db.go:188-192 | The position of the first schema statement the driver fails: all earlier ones succeed |
| Db.CreateTables | internal/db/db.go:188-194 | The schema loop from statement `i` creates the tables before the first failure and no others, and touches no rows |
| Db.InitializeSchema | internal/db/db.go:59-195 | Initialisation succeeds exactly when no statement fails. Then every schema table exists. Otherwise exactly the tables before the failing statement are added. Rows are never touched |
| Db.InitializeSchemaIdempotent | internal/db/db.go:60-186 | Initialising an initialised store changes nothing (CREATE TABLE IF NOT EXISTS) |
| Db.InitializeSchemaCreatesAll | internal/db/db.go:59-195 | After a successful initialisation all eight schema tables exist |
| Db.GetLastFetch | internal/db/db.go:198-211 | The read succeeds exactly when the driver succeeds and the kind has a non-NULL row, and then returns that row's time. With no row it fails with "no rows" |
| Db.SetLastFetch | internal/db/db.go:214-217 | INSERT OR REPLACE: the kind has a row afterwards, and no other kind's row changes |
| Db.SetThenGetLastFetch | internal/db/db.go:198-217 | After a set, a read of the same kind returns the time written, and a read of any other kind returns what it returned before |
| Db.NullLastFetch | internal/db/champions.go:93 | The UPDATE nulls the kind's row if it exists, inserts no row, and leaves the other kinds alone |
| Db.DeleteFrom | internal/db/db.go:29 | With foreign keys on, `DELETE FROM t` succeeds exactly when `t` exists and no remaining row refers to one of its rows. Then it empties `t` and nothing else. Otherwise nothing changes |
| Db.UnreferencedWhenChildrenEmpty | internal/db/db.go:105-161 | A table is not referenced when every table whose foreign keys point at it is empty |
| Db.EmptiedKeepsValid | internal/db/db.go:105-161 | Emptying a table that nothing refers to keeps every foreign key resolved |
| ChampionStore.ChampionRowFaithful | internal/db/champions.go:13-64 | The stored tags decode to the champion's tags in order, and the stored image URL is `FullURL` of its image, from which version and file name can be read back |
| ChampionStore.InsertChampion | internal/db/champions.go:24-64 | The upsert succeeds unless the driver fails. Then the row under the champion's Key holds the new values, other rows and tables are untouched, and the invariant is kept |
| ChampionStore.UpsertSameKeyTwice | internal/db/champions.go:24-41 | Two upserts with one key leave one row holding the second champion's values |
| ChampionStore.InsertChampionIgnoresId | internal/db/champions.go:43-45 | The readable `ID` plays no part: the row is keyed by `Key` |
| ChampionStore.ListChampionIDs | internal/db/champions.go:67-83 | The listing holds each stored key exactly once and nothing else, so its length is the number of distinct keys |
| ChampionStore.ClearChampionData | internal/db/champions.go:86-98 | Empties `champions` and then nulls the CHAMPIONS ledger row. A failed delete changes nothing; a failed update keeps the delete |
| ChampionStore.ClearChampionDataBlockedByParticipants | internal/db/champions.go:86-90 | While participants refer to champions the delete is refused by the foreign key and nothing changes |
| GameStore.KeptFromAll | internal/db/games.go:92-97 | With no driver failures a best-effort loop writes every element, in order |
| GameStore.KeptFromMembers | internal/db/games.go:166-180 | An element whose own insert does not fail is written, whatever happens to the others |
| GameStore.InsertGame | internal/db/games.go:15-47 | A plain INSERT. It succeeds exactly when the driver does not fail and the id is new. Then it adds exactly that row. Stored rows are never changed |
| GameStore.InsertGameTwice | internal/db/games.go:15-47 | A second insert with the same id fails and leaves the first row as it was |
| GameStore.GameRowDivisionTruncates | internal/db/games.go:31 | The stored division is the tier division truncated toward zero |
| GameStore.InsertTeamBannedChampion | internal/db/games.go:103-116 | A ban row needs its team, and its champion id is stored raw, with no foreign key to champions |
| GameStore.InsertBansAppends | internal/db/games.go:91-97 | The ban loop appends one row per banned champion whose insert does not fail, in order, all tagged with the team's id. With an unknown team it appends nothing |
| GameStore.InsertBansFrame | internal/db/games.go:91-97 | The ban loop changes no table but `bans` |
| GameStore.InsertBansKeepsValid | internal/db/games.go:91-97 | The ban loop keeps every foreign key resolved: each ban it writes names an existing team |
| GameStore.InsertTeam | internal/db/games.go:50-100 | The team insert succeeds exactly when the driver does not fail and the game is stored. Then the team gets the next id and its bans follow. A failing ban is skipped and the team still succeeds. A failed team writes no bans |
| GameStore.InsertTeamAllBans | internal/db/games.go:86-99 | Without failures there is exactly one ban row per banned champion, in order, tagged with the new team id |
| GameStore.ParticipantChampionJoin | internal/db/games.go:128-135 | The stored `champion_id` parses back to the participant's integer id, and equals a champion key exactly when that key is the canonical decimal text of the id |
| GameStore.InsertChild | internal/db/games.go:186-215 | An item or spell row needs its participant, and the row is appended |
| GameStore.InsertChildrenAppends | internal/db/games.go:166-180 | When the participant is stored, the item (or spell) loop appends one row per element whose insert does not fail, in order, tagged with the participant's id. Otherwise it appends nothing |
| GameStore.InsertChildrenKeepsValid | internal/db/games.go:166-180 | The item and spell loops keep every foreign key resolved |
| GameStore.InsertParticipant | internal/db/games.go:119-183 | The participant insert succeeds exactly when the driver does not fail and both its game and its champion are stored. Then it gets the next id, and its items and then its spells follow, skipping failures. A failed participant writes no items or spells |
| GameStore.DeleteTables | internal/db/games.go:219-224 | The delete loop touches only the rows of the listed tables and keeps the invariant. When it succeeds all of them are empty. A missing table makes it fail |
| GameStore.ClearGameDataAsWrittenNeverNullsLedger | internal/db/games.go:218-231 | The wipe as written always fails on a store of this schema. The GAMES ledger row and the participant, item, spell and ban rows are never touched |
| GameStore.ClearGameDataAsWrittenBlockedByTeams | internal/db/games.go:219-223 | While any team exists the as-written wipe fails at its first statement and deletes nothing |
| GameStore.ClearGameData | internal/db/games.go:218-231 | The intended wipe keeps champions. After it succeeds the GAMES ledger row is NULL. After it fails the ledger is untouched |
| GameStore.ClearGameDataEmptiesGameTables | internal/db/games.go:218-231 | Without driver failures the intended wipe empties all six game tables and nulls the GAMES row. Champions and the other ledger rows are kept |
| GameStore.DeleteTablesSucceeds | internal/db/games.go:219-224 | A delete loop over present tables, with every child table before its parents, succeeds |
| Client.CatalogURLInjective | internal/client/client.go:12 | The catalog URL determines the version it was built from |
| Client.Since | internal/client/fetchChampions.go:20 | `time.Since` is the elapsed time in nanoseconds, saturated to the range of `time.Duration` |
| Client.FreshIffWithinADay | internal/client/fetchChampions.go:20 | The gate holds exactly when less than 24 hours have passed since the last fetch. Saturation never changes the verdict |
| Client.FailedReadIsStale | internal/client/fetchChampions.go:14-21 | A failed ledger read never holds a run back (fail-open) |
| FetchChampions.LastUpsert | internal/client/fetchChampions.go:61-66 | The reference outcome per key of the upsert loop: when some upsert goes through for a key, the champion it picks carries that key |
| FetchChampions.UpsertFromFrame | internal/client/fetchChampions.go:61-66 | The upsert loop writes only `champions` and keeps the store valid |
| FetchChampions.UpsertFromRow | internal/client/fetchChampions.go:61-66 | After the loop each key holds the row of its last successful upsert. A key no successful upsert names keeps its old row or stays absent. Failures are skipped |
| FetchChampions.UpsertedRowsStored | internal/client/fetchChampions.go:61-66 | With distinct keys every champion whose upsert succeeds is stored with its own row, whichever siblings failed |
| FetchChampions.FetchAndStoreChampionData | internal/client/fetchChampions.go:12-90 | Never panics and writes only champions and the ledger. A fresh gate means no request and no write. Any error other than the ledger write leaves the store as it was. Success sets CHAMPIONS to now and keeps other kinds |
| FetchChampions.FreshRunIsNoOp | internal/client/fetchChampions.go:13-23 | Less than a day after the recorded fetch the run returns nil, with no request and no write |
| FetchChampions.UnreadableLedgerFailsOpen | internal/client/fetchChampions.go:14-26 | When the ledger cannot be read the run goes ahead and requests the versions first |
| FetchChampions.NoVersionsNoWrites | internal/client/fetchChampions.go:36-38 | An empty versions list is an error with no write |
| FetchChampions.CatalogOfFirstVersion | internal/client/fetchChampions.go:40-47 | The catalog requested is that of `versions[0]`, after the versions list |
| FetchChampions.FetchFailureNoWrites | internal/client/fetchChampions.go:26-55 | A failed request or decode returns an error before any write |
| FetchChampions.CatalogStored | internal/client/fetchChampions.go:61-81 | After the loop the rows follow the per-key reference. The run ends nil exactly when the ledger write succeeds; otherwise it returns the error with the rows kept |
| FetchChampions.RerunWithinADayIsNoOp | internal/client/fetchChampions.go:13-23 | A second run within a day of a successful one, with a readable ledger, is a no-op |
| FetchChampions.WipeThenFetchRuns | internal/db/champions.go:92-96 | After a successful champion wipe the next run fetches again |
| FetchChampions.ExampleRun | internal/client/fetchChampions.go:12-90 | A worked run: empty ledger, versions `["15.1.1", ...]`, one champion with Key "1" and tag Fighter. The run requests both URLs, stores one row with tags `["Fighter"]` and sets the ledger to now |
| FetchGames.ToGame | internal/client/fetchGames.go:68-83 | The game takes the entry's id and parsed timestamps. `is_recorded` is true exactly when it is present and non-zero (null and 0 both give false). The length is truncated |
| FetchGames.EntryGame | internal/client/fetchGames.go:46-65 | An entry yields no game exactly when its created_at or either meta timestamp fails to parse. Every game built from a batch carries the batch's meta |
| FetchGames.InsertTeamsCount | internal/client/fetchGames.go:91-96 | The team counter advances by the number of teams whose insert goes through: a failing team does not stop its siblings |
| FetchGames.InsertTeamsOwned | internal/client/fetchGames.go:91-96 | Every team row after the loop is an old one unchanged or belongs to this game |
| FetchGames.InsertTeamsKeepsValid | internal/client/fetchGames.go:91-96 | The team loop keeps the invariant and touches no existing team |
| FetchGames.InsertTeamsFrame | internal/client/fetchGames.go:91-96 | The team loop writes only teams and bans, and nothing when the game is not stored |
| FetchGames.InsertParticipantsCount | internal/client/fetchGames.go:102-107 | When the game is stored, the participant counter advances by exactly the number of participants whose champion is stored and whose insert does not fail: a skipped participant does not stop the ones after it. Without failures and with every champion known, that is one per participant. It never advances by more than one per participant |
| FetchGames.InsertParticipantsOwned | internal/client/fetchGames.go:102-107 | Every participant row after the loop is an old one unchanged or belongs to this game |
| FetchGames.InsertParticipantsKeepsValid | internal/client/fetchGames.go:102-107 | The participant loop keeps the invariant and touches no existing participant |
| FetchGames.InsertParticipantsFrame | internal/client/fetchGames.go:102-107 | The participant loop writes only participants, items and spells, and nothing when the game is not stored |
| FetchGames.SkippedEntryWritesNothing | internal/client/fetchGames.go:46-88 | An entry whose timestamps do not parse, or whose game insert fails, writes no game, team or participant |
| FetchGames.StoreEntryPanics | internal/client/fetchGames.go:99 | An entry panics exactly when its game was inserted and it has no participants; by then its game is stored and no participant was added |
| FetchGames.StoreEntryGames | internal/client/fetchGames.go:68-88 | The games table gains exactly the entry's game when it is inserted, with the row built from it; stored games are never overwritten |
| FetchGames.StoreEntryKeepsGames | internal/client/fetchGames.go:85-88 | No stored game is overwritten, and a parseable entry whose insert does not fail has its game stored afterwards |
| FetchGames.StoreEntryFrame | internal/client/fetchGames.go:44-108 | One entry never touches champions, the ledger or the schema |
| FetchGames.StoreEntryKeepsValid | internal/client/fetchGames.go:44-108 | One entry keeps the invariant |
| FetchGames.StoreEntriesGames | internal/client/fetchGames.go:44-108 | The batch loop adds only games of the batch and never touches champions, the ledger or the schema |
| FetchGames.StoreEntriesKeepsGames | internal/client/fetchGames.go:44-108 | The batch loop never overwrites a stored game |
| FetchGames.StoreEntriesShareMeta | internal/client/fetchGames.go:53-83 | Every game the loop adds carries the batch's first and last game timestamps |
| FetchGames.StoreEntriesKeepsValid | internal/client/fetchGames.go:44-108 | The batch loop keeps the invariant |
| FetchGames.StoreEntriesStoresEach | internal/client/fetchGames.go:44-108 | When the loop completes, every parseable entry whose game insert did not fail has its game stored: failures in sibling entries do not matter |
| FetchGames.KnownBatchWritesNothing | internal/client/fetchGames.go:85-88 | A batch whose games are all stored already writes nothing |
| FetchGames.SkippedEntryIsTransparent | internal/client/fetchGames.go:46-50 | A skipped entry is as if it were absent: the loop continues with the next entry from the same store |
| FetchGames.UnparsableBatchWritesNothing | internal/client/fetchGames.go:53-65 | When no entry parses, the loop writes nothing |
| FetchGames.StoreBatch | internal/client/fetchGames.go:44-113 | After a decoded batch the run panics exactly when the loop does, leaving the ledger alone. Otherwise it sets GAMES to now, or returns the write error |
| FetchGames.FetchBatch | internal/client/fetchGames.go:27-113 | Past the gate the run makes one request for the summoner's batch. A failed request writes nothing |
| FetchGames.FetchAndStoreGameData | internal/client/fetchGames.go:13-122 | Writes no champion. A fresh gate means no request and no write. A fetch failure writes nothing. Only a stored run moves the GAMES row, to now. Stored games are never overwritten. The invariant is kept |
| FetchGames.FreshGamesRunIsNoOp | internal/client/fetchGames.go:14-24 | Less than a day after the recorded fetch the run is a no-op |
| FetchGames.UnreadableGamesLedgerFailsOpen | internal/client/fetchGames.go:15-31 | When the GAMES row cannot be read the run requests the batch |
| FetchGames.GamesFetchFailureNoWrites | internal/client/fetchGames.go:31-39 | A failed request or decode returns an error with no write |
| FetchGames.BadMetaOnlyAdvancesLedger | internal/client/fetchGames.go:53-65 | When a meta timestamp does not parse no game is stored, yet the ledger still advances |
| FetchGames.EmptyParticipantsPanics | internal/client/fetchGames.go:99 | A stored first game with no participants panics the run after its game and teams are written. Later entries are not processed and the ledger is not advanced |
| FetchGames.StoredRunHoldsBatch | internal/client/fetchGames.go:44-113 | After a stored run in which every entry parsed and no game insert failed, every game of the batch is in the store |
| FetchGames.RefetchAddsNoGames | internal/client/fetchGames.go:85-88 | Fetching the same batch again once the gate reopens adds no game row: only the ledger moves |
| FetchGames.AsWrittenWipeKeepsGateClosed | internal/db/games.go:226-229 | Because the as-written wipe never nulls the GAMES row, a fetch within a day of the last one is still held back after it |
| FetchGames.WipeThenGamesFetchRuns | internal/db/games.go:226-229 | After a successful intended wipe the next games run fetches again |
| Config.LoadConfig | internal/config/config.go:22-40 | Loading fails exactly when SUMMONER_ID is unset or empty. The summoner id is copied verbatim. DATABASE_PATH falls back to `data.db` when unset or empty. API_PORT falls back to `8080` only when unset |
| Config.LoadConfigReadsOnlyItsVariables | internal/config/config.go:22-40 | Only the three variables matter: environments that agree on them load the same result |
| Config.LoadConfigOfEnvOf | internal/config/config.go:22-40 | Every configuration with a summoner id and a database path is loaded back from the environment holding exactly its values |
| Config.LoadedConfigIsCanonical | internal/config/config.go:22-40 | Every loaded configuration has a non-empty summoner id and database path, and its own environment loads it again |
| Config.EmptyVersusUnset | internal/config/config.go:28-58 | An empty DATABASE_PATH behaves like an unset one, while an empty API_PORT gives an empty port and an unset one gives `8080` |

## Left out

- HTTP (`FetchData`, internal/client/client.go:16-34) is left out: each run receives the decoded result of its requests as a parameter, or a `FetchError`.
- JSON decoding of the upstream answers is left out. The models are the decoded records; `is_recorded` is an `Option<real>`. As written, `sql.NullFloat64` has no JSON unmarshaller, so a non-null `is_recorded` may not decode at all. That depends on encoding/json and is not modelled.
- Floating point is modelled as `real`: there is no NaN, infinity or rounding, and `int(f)` is exact truncation. Conversions of out-of-range floats, which Go leaves implementation-defined, are not modelled.
- Time is whole Unix seconds. RFC 3339 formatting and parsing are the given function `parse`. A stored ledger value always parses back, so the "ledger text is not RFC 3339" error of GetLastFetch (internal/db/db.go:205-208) cannot occur in the model.
- `time.Now` and `time.Since` are the parameter `now` plus the saturating subtraction in `Client.Since`. A run reads one instant: the ledger stamp is the same `now` the gate compared against, while the program reads the clock again after its requests. The stamp is therefore earlier by the duration of the requests, which only makes the next gate open sooner or at the same time.
- The SQL driver and the database connection are left out: opening, `PRAGMA foreign_keys` (assumed on), closing, and the global singletons with their `log.Fatalf` paths (internal/db/db.go:14-52, internal/config/config.go:10, 42-51). Each statement's failure is a parameter instead.
- `LastInsertId` failing after a successful insert is not modelled. The new id is the counter plus one, as with SQLite AUTOINCREMENT.
- Inserts that run before the schema exists are not modelled (no "no such table" on insert). Only `DELETE FROM` and the schema loop consult which tables exist.
- Some columns are opaque. The champion `stats` JSON is a `map<string, real>` in the row, and its encoding is not modelled. A team's statistics are stored as a whole.
- A `nil` tag slice encodes as `null` (internal/db/champions.go:14). The model has no nil slice, so an empty tag list encodes as `[]`.
- Tags containing `\b` or `\f` are written with the short escapes `\b` and `\f`, as current Go releases do. Go releases before 1.22 write them as `\u0008` and `\u000c`, which the model does not follow.
- The `ListChampionIDs` call and the re-read of the ledger after a run only feed the log (internal/client/fetchChampions.go:69-76, 83-87; internal/client/fetchGames.go:115-119). The runs do not model them, since they change nothing and cannot fail the run. `ListChampionIDs` itself is modelled.
- Logging and the debug print of the first participant are left out; only the indexing is kept, as the panic (internal/client/fetchGames.go:99).
- The HTTP API, its background goroutine and the command-line wiring are left out (internal/api/api.go, internal/cli, cmd). They only call the two runs and the wipes.
- The catalog is a Go map, iterated in random order. The model takes the order as part of the input: `catalogAt` returns a sequence.
- `FetchAndStoreGameData` takes the summoner id as a parameter. In the source it comes from `config.GetConfig()`, whose loading is modelled by `Config.LoadConfig`.
- The models keep only the fields the core reads or stores. Fields that are decoded and then dropped (`memo`, `myData`, `record_info`, `game_map`, the op.gg score timelines) are left out.

## Findings

| source | as written | input that shows it | evidently intended | confidence | as-written member | corrected member |
|---|---|---|---|---|---|---|
| internal/db/games.go:218-231 | `ClearGameData` deletes from `games`, `teams`, `players` and `stats`, stopping at the first error, then nulls the GAMES ledger row | Any store with the schema. With a team present, `DELETE FROM games` is refused by the foreign key; otherwise `players` does not exist. Either way the wipe returns an error before the ledger update | Empty every game table (bans, items, spells, participants, teams, games, children first) and then null the GAMES row, so the next games run fetches again | not executed | GameStore.ClearGameDataAsWritten, GameStore.ClearGameDataAsWrittenNeverNullsLedger | GameStore.ClearGameData, GameStore.ClearGameDataEmptiesGameTables |

/** The relational store of internal/db/db.go as an immutable value: one
    field per table, the schema as the set of tables created so far, and the
    `fetch` ledger. Every statement the Go code executes becomes a pure
    function from a store to a store plus an optional error; a failure of the
    SQLite driver itself is an input flag. Foreign keys are enforced, as the
    connection enables them before anything else. */
module Db {
  import opened Wrappers
  import opened Models

  datatype DbError =
    | Driver                      // the driver or the disk failed the statement
    | NoSuchTable(table: string)  // the SQL name of the missing table
    | UniqueViolation             // a primary key already present
    | ForeignKeyViolation
    | NoRows                      // a single-row query found nothing
    | NullValue                   // a NULL scanned into a Go string

  // ---------------------------------------------------------------------
  // Rows, one datatype per table
  // ---------------------------------------------------------------------

  /** A `games` row, keyed by game_id. Timestamps are the instants the
      RFC 3339 text denotes, in whole seconds. */
  datatype GameRow = GameRow(
    createdAt: int, gameLength: int, tier: string, division: int,
    tierImageUrl: string, borderImageUrl: string, isRemake: bool,
    metaVersion: string, gameType: string, isOpscoreActive: bool,
    isRecorded: bool, version: string, firstGameCreatedAt: int,
    lastGameCreatedAt: int)

  /** A `teams` row, keyed by its surrogate team_id. */
  datatype TeamRow = TeamRow(gameId: string, key: string, stat: TeamStat)

  /** A `participants` row, keyed by its surrogate id. */
  datatype ParticipantRow = ParticipantRow(
    gameId: string, participantId: int, summonerName: string, championId: string,
    position: string, role: string, kills: int, deaths: int, assists: int,
    goldEarned: int, damageDealt: int, damageTaken: int, visionScore: int,
    primaryRuneId: int, secondaryRunePageId: int, laneScore: int,
    teamKey: string, result: string, wardPlace: int, opScoreRank: int,
    barrackKill: int, totalHeal: int, gameType: string, isRemake: bool)

  /** A `team_banned_champions` row; the banned id is a raw REAL with no
      foreign key. */
  datatype BanRow = BanRow(teamId: nat, bannedChampionId: real)

  /** A `participant_items` or `participant_spells` row. */
  datatype ChildRow = ChildRow(participantId: nat, value: int)

  /** A `champions` row, keyed by champion_id (the champion's Key). `stats`
      stands for its serialized JSON object. */
  datatype ChampionRow = ChampionRow(
    name: string, title: string, tags: string, typeName: string, format: string,
    blurb: string, partype: string, attack: real, defense: real, magic: real,
    difficulty: real, stats: map<string, real>, imageUrl: string)

  /** The tables a statement can name: the eight of the schema, or any
      other name, which no statement ever creates. */
  datatype Table =
    | Games | Teams | Participants | ParticipantItems | ParticipantSpells
    | TeamBannedChampions | Champions | Fetch
    | Unknown(name: string)

  /** The table's name in SQL text. */
  function TableName(t: Table): string
  {
    match t
    case Games => "games"
    case Teams => "teams"
    case Participants => "participants"
    case ParticipantItems => "participant_items"
    case ParticipantSpells => "participant_spells"
    case TeamBannedChampions => "team_banned_champions"
    case Champions => "champions"
    case Fetch => "fetch"
    case Unknown(name) => name
  }

  /** The whole database. `lastTeamId` and `lastParticipantId` are the
      AUTOINCREMENT counters: the largest surrogate id ever handed out. The
      child tables keep their rows in insertion order. A ledger value of
      None is a row whose last_fetch is NULL. */
  datatype Store = Store(
    tables: set<Table>,
    games: map<string, GameRow>,
    teams: map<nat, TeamRow>, lastTeamId: nat,
    participants: map<nat, ParticipantRow>, lastParticipantId: nat,
    bans: seq<BanRow>, items: seq<ChildRow>, spells: seq<ChildRow>,
    champions: map<string, ChampionRow>,
    ledger: map<string, Option<int>>)

  /** What a statement (or a sequence of them) leaves behind. */
  datatype Written = Written(store: Store, err: Option<DbError>)
  {
    predicate Ok() { err.None? }
  }

  /** The database file before the schema exists. */
  const Empty := Store({}, map[], map[], 0, map[], 0, [], [], [], map[], map[])

  const ChampionsKind := "CHAMPIONS"
  const GamesKind := "GAMES"

  /** The CREATE TABLE IF NOT EXISTS statements, in execution order. */
  const SchemaTables := [
    Games, Teams, Participants, ParticipantItems,
    ParticipantSpells, TeamBannedChampions, Champions, Fetch]

  ghost predicate Initialized(s: Store)
  {
    forall t :: t in SchemaTables ==> t in s.tables
  }

  /** The store invariant: only schema tables exist, surrogate ids are
      below their counters, and every enforced foreign key resolves. */
  ghost predicate Valid(s: Store)
  {
    && (forall t :: t in s.tables ==> !t.Unknown?)
    && TeamsResolve(s) && ParticipantsResolve(s)
    && BansResolve(s) && ItemsResolve(s) && SpellsResolve(s)
  }

  ghost predicate TeamsResolve(s: Store)
  {
    forall id :: id in s.teams ==> 1 <= id <= s.lastTeamId && s.teams[id].gameId in s.games
  }

  ghost predicate ParticipantsResolve(s: Store)
  {
    forall id :: id in s.participants ==>
      && 1 <= id <= s.lastParticipantId
      && s.participants[id].gameId in s.games
      && s.participants[id].championId in s.champions
  }

  ghost predicate BansResolve(s: Store)
  {
    forall i :: 0 <= i < |s.bans| ==> s.bans[i].teamId in s.teams
  }

  ghost predicate ItemsResolve(s: Store)
  {
    forall i :: 0 <= i < |s.items| ==> s.items[i].participantId in s.participants
  }

  ghost predicate SpellsResolve(s: Store)
  {
    forall i :: 0 <= i < |s.spells| ==> s.spells[i].participantId in s.participants
  }

  // ---------------------------------------------------------------------
  // Schema
  // ---------------------------------------------------------------------

  /** Index of the first schema statement the driver fails, or the number of
      statements when none fails. */
  function FirstFailing(fails: Table -> bool, i: nat): (k: nat)
    requires i <= |SchemaTables|
    ensures i <= k <= |SchemaTables|
    ensures forall j :: i <= j < k ==> !fails(SchemaTables[j])
    ensures k < |SchemaTables| ==> fails(SchemaTables[k])
    decreases |SchemaTables| - i
  {
    if i == |SchemaTables| then i
    else if fails(SchemaTables[i]) then i
    else FirstFailing(fails, i + 1)
  }

  function CreateTables(s: Store, i: nat, fails: Table -> bool): (r: Written)
    requires i <= |SchemaTables|
    ensures r.store == s.(tables := r.store.tables)
    ensures var k := FirstFailing(fails, i);
      && (r.Ok() <==> k == |SchemaTables|)
      && forall t :: t in r.store.tables <==> t in s.tables || t in SchemaTables[i..k]
    decreases |SchemaTables| - i
  {
    if i == |SchemaTables| then Written(s, None)
    else if fails(SchemaTables[i]) then Written(s, Some(Driver))
    else
      var r := CreateTables(s.(tables := s.tables + {SchemaTables[i]}), i + 1, fails);
      assert SchemaTables[i..FirstFailing(fails, i)] == [SchemaTables[i]] + SchemaTables[i + 1..FirstFailing(fails, i + 1)];
      r
  }

  /** initializeSchema: runs every CREATE TABLE IF NOT EXISTS in order and
      stops at the first statement the driver fails. A table that already
      exists is left as it is, rows included. */
  function InitializeSchema(s: Store, fails: Table -> bool): (r: Written)
    ensures r.store == s.(tables := r.store.tables)
    ensures r.Ok() <==> forall t :: t in SchemaTables ==> !fails(t)
    ensures r.Ok() ==> forall t :: t in r.store.tables <==> t in s.tables || t in SchemaTables
    ensures !r.Ok() ==> var k := FirstFailing(fails, 0);
      && k < |SchemaTables| && fails(SchemaTables[k])
      && forall t :: t in r.store.tables <==> t in s.tables || t in SchemaTables[..k]
    ensures Valid(s) ==> Valid(r.store)
  {
    var r := CreateTables(s, 0, fails);
    assert SchemaTables[0..|SchemaTables|] == SchemaTables;
    ValidOtherTables(s, r.store);
    r
  }

  /** Validity does not depend on which schema tables exist. */
  lemma ValidOtherTables(a: Store, b: Store)
    requires b == a.(tables := b.tables)
    requires forall t :: t in b.tables ==> t in a.tables || t in SchemaTables
    ensures Valid(a) ==> Valid(b)
  {
  }

  /** Running the schema a second time changes nothing: every statement is
      CREATE TABLE IF NOT EXISTS. */
  lemma InitializeSchemaIdempotent(s: Store, fails: Table -> bool)
    requires InitializeSchema(s, fails).Ok()
    ensures InitializeSchema(InitializeSchema(s, fails).store, fails) == InitializeSchema(s, fails)
  {
    var s1 := InitializeSchema(s, fails).store;
    var s2 := InitializeSchema(s1, fails).store;
    assert s2.tables == s1.tables;
  }

  /** A successful initialisation leaves every schema table in place. */
  lemma InitializeSchemaCreatesAll(s: Store, fails: Table -> bool)
    requires InitializeSchema(s, fails).Ok()
    ensures Initialized(InitializeSchema(s, fails).store)
  {
  }

  // ---------------------------------------------------------------------
  // Fetch ledger
  // ---------------------------------------------------------------------

  /** GetLastFetch: the ledger row's timestamp. Fails when the driver fails,
      when there is no row for the kind, and when last_fetch is NULL. */
  function GetLastFetch(s: Store, kind: string, fail: bool): (r: Result<int, DbError>)
    ensures r.Ok? <==> !fail && kind in s.ledger && s.ledger[kind].Some?
    ensures r.Ok? ==> r.value == s.ledger[kind].value
    ensures !fail && kind !in s.ledger ==> r == Err(NoRows)
  {
    if fail then Err(Driver)
    else if kind !in s.ledger then Err(NoRows)
    else if s.ledger[kind].None? then Err(NullValue)
    else Ok(s.ledger[kind].value)
  }

  /** SetLastFetch: INSERT OR REPLACE of the kind's ledger row. */
  function SetLastFetch(s: Store, kind: string, t: int, fail: bool): (r: Written)
    ensures r.Ok() <==> !fail
    ensures !r.Ok() ==> r.store == s
    ensures r.Ok() ==> r.store == s.(ledger := r.store.ledger)
    ensures r.Ok() ==> r.store.ledger.Keys == s.ledger.Keys + {kind}
    ensures r.Ok() ==> forall k :: k in s.ledger && k != kind ==> r.store.ledger[k] == s.ledger[k]
    ensures Valid(s) ==> Valid(r.store)
  {
    if fail then Written(s, Some(Driver))
    else Written(s.(ledger := s.ledger[kind := Some(t)]), None)
  }

  /** After a successful SetLastFetch the ledger reads back the time just
      written, and every other kind reads back as before. */
  lemma SetThenGetLastFetch(s: Store, kind: string, t: int, other: string, fail: bool)
    requires SetLastFetch(s, kind, t, false).Ok()
    requires other != kind
    ensures GetLastFetch(SetLastFetch(s, kind, t, false).store, kind, false) == Ok(t)
    ensures GetLastFetch(SetLastFetch(s, kind, t, false).store, other, fail) == GetLastFetch(s, other, fail)
  {
  }

  /** `UPDATE fetch SET last_fetch = NULL WHERE fetch_type = kind`: nulls the
      kind's row if there is one and inserts nothing otherwise. */
  function NullLastFetch(s: Store, kind: string, fail: bool): (r: Written)
    ensures r.Ok() <==> !fail
    ensures !r.Ok() ==> r.store == s
    ensures r.Ok() ==> r.store == s.(ledger := r.store.ledger)
    ensures r.Ok() ==> r.store.ledger.Keys == s.ledger.Keys
    ensures r.Ok() && kind in s.ledger ==> r.store.ledger[kind] == None
    ensures forall k :: k in s.ledger && k != kind ==> r.store.ledger[k] == s.ledger[k]
    ensures Valid(s) ==> Valid(r.store)
  {
    if fail then Written(s, Some(Driver))
    else if kind in s.ledger then Written(s.(ledger := s.ledger[kind := None]), None)
    else Written(s, None)
  }

  // ---------------------------------------------------------------------
  // Whole-table deletes
  // ---------------------------------------------------------------------

  /** Whether some row of another table still refers, through an enforced
      foreign key, to a row of `table`. */
  predicate Referenced(s: Store, table: Table)
  {
    match table
    case Games =>
      (exists id | id in s.teams :: s.teams[id].gameId in s.games)
      || (exists id | id in s.participants :: s.participants[id].gameId in s.games)
    case Teams => exists i | 0 <= i < |s.bans| :: s.bans[i].teamId in s.teams
    case Participants =>
      (exists i | 0 <= i < |s.items| :: s.items[i].participantId in s.participants)
      || (exists i | 0 <= i < |s.spells| :: s.spells[i].participantId in s.participants)
    case Champions =>
      exists id | id in s.participants :: s.participants[id].championId in s.champions
    case _ => false
  }

  /** The store with every row of `table` removed; counters are kept. */
  function Emptied(s: Store, table: Table): Store
  {
    match table
    case Games => s.(games := map[])
    case Teams => s.(teams := map[])
    case Participants => s.(participants := map[])
    case ParticipantItems => s.(items := [])
    case ParticipantSpells => s.(spells := [])
    case TeamBannedChampions => s.(bans := [])
    case Champions => s.(champions := map[])
    case Fetch => s.(ledger := map[])
    case Unknown(_) => s
  }

  /** `b` holds exactly the rows `a` holds in `table`. */
  predicate SameRows(a: Store, b: Store, table: Table)
  {
    match table
    case Games => b.games == a.games
    case Teams => b.teams == a.teams
    case Participants => b.participants == a.participants
    case ParticipantItems => b.items == a.items
    case ParticipantSpells => b.spells == a.spells
    case TeamBannedChampions => b.bans == a.bans
    case Champions => b.champions == a.champions
    case Fetch => b.ledger == a.ledger
    case Unknown(_) => true
  }

  lemma SameRowsTransitive(a: Store, b: Store, c: Store)
    ensures forall t :: SameRows(a, b, t) && SameRows(b, c, t) ==> SameRows(a, c, t)
  {
  }

  /** `table` holds no rows. */
  predicate RowsEmpty(s: Store, table: Table)
  {
    match table
    case Games => s.games == map[]
    case Teams => s.teams == map[]
    case Participants => s.participants == map[]
    case ParticipantItems => s.items == []
    case ParticipantSpells => s.spells == []
    case TeamBannedChampions => s.bans == []
    case Champions => s.champions == map[]
    case Fetch => s.ledger == map[]
    case Unknown(_) => true
  }

  lemma SameRowsKeepsEmpty(a: Store, b: Store)
    ensures forall t :: SameRows(a, b, t) && RowsEmpty(a, t) ==> RowsEmpty(b, t)
  {
  }

  /** The enforced foreign keys of the schema: rows of `child` refer to rows
      of `parent`. */
  predicate RefersTo(child: Table, parent: Table)
  {
    match parent
    case Games => child == Teams || child == Participants
    case Teams => child == TeamBannedChampions
    case Participants => child == ParticipantItems || child == ParticipantSpells
    case Champions => child == Participants
    case _ => false
  }

  /** A table whose child tables are all empty is referenced by nothing. */
  lemma UnreferencedWhenChildrenEmpty(s: Store, table: Table)
    requires forall c :: RefersTo(c, table) ==> RowsEmpty(s, c)
    ensures !Referenced(s, table)
  {
    match table
    case Games =>
      assert RefersTo(Teams, Games) && RefersTo(Participants, Games);
    case Teams =>
      assert RefersTo(TeamBannedChampions, Teams);
    case Participants =>
      assert RefersTo(ParticipantItems, Participants) && RefersTo(ParticipantSpells, Participants);
    case Champions =>
      assert RefersTo(Participants, Champions);
    case _ =>
  }

  /** `DELETE FROM table`: fails when the table does not exist or when a
      remaining row elsewhere still refers to one of its rows (the statement
      then deletes nothing). */
  function DeleteFrom(s: Store, table: Table, fail: bool): (r: Written)
    ensures r.Ok() <==> !fail && table in s.tables && !Referenced(s, table)
    ensures !r.Ok() ==> r.store == s
    ensures r.Ok() ==> r.store == Emptied(s, table)
    ensures r.store.tables == s.tables
    ensures r.store.lastTeamId == s.lastTeamId && r.store.lastParticipantId == s.lastParticipantId
    ensures forall t :: t != table ==> SameRows(s, r.store, t)
    ensures r.Ok() ==> RowsEmpty(r.store, table)
    ensures Valid(s) ==> Valid(r.store)
  {
    if fail then Written(s, Some(Driver))
    else if table !in s.tables then Written(s, Some(NoSuchTable(TableName(table))))
    else if Referenced(s, table) then Written(s, Some(ForeignKeyViolation))
    else
      EmptiedKeepsValid(s, table);
      EmptiedKeepsOthers(s, table);
      Written(Emptied(s, table), None)
  }

  /** Emptying one table keeps the schema, the counters and every other
      table's rows. */
  lemma EmptiedKeepsOthers(s: Store, table: Table)
    ensures Emptied(s, table).tables == s.tables
    ensures Emptied(s, table).lastTeamId == s.lastTeamId
    ensures Emptied(s, table).lastParticipantId == s.lastParticipantId
    ensures forall t :: t != table ==> SameRows(s, Emptied(s, table), t)
  {
  }

  /** Emptying a table no remaining row refers to keeps every foreign key
      resolved. */
  lemma EmptiedKeepsValid(s: Store, table: Table)
    requires !Referenced(s, table)
    ensures Valid(s) ==> Valid(Emptied(s, table))
  {
  }
}

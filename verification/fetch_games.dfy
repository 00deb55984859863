/** FetchAndStoreGameData (internal/client/fetchGames.go): skip when the
    GAMES ledger is less than a day old, otherwise fetch the summoner's
    latest batch of games and store each game with its teams and
    participants, skipping whatever fails, then advance the ledger to now.
    A game without participants aborts the whole run. */
module FetchGames {
  import opened Wrappers
  import opened Models
  import opened Db
  import opened GameStore
  import opened Client

  // ---------------------------------------------------------------------
  // From a batch entry to a game
  // ---------------------------------------------------------------------

  /** The Game the loop builds from an entry and the three parsed
      timestamps: the length truncated to whole seconds, `is_recorded` true
      only when present and non-zero. */
  function ToGame(entry: GameEntry, createdAt: int, meta: GameMeta): (g: Game)
    ensures g.id == entry.id && g.createdAt == createdAt && g.meta == meta
    ensures g.isRecorded <==> entry.isRecorded.Some? && entry.isRecorded.value != 0.0
    ensures g.gameLengthSecond == Trunc(entry.gameLengthSecond)
  {
    Game(
      entry.id, createdAt, Trunc(entry.gameLengthSecond), entry.averageTierInfo,
      entry.isRemake, entry.metaVersion, entry.gameType, entry.isOpscoreActive,
      entry.isRecorded.Some? && entry.isRecorded.value != 0.0,
      entry.version, meta)
  }

  /** The game of batch entry `e`, or None when its created_at, or either
      of the batch's meta timestamps, does not parse as RFC 3339. `parse`
      stands for time.Parse with the RFC 3339 layout, in Unix seconds. The
      meta timestamps are parsed again for every entry. */
  function EntryGame(b: GameData, e: nat, parse: string -> Option<int>): (r: Option<Game>)
    requires e < |b.data|
    ensures r.None? <==>
      parse(b.data[e].createdAt).None? || parse(b.meta.firstGameCreatedAt).None?
      || parse(b.meta.lastGameCreatedAt).None?
    ensures r.Some? ==> r.value.id == b.data[e].id
    ensures r.Some? ==> r.value.meta == GameMeta(parse(b.meta.firstGameCreatedAt).value, parse(b.meta.lastGameCreatedAt).value)
  {
    var entry := b.data[e];
    match parse(entry.createdAt)
    case None => None
    case Some(createdAt) =>
      match parse(b.meta.firstGameCreatedAt)
      case None => None
      case Some(first) =>
        match parse(b.meta.lastGameCreatedAt)
        case None => None
        case Some(last) => Some(ToGame(entry, createdAt, GameMeta(first, last)))
  }

  // ---------------------------------------------------------------------
  // Teams and participants of one game
  // ---------------------------------------------------------------------

  /** Driver failures of entry `e`'s teams, and of the bans, items and
      spells of its `j`-th team or participant, by position. */
  function TeamFails(faults: Stmt -> bool, e: nat): nat -> bool
  {
    (j: nat) => faults(TeamAt(e, j))
  }

  function BanFails(faults: Stmt -> bool, e: nat, j: nat): nat -> bool
  {
    (k: nat) => faults(BanAt(e, j, k))
  }

  function ItemFails(faults: Stmt -> bool, e: nat, j: nat): nat -> bool
  {
    (k: nat) => faults(ItemAt(e, j, k))
  }

  function SpellFails(faults: Stmt -> bool, e: nat, j: nat): nat -> bool
  {
    (k: nat) => faults(SpellAt(e, j, k))
  }

  /** The team loop from position `j`: a failing team is logged and
      skipped. */
  function InsertTeams(s: Store, gameId: string, teams: seq<Team>, e: nat, j: nat, faults: Stmt -> bool): Store
    requires j <= |teams|
    decreases |teams| - j
  {
    if j == |teams| then s
    else
      var w := InsertTeam(s, gameId, teams[j], faults(TeamAt(e, j)), BanFails(faults, e, j));
      InsertTeams(w.store, gameId, teams, e, j + 1, faults)
  }

  /** The team loop writes teams, their bans and the team counter only,
      and nothing at all when the game is not stored. */
  lemma {:induction false} InsertTeamsFrame(s: Store, gameId: string, teams: seq<Team>, e: nat, j: nat, faults: Stmt -> bool)
    requires j <= |teams|
    ensures var r := InsertTeams(s, gameId, teams, e, j, faults);
      && r == s.(teams := r.teams, lastTeamId := r.lastTeamId, bans := r.bans)
      && (gameId !in s.games ==> r == s)
    decreases |teams| - j
  {
    if j < |teams| {
      var w := InsertTeam(s, gameId, teams[j], faults(TeamAt(e, j)), BanFails(faults, e, j));
      InsertTeamsFrame(w.store, gameId, teams, e, j + 1, faults);
    }
  }

  /** Each stored team takes the next surrogate id, so the counter advances
      by the number of teams whose insert goes through. */
  lemma {:induction false} InsertTeamsCount(s: Store, gameId: string, teams: seq<Team>, e: nat, j: nat, faults: Stmt -> bool)
    requires j <= |teams|
    requires gameId in s.games
    ensures InsertTeams(s, gameId, teams, e, j, faults).lastTeamId == s.lastTeamId + |KeptFrom(teams, j, TeamFails(faults, e))|
    decreases |teams| - j
  {
    if j < |teams| {
      var w := InsertTeam(s, gameId, teams[j], faults(TeamAt(e, j)), BanFails(faults, e, j));
      InsertTeamsCount(w.store, gameId, teams, e, j + 1, faults);
    }
  }

  /** Every team row after the loop is either one that was there before,
      unchanged, or one that belongs to the game. */
  lemma {:induction false} InsertTeamsOwned(s: Store, gameId: string, teams: seq<Team>, e: nat, j: nat, faults: Stmt -> bool)
    requires j <= |teams|
    ensures var r := InsertTeams(s, gameId, teams, e, j, faults);
      forall k :: k in r.teams ==> (k in s.teams && r.teams[k] == s.teams[k]) || r.teams[k].gameId == gameId
    decreases |teams| - j
  {
    if j < |teams| {
      var w := InsertTeam(s, gameId, teams[j], faults(TeamAt(e, j)), BanFails(faults, e, j));
      InsertTeamOwned(s, gameId, teams[j], faults(TeamAt(e, j)), BanFails(faults, e, j));
      InsertTeamsOwned(w.store, gameId, teams, e, j + 1, faults);
    }
  }

  /** One team insert adds only a row of the game and changes no other. */
  lemma InsertTeamOwned(s: Store, gameId: string, team: Team, fail: bool, banFails: nat -> bool)
    ensures var r := InsertTeam(s, gameId, team, fail, banFails).store;
      forall k :: k in r.teams ==> (k in s.teams && r.teams[k] == s.teams[k]) || r.teams[k].gameId == gameId
  {
  }

  /** On a valid store the loop keeps the store valid and touches no team
      already there. */
  lemma {:induction false} InsertTeamsKeepsValid(s: Store, gameId: string, teams: seq<Team>, e: nat, j: nat, faults: Stmt -> bool)
    requires j <= |teams|
    requires Valid(s)
    ensures var r := InsertTeams(s, gameId, teams, e, j, faults);
      && Valid(r)
      && forall k :: k in s.teams ==> k in r.teams && r.teams[k] == s.teams[k]
    decreases |teams| - j
  {
    if j < |teams| {
      var w := InsertTeam(s, gameId, teams[j], faults(TeamAt(e, j)), BanFails(faults, e, j));
      InsertTeamsKeepsValid(w.store, gameId, teams, e, j + 1, faults);
    }
  }

  /** Whether the `j`-th participant of entry `e` is skipped: the driver
      fails its insert, or its champion is not among `champions`. */
  function ParticipantFails(faults: Stmt -> bool, e: nat, ps: seq<Participant>, champions: set<string>): nat -> bool
  {
    (j: nat) => faults(ParticipantAt(e, j)) || j >= |ps| || ChampionRef(ps[j]) !in champions
  }

  /** The participant loop from position `j`: a failing participant (driver
      error, or a champion not in the store) is logged and skipped. */
  function InsertParticipants(s: Store, gameId: string, ps: seq<Participant>, e: nat, j: nat, faults: Stmt -> bool): Store
    requires j <= |ps|
    decreases |ps| - j
  {
    if j == |ps| then s
    else
      var w := InsertParticipant(s, gameId, ps[j], faults(ParticipantAt(e, j)),
                                 ItemFails(faults, e, j), SpellFails(faults, e, j));
      InsertParticipants(w.store, gameId, ps, e, j + 1, faults)
  }

  /** The participant loop writes participants, their items and spells and
      the participant counter only, and nothing when the game is not
      stored. */
  lemma {:induction false} InsertParticipantsFrame(s: Store, gameId: string, ps: seq<Participant>, e: nat, j: nat, faults: Stmt -> bool)
    requires j <= |ps|
    ensures var r := InsertParticipants(s, gameId, ps, e, j, faults);
      && r == s.(participants := r.participants, lastParticipantId := r.lastParticipantId,
                 items := r.items, spells := r.spells)
      && (gameId !in s.games ==> r == s)
    decreases |ps| - j
  {
    if j < |ps| {
      var w := InsertParticipant(s, gameId, ps[j], faults(ParticipantAt(e, j)),
                                 ItemFails(faults, e, j), SpellFails(faults, e, j));
      InsertParticipantsFrame(w.store, gameId, ps, e, j + 1, faults);
    }
  }

  /** The counter advances by at most one per participant. When the game
      is stored it advances by exactly the number of participants whose
      insert goes through, those whose champion is stored and whose
      statement does not fail: a skipped participant does not stop the
      ones after it. In particular it advances by one per participant when
      every champion is known and no insert fails. */
  lemma {:induction false} InsertParticipantsCount(s: Store, gameId: string, ps: seq<Participant>, e: nat, j: nat, faults: Stmt -> bool)
    requires j <= |ps|
    ensures var r := InsertParticipants(s, gameId, ps, e, j, faults);
      && s.lastParticipantId <= r.lastParticipantId <= s.lastParticipantId + (|ps| - j)
      && (gameId in s.games && (forall k :: j <= k < |ps| ==> !faults(ParticipantAt(e, k)) && ChampionRef(ps[k]) in s.champions)
          ==> r.lastParticipantId == s.lastParticipantId + (|ps| - j))
      && (gameId in s.games ==>
            r.lastParticipantId == s.lastParticipantId + |KeptFrom(ps, j, ParticipantFails(faults, e, ps, s.champions.Keys))|)
    decreases |ps| - j
  {
    if j < |ps| {
      var w := InsertParticipant(s, gameId, ps[j], faults(ParticipantAt(e, j)),
                                 ItemFails(faults, e, j), SpellFails(faults, e, j));
      InsertParticipantsCount(w.store, gameId, ps, e, j + 1, faults);
    }
  }

  /** Every participant row after the loop is either one that was there
      before, unchanged, or one that belongs to the game. */
  lemma {:induction false} InsertParticipantsOwned(s: Store, gameId: string, ps: seq<Participant>, e: nat, j: nat, faults: Stmt -> bool)
    requires j <= |ps|
    ensures var r := InsertParticipants(s, gameId, ps, e, j, faults);
      forall k :: k in r.participants ==>
        (k in s.participants && r.participants[k] == s.participants[k]) || r.participants[k].gameId == gameId
    decreases |ps| - j
  {
    if j < |ps| {
      var w := InsertParticipant(s, gameId, ps[j], faults(ParticipantAt(e, j)),
                                 ItemFails(faults, e, j), SpellFails(faults, e, j));
      InsertParticipantsOwned(w.store, gameId, ps, e, j + 1, faults);
    }
  }

  /** On a valid store the loop keeps the store valid and touches no
      participant already there. */
  lemma {:induction false} InsertParticipantsKeepsValid(s: Store, gameId: string, ps: seq<Participant>, e: nat, j: nat, faults: Stmt -> bool)
    requires j <= |ps|
    requires Valid(s)
    ensures var r := InsertParticipants(s, gameId, ps, e, j, faults);
      && Valid(r)
      && forall k :: k in s.participants ==> k in r.participants && r.participants[k] == s.participants[k]
    decreases |ps| - j
  {
    if j < |ps| {
      var w := InsertParticipant(s, gameId, ps[j], faults(ParticipantAt(e, j)),
                                 ItemFails(faults, e, j), SpellFails(faults, e, j));
      InsertParticipantsKeepsValid(w.store, gameId, ps, e, j + 1, faults);
    }
  }

  // ---------------------------------------------------------------------
  // One batch entry
  // ---------------------------------------------------------------------

  /** How the loop body leaves an entry: on to the next entry, or a panic
      (indexing the first participant of a game that has none) that ends
      the process with whatever was already written. */
  datatype EntryOutcome = Continue(store: Store) | Panic(store: Store)

  /** Whether the game of entry `e` gets stored: its timestamps parse, the
      driver does not fail the insert and the id is new. */
  predicate Inserted(s: Store, b: GameData, e: nat, parse: string -> Option<int>, faults: Stmt -> bool)
    requires e < |b.data|
  {
    EntryGame(b, e, parse).Some? && !faults(GameAt(e)) && b.data[e].id !in s.games
  }

  /** The body of the loop over the batch for entry `e`: build the game,
      insert it, then its teams, then (after indexing participant 0) its
      participants. A timestamp that does not parse, or a failing game
      insert, skips the entry. */
  function StoreEntry(s: Store, b: GameData, e: nat, parse: string -> Option<int>, faults: Stmt -> bool): EntryOutcome
    requires e < |b.data|
  {
    match EntryGame(b, e, parse)
    case None => Continue(s)
    case Some(g) =>
      var w := InsertGame(s, g, faults(GameAt(e)));
      if !w.Ok() then Continue(s)
      else
        var entry := b.data[e];
        var s1 := InsertTeams(w.store, g.id, entry.teams, e, 0, faults);
        if |entry.participants| == 0 then Panic(s1)
        else Continue(InsertParticipants(s1, g.id, entry.participants, e, 0, faults))
  }

  /** An entry whose game is not inserted leaves the store as it was: no
      team or participant is written without its game. */
  lemma SkippedEntryWritesNothing(s: Store, b: GameData, e: nat, parse: string -> Option<int>, faults: Stmt -> bool)
    requires e < |b.data|
    requires !Inserted(s, b, e, parse, faults)
    ensures StoreEntry(s, b, e, parse, faults) == Continue(s)
  {
  }

  /** An entry panics exactly when its game is inserted and it has no
      participants; by then the game and its teams are stored. */
  lemma StoreEntryPanics(s: Store, b: GameData, e: nat, parse: string -> Option<int>, faults: Stmt -> bool)
    requires e < |b.data|
    ensures var r := StoreEntry(s, b, e, parse, faults);
      && (r.Panic? <==> Inserted(s, b, e, parse, faults) && |b.data[e].participants| == 0)
      && (r.Panic? ==> b.data[e].id in r.store.games && r.store.participants == s.participants)
  {
    match EntryGame(b, e, parse)
    case None =>
    case Some(g) =>
      var w := InsertGame(s, g, faults(GameAt(e)));
      if w.Ok() {
        InsertTeamsFrame(w.store, g.id, b.data[e].teams, e, 0, faults);
      }
  }

  /** The entry writes game tables only: champions, the ledger and the set
      of tables stay as they were. */
  lemma StoreEntryFrame(s: Store, b: GameData, e: nat, parse: string -> Option<int>, faults: Stmt -> bool)
    requires e < |b.data|
    ensures var r := StoreEntry(s, b, e, parse, faults).store;
      r.champions == s.champions && r.ledger == s.ledger && r.tables == s.tables
  {
    match EntryGame(b, e, parse)
    case None =>
    case Some(g) =>
      var w := InsertGame(s, g, faults(GameAt(e)));
      if w.Ok() {
        var entry := b.data[e];
        InsertTeamsFrame(w.store, g.id, entry.teams, e, 0, faults);
        var s1 := InsertTeams(w.store, g.id, entry.teams, e, 0, faults);
        InsertParticipantsFrame(s1, g.id, entry.participants, e, 0, faults);
      }
  }

  /** The games table gains the entry's game when it is inserted and
      nothing otherwise; no stored game row is ever overwritten. */
  lemma StoreEntryGames(s: Store, b: GameData, e: nat, parse: string -> Option<int>, faults: Stmt -> bool)
    requires e < |b.data|
    ensures var r := StoreEntry(s, b, e, parse, faults).store;
      && r.games.Keys == s.games.Keys + (if Inserted(s, b, e, parse, faults) then {b.data[e].id} else {})
      && (forall id :: id in s.games ==> r.games[id] == s.games[id])
      && (Inserted(s, b, e, parse, faults) ==> r.games[b.data[e].id] == GameRowOf(EntryGame(b, e, parse).value))
  {
    match EntryGame(b, e, parse)
    case None =>
    case Some(g) =>
      var w := InsertGame(s, g, faults(GameAt(e)));
      if w.Ok() {
        var entry := b.data[e];
        InsertTeamsFrame(w.store, g.id, entry.teams, e, 0, faults);
        var s1 := InsertTeams(w.store, g.id, entry.teams, e, 0, faults);
        InsertParticipantsFrame(s1, g.id, entry.participants, e, 0, faults);
      }
  }

  /** No stored game row is overwritten, and the entry's game is stored
      afterwards whenever its timestamps parse and the driver does not fail
      the insert, whether it was new or already there. */
  lemma StoreEntryKeepsGames(s: Store, b: GameData, e: nat, parse: string -> Option<int>, faults: Stmt -> bool)
    requires e < |b.data|
    ensures var r := StoreEntry(s, b, e, parse, faults).store;
      && (forall id :: id in s.games ==> id in r.games && r.games[id] == s.games[id])
      && (EntryGame(b, e, parse).Some? && !faults(GameAt(e)) ==> b.data[e].id in r.games)
  {
    match EntryGame(b, e, parse)
    case None =>
    case Some(g) =>
      var w := InsertGame(s, g, faults(GameAt(e)));
      if w.Ok() {
        var entry := b.data[e];
        InsertTeamsFrame(w.store, g.id, entry.teams, e, 0, faults);
        var s1 := InsertTeams(w.store, g.id, entry.teams, e, 0, faults);
        InsertParticipantsFrame(s1, g.id, entry.participants, e, 0, faults);
      }
  }

  /** The entry keeps a valid store valid. */
  lemma StoreEntryKeepsValid(s: Store, b: GameData, e: nat, parse: string -> Option<int>, faults: Stmt -> bool)
    requires e < |b.data|
    requires Valid(s)
    ensures Valid(StoreEntry(s, b, e, parse, faults).store)
  {
    match EntryGame(b, e, parse)
    case None =>
    case Some(g) =>
      var w := InsertGame(s, g, faults(GameAt(e)));
      if w.Ok() {
        var entry := b.data[e];
        InsertTeamsKeepsValid(w.store, g.id, entry.teams, e, 0, faults);
        var s1 := InsertTeams(w.store, g.id, entry.teams, e, 0, faults);
        InsertParticipantsKeepsValid(s1, g.id, entry.participants, e, 0, faults);
      }
  }

  // ---------------------------------------------------------------------
  // The batch
  // ---------------------------------------------------------------------

  /** The loop over the batch from entry `i`, stopping at the first panic. */
  function StoreEntries(s: Store, b: GameData, i: nat, parse: string -> Option<int>, faults: Stmt -> bool): EntryOutcome
    requires i <= |b.data|
    decreases |b.data| - i
  {
    if i == |b.data| then Continue(s)
    else
      match StoreEntry(s, b, i, parse, faults)
      case Panic(s1) => Panic(s1)
      case Continue(s1) => StoreEntries(s1, b, i + 1, parse, faults)
  }

  /** The ids of the batch from entry `i` on. */
  function BatchIds(b: GameData, i: nat): (ids: set<string>)
    requires i <= |b.data|
    ensures forall e :: i <= e < |b.data| ==> b.data[e].id in ids
    decreases |b.data| - i
  {
    if i == |b.data| then {} else {b.data[i].id} + BatchIds(b, i + 1)
  }

  /** The loop never overwrites a stored game. */
  lemma {:induction false} StoreEntriesKeepsGames(s: Store, b: GameData, i: nat, parse: string -> Option<int>, faults: Stmt -> bool)
    requires i <= |b.data|
    ensures var r := StoreEntries(s, b, i, parse, faults).store;
      forall id :: id in s.games ==> id in r.games && r.games[id] == s.games[id]
    decreases |b.data| - i
  {
    if i < |b.data| {
      StoreEntryKeepsGames(s, b, i, parse, faults);
      var s1 := StoreEntry(s, b, i, parse, faults).store;
      StoreEntriesKeepsGames(s1, b, i + 1, parse, faults);
    }
  }

  /** The loop writes game tables only and adds games of the batch only. */
  lemma {:induction false} StoreEntriesGames(s: Store, b: GameData, i: nat, parse: string -> Option<int>, faults: Stmt -> bool)
    requires i <= |b.data|
    ensures var r := StoreEntries(s, b, i, parse, faults).store;
      && r.champions == s.champions && r.ledger == s.ledger && r.tables == s.tables
      && r.games.Keys <= s.games.Keys + BatchIds(b, i)
    decreases |b.data| - i
  {
    if i < |b.data| {
      StoreEntryFrame(s, b, i, parse, faults);
      StoreEntryGames(s, b, i, parse, faults);
      var s1 := StoreEntry(s, b, i, parse, faults).store;
      StoreEntriesGames(s1, b, i + 1, parse, faults);
    }
  }

  /** Every game the loop adds carries the batch's meta timestamps: all
      games of one batch share first_game_created_at and
      last_game_created_at. */
  lemma {:induction false} StoreEntriesShareMeta(s: Store, b: GameData, i: nat, parse: string -> Option<int>, faults: Stmt -> bool)
    requires i <= |b.data|
    ensures var r := StoreEntries(s, b, i, parse, faults).store;
      forall id :: id in r.games && id !in s.games ==>
        && parse(b.meta.firstGameCreatedAt).Some? && parse(b.meta.lastGameCreatedAt).Some?
        && r.games[id].firstGameCreatedAt == parse(b.meta.firstGameCreatedAt).value
        && r.games[id].lastGameCreatedAt == parse(b.meta.lastGameCreatedAt).value
    decreases |b.data| - i
  {
    if i < |b.data| {
      StoreEntryGames(s, b, i, parse, faults);
      var s1 := StoreEntry(s, b, i, parse, faults).store;
      StoreEntriesShareMeta(s1, b, i + 1, parse, faults);
      StoreEntriesKeepsGames(s1, b, i + 1, parse, faults);
    }
  }

  /** The loop keeps a valid store valid. */
  lemma {:induction false} StoreEntriesKeepsValid(s: Store, b: GameData, i: nat, parse: string -> Option<int>, faults: Stmt -> bool)
    requires i <= |b.data|
    ensures Valid(s) ==> Valid(StoreEntries(s, b, i, parse, faults).store)
    decreases |b.data| - i
  {
    if i < |b.data| && Valid(s) {
      StoreEntryKeepsValid(s, b, i, parse, faults);
      var s1 := StoreEntry(s, b, i, parse, faults).store;
      StoreEntriesKeepsValid(s1, b, i + 1, parse, faults);
    }
  }

  /** A failure in one entry does not hold back the others: when the loop
      runs to the end, every entry whose timestamps parse and whose game
      insert the driver does not fail has its game stored, whether it was
      new or already there. */
  lemma {:induction false} StoreEntriesStoresEach(s: Store, b: GameData, i: nat, parse: string -> Option<int>, faults: Stmt -> bool, e: nat)
    requires i <= e < |b.data|
    requires EntryGame(b, e, parse).Some? && !faults(GameAt(e))
    requires StoreEntries(s, b, i, parse, faults).Continue?
    ensures b.data[e].id in StoreEntries(s, b, i, parse, faults).store.games
    decreases |b.data| - i
  {
    StoreEntryKeepsGames(s, b, i, parse, faults);
    var s1 := StoreEntry(s, b, i, parse, faults).store;
    if i < e {
      StoreEntriesStoresEach(s1, b, i + 1, parse, faults, e);
    } else {
      StoreEntriesKeepsGames(s1, b, i + 1, parse, faults);
    }
  }

  /** A batch whose games are all stored already writes nothing: every
      game insert fails on its primary key and the entry is skipped. */
  lemma {:induction false} KnownBatchWritesNothing(s: Store, b: GameData, i: nat, parse: string -> Option<int>, faults: Stmt -> bool)
    requires i <= |b.data|
    requires forall e :: i <= e < |b.data| ==> b.data[e].id in s.games
    ensures StoreEntries(s, b, i, parse, faults) == Continue(s)
    decreases |b.data| - i
  {
    if i < |b.data| {
      assert StoreEntry(s, b, i, parse, faults) == Continue(s);
      KnownBatchWritesNothing(s, b, i + 1, parse, faults);
    }
  }

  /** An entry that is skipped is as if it were not in the batch: the loop
      goes on with the next entry from the same store. */
  lemma SkippedEntryIsTransparent(s: Store, b: GameData, i: nat, parse: string -> Option<int>, faults: Stmt -> bool)
    requires i < |b.data|
    requires !Inserted(s, b, i, parse, faults)
    ensures StoreEntries(s, b, i, parse, faults) == StoreEntries(s, b, i + 1, parse, faults)
  {
    SkippedEntryWritesNothing(s, b, i, parse, faults);
  }

  /** When no entry's timestamps parse (in particular when a meta
      timestamp does not), the loop writes nothing. */
  lemma {:induction false} UnparsableBatchWritesNothing(s: Store, b: GameData, i: nat, parse: string -> Option<int>, faults: Stmt -> bool)
    requires i <= |b.data|
    requires forall e :: i <= e < |b.data| ==> EntryGame(b, e, parse).None?
    ensures StoreEntries(s, b, i, parse, faults) == Continue(s)
    decreases |b.data| - i
  {
    if i < |b.data| {
      assert StoreEntry(s, b, i, parse, faults) == Continue(s);
      UnparsableBatchWritesNothing(s, b, i + 1, parse, faults);
    }
  }

  // ---------------------------------------------------------------------
  // The run
  // ---------------------------------------------------------------------

  /** The GAMES ledger value the gate reads. */
  function GamesLastUpdated(s: Store, faults: Stmt -> bool): int
  {
    LastUpdated(GetLastFetch(s, GamesKind, faults(ReadLedger)))
  }

  /** The part of the run after a batch is decoded: the loop, then the
      ledger write unless the loop panicked. */
  function StoreBatch(s: Store, now: int, url: string, b: GameData,
                      parse: string -> Option<int>, faults: Stmt -> bool): (r: Run)
    ensures r.requests == [url]
    ensures r.status.Stored? || r.status.Panicked? || r.status == Failed(LedgerWriteFailed(Driver))
    ensures r.status.Panicked? <==> StoreEntries(s, b, 0, parse, faults).Panic?
    ensures r.status.Stored? <==> StoreEntries(s, b, 0, parse, faults).Continue? && !faults(WriteLedger)
    ensures r.store.champions == s.champions && r.store.tables == s.tables
    ensures r.status.Stored? ==> GamesKind in r.store.ledger && r.store.ledger[GamesKind] == Some(now)
    ensures !r.status.Stored? ==> r.store.ledger == s.ledger
    ensures forall k :: k in s.ledger && k != GamesKind ==> k in r.store.ledger && r.store.ledger[k] == s.ledger[k]
    ensures forall id :: id in s.games ==> id in r.store.games && r.store.games[id] == s.games[id]
    ensures Valid(s) ==> Valid(r.store)
  {
    StoreEntriesGames(s, b, 0, parse, faults);
    StoreEntriesKeepsGames(s, b, 0, parse, faults);
    StoreEntriesKeepsValid(s, b, 0, parse, faults);
    match StoreEntries(s, b, 0, parse, faults)
    case Panic(s1) => Run(s1, Panicked, [url])
    case Continue(s1) =>
      var w := SetLastFetch(s1, GamesKind, now, faults(WriteLedger));
      if w.Ok() then Run(w.store, Stored, [url])
      else Run(s1, Failed(LedgerWriteFailed(w.err.value)), [url])
  }

  /** After a run that stored its batch, the store is what the loop left
      plus the ledger update. */
  lemma StoreBatchStored(s: Store, now: int, url: string, b: GameData,
                         parse: string -> Option<int>, faults: Stmt -> bool)
    requires StoreBatch(s, now, url, b, parse, faults).status.Stored?
    ensures StoreEntries(s, b, 0, parse, faults).Continue?
    ensures StoreBatch(s, now, url, b, parse, faults).store.games == StoreEntries(s, b, 0, parse, faults).store.games
  {
  }

  /** The run past the gate: one request for the summoner's batch. */
  function FetchBatch(s: Store, now: int, url: string, batch: Result<GameData, FetchError>,
                      parse: string -> Option<int>, faults: Stmt -> bool): (r: Run)
    ensures r.requests == [url] && !r.status.UpToDate?
    ensures r.store.champions == s.champions && r.store.tables == s.tables
    ensures r.status.Stored? ==> GamesKind in r.store.ledger && r.store.ledger[GamesKind] == Some(now)
    ensures !r.status.Stored? ==> r.store.ledger == s.ledger
    ensures r.status.Failed? && r.status.error.FetchFailed? ==> r.store == s
    ensures forall k :: k in s.ledger && k != GamesKind ==> k in r.store.ledger && r.store.ledger[k] == s.ledger[k]
    ensures forall id :: id in s.games ==> id in r.store.games && r.store.games[id] == s.games[id]
    ensures Valid(s) ==> Valid(r.store)
  {
    match batch
    case Err(e) => Run(s, Failed(FetchFailed(url, e)), [url])
    case Ok(b) => StoreBatch(s, now, url, b, parse, faults)
  }

  /** FetchAndStoreGameData at instant `now` for the configured summoner.
      `batch` is what the one request decoded to. A panic ends the run with
      the ledger untouched; otherwise the ledger is advanced even when
      every entry was skipped. As for the champion run, `now` is the single
      instant of the run, read by both the gate and the ledger stamp. */
  function FetchAndStoreGameData(
    s: Store, now: int, summonerId: string, batch: Result<GameData, FetchError>,
    parse: string -> Option<int>, faults: Stmt -> bool): (r: Run)
    ensures r.store.champions == s.champions && r.store.tables == s.tables
    ensures r.status.UpToDate? ==> r.store == s && r.requests == []
    ensures !r.status.UpToDate? ==> r.requests == [GameDataURL(summonerId)]
    ensures r.status.Stored? ==> GamesKind in r.store.ledger && r.store.ledger[GamesKind] == Some(now)
    ensures !r.status.Stored? ==> r.store.ledger == s.ledger
    ensures r.status.Failed? && r.status.error.FetchFailed? ==> r.store == s
    ensures forall k :: k in s.ledger && k != GamesKind ==> k in r.store.ledger && r.store.ledger[k] == s.ledger[k]
    ensures forall id :: id in s.games ==> id in r.store.games && r.store.games[id] == s.games[id]
    ensures Valid(s) ==> Valid(r.store)
  {
    if Fresh(now, GamesLastUpdated(s, faults)) then Run(s, UpToDate, [])
    else FetchBatch(s, now, GameDataURL(summonerId), batch, parse, faults)
  }

  /** Less than a day after the last recorded fetch the run returns nil at
      once: nothing requested, nothing written. */
  lemma FreshGamesRunIsNoOp(s: Store, now: int, summonerId: string, batch: Result<GameData, FetchError>,
                            parse: string -> Option<int>, faults: Stmt -> bool, last: int)
    requires !faults(ReadLedger)
    requires GamesKind in s.ledger && s.ledger[GamesKind] == Some(last)
    requires now - last < DayInSeconds
    ensures FetchAndStoreGameData(s, now, summonerId, batch, parse, faults) == Run(s, UpToDate, [])
  {
    FreshIffWithinADay(now, last);
  }

  /** When the GAMES ledger cannot be read the run goes ahead and requests
      the batch. */
  lemma UnreadableGamesLedgerFailsOpen(s: Store, now: int, summonerId: string, batch: Result<GameData, FetchError>,
                                       parse: string -> Option<int>, faults: Stmt -> bool)
    requires GetLastFetch(s, GamesKind, faults(ReadLedger)).Err?
    requires now >= ZeroTime + DayInSeconds
    ensures FetchAndStoreGameData(s, now, summonerId, batch, parse, faults).requests == [GameDataURL(summonerId)]
  {
    FailedReadIsStale(now, GetLastFetch(s, GamesKind, faults(ReadLedger)).error);
  }

  /** A failed request or an undecodable batch returns an error before
      anything is written. */
  lemma GamesFetchFailureNoWrites(s: Store, now: int, summonerId: string, e: FetchError,
                                  parse: string -> Option<int>, faults: Stmt -> bool)
    requires !Fresh(now, GamesLastUpdated(s, faults))
    ensures FetchAndStoreGameData(s, now, summonerId, Err(e), parse, faults)
         == Run(s, Failed(FetchFailed(GameDataURL(summonerId), e)), [GameDataURL(summonerId)])
  {
  }

  /** A batch whose meta timestamps do not parse stores no game at all, yet
      the ledger still advances: the next run is a day away. */
  lemma BadMetaOnlyAdvancesLedger(s: Store, now: int, summonerId: string, b: GameData,
                                  parse: string -> Option<int>, faults: Stmt -> bool)
    requires !Fresh(now, GamesLastUpdated(s, faults))
    requires parse(b.meta.firstGameCreatedAt).None? || parse(b.meta.lastGameCreatedAt).None?
    ensures var r := FetchAndStoreGameData(s, now, summonerId, Ok(b), parse, faults);
      && r.store == SetLastFetch(s, GamesKind, now, faults(WriteLedger)).store
      && (r.status.Stored? <==> !faults(WriteLedger))
  {
    UnparsableBatchWritesNothing(s, b, 0, parse, faults);
  }

  /** If the first entry's game is inserted and it has no participants, the
      run panics right after storing that game and its teams: no later
      entry is stored and the ledger is not advanced, so the next run
      fetches again. */
  lemma EmptyParticipantsPanics(s: Store, now: int, summonerId: string, b: GameData,
                                parse: string -> Option<int>, faults: Stmt -> bool)
    requires !Fresh(now, GamesLastUpdated(s, faults))
    requires |b.data| > 0 && Inserted(s, b, 0, parse, faults) && |b.data[0].participants| == 0
    ensures var r := FetchAndStoreGameData(s, now, summonerId, Ok(b), parse, faults);
      && r.status == Panicked
      && r.store.games.Keys == s.games.Keys + {b.data[0].id}
      && r.store.participants == s.participants
      && r.store.ledger == s.ledger
  {
    StoreEntryPanics(s, b, 0, parse, faults);
    StoreEntryGames(s, b, 0, parse, faults);
  }

  /** A run that stores its batch, with every entry's timestamps parsing
      and no game insert failing, leaves every game of the batch stored. */
  lemma StoredRunHoldsBatch(s: Store, now: int, summonerId: string, b: GameData,
                            parse: string -> Option<int>, faults: Stmt -> bool)
    requires FetchAndStoreGameData(s, now, summonerId, Ok(b), parse, faults).status.Stored?
    requires forall e :: 0 <= e < |b.data| ==> EntryGame(b, e, parse).Some? && !faults(GameAt(e))
    ensures var s1 := FetchAndStoreGameData(s, now, summonerId, Ok(b), parse, faults).store;
      forall e :: 0 <= e < |b.data| ==> b.data[e].id in s1.games
  {
    var url := GameDataURL(summonerId);
    assert FetchAndStoreGameData(s, now, summonerId, Ok(b), parse, faults) == FetchBatch(s, now, url, Ok(b), parse, faults);
    StoreBatchStored(s, now, url, b, parse, faults);
    forall e | 0 <= e < |b.data|
      ensures b.data[e].id in StoreEntries(s, b, 0, parse, faults).store.games
    {
      StoreEntriesStoresEach(s, b, 0, parse, faults, e);
    }
  }

  /** Fetching the same batch again once the gate reopens adds no game row:
      after a run that stored every entry, every game insert of the second
      run fails on its key, and only the ledger moves. */
  lemma RefetchAddsNoGames(s: Store, now: int, later: int, summonerId: string, b: GameData,
                           parse: string -> Option<int>, faults: Stmt -> bool, faults2: Stmt -> bool)
    requires FetchAndStoreGameData(s, now, summonerId, Ok(b), parse, faults).status.Stored?
    requires forall e :: 0 <= e < |b.data| ==> EntryGame(b, e, parse).Some? && !faults(GameAt(e))
    requires !Fresh(later, GamesLastUpdated(FetchAndStoreGameData(s, now, summonerId, Ok(b), parse, faults).store, faults2))
    ensures var s1 := FetchAndStoreGameData(s, now, summonerId, Ok(b), parse, faults).store;
      FetchAndStoreGameData(s1, later, summonerId, Ok(b), parse, faults2).store
        == SetLastFetch(s1, GamesKind, later, faults2(WriteLedger)).store
  {
    var s1 := FetchAndStoreGameData(s, now, summonerId, Ok(b), parse, faults).store;
    StoredRunHoldsBatch(s, now, summonerId, b, parse, faults);
    KnownBatchWritesNothing(s1, b, 0, parse, faults2);
  }

  /** The wipe as written never nulls the GAMES ledger row, so a fetch
      within a day of the last one is still held back after it. */
  lemma AsWrittenWipeKeepsGateClosed(s: Store, fails: Table -> bool, ledgerFails: bool,
                                     now: int, summonerId: string, batch: Result<GameData, FetchError>,
                                     parse: string -> Option<int>, faults: Stmt -> bool, last: int)
    requires Valid(s)
    requires !faults(ReadLedger)
    requires GamesKind in s.ledger && s.ledger[GamesKind] == Some(last)
    requires now - last < DayInSeconds
    ensures var s1 := ClearGameDataAsWritten(s, fails, ledgerFails).store;
      FetchAndStoreGameData(s1, now, summonerId, batch, parse, faults) == Run(s1, UpToDate, [])
  {
    ClearGameDataAsWrittenNeverNullsLedger(s, fails, ledgerFails);
    var s1 := ClearGameDataAsWritten(s, fails, ledgerFails).store;
    FreshGamesRunIsNoOp(s1, now, summonerId, batch, parse, faults, last);
  }

  /** After a successful intended wipe the GAMES ledger row is NULL or
      absent, its read fails, and the next run fetches again. */
  lemma WipeThenGamesFetchRuns(s: Store, fails: Table -> bool, ledgerFails: bool,
                               now: int, summonerId: string, batch: Result<GameData, FetchError>,
                               parse: string -> Option<int>, faults: Stmt -> bool)
    requires ClearGameData(s, fails, ledgerFails).Ok()
    requires now >= ZeroTime + DayInSeconds
    ensures var s1 := ClearGameData(s, fails, ledgerFails).store;
      !FetchAndStoreGameData(s1, now, summonerId, batch, parse, faults).status.UpToDate?
  {
    var s1 := ClearGameData(s, fails, ledgerFails).store;
    FailedReadIsStale(now, GetLastFetch(s1, GamesKind, faults(ReadLedger)).error);
  }
}

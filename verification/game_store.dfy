/** The game half of the store (internal/db/games.go): insert-only games,
    teams with their bans, participants with their items and spells, and the
    wipe of game data. Child rows are best effort: a failing ban, item or
    spell is skipped and the parent insert still succeeds. */
module GameStore {
  import opened Wrappers
  import opened Models
  import opened Db
  import Decimal

  // ---------------------------------------------------------------------
  // Best-effort loops
  // ---------------------------------------------------------------------

  /** The elements of `xs` from position `i` on whose position the driver
      does not fail, in their original order. */
  function KeptFrom<T>(xs: seq<T>, i: nat, fails: nat -> bool): (r: seq<T>)
    requires i <= |xs|
    ensures |r| <= |xs| - i
    decreases |xs| - i
  {
    if i == |xs| then []
    else (if fails(i) then [] else [xs[i]]) + KeptFrom(xs, i + 1, fails)
  }

  function Kept<T>(xs: seq<T>, fails: nat -> bool): seq<T>
  {
    KeptFrom(xs, 0, fails)
  }

  /** Without driver failures every element is kept, in order. */
  lemma {:induction false} KeptFromAll<T>(xs: seq<T>, i: nat, fails: nat -> bool)
    requires i <= |xs|
    requires forall j :: !fails(j)
    ensures KeptFrom(xs, i, fails) == xs[i..]
    decreases |xs| - i
  {
    if i < |xs| {
      KeptFromAll(xs, i + 1, fails);
      assert xs[i..] == [xs[i]] + xs[i + 1..];
    }
  }

  lemma KeptAll<T>(xs: seq<T>, fails: nat -> bool)
    requires forall j :: !fails(j)
    ensures Kept(xs, fails) == xs
  {
    KeptFromAll(xs, 0, fails);
  }

  /** A failing position loses exactly its own element: the elements kept
      are those of all positions except the failing ones. */
  lemma {:induction false} KeptFromMembers<T>(xs: seq<T>, i: nat, fails: nat -> bool, j: nat)
    requires i <= j < |xs|
    requires !fails(j)
    ensures xs[j] in KeptFrom(xs, i, fails)
    decreases j - i
  {
    if i < j {
      KeptFromMembers(xs, i + 1, fails, j);
    }
  }

  function BanRows(teamId: nat, xs: seq<real>): (r: seq<BanRow>)
    ensures |r| == |xs|
    ensures forall k :: 0 <= k < |xs| ==> r[k] == BanRow(teamId, xs[k])
  {
    if |xs| == 0 then [] else [BanRow(teamId, xs[0])] + BanRows(teamId, xs[1..])
  }

  /** `int(x)` of each float, in order. */
  function Truncated(xs: seq<real>): (r: seq<int>)
    ensures |r| == |xs|
    ensures forall k :: 0 <= k < |xs| ==> r[k] == Trunc(xs[k])
  {
    if |xs| == 0 then [] else [Trunc(xs[0])] + Truncated(xs[1..])
  }

  /** Item and spell rows of one participant. */
  function ChildRows(participantId: nat, xs: seq<int>): (r: seq<ChildRow>)
    ensures |r| == |xs|
    ensures forall k :: 0 <= k < |xs| ==> r[k] == ChildRow(participantId, xs[k])
  {
    if |xs| == 0 then [] else [ChildRow(participantId, xs[0])] + ChildRows(participantId, xs[1..])
  }

  lemma BanRowsAppend(teamId: nat, xs: seq<real>, ys: seq<real>)
    ensures BanRows(teamId, xs + ys) == BanRows(teamId, xs) + BanRows(teamId, ys)
  {
  }

  lemma ChildRowsAppend(participantId: nat, xs: seq<int>, ys: seq<int>)
    ensures ChildRows(participantId, xs + ys) == ChildRows(participantId, xs) + ChildRows(participantId, ys)
  {
  }

  // ---------------------------------------------------------------------
  // Games
  // ---------------------------------------------------------------------

  /** The `games` row: division truncated to an integer, timestamps kept as
      the instants their RFC 3339 text denotes. */
  function GameRowOf(g: Game): GameRow
  {
    GameRow(
      g.createdAt, g.gameLengthSecond, g.averageTierInfo.tier,
      Trunc(g.averageTierInfo.division), g.averageTierInfo.tierImageUrl,
      g.averageTierInfo.borderImageUrl, g.isRemake, g.metaVersion, g.gameType,
      g.isOpscoreActive, g.isRecorded, g.version, g.meta.firstGameCreatedAt,
      g.meta.lastGameCreatedAt)
  }

  /** InsertGame: a plain INSERT. It succeeds exactly when the driver does
      not fail and no row has the game's id yet. */
  function InsertGame(s: Store, g: Game, fail: bool): (r: Written)
    ensures r.Ok() <==> !fail && g.id !in s.games
    ensures !r.Ok() ==> r.store == s
    ensures r.Ok() ==> r.store == s.(games := r.store.games)
    ensures r.Ok() ==> r.store.games.Keys == s.games.Keys + {g.id}
    ensures r.Ok() ==> r.store.games[g.id] == GameRowOf(g)
    ensures forall id :: id in s.games ==> id in r.store.games && r.store.games[id] == s.games[id]
    ensures Valid(s) ==> Valid(r.store)
  {
    if fail then Written(s, Some(Driver))
    else if g.id in s.games then Written(s, Some(UniqueViolation))
    else Written(s.(games := s.games[g.id := GameRowOf(g)]), None)
  }

  /** Inserting a game whose id is already stored fails, whatever the
      driver does, and the stored row stays as the first insert wrote it. */
  lemma InsertGameTwice(s: Store, g: Game, again: Game, fail: bool)
    requires InsertGame(s, g, false).Ok()
    requires again.id == g.id
    ensures var s1 := InsertGame(s, g, false).store;
      && !InsertGame(s1, again, fail).Ok()
      && InsertGame(s1, again, fail).store.games[g.id] == GameRowOf(g)
  {
  }

  /** The division column holds the integer part of the tier division,
      truncated toward zero. */
  lemma GameRowDivisionTruncates(g: Game)
    ensures var d := GameRowOf(g).division; var x := g.averageTierInfo.division;
      && (0.0 <= x ==> d as real <= x < d as real + 1.0)
      && (x < 0.0 ==> d as real - 1.0 < x <= d as real)
  {
  }

  // ---------------------------------------------------------------------
  // Teams and bans
  // ---------------------------------------------------------------------

  function TeamRowOf(gameId: string, team: Team): TeamRow
  {
    TeamRow(gameId, team.key, team.gameStat)
  }

  /** InsertTeamBannedChampion: the ban must name an existing team; the
      banned number itself refers to nothing. */
  function InsertTeamBannedChampion(s: Store, teamId: nat, banned: real, fail: bool): (r: Written)
    ensures r.Ok() <==> !fail && teamId in s.teams
    ensures !r.Ok() ==> r.store == s
    ensures r.Ok() ==> r.store == s.(bans := s.bans + [BanRow(teamId, banned)])
    ensures Valid(s) ==> Valid(r.store)
  {
    if fail then Written(s, Some(Driver))
    else if teamId !in s.teams then Written(s, Some(ForeignKeyViolation))
    else Written(s.(bans := s.bans + [BanRow(teamId, banned)]), None)
  }

  /** The ban loop of InsertTeam from position `i`: each failure is logged
      and skipped. */
  function InsertBans(s: Store, teamId: nat, bans: seq<real>, i: nat, fails: nat -> bool): Store
    requires i <= |bans|
    decreases |bans| - i
  {
    if i == |bans| then s
    else InsertBans(InsertTeamBannedChampion(s, teamId, bans[i], fails(i)).store, teamId, bans, i + 1, fails)
  }

  /** The ban loop changes nothing but the bans. */
  lemma {:induction false} InsertBansFrame(s: Store, teamId: nat, bans: seq<real>, i: nat, fails: nat -> bool)
    requires i <= |bans|
    ensures var r := InsertBans(s, teamId, bans, i, fails); r == s.(bans := r.bans)
    decreases |bans| - i
  {
    if i < |bans| {
      var w := InsertTeamBannedChampion(s, teamId, bans[i], fails(i)).store;
      InsertBansFrame(w, teamId, bans, i + 1, fails);
    }
  }

  /** One step of the ban loop: the row it may append and the rows the
      rest of the loop appends add up to the rows of the whole. */
  lemma BanStep(s: Store, teamId: nat, x: real, fail: bool, rest: seq<real>)
    ensures var w := InsertTeamBannedChampion(s, teamId, x, fail).store;
      && w.teams == s.teams
      && w.bans + (if teamId in w.teams then BanRows(teamId, rest) else [])
         == s.bans + (if teamId in s.teams then BanRows(teamId, (if fail then [] else [x]) + rest) else [])
  {
    if !fail && teamId in s.teams {
      BanRowsCons(s.bans, teamId, x, rest);
    } else if fail {
      assert [] + rest == rest;
    }
  }

  lemma BanRowsCons(before: seq<BanRow>, teamId: nat, x: real, rest: seq<real>)
    ensures (before + [BanRow(teamId, x)]) + BanRows(teamId, rest) == before + BanRows(teamId, [x] + rest)
  {
    assert ([x] + rest)[1..] == rest;
  }

  /** The ban loop appends one row per banned champion whose insert goes
      through, in order; with an unknown team every insert fails. */
  lemma {:induction false} InsertBansAppends(s: Store, teamId: nat, bans: seq<real>, i: nat, fails: nat -> bool)
    requires i <= |bans|
    ensures InsertBans(s, teamId, bans, i, fails).bans
      == s.bans + (if teamId in s.teams then BanRows(teamId, KeptFrom(bans, i, fails)) else [])
    decreases |bans| - i
  {
    if i < |bans| {
      var w := InsertTeamBannedChampion(s, teamId, bans[i], fails(i)).store;
      InsertBansAppends(w, teamId, bans, i + 1, fails);
      BanStep(s, teamId, bans[i], fails(i), KeptFrom(bans, i + 1, fails));
    }
  }

  /** The ban loop keeps every foreign key resolved. */
  lemma {:induction false} InsertBansKeepsValid(s: Store, teamId: nat, bans: seq<real>, i: nat, fails: nat -> bool)
    requires i <= |bans|
    ensures Valid(s) ==> Valid(InsertBans(s, teamId, bans, i, fails))
    decreases |bans| - i
  {
    if i < |bans| {
      var w := InsertTeamBannedChampion(s, teamId, bans[i], fails(i));
      InsertBansKeepsValid(w.store, teamId, bans, i + 1, fails);
    }
  }

  /** The team row itself under the next surrogate id. */
  function AddTeamRow(s: Store, gameId: string, team: Team): (r: Store)
    requires gameId in s.games
    ensures var id := s.lastTeamId + 1;
      && r == s.(teams := r.teams, lastTeamId := id)
      && r.teams.Keys == s.teams.Keys + {id}
      && r.teams[id] == TeamRowOf(gameId, team)
      && (forall k :: k in s.teams && k != id ==> r.teams[k] == s.teams[k])
    ensures Valid(s) ==> Valid(r) && s.lastTeamId + 1 !in s.teams
  {
    var id := s.lastTeamId + 1;
    s.(teams := s.teams[id := TeamRowOf(gameId, team)], lastTeamId := id)
  }

  /** InsertTeam: the team row needs its game; on success it gets the next
      surrogate id and one ban row per banned champion follows, in order,
      except those whose insert fails. Ban failures never fail the team. */
  function InsertTeam(s: Store, gameId: string, team: Team, fail: bool, banFails: nat -> bool): (r: Written)
    ensures r.Ok() <==> !fail && gameId in s.games
    ensures !r.Ok() ==> r.store == s
    ensures r.Ok() ==> var id := s.lastTeamId + 1;
      && r.store == s.(teams := r.store.teams, lastTeamId := id, bans := r.store.bans)
      && r.store.teams.Keys == s.teams.Keys + {id}
      && r.store.teams[id] == TeamRowOf(gameId, team)
      && (forall k :: k in s.teams && k != id ==> r.store.teams[k] == s.teams[k])
      && r.store.bans == s.bans + BanRows(id, Kept(team.bannedChampions, banFails))
    ensures Valid(s) ==> Valid(r.store)
  {
    if fail then Written(s, Some(Driver))
    else if gameId !in s.games then Written(s, Some(ForeignKeyViolation))
    else
      var id := s.lastTeamId + 1;
      var withTeam := AddTeamRow(s, gameId, team);
      InsertBansFrame(withTeam, id, team.bannedChampions, 0, banFails);
      InsertBansAppends(withTeam, id, team.bannedChampions, 0, banFails);
      InsertBansKeepsValid(withTeam, id, team.bannedChampions, 0, banFails);
      Written(InsertBans(withTeam, id, team.bannedChampions, 0, banFails), None)
  }

  /** Without driver failures a team gets exactly one ban row per banned
      champion, in order, whether or not that champion is stored. */
  lemma InsertTeamAllBans(s: Store, gameId: string, team: Team, banFails: nat -> bool)
    requires gameId in s.games
    requires forall j :: !banFails(j)
    ensures var r := InsertTeam(s, gameId, team, false, banFails);
      && r.Ok()
      && |r.store.bans| == |s.bans| + |team.bannedChampions|
      && forall k :: 0 <= k < |team.bannedChampions| ==>
           r.store.bans[|s.bans| + k] == BanRow(s.lastTeamId + 1, team.bannedChampions[k])
  {
    KeptAll(team.bannedChampions, banFails);
  }

  // ---------------------------------------------------------------------
  // Participants, items and spells
  // ---------------------------------------------------------------------

  /** The champion a participant refers to: the decimal text of its id. */
  function ChampionRef(p: Participant): string
  {
    Decimal.Itoa(p.championId)
  }

  /** The `participants` row: the summoner name comes from the nested
      summoner record, every numeric statistic is truncated to an integer. */
  function ParticipantRowOf(gameId: string, p: Participant): ParticipantRow
  {
    ParticipantRow(
      gameId, p.participantId, p.summoner.name, ChampionRef(p), p.position, p.role,
      Trunc(p.stats.kill), Trunc(p.stats.death), Trunc(p.stats.assist),
      Trunc(p.stats.goldEarned), Trunc(p.stats.totalDamageDealtToChampions),
      Trunc(p.stats.totalDamageTaken), Trunc(p.stats.visionScore),
      Trunc(p.rune.primaryRuneId), Trunc(p.rune.secondaryPageId),
      Trunc(p.stats.laneScore), p.teamKey, p.stats.result,
      Trunc(p.stats.wardPlace), Trunc(p.stats.opScoreRank),
      Trunc(p.stats.barrackKill), Trunc(p.stats.totalHeal), p.gameType, p.isRemake)
  }

  /** The stored champion_id names the participant's champion: it parses
      back to the integer id, and only a canonical key can equal it. */
  lemma ParticipantChampionJoin(gameId: string, p: Participant, key: string)
    ensures Decimal.ParseInt(ParticipantRowOf(gameId, p).championId) == Some(p.championId)
    ensures ParticipantRowOf(gameId, p).championId == key
            <==> Decimal.Canonical(key) && Decimal.ParseInt(key) == Some(p.championId)
  {
    Decimal.ItoaRoundTrip(p.championId);
    Decimal.ItoaMatches(p.championId, key);
  }

  datatype ChildTable = Items | Spells

  function Children(s: Store, t: ChildTable): seq<ChildRow>
  {
    match t
    case Items => s.items
    case Spells => s.spells
  }

  function WithChildren(s: Store, t: ChildTable, rows: seq<ChildRow>): Store
  {
    match t
    case Items => s.(items := rows)
    case Spells => s.(spells := rows)
  }

  /** InsertParticipantItem / InsertParticipantSpell: the row must name an
      existing participant. */
  function InsertChild(s: Store, t: ChildTable, participantId: nat, value: int, fail: bool): (r: Written)
    ensures r.Ok() <==> !fail && participantId in s.participants
    ensures !r.Ok() ==> r.store == s
    ensures r.Ok() ==> r.store == WithChildren(s, t, Children(s, t) + [ChildRow(participantId, value)])
    ensures Valid(s) ==> Valid(r.store)
  {
    if fail then Written(s, Some(Driver))
    else if participantId !in s.participants then Written(s, Some(ForeignKeyViolation))
    else Written(WithChildren(s, t, Children(s, t) + [ChildRow(participantId, value)]), None)
  }

  function InsertParticipantItem(s: Store, participantId: nat, itemId: int, fail: bool): Written
  {
    InsertChild(s, Items, participantId, itemId, fail)
  }

  function InsertParticipantSpell(s: Store, participantId: nat, spellId: int, fail: bool): Written
  {
    InsertChild(s, Spells, participantId, spellId, fail)
  }

  /** The item or spell loop of InsertParticipant from position `i`. */
  function InsertChildren(s: Store, t: ChildTable, participantId: nat, xs: seq<int>, i: nat, fails: nat -> bool): Store
    requires i <= |xs|
    decreases |xs| - i
  {
    if i == |xs| then s
    else InsertChildren(InsertChild(s, t, participantId, xs[i], fails(i)).store, t, participantId, xs, i + 1, fails)
  }

  /** The loop changes nothing but the child table it fills. */
  lemma {:induction false} InsertChildrenFrame(s: Store, t: ChildTable, participantId: nat, xs: seq<int>, i: nat, fails: nat -> bool)
    requires i <= |xs|
    ensures var r := InsertChildren(s, t, participantId, xs, i, fails);
      r == WithChildren(s, t, Children(r, t))
    decreases |xs| - i
  {
    if i < |xs| {
      var w := InsertChild(s, t, participantId, xs[i], fails(i)).store;
      InsertChildrenFrame(w, t, participantId, xs, i + 1, fails);
    }
  }

  /** The loop appends one row per element whose insert goes through, in
      order; with an unknown participant every insert fails. */
  lemma {:induction false} InsertChildrenAppends(s: Store, t: ChildTable, participantId: nat, xs: seq<int>, i: nat, fails: nat -> bool)
    requires i <= |xs|
    ensures Children(InsertChildren(s, t, participantId, xs, i, fails), t) == Children(s, t)
      + (if participantId in s.participants then ChildRows(participantId, KeptFrom(xs, i, fails)) else [])
    decreases |xs| - i
  {
    if i < |xs| {
      var w := InsertChild(s, t, participantId, xs[i], fails(i)).store;
      InsertChildrenAppends(w, t, participantId, xs, i + 1, fails);
      ChildRowsAppend(participantId, if fails(i) then [] else [xs[i]], KeptFrom(xs, i + 1, fails));
    }
  }

  /** Every row the loop adds names an existing participant. */
  lemma {:induction false} InsertChildrenKeepsValid(s: Store, t: ChildTable, participantId: nat, xs: seq<int>, i: nat, fails: nat -> bool)
    requires i <= |xs|
    ensures Valid(s) ==> Valid(InsertChildren(s, t, participantId, xs, i, fails))
    decreases |xs| - i
  {
    if i < |xs| {
      var w := InsertChild(s, t, participantId, xs[i], fails(i)).store;
      InsertChildrenKeepsValid(w, t, participantId, xs, i + 1, fails);
    }
  }

  /** The participant row itself under the next surrogate id. */
  function AddParticipantRow(s: Store, gameId: string, p: Participant): (r: Store)
    requires gameId in s.games && ChampionRef(p) in s.champions
    ensures var id := s.lastParticipantId + 1;
      && r == s.(participants := r.participants, lastParticipantId := id)
      && r.participants.Keys == s.participants.Keys + {id}
      && r.participants[id] == ParticipantRowOf(gameId, p)
      && (forall k :: k in s.participants && k != id ==> r.participants[k] == s.participants[k])
    ensures Valid(s) ==> Valid(r) && s.lastParticipantId + 1 !in s.participants
  {
    var id := s.lastParticipantId + 1;
    s.(participants := s.participants[id := ParticipantRowOf(gameId, p)], lastParticipantId := id)
  }

  /** InsertParticipant: the row needs its game and its champion (both
      foreign keys). On success it gets the next surrogate id, then its items
      and then its spells follow, each failure skipped. */
  function InsertParticipant(s: Store, gameId: string, p: Participant, fail: bool,
                             itemFails: nat -> bool, spellFails: nat -> bool): (r: Written)
    ensures r.Ok() <==> !fail && gameId in s.games && ChampionRef(p) in s.champions
    ensures !r.Ok() ==> r.store == s
    ensures r.Ok() ==> var id := s.lastParticipantId + 1;
      && r.store == s.(participants := r.store.participants, lastParticipantId := id,
                       items := r.store.items, spells := r.store.spells)
      && r.store.participants.Keys == s.participants.Keys + {id}
      && r.store.participants[id] == ParticipantRowOf(gameId, p)
      && (forall k :: k in s.participants && k != id ==> r.store.participants[k] == s.participants[k])
      && r.store.items == s.items + ChildRows(id, Kept(Truncated(p.items), itemFails))
      && r.store.spells == s.spells + ChildRows(id, Kept(Truncated(p.spells), spellFails))
    ensures Valid(s) ==> Valid(r.store)
  {
    if fail then Written(s, Some(Driver))
    else if gameId !in s.games || ChampionRef(p) !in s.champions then Written(s, Some(ForeignKeyViolation))
    else
      var id := s.lastParticipantId + 1;
      var s1 := AddParticipantRow(s, gameId, p);
      var s2 := InsertChildren(s1, Items, id, Truncated(p.items), 0, itemFails);
      InsertChildrenFrame(s1, Items, id, Truncated(p.items), 0, itemFails);
      InsertChildrenAppends(s1, Items, id, Truncated(p.items), 0, itemFails);
      var s3 := InsertChildren(s2, Spells, id, Truncated(p.spells), 0, spellFails);
      InsertChildrenFrame(s2, Spells, id, Truncated(p.spells), 0, spellFails);
      InsertChildrenAppends(s2, Spells, id, Truncated(p.spells), 0, spellFails);
      InsertChildrenKeepsValid(s1, Items, id, Truncated(p.items), 0, itemFails);
      InsertChildrenKeepsValid(s2, Spells, id, Truncated(p.spells), 0, spellFails);
      Written(s3, None)
  }

  // ---------------------------------------------------------------------
  // Wiping game data
  // ---------------------------------------------------------------------

  /** Runs `DELETE FROM t` for each table in order, stopping at the first
      failure; earlier deletes stay done. */
  function DeleteTables(s: Store, tables: seq<Table>, fails: Table -> bool): (r: Written)
    ensures r.store.tables == s.tables
    ensures r.store.lastTeamId == s.lastTeamId && r.store.lastParticipantId == s.lastParticipantId
    ensures forall t :: t !in tables ==> SameRows(s, r.store, t)
    ensures r.Ok() ==> forall t :: t in tables ==> RowsEmpty(r.store, t)
    ensures (exists t :: t in tables && t !in s.tables) ==> !r.Ok()
    ensures Valid(s) ==> Valid(r.store)
    decreases |tables|
  {
    if |tables| == 0 then Written(s, None)
    else
      var d := DeleteFrom(s, tables[0], fails(tables[0]));
      if !d.Ok() then d
      else
        var r := DeleteTables(d.store, tables[1..], fails);
        assert forall t :: t in tables && t != tables[0] ==> t in tables[1..];
        SameRowsTransitive(s, d.store, r.store);
        SameRowsKeepsEmpty(d.store, r.store);
        r
  }

  /** The tables ClearGameData names: two of them do not exist. */
  const ClearedAsWritten := [Games, Teams, Unknown("players"), Unknown("stats")]

  /** ClearGameData as written: deletes from games, teams, players and
      stats, then nulls the GAMES ledger row. */
  function ClearGameDataAsWritten(s: Store, fails: Table -> bool, ledgerFails: bool): (r: Written)
    ensures r.store.champions == s.champions
  {
    var d := DeleteTables(s, ClearedAsWritten, fails);
    assert Champions !in ClearedAsWritten;
    assert SameRows(s, d.store, Champions);
    if !d.Ok() then d else NullLastFetch(d.store, GamesKind, ledgerFails)
  }

  /** On any store of the schema the as-written wipe fails, at "games" or at
      the missing "players" at the latest, so the GAMES ledger row is never
      nulled and participants, items, spells and bans are never touched. */
  lemma ClearGameDataAsWrittenNeverNullsLedger(s: Store, fails: Table -> bool, ledgerFails: bool)
    requires Valid(s)
    ensures var r := ClearGameDataAsWritten(s, fails, ledgerFails);
      && !r.Ok()
      && r.store.ledger == s.ledger
      && r.store.participants == s.participants
      && r.store.items == s.items && r.store.spells == s.spells && r.store.bans == s.bans
  {
    var d := DeleteTables(s, ClearedAsWritten, fails);
    assert Unknown("players") in ClearedAsWritten && Unknown("players") !in s.tables;
    assert !d.Ok();
    var ts := ClearedAsWritten;
    assert Fetch !in ts && Participants !in ts && ParticipantItems !in ts;
    assert ParticipantSpells !in ts && TeamBannedChampions !in ts;
    assert SameRows(s, d.store, Fetch) && SameRows(s, d.store, Participants);
    assert SameRows(s, d.store, ParticipantItems) && SameRows(s, d.store, ParticipantSpells);
    assert SameRows(s, d.store, TeamBannedChampions);
  }

  /** While a valid store holds any team, the as-written wipe fails on its
      very first statement and deletes nothing. */
  lemma ClearGameDataAsWrittenBlockedByTeams(s: Store, fails: Table -> bool, ledgerFails: bool)
    requires Valid(s)
    requires |s.teams| > 0
    ensures ClearGameDataAsWritten(s, fails, ledgerFails).store == s
  {
    var id :| id in s.teams;
    assert Referenced(s, Games);
  }

  /** Every game table, children before the tables they refer to. */
  const GameTables := [
    TeamBannedChampions, ParticipantItems, ParticipantSpells,
    Participants, Teams, Games]

  /** ClearGameData as intended: empties every game table, children first so
      that no foreign key blocks a delete, then nulls the GAMES ledger row. */
  function ClearGameData(s: Store, fails: Table -> bool, ledgerFails: bool): (r: Written)
    ensures r.store.champions == s.champions
    ensures r.store.tables == s.tables
    ensures !r.Ok() ==> r.store.ledger == s.ledger
    ensures r.Ok() ==> r.store.ledger.Keys == s.ledger.Keys
    ensures r.Ok() && GamesKind in s.ledger ==> r.store.ledger[GamesKind] == None
    ensures Valid(s) ==> Valid(r.store)
  {
    var d := DeleteTables(s, GameTables, fails);
    assert Champions !in GameTables && Fetch !in GameTables;
    assert SameRows(s, d.store, Champions) && SameRows(s, d.store, Fetch);
    if !d.Ok() then d else NullLastFetch(d.store, GamesKind, ledgerFails)
  }

  /** Without driver failures the intended wipe empties every game table,
      nulls the GAMES ledger row and keeps champions and the other ledger
      rows. */
  lemma ClearGameDataEmptiesGameTables(s: Store, fails: Table -> bool)
    requires Initialized(s)
    requires forall t :: !fails(t)
    ensures var r := ClearGameData(s, fails, false);
      && r.Ok()
      && r.store.games == map[] && r.store.teams == map[] && r.store.participants == map[]
      && r.store.bans == [] && r.store.items == [] && r.store.spells == []
      && r.store.champions == s.champions
      && r.store.ledger.Keys == s.ledger.Keys
      && (GamesKind in s.ledger ==> r.store.ledger[GamesKind] == None)
      && (forall k :: k in s.ledger && k != GamesKind ==> r.store.ledger[k] == s.ledger[k])
  {
    var d := DeleteTables(s, GameTables, fails);
    DeleteGameTablesEmpties(s, fails);
    assert RowsEmpty(d.store, Games) && RowsEmpty(d.store, Teams) && RowsEmpty(d.store, Participants);
    assert RowsEmpty(d.store, TeamBannedChampions) && RowsEmpty(d.store, ParticipantItems);
    assert RowsEmpty(d.store, ParticipantSpells);
  }

  /** In GameTables every table comes after all the tables that refer to
      it. */
  lemma GameTablesChildrenFirst()
    ensures forall i, c :: 0 <= i < |GameTables| && RefersTo(c, GameTables[i]) ==> c in GameTables[..i]
  {
    var ts := GameTables;
    forall i, c | 0 <= i < |ts| && RefersTo(c, ts[i])
      ensures c in ts[..i]
    {
      if i == 3 {
        assert ts[..i][1] == ParticipantItems && ts[..i][2] == ParticipantSpells;
      } else if i == 4 {
        assert ts[..i][0] == TeamBannedChampions;
      } else if i == 5 {
        assert ts[..i][3] == Participants && ts[..i][4] == Teams;
      }
    }
  }

  /** The deletes of ClearGameData, children first, all go through, leave
      every game table empty and keep champions and the ledger. */
  lemma DeleteGameTablesEmpties(s: Store, fails: Table -> bool)
    requires Initialized(s)
    requires forall t :: !fails(t)
    ensures var d := DeleteTables(s, GameTables, fails);
      && d.Ok()
      && (forall t :: t in GameTables ==> RowsEmpty(d.store, t))
      && d.store.champions == s.champions && d.store.ledger == s.ledger
  {
    GameTablesChildrenFirst();
    GameTablesInSchema();
    DeleteTablesSucceeds(s, GameTables, fails);
    assert SameRows(s, DeleteTables(s, GameTables, fails).store, Champions);
    assert SameRows(s, DeleteTables(s, GameTables, fails).store, Fetch);
  }

  lemma GameTablesInSchema()
    ensures forall t :: t in GameTables ==> t in SchemaTables
    ensures Champions !in GameTables && Fetch !in GameTables
  {
  }

  /** DeleteTables goes through when the driver fails nothing, every table
      exists, and each table's children are either deleted before it or
      already empty. */
  lemma {:induction false} DeleteTablesSucceeds(s: Store, tables: seq<Table>, fails: Table -> bool)
    requires forall t :: t in tables ==> t in s.tables && !fails(t)
    requires forall i, c :: 0 <= i < |tables| && RefersTo(c, tables[i]) ==> c in tables[..i] || RowsEmpty(s, c)
    ensures DeleteTables(s, tables, fails).Ok()
    decreases |tables|
  {
    if |tables| > 0 {
      var t := tables[0];
      assert forall c :: RefersTo(c, t) ==> RowsEmpty(s, c) by {
        assert tables[..0] == [];
      }
      UnreferencedWhenChildrenEmpty(s, t);
      var d := DeleteFrom(s, t, false);
      SameRowsKeepsEmpty(s, d.store);
      var rest := tables[1..];
      forall i, c | 0 <= i < |rest| && RefersTo(c, rest[i])
        ensures c in rest[..i] || RowsEmpty(d.store, c)
      {
        assert rest[i] == tables[i + 1];
        assert tables[..i + 1] == [t] + rest[..i];
      }
      DeleteTablesSucceeds(d.store, rest, fails);
    }
  }

}

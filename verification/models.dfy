/** The records of internal/models/models.go: what the decoders hand to the
    store and the orchestrators. Go's float64 fields are modelled as `real`
    and only the fields the core reads or persists are kept. */
module Models {
  import opened Wrappers

  // ---------------------------------------------------------------------
  // Champions (static data catalog)
  // ---------------------------------------------------------------------

  /** Position of a champion portrait in the static data sprite sheet. */
  datatype Image = Image(
    w: real, h: real, full: string, sprite: string, group: string,
    x: real, y: real, version: string)

  datatype ChampionInfo = ChampionInfo(attack: real, defense: real, magic: real, difficulty: real)

  /** A catalog entry. `id` is the readable name ("Aatrox"); `key` is the
      numeric identifier rendered as text ("266") that games refer to. */
  datatype Champion = Champion(
    id: string, key: string, name: string, title: string, blurb: string,
    partype: string, info: ChampionInfo, stats: map<string, real>,
    image: Image, tags: seq<string>, typeName: string, format: string)

  const CdnPrefix := "https://ddragon.leagueoflegends.com/cdn/"
  const ChampionImagePath := "/img/champion/"

  /** The portrait URL on the static data CDN. */
  function FullURL(img: Image): string
  {
    CdnPrefix + img.version + ChampionImagePath + img.full
  }

  /** Index of the first `c` in `s`, or `|s|` when there is none. */
  function IndexOf(s: string, c: char): (i: nat)
    ensures i <= |s|
    ensures i < |s| ==> s[i] == c
    ensures forall j :: 0 <= j < i ==> s[j] != c
  {
    if |s| == 0 then 0
    else if s[0] == c then 0
    else 1 + IndexOf(s[1..], c)
  }

  /** Splits a portrait URL back into its version and file name: the version
      ends at the first '/' after the CDN prefix. */
  function ParseFullURL(url: string): Option<(string, string)>
  {
    if |url| < |CdnPrefix| || url[..|CdnPrefix|] != CdnPrefix then None
    else
      var rest := url[|CdnPrefix|..];
      var i := IndexOf(rest, '/');
      var tail := rest[i..];
      if |tail| < |ChampionImagePath| || tail[..|ChampionImagePath|] != ChampionImagePath then None
      else Some((rest[..i], tail[|ChampionImagePath|..]))
  }

  /** The portrait URL determines the version and file name it was built
      from, as long as the version has no '/' of its own. */
  lemma FullURLRoundTrip(img: Image)
    requires '/' !in img.version
    ensures ParseFullURL(FullURL(img)) == Some((img.version, img.full))
  {
    var url := FullURL(img);
    assert url[..|CdnPrefix|] == CdnPrefix;
    var rest := url[|CdnPrefix|..];
    assert rest == img.version + ChampionImagePath + img.full;
    var i := IndexOf(rest, '/');
    assert rest[|img.version|] == '/';
    forall j | 0 <= j < |img.version|
      ensures rest[j] != '/'
    {
      assert rest[j] == img.version[j];
    }
    assert i == |img.version|;
    assert rest[..i] == img.version;
    assert rest[i..] == ChampionImagePath + img.full;
  }

  /** Only the version and the file name reach the URL; the sprite layout
      fields play no part. */
  lemma FullURLIgnoresLayout(a: Image, b: Image)
    requires a.version == b.version && a.full == b.full
    ensures FullURL(a) == FullURL(b)
  {
  }

  /** Go's conversion `int(f)` of a float64: truncation toward zero. */
  function Trunc(x: real): (n: int)
    ensures 0.0 <= x ==> n as real <= x < n as real + 1.0
    ensures x < 0.0 ==> n as real - 1.0 < x <= n as real
  {
    if x >= 0.0 then x.Floor else -((-x).Floor)
  }

  // ---------------------------------------------------------------------
  // Games (match history batch)
  // ---------------------------------------------------------------------

  datatype TierInfo = TierInfo(tier: string, division: real, tierImageUrl: string, borderImageUrl: string)

  /** Aggregate statistics of one side of a game. */
  datatype TeamStat = TeamStat(
    isWin: bool, championFirst: bool, inhibitorFirst: bool, riftHeraldFirst: bool,
    death: int, championKill: int, inhibitorKill: int, dragonFirst: bool,
    hordeFirst: bool, riftHeraldKill: int, isRemake: bool, goldEarned: int,
    kill: int, towerFirst: bool, hordeKill: int, assist: int, dragonKill: int,
    baronKill: int, baronFirst: bool, towerKill: int)

  /** A side of a game. Bans are the upstream's raw numbers, not champion keys. */
  datatype Team = Team(key: string, gameStat: TeamStat, bannedChampions: seq<real>)

  /** The per-player statistics the store persists. */
  datatype ParticipantStats = ParticipantStats(
    kill: real, death: real, assist: real, goldEarned: real,
    totalDamageDealtToChampions: real, totalDamageTaken: real, visionScore: real,
    laneScore: real, result: string, wardPlace: real, opScoreRank: real,
    barrackKill: real, totalHeal: real)

  datatype Rune = Rune(primaryPageId: real, primaryRuneId: real, secondaryPageId: real)

  datatype SummonerDetailed = SummonerDetailed(name: string)

  /** A player of a game. `championId` is an integer while `Champion.key` is
      text; the two meet only through the decimal rendering of the integer. */
  datatype Participant = Participant(
    participantId: int, summonerName: string, championId: int, position: string,
    role: string, summoner: SummonerDetailed, rune: Rune, stats: ParticipantStats,
    teamKey: string, gameType: string, isRemake: bool,
    items: seq<real>, spells: seq<real>)

  /** One decoded game of a batch. `isRecorded` is nullable upstream, so an
      absent or null value (None) is distinct from 0 (Some(0.0)). */
  datatype GameEntry = GameEntry(
    isOpscoreActive: bool, isRecorded: Option<real>, teams: seq<Team>, id: string,
    version: string, gameLengthSecond: real, averageTierInfo: TierInfo,
    gameType: string, isRemake: bool, createdAt: string,
    participants: seq<Participant>, metaVersion: string)

  /** First and last game timestamps of the batch, as RFC 3339 text. */
  datatype GameDataMeta = GameDataMeta(firstGameCreatedAt: string, lastGameCreatedAt: string)

  datatype GameData = GameData(meta: GameDataMeta, data: seq<GameEntry>)

  /** The batch's first and last game timestamps, parsed (Unix seconds). */
  datatype GameMeta = GameMeta(firstGameCreatedAt: int, lastGameCreatedAt: int)

  /** A game as handed to the store: timestamps parsed, flags coerced. */
  datatype Game = Game(
    id: string, createdAt: int, gameLengthSecond: int, averageTierInfo: TierInfo,
    isRemake: bool, metaVersion: string, gameType: string, isOpscoreActive: bool,
    isRecorded: bool, version: string, meta: GameMeta)
}

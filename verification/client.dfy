/** What the two fetch-and-store runs share (internal/client): the upstream
    URLs, the 24-hour freshness gate on the `fetch` ledger, the outcome of a
    run, and the statement descriptors by which the driver's failures are
    supplied. The network is not modelled: each run receives what its
    requests would have returned, already decoded. */
module Client {
  import opened Wrappers
  import opened Db

  // ---------------------------------------------------------------------
  // URLs
  // ---------------------------------------------------------------------

  const VersionsURL := "https://ddragon.leagueoflegends.com/api/versions.json"

  /** The champion catalog of one static data version. */
  function CatalogURL(version: string): string
  {
    "http://ddragon.leagueoflegends.com/cdn/" + version + "/data/en_US/champion.json"
  }

  /** The latest ranked solo games of a summoner. */
  function GameDataURL(summonerId: string): string
  {
    "https://lol-web-api.op.gg/api/v1.0/internal/bypass/games/na/summoners/" + summonerId
      + "?=&limit=20&hl=en_US&game_type=soloranked"
  }

  const CatalogPrefix := "http://ddragon.leagueoflegends.com/cdn/"
  const CatalogSuffix := "/data/en_US/champion.json"

  /** Distinct versions give distinct catalog URLs: the version can be read
      back from between the fixed prefix and suffix. */
  lemma CatalogURLInjective(v: string, w: string)
    requires CatalogURL(v) == CatalogURL(w)
    ensures v == w
  {
    var u := CatalogURL(v);
    assert u == CatalogPrefix + v + CatalogSuffix;
    assert u[|CatalogPrefix|..|u| - |CatalogSuffix|] == v;
    assert CatalogURL(w) == CatalogPrefix + w + CatalogSuffix;
    assert u[|CatalogPrefix|..|u| - |CatalogSuffix|] == w;
  }

  // ---------------------------------------------------------------------
  // Freshness gate
  // ---------------------------------------------------------------------

  /** Go's zero time.Time, 0001-01-01T00:00:00Z, in Unix seconds: what a
      failed ledger read leaves in `lastUpdated`. */
  const ZeroTime := -62135596800

  const DayInSeconds := 86400
  const NanosPerSecond := 1000000000

  /** The range of time.Duration, an int64 count of nanoseconds. */
  const MaxDuration := 0x7FFF_FFFF_FFFF_FFFF
  const MinDuration := -0x8000_0000_0000_0000

  /** `time.Since(last)` at instant `now`: the difference in nanoseconds,
      saturated to the range of time.Duration as Time.Sub does. */
  function Since(now: int, last: int): (d: int)
    ensures MinDuration <= d <= MaxDuration
    ensures MinDuration <= (now - last) * NanosPerSecond <= MaxDuration ==> d == (now - last) * NanosPerSecond
  {
    var exact := (now - last) * NanosPerSecond;
    if exact > MaxDuration then MaxDuration
    else if exact < MinDuration then MinDuration
    else exact
  }

  /** `time.Since(last) < 24*time.Hour`. */
  predicate Fresh(now: int, last: int)
  {
    Since(now, last) < DayInSeconds * NanosPerSecond
  }

  /** Saturation never changes the gate's verdict: the data is fresh exactly
      when less than a day has passed since the last fetch, including when
      the last fetch lies in the future. */
  lemma FreshIffWithinADay(now: int, last: int)
    ensures Fresh(now, last) <==> now - last < DayInSeconds
  {
    var exact := (now - last) * NanosPerSecond;
    if now - last >= DayInSeconds {
      assert exact >= DayInSeconds * NanosPerSecond;
    } else {
      assert exact <= (DayInSeconds - 1) * NanosPerSecond;
    }
  }

  /** The instant the gate compares against: the ledger value, or the zero
      time when the read fails for any reason (the error is only logged). */
  function LastUpdated(read: Result<int, DbError>): (t: int)
    ensures read.Ok? ==> t == read.value
    ensures read.Err? ==> t == ZeroTime
  {
    match read
    case Ok(t) => t
    case Err(_) => ZeroTime
  }

  /** A failed ledger read never holds a run back once the clock is past
      0001-01-02: the gate fails open. */
  lemma FailedReadIsStale(now: int, e: DbError)
    requires now >= ZeroTime + DayInSeconds
    ensures !Fresh(now, LastUpdated(Err(e)))
  {
    FreshIffWithinADay(now, ZeroTime);
  }

  // ---------------------------------------------------------------------
  // Outcomes
  // ---------------------------------------------------------------------

  /** Why an upstream request produced nothing usable. */
  datatype FetchError = Transport | Malformed

  datatype RunError =
    | FetchFailed(url: string, reason: FetchError)
    | NoVersions
    | LedgerWriteFailed(cause: DbError)

  /** How a run ends: nil after the gate, nil after storing, an error, or a
      run-time panic that aborts the process. */
  datatype Status = UpToDate | Stored | Failed(error: RunError) | Panicked

  /** The store a run leaves, how it ended, and the URLs it requested in
      order. */
  datatype Run = Run(store: Store, status: Status, requests: seq<string>)
  {
    /** The Go function returned nil. */
    predicate ReturnedNil() { status.UpToDate? || status.Stored? }
  }

  /** One statement a run can ask the driver to execute, by position: the
      batch entry `e`, the team or participant `j` within it, and the
      ban, item or spell `k` within that. */
  datatype Stmt =
    | ReadLedger
    | WriteLedger
    | UpsertAt(i: nat)
    | GameAt(e: nat)
    | TeamAt(e: nat, j: nat)
    | BanAt(e: nat, j: nat, k: nat)
    | ParticipantAt(e: nat, j: nat)
    | ItemAt(e: nat, j: nat, k: nat)
    | SpellAt(e: nat, j: nat, k: nat)

  /** A driver that fails no statement. */
  ghost predicate Reliable(faults: Stmt -> bool)
  {
    forall st :: !faults(st)
  }
}

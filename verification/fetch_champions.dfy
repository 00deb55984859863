/** FetchAndStoreChampionData (internal/client/fetchChampions.go): skip when
    the CHAMPIONS ledger is less than a day old, otherwise take the first
    listed static data version, upsert every champion of its catalog (each
    failure skipped) and advance the ledger to now. */
module FetchChampions {
  import opened Wrappers
  import opened Models
  import opened Db
  import opened ChampionStore
  import opened Client
  import Json

  // ---------------------------------------------------------------------
  // The upsert loop
  // ---------------------------------------------------------------------

  /** The loop over the catalog from position `i`; a failing upsert is
      logged and skipped. */
  function UpsertFrom(s: Store, cs: seq<Champion>, i: nat, faults: Stmt -> bool): Store
    requires i <= |cs|
    decreases |cs| - i
  {
    if i == |cs| then s
    else UpsertFrom(InsertChampion(s, cs[i], faults(UpsertAt(i))).store, cs, i + 1, faults)
  }

  /** The champion whose row ends up under `key`: the last one from position
      `i` on with that key whose upsert goes through, if any. */
  function LastUpsert(cs: seq<Champion>, i: nat, faults: Stmt -> bool, key: string): (r: Option<Champion>)
    requires i <= |cs|
    ensures r.Some? ==> r.value.key == key
    decreases |cs| - i
  {
    if i == |cs| then None
    else
      match LastUpsert(cs, i + 1, faults, key)
      case Some(c) => Some(c)
      case None => if !faults(UpsertAt(i)) && cs[i].key == key then Some(cs[i]) else None
  }

  /** The loop changes no table but `champions` and keeps the store valid. */
  lemma {:induction false} UpsertFromFrame(s: Store, cs: seq<Champion>, i: nat, faults: Stmt -> bool)
    requires i <= |cs|
    ensures UpsertFrom(s, cs, i, faults) == s.(champions := UpsertFrom(s, cs, i, faults).champions)
    ensures Valid(s) ==> Valid(UpsertFrom(s, cs, i, faults))
    decreases |cs| - i
  {
    if i < |cs| {
      UpsertFromFrame(InsertChampion(s, cs[i], faults(UpsertAt(i))).store, cs, i + 1, faults);
    }
  }

  /** Row by row, the loop's result is the reference definition: a key holds
      the row of its last successful upsert, and a key no successful upsert
      names keeps its old row, or stays absent. */
  lemma {:induction false} UpsertFromRow(s: Store, cs: seq<Champion>, i: nat, faults: Stmt -> bool, key: string)
    requires i <= |cs|
    ensures var r := UpsertFrom(s, cs, i, faults);
      && (key in r.champions <==> key in s.champions || LastUpsert(cs, i, faults, key).Some?)
      && (LastUpsert(cs, i, faults, key).Some? ==> r.champions[key] == ChampionRowOf(LastUpsert(cs, i, faults, key).value))
      && (LastUpsert(cs, i, faults, key).None? && key in s.champions ==> r.champions[key] == s.champions[key])
    decreases |cs| - i
  {
    if i < |cs| {
      UpsertFromRow(InsertChampion(s, cs[i], faults(UpsertAt(i))).store, cs, i + 1, faults, key);
    }
  }

  /** Keys of a catalog are pairwise distinct. */
  predicate DistinctKeys(cs: seq<Champion>)
  {
    forall a, b :: 0 <= a < b < |cs| ==> cs[a].key != cs[b].key
  }

  lemma {:induction false} LastUpsertOfDistinct(cs: seq<Champion>, i: nat, faults: Stmt -> bool, j: nat)
    requires DistinctKeys(cs)
    requires i <= j < |cs| && !faults(UpsertAt(j))
    ensures LastUpsert(cs, i, faults, cs[j].key) == Some(cs[j])
    decreases |cs| - i
  {
    if i < j {
      LastUpsertOfDistinct(cs, i + 1, faults, j);
    } else {
      LastUpsertNone(cs, i + 1, faults, cs[j].key);
    }
  }

  /** No position from `i` on carries `key`, so nothing is found. */
  lemma {:induction false} LastUpsertNone(cs: seq<Champion>, i: nat, faults: Stmt -> bool, key: string)
    requires i <= |cs|
    requires forall a :: i <= a < |cs| ==> cs[a].key != key
    ensures LastUpsert(cs, i, faults, key) == None
    decreases |cs| - i
  {
    if i < |cs| {
      LastUpsertNone(cs, i + 1, faults, key);
    }
  }

  /** With distinct keys, every champion whose upsert goes through is stored
      with its own row, whatever happened to the others. */
  lemma UpsertedRowsStored(s: Store, cs: seq<Champion>, faults: Stmt -> bool, j: nat)
    requires DistinctKeys(cs)
    requires j < |cs| && !faults(UpsertAt(j))
    ensures var r := UpsertFrom(s, cs, 0, faults);
      cs[j].key in r.champions && r.champions[cs[j].key] == ChampionRowOf(cs[j])
  {
    LastUpsertOfDistinct(cs, 0, faults, j);
    UpsertFromRow(s, cs, 0, faults, cs[j].key);
  }

  // ---------------------------------------------------------------------
  // The run
  // ---------------------------------------------------------------------

  /** The CHAMPIONS ledger value the gate reads. */
  function ChampionsLastUpdated(s: Store, faults: Stmt -> bool): int
  {
    LastUpdated(GetLastFetch(s, ChampionsKind, faults(ReadLedger)))
  }

  /** FetchAndStoreChampionData at instant `now`. `versions` is what the
      versions request decoded to and `catalogAt(url)` what a catalog
      request decodes to, the catalog's champions in the order the loop
      visits them. The re-read of the ledger and the listing of stored keys
      after the loop only feed the log. `now` is the single instant of the
      run: both the gate and the ledger stamp read it, where the program
      reads the clock again for the stamp after the requests. */
  function FetchAndStoreChampionData(
    s: Store, now: int, versions: Result<seq<string>, FetchError>,
    catalogAt: string -> Result<seq<Champion>, FetchError>, faults: Stmt -> bool): (r: Run)
    ensures !r.status.Panicked?
    ensures r.store == s.(champions := r.store.champions, ledger := r.store.ledger)
    ensures r.status.UpToDate? ==> r.store == s && r.requests == []
    ensures r.status.Stored? ==> ChampionsKind in r.store.ledger && r.store.ledger[ChampionsKind] == Some(now)
    ensures r.status.Failed? && !r.status.error.LedgerWriteFailed? ==> r.store == s
    ensures forall k :: k in s.ledger && k != ChampionsKind ==> k in r.store.ledger && r.store.ledger[k] == s.ledger[k]
    ensures Valid(s) ==> Valid(r.store)
  {
    if Fresh(now, ChampionsLastUpdated(s, faults)) then Run(s, UpToDate, [])
    else
      match versions
      case Err(e) => Run(s, Failed(FetchFailed(VersionsURL, e)), [VersionsURL])
      case Ok(vs) =>
        if |vs| == 0 then Run(s, Failed(NoVersions), [VersionsURL])
        else
          var url := CatalogURL(vs[0]);
          match catalogAt(url)
          case Err(e) => Run(s, Failed(FetchFailed(url, e)), [VersionsURL, url])
          case Ok(cs) =>
            UpsertFromFrame(s, cs, 0, faults);
            var s1 := UpsertFrom(s, cs, 0, faults);
            var w := SetLastFetch(s1, ChampionsKind, now, faults(WriteLedger));
            if w.Ok() then Run(w.store, Stored, [VersionsURL, url])
            else Run(s1, Failed(LedgerWriteFailed(w.err.value)), [VersionsURL, url])
  }

  /** Less than a day after the last recorded fetch the run returns nil at
      once: nothing requested, nothing written. */
  lemma FreshRunIsNoOp(s: Store, now: int, versions: Result<seq<string>, FetchError>,
                       catalogAt: string -> Result<seq<Champion>, FetchError>, faults: Stmt -> bool, last: int)
    requires !faults(ReadLedger)
    requires ChampionsKind in s.ledger && s.ledger[ChampionsKind] == Some(last)
    requires now - last < DayInSeconds
    ensures FetchAndStoreChampionData(s, now, versions, catalogAt, faults) == Run(s, UpToDate, [])
  {
    FreshIffWithinADay(now, last);
  }

  /** When the ledger cannot be read (driver error, no row, NULL) the run
      goes ahead and requests the versions list first. */
  lemma UnreadableLedgerFailsOpen(s: Store, now: int, versions: Result<seq<string>, FetchError>,
                                  catalogAt: string -> Result<seq<Champion>, FetchError>, faults: Stmt -> bool)
    requires GetLastFetch(s, ChampionsKind, faults(ReadLedger)).Err?
    requires now >= ZeroTime + DayInSeconds
    ensures var r := FetchAndStoreChampionData(s, now, versions, catalogAt, faults);
      !r.status.UpToDate? && |r.requests| > 0 && r.requests[0] == VersionsURL
  {
    FailedReadIsStale(now, GetLastFetch(s, ChampionsKind, faults(ReadLedger)).error);
  }

  /** An empty versions list is an error that writes nothing. */
  lemma NoVersionsNoWrites(s: Store, now: int, catalogAt: string -> Result<seq<Champion>, FetchError>, faults: Stmt -> bool)
    requires !Fresh(now, ChampionsLastUpdated(s, faults))
    ensures FetchAndStoreChampionData(s, now, Ok([]), catalogAt, faults) == Run(s, Failed(NoVersions), [VersionsURL])
  {
  }

  /** The catalog requested is that of the first listed version, and only
      after the versions list. */
  lemma CatalogOfFirstVersion(s: Store, now: int, vs: seq<string>,
                              catalogAt: string -> Result<seq<Champion>, FetchError>, faults: Stmt -> bool)
    requires !Fresh(now, ChampionsLastUpdated(s, faults))
    requires |vs| > 0
    ensures FetchAndStoreChampionData(s, now, Ok(vs), catalogAt, faults).requests == [VersionsURL, CatalogURL(vs[0])]
  {
  }

  /** A failed request, or an undecodable answer, returns an error before
      anything is written. */
  lemma FetchFailureNoWrites(s: Store, now: int, versions: Result<seq<string>, FetchError>,
                             catalogAt: string -> Result<seq<Champion>, FetchError>, faults: Stmt -> bool)
    requires !Fresh(now, ChampionsLastUpdated(s, faults))
    requires versions.Err? || (|versions.value| > 0 && catalogAt(CatalogURL(versions.value[0])).Err?)
    ensures var r := FetchAndStoreChampionData(s, now, versions, catalogAt, faults);
      r.store == s && r.status.Failed? && r.status.error.FetchFailed?
  {
  }

  /** After a fetched catalog every key holds the row of its last successful
      upsert, keys nobody upserted keep their rows, and the ledger then
      decides the outcome: set to now and nil, or an error with the rows
      kept. */
  lemma CatalogStored(s: Store, now: int, vs: seq<string>, cs: seq<Champion>,
                      catalogAt: string -> Result<seq<Champion>, FetchError>, faults: Stmt -> bool, key: string)
    requires !Fresh(now, ChampionsLastUpdated(s, faults))
    requires |vs| > 0 && catalogAt(CatalogURL(vs[0])) == Ok(cs)
    ensures var r := FetchAndStoreChampionData(s, now, Ok(vs), catalogAt, faults);
      && (r.status.Stored? <==> !faults(WriteLedger))
      && (faults(WriteLedger) ==> r.status == Failed(LedgerWriteFailed(Driver)))
      && (key in r.store.champions <==> key in s.champions || LastUpsert(cs, 0, faults, key).Some?)
      && (LastUpsert(cs, 0, faults, key).Some? ==> r.store.champions[key] == ChampionRowOf(LastUpsert(cs, 0, faults, key).value))
      && (LastUpsert(cs, 0, faults, key).None? && key in s.champions ==> r.store.champions[key] == s.champions[key])
  {
    UpsertFromRow(s, cs, 0, faults, key);
  }

  /** A second run less than a day after a successful one, with the ledger
      readable, is a no-op: the run is idempotent within the day. */
  lemma RerunWithinADayIsNoOp(s: Store, now: int, later: int, versions: Result<seq<string>, FetchError>,
                              catalogAt: string -> Result<seq<Champion>, FetchError>, faults: Stmt -> bool,
                              versions2: Result<seq<string>, FetchError>,
                              catalogAt2: string -> Result<seq<Champion>, FetchError>, faults2: Stmt -> bool)
    requires FetchAndStoreChampionData(s, now, versions, catalogAt, faults).status.Stored?
    requires now <= later < now + DayInSeconds
    requires !faults2(ReadLedger)
    ensures var s1 := FetchAndStoreChampionData(s, now, versions, catalogAt, faults).store;
      FetchAndStoreChampionData(s1, later, versions2, catalogAt2, faults2) == Run(s1, UpToDate, [])
  {
    var s1 := FetchAndStoreChampionData(s, now, versions, catalogAt, faults).store;
    FreshRunIsNoOp(s1, later, versions2, catalogAt2, faults2, now);
  }

  /** After a successful ClearChampionData the CHAMPIONS ledger row is
      NULL, its read fails, and the next run fetches again. */
  lemma WipeThenFetchRuns(s: Store, now: int, versions: Result<seq<string>, FetchError>,
                          catalogAt: string -> Result<seq<Champion>, FetchError>, faults: Stmt -> bool,
                          deleteFails: bool, updateFails: bool)
    requires ClearChampionData(s, deleteFails, updateFails).Ok()
    requires now >= ZeroTime + DayInSeconds
    ensures var s1 := ClearChampionData(s, deleteFails, updateFails).store;
      !FetchAndStoreChampionData(s1, now, versions, catalogAt, faults).status.UpToDate?
  {
    var s1 := ClearChampionData(s, deleteFails, updateFails).store;
    FailedReadIsStale(now, GetLastFetch(s1, ChampionsKind, faults(ReadLedger)).error);
  }

  /** A run on an empty ledger with a one-champion catalog, end to end. */
  lemma ExampleRun(s: Store, catalogAt: string -> Result<seq<Champion>, FetchError>, c: Champion, faults: Stmt -> bool)
    requires s.ledger == map[] && s.champions == map[]
    requires c.key == "1" && c.tags == ["Fighter"]
    requires catalogAt("http://ddragon.leagueoflegends.com/cdn/15.1.1/data/en_US/champion.json") == Ok([c])
    requires !faults(UpsertAt(0)) && !faults(WriteLedger)
    ensures var r := FetchAndStoreChampionData(s, 1700000000, Ok(["15.1.1", "15.0.1"]), catalogAt, faults);
      && r.status == Stored
      && r.requests == [VersionsURL, "http://ddragon.leagueoflegends.com/cdn/15.1.1/data/en_US/champion.json"]
      && r.store.champions.Keys == {"1"}
      && r.store.champions["1"].tags == "[\"Fighter\"]"
      && r.store.ledger.Keys == {ChampionsKind}
      && r.store.ledger[ChampionsKind] == Some(1700000000)
  {
    var now := 1700000000;
    var vs := ["15.1.1", "15.0.1"];
    EmptyLedgerIsStale(s, now, faults);
    ExampleCatalogURL();
    var s0 := InsertChampion(s, c, false).store;
    assert UpsertFrom(s0, [c], 1, faults) == s0;
    assert UpsertFrom(s, [c], 0, faults) == s0;
    assert s0.champions == map["1" := ChampionRowOf(c)];
    var r := FetchAndStoreChampionData(s, now, Ok(vs), catalogAt, faults);
    assert r.store == SetLastFetch(s0, ChampionsKind, now, false).store;
    FighterTags();
  }

  /** With no ledger row the read fails and the gate opens. */
  lemma EmptyLedgerIsStale(s: Store, now: int, faults: Stmt -> bool)
    requires s.ledger == map[]
    requires now >= ZeroTime + DayInSeconds
    ensures !Fresh(now, ChampionsLastUpdated(s, faults))
  {
    FailedReadIsStale(now, GetLastFetch(s, ChampionsKind, faults(ReadLedger)).error);
  }

  lemma ExampleCatalogURL()
    ensures CatalogURL("15.1.1") == "http://ddragon.leagueoflegends.com/cdn/15.1.1/data/en_US/champion.json"
  {
  }

  lemma FighterTags()
    ensures Json.EncodeStringArray(["Fighter"]) == "[\"Fighter\"]"
  {
    FighterEscapes();
    assert Json.JoinQuoted(["Fighter"]) == Json.Quote("Fighter");
  }

  lemma FighterEscapes()
    ensures Json.EscapeString("Fighter") == "Fighter"
  {
    var f := "Fighter";
    forall i | 0 <= i < |f|
      ensures Json.Plain(f[i])
    {
      assert 'a' <= f[i] <= 'z' || f[i] == 'F';
    }
    Json.EscapeStringPlain(f);
  }
}

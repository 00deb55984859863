/** The champion half of the store (internal/db/champions.go): the upsert
    keyed by the champion's Key, the listing of stored keys, and the wipe. */
module ChampionStore {
  import opened Wrappers
  import opened Models
  import opened Db
  import Json

  /** The row InsertChampion writes: tags as a JSON array, the portrait as
      its CDN URL. The champion's `id` is not stored. */
  function ChampionRowOf(c: Champion): ChampionRow
  {
    ChampionRow(
      c.name, c.title, Json.EncodeStringArray(c.tags), c.typeName, c.format,
      c.blurb, c.partype, c.info.attack, c.info.defense, c.info.magic,
      c.info.difficulty, c.stats, FullURL(c.image))
  }

  /** The stored tags decode to the champion's tags in their original order,
      and the stored image URL is the portrait URL, from which the image
      version and file name can be read back. */
  lemma ChampionRowFaithful(c: Champion)
    requires '/' !in c.image.version
    ensures Json.DecodeStringArray(ChampionRowOf(c).tags) == Some(c.tags)
    ensures ChampionRowOf(c).imageUrl == FullURL(c.image)
    ensures ParseFullURL(ChampionRowOf(c).imageUrl) == Some((c.image.version, c.image.full))
  {
    Json.EncodeStringArrayRoundTrip(c.tags);
    FullURLRoundTrip(c.image);
  }

  /** InsertChampion: INSERT ... ON CONFLICT(champion_id) DO UPDATE. The row
      under `c.key` is created or wholly overwritten; no other row and no
      other table changes. */
  function InsertChampion(s: Store, c: Champion, fail: bool): (r: Written)
    ensures r.Ok() <==> !fail
    ensures !r.Ok() ==> r.store == s
    ensures r.Ok() ==> r.store == s.(champions := r.store.champions)
    ensures r.Ok() ==> r.store.champions.Keys == s.champions.Keys + {c.key}
    ensures r.Ok() ==> r.store.champions[c.key] == ChampionRowOf(c)
    ensures forall k :: k in s.champions && k != c.key ==> r.store.champions[k] == s.champions[k]
    ensures Valid(s) ==> Valid(r.store)
  {
    if fail then Written(s, Some(Driver))
    else Written(s.(champions := s.champions[c.key := ChampionRowOf(c)]), None)
  }

  /** Upserting two champions with the same key leaves one row, holding the
      second champion's values, and one row more than before at most. */
  lemma UpsertSameKeyTwice(s: Store, c1: Champion, c2: Champion)
    requires c1.key == c2.key
    ensures var s2 := InsertChampion(InsertChampion(s, c1, false).store, c2, false).store;
      && s2.champions[c2.key] == ChampionRowOf(c2)
      && s2.champions.Keys == s.champions.Keys + {c1.key}
      && |s2.champions| == |s.champions| + (if c1.key in s.champions then 0 else 1)
  {
    var s2 := InsertChampion(InsertChampion(s, c1, false).store, c2, false).store;
    if c1.key !in s.champions {
      assert |s.champions.Keys + {c1.key}| == |s.champions.Keys| + 1;
    } else {
      assert s.champions.Keys + {c1.key} == s.champions.Keys;
    }
    assert |s2.champions| == |s2.champions.Keys|;
  }

  /** Two catalog entries that differ only in their readable `id` store the
      same row under the same key: the row is keyed by Key, never by ID. */
  lemma InsertChampionIgnoresId(s: Store, c: Champion, otherId: string)
    ensures InsertChampion(s, c, false) == InsertChampion(s, c.(id := otherId), false)
  {
  }

  predicate Distinct(ids: seq<string>)
  {
    forall i, j :: 0 <= i < j < |ids| ==> ids[i] != ids[j]
  }

  /** ListChampionIDs: one entry per stored row, in no particular order. */
  method ListChampionIDs(s: Store, fail: bool) returns (r: Result<seq<string>, DbError>)
    ensures r.Err? <==> fail
    ensures r.Ok? ==> |r.value| == |s.champions|
    ensures r.Ok? ==> Distinct(r.value)
    ensures r.Ok? ==> forall k :: k in r.value <==> k in s.champions
  {
    if fail {
      return Err(Driver);
    }
    var ids: seq<string> := [];
    var rest := s.champions.Keys;
    while rest != {}
      invariant rest <= s.champions.Keys
      invariant forall k :: k in ids <==> k in s.champions && k !in rest
      invariant |ids| + |rest| == |s.champions|
      invariant Distinct(ids)
      decreases |rest|
    {
      var k :| k in rest;
      ids := ids + [k];
      rest := rest - {k};
    }
    return Ok(ids);
  }

  /** ClearChampionData: DELETE FROM champions, then null the CHAMPIONS
      ledger row. A failed delete returns at once with nothing changed; a
      failed ledger update returns an error with the rows already gone. */
  function ClearChampionData(s: Store, deleteFails: bool, updateFails: bool): (r: Written)
    ensures r.Ok() <==> !deleteFails && Champions in s.tables && !Referenced(s, Champions) && !updateFails
    ensures !DeleteFrom(s, Champions, deleteFails).Ok() ==> r.store == s
    ensures DeleteFrom(s, Champions, deleteFails).Ok() ==>
      && r.store.champions == map[]
      && r.store == s.(champions := map[], ledger := r.store.ledger)
    ensures r.store.ledger.Keys == s.ledger.Keys
    ensures r.Ok() && ChampionsKind in s.ledger ==> r.store.ledger[ChampionsKind] == None
    ensures forall k :: k in s.ledger && k != ChampionsKind ==> r.store.ledger[k] == s.ledger[k]
    ensures Valid(s) ==> Valid(r.store)
  {
    var d := DeleteFrom(s, Champions, deleteFails);
    if !d.Ok() then d
    else NullLastFetch(d.store, ChampionsKind, updateFails)
  }

  /** While any participant row exists in a valid store, the champions it
      refers to cannot be deleted, so the wipe fails and changes nothing. */
  lemma ClearChampionDataBlockedByParticipants(s: Store, deleteFails: bool, updateFails: bool)
    requires Valid(s)
    requires |s.participants| > 0
    ensures !ClearChampionData(s, deleteFails, updateFails).Ok()
    ensures ClearChampionData(s, deleteFails, updateFails).store == s
  {
    var id :| id in s.participants;
    assert s.participants[id].championId in s.champions;
    assert Referenced(s, Champions);
  }
}

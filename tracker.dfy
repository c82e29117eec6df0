/** The tracker object: the two tables it owns, the sync that refreshes them, the
    metadata stamp and the read queries on a single launch or the latest ones. The
    clock reading, the API responses and a failing write during a sync
    (`StorageFault`) are parameters; the read queries do not fail. */
module Tracker {
  import opened Values
  import opened LaunchStore
  import opened Freshness
  import opened SyncInput

  /** The cache key of the launches partition. */
  const LAUNCHES_KEY: string := "launches"

  /** Where a storage write may raise during a sync: on the INSERT of the launch
      at `index`, on the commit, or on the metadata write after the commit. */
  datatype StorageFault = NoFault | RowWriteFails(index: nat) | CommitFails | MetadataWriteFails

  /** The batch reaches the commit and the commit succeeds. */
  predicate RowsCommitted(batch: Option<seq<LaunchRow>>, fault: StorageFault) {
    && batch.Some?
    && !(fault.RowWriteFails? && fault.index < |batch.value|)
    && !fault.CommitFails?
  }

  /** The sync returns true after fetching: the rows and the stamp are written. */
  predicate SyncSucceeds(batch: Option<seq<LaunchRow>>, fault: StorageFault) {
    RowsCommitted(batch, fault) && !fault.MetadataWriteFails?
  }

  /** The columns of `SELECT * FROM launches`, zipped with a row. */
  datatype Field = Text(text: Option<string>) | Integer(number: Option<int>) | Decoded(json: string)

  /** The four columns holding JSON text that `get_launch_details` decodes. */
  const JSON_FIELDS: seq<string> := ["crew", "payloads", "failures", "links"]

  /** The fifteen columns of `SELECT *`, in table order. */
  const COLUMNS: seq<string> := ["id", "name", "date_utc", "date_unix", "success", "details",
    "rocket_id", "rocket_name", "launchpad_id", "launchpad_name",
    "crew", "payloads", "failures", "links", "fetched_at"]

  /** `dict(zip(columns, row))` for a stored row: one entry per column, and the
      four JSON columns always hold text (the sync never stores NULL there). */
  function RowFields(row: LaunchRow): (r: map<string, Field>)
    ensures r.Keys == set c | c in COLUMNS
    ensures forall c :: c in JSON_FIELDS ==> c in r && r[c].Text? && r[c].text.Some?
  {
    map[
      "id" := Text(Some(row.id)),
      "name" := Text(Some(row.name)),
      "date_utc" := Text(Some(row.dateUtc)),
      "date_unix" := Integer(Some(row.dateUnix)),
      "success" := Integer(row.success),
      "details" := Text(row.details),
      "rocket_id" := Text(row.rocketId),
      "rocket_name" := Text(row.rocketName),
      "launchpad_id" := Text(row.launchpadId),
      "launchpad_name" := Text(row.launchpadName),
      "crew" := Text(Some(row.crew)),
      "payloads" := Text(Some(row.payloads)),
      "failures" := Text(Some(row.failures)),
      "links" := Text(Some(row.links)),
      "fetched_at" := Integer(Some(row.fetchedAt))]
  }

  /** `if launch[field]: launch[field] = json.loads(launch[field])`: non-empty
      text is decoded, NULL and the empty string stay as they are. */
  function DecodeIfPresent(f: Field): (r: Field)
    ensures f.Text? && f.text.Some? && f.text.value != "" ==> r == Decoded(f.text.value)
    ensures !(f.Text? && f.text.Some? && f.text.value != "") ==> r == f
  {
    if f.Text? && f.text.Some? && f.text.value != "" then Decoded(f.text.value) else f
  }

  /** The columns `get_recent_launches` selects. */
  datatype RecentLaunch = RecentLaunch(
    id: string,
    name: string,
    dateUtc: string,
    success: Option<int>,
    rocketName: Option<string>,
    launchpadName: Option<string>,
    details: Option<string>)

  /** The seven columns `get_recent_launches` selects, taken from the stored row. */
  function Recent(row: LaunchRow): (r: RecentLaunch)
    ensures r.id == row.id && r.name == row.name && r.dateUtc == row.dateUtc
    ensures r.success == row.success && r.details == row.details
    ensures r.rocketName == row.rocketName && r.launchpadName == row.launchpadName
  {
    RecentLaunch(row.id, row.name, row.dateUtc, row.success, row.rocketName, row.launchpadName, row.details)
  }

  /** The table inside the open transaction after the INSERT OR REPLACE loop
      has run over `raws` without a storage fault: None when a launch cannot be
      turned into a row, since the loop then raises. */
  function WriteLoop(base: LaunchTable, raws: seq<RawLaunch>, rockets: NameLookup, launchpads: NameLookup, now: int)
    : (r: Option<LaunchTable>)
    ensures r.Some? ==> base.Keys <= r.value.Keys
    ensures r.Some? && raws != [] ==> Insertable(raws[|raws| - 1]) && raws[|raws| - 1].id.value in r.value
    decreases |raws|
  {
    if raws == [] then Some(base)
    else
      match WriteLoop(base, raws[..|raws| - 1], rockets, launchpads, now)
      case None => None
      case Some(written) =>
        match BuildRow(raws[|raws| - 1], rockets, launchpads, now)
        case None => None
        case Some(row) => Some(Upsert(written, row))
  }

  /** The loop writes the batch of the whole list, in list order, exactly when
      every launch yields a row. */
  lemma {:induction false} WriteLoopIsBatchUpsert(base: LaunchTable, raws: seq<RawLaunch>, rockets: NameLookup, launchpads: NameLookup, now: int)
    ensures var batch := BuildBatch(raws, rockets, launchpads, now);
      WriteLoop(base, raws, rockets, launchpads, now) == if batch.Some? then Some(UpsertAll(base, batch.value)) else None
    decreases |raws|
  {
    if raws != [] {
      var front := raws[..|raws| - 1];
      WriteLoopIsBatchUpsert(base, front, rockets, launchpads, now);
      var rows := BuildBatch(front, rockets, launchpads, now);
      var row := BuildRow(raws[|raws| - 1], rockets, launchpads, now);
      if rows.Some? && row.Some? {
        UpsertAllSnoc(base, rows.value, row.value);
      }
    }
  }

  /** One more launch that yields a row: the loop goes on with that row written. */
  lemma WriteLoopStep(base: LaunchTable, raws: seq<RawLaunch>, i: int, rockets: NameLookup, launchpads: NameLookup, now: int)
    requires 0 <= i < |raws|
    requires WriteLoop(base, raws[..i], rockets, launchpads, now).Some?
    requires Insertable(raws[i])
    ensures WriteLoop(base, raws[..i + 1], rockets, launchpads, now)
      == Some(Upsert(WriteLoop(base, raws[..i], rockets, launchpads, now).value, BuildRow(raws[i], rockets, launchpads, now).value))
  {
    assert raws[..i + 1][..i] == raws[..i];
  }

  /** A launch that yields no row makes the whole loop raise. */
  lemma WriteLoopStops(base: LaunchTable, raws: seq<RawLaunch>, i: int, rockets: NameLookup, launchpads: NameLookup, now: int)
    requires 0 <= i < |raws|
    requires !Insertable(raws[i])
    ensures WriteLoop(base, raws, rockets, launchpads, now).None?
  {
    WriteLoopIsBatchUpsert(base, raws, rockets, launchpads, now);
  }

  /** What the INSERT OR REPLACE loop leaves inside its open transaction when a
      storage fault may hit the write of one launch: None when that write is
      reached, since the loop raises there. */
  function Written(base: LaunchTable, raws: seq<RawLaunch>, rockets: NameLookup, launchpads: NameLookup, now: int, fault: StorageFault)
    : (pending: Option<LaunchTable>)
    ensures fault.RowWriteFails? && fault.index < |raws| ==> pending.None?
    ensures pending.Some? ==> base.Keys <= pending.value.Keys
  {
    if fault.RowWriteFails? && fault.index < |raws| then None
    else WriteLoop(base, raws, rockets, launchpads, now)
  }

  /** The loop leaves the batch written over `base` exactly when every launch
      yields a row and no write raises; otherwise nothing is left to commit. */
  lemma WrittenIsBatchUpsert(base: LaunchTable, raws: seq<RawLaunch>, rockets: NameLookup, launchpads: NameLookup, now: int, fault: StorageFault)
    ensures var pending := Written(base, raws, rockets, launchpads, now, fault);
      var batch := BuildBatch(raws, rockets, launchpads, now);
      && (pending.Some? <==> (forall i :: 0 <= i < |raws| ==> Insertable(raws[i])) && !(fault.RowWriteFails? && fault.index < |raws|))
      && (pending.Some? ==> batch.Some? && pending.value == UpsertAll(base, batch.value))
  {
    WriteLoopIsBatchUpsert(base, raws, rockets, launchpads, now);
  }

  /** The INSERT OR REPLACE loop of a sync: the rows of `raws` are written over
      `base` one after the other, stopping at the first launch that yields no
      row or the first write that raises. */
  method WriteRows(base: LaunchTable, raws: seq<RawLaunch>, rockets: NameLookup, launchpads: NameLookup, now: int, fault: StorageFault)
    returns (pending: Option<LaunchTable>)
    ensures pending == Written(base, raws, rockets, launchpads, now, fault)
  {
    var written := base;
    var i := 0;
    while i < |raws|
      invariant 0 <= i <= |raws|
      invariant WriteLoop(base, raws[..i], rockets, launchpads, now) == Some(written)
      invariant fault.RowWriteFails? ==> fault.index >= i
    {
      if !Insertable(raws[i]) {
        WriteLoopStops(base, raws, i, rockets, launchpads, now);
        return None;
      }
      var row := BuildRow(raws[i], rockets, launchpads, now).value;
      if fault == RowWriteFails(i) {
        return None;
      }
      WriteLoopStep(base, raws, i, rockets, launchpads, now);
      written := Upsert(written, row);
      i := i + 1;
    }
    assert raws[..i] == raws;
    return Some(written);
  }

  class Tracker {
    var launches: LaunchTable
    var metadata: MetadataTable

    /** The stored rows are those a sync writes. */
    ghost predicate Valid()
      reads this
    {
      WellFormedTable(launches)
    }

    /** A tracker on a new database file: both tables exist and are empty. */
    constructor ()
      ensures Valid()
      ensures launches == map[] && metadata == map[]
    {
      launches := map[];
      metadata := map[];
    }

    /** `get_cache_last_updated`: the stamp of the key, None when it has no row. */
    function CacheLastUpdated(key: string): (stamp: Option<int>)
      reads this
      ensures stamp.None? <==> key !in metadata
      ensures stamp.Some? ==> stamp.value == metadata[key].lastUpdated
    {
      if key in metadata then Some(metadata[key].lastUpdated) else None
    }

    /** `_update_cache_metadata`: overwrites the key's row (last write wins). */
    method UpdateCacheMetadata(key: string, now: int, data: Option<string>)
      requires Valid()
      modifies this
      ensures Valid()
      ensures metadata == old(metadata)[key := CacheEntry(now, data)]
      ensures launches == old(launches)
    {
      metadata := metadata[key := CacheEntry(now, data)];
    }

    /** `fetch_launches(force_refresh)` at clock reading `now`. When the cache is
        fresh and no refresh is forced, nothing happens and the result is true.
        Otherwise the rows are committed only when all three responses arrived,
        every launch yields a row and no write fails, and the stamp is written
        only after that commit; the result is true only when both happened. */
    method FetchLaunches(forceRefresh: bool, now: int, api: ApiResponses, fault: StorageFault) returns (ok: bool)
      requires Valid()
      modifies this
      ensures Valid()
      ensures !forceRefresh && !ShouldRefresh(old(metadata), LAUNCHES_KEY, now, DEFAULT_MAX_AGE_HOURS) ==>
        ok && launches == old(launches) && metadata == old(metadata)
      ensures forceRefresh || ShouldRefresh(old(metadata), LAUNCHES_KEY, now, DEFAULT_MAX_AGE_HOURS) ==>
        var batch := PrepareSync(api, now);
        && ok == SyncSucceeds(batch, fault)
        && launches == (if RowsCommitted(batch, fault) then UpsertAll(old(launches), batch.value) else old(launches))
        && metadata == (if ok then old(metadata)[LAUNCHES_KEY := CacheEntry(now, None)] else old(metadata))
      ensures !ok ==> metadata == old(metadata)
      ensures metadata != old(metadata) ==> ok && launches == UpsertAll(old(launches), PrepareSync(api, now).value)
    {
      if !forceRefresh && !ShouldRefresh(metadata, LAUNCHES_KEY, now, DEFAULT_MAX_AGE_HOURS) {
        return true;
      }
      if api.launches.RequestFailed? || api.rockets.RequestFailed? || api.launchpads.RequestFailed? {
        return false;
      }
      var rockets := BuildLookup(api.rockets.items);
      var launchpads := BuildLookup(api.launchpads.items);
      if rockets.None? || launchpads.None? {
        return false;
      }
      var pending := WriteRows(launches, api.launches.items, rockets.value, launchpads.value, now, fault);
      WrittenIsBatchUpsert(launches, api.launches.items, rockets.value, launchpads.value, now, fault);
      if pending.None? {
        return false;
      }
      if fault.CommitFails? {
        return false;
      }
      PreparedRowsWellFormed(launches, api, now);
      launches := pending.value;
      if fault.MetadataWriteFails? {
        return false;
      }
      UpdateCacheMetadata(LAUNCHES_KEY, now, None);
      ok := true;
    }

    /** `get_recent_launches(limit)`: the latest `limit` launches, newest first
        (every row when the limit is negative, as SQLite's LIMIT -1). */
    method GetRecentLaunches(limit: int) returns (recent: seq<RecentLaunch>, ghost ids: seq<string>)
      ensures ByDateDescending(launches, ids) && Distinct(ids)
      ensures |ids| == (if limit < 0 || |launches| <= limit then |launches| else limit)
      ensures |recent| == |ids|
      ensures forall i :: 0 <= i < |ids| ==> recent[i] == Recent(launches[ids[i]])
      ensures forall id, i :: id in launches && id !in ids && 0 <= i < |ids| ==>
        launches[id].dateUnix <= launches[ids[i]].dateUnix
    {
      var all := SelectByDateDescending(launches, _ => true);
      SelectionCoversTable(launches, all);
      var n := if limit < 0 || |all| <= limit then |all| else limit;
      ids := all[..n];
      PrefixIsLatest(launches, all, n);
      recent := [];
      var k := 0;
      while k < n
        invariant 0 <= k <= n
        invariant |recent| == k
        invariant forall i :: 0 <= i < k ==> recent[i] == Recent(launches[ids[i]])
      {
        recent := recent + [Recent(launches[all[k]])];
        k := k + 1;
      }
    }

    /** `get_launch_details(launch_id)`: None for an unknown id; otherwise the row
        as a column -> value dictionary whose JSON columns are decoded in turn. */
    method GetLaunchDetails(launchId: string) returns (details: Option<map<string, Field>>)
      ensures details.None? <==> launchId !in launches
      ensures details.Some? ==> details.value.Keys == RowFields(launches[launchId]).Keys
      ensures details.Some? ==> forall c :: c in details.value ==>
        details.value[c] == if c in JSON_FIELDS then DecodeIfPresent(RowFields(launches[launchId])[c])
                            else RowFields(launches[launchId])[c]
    {
      if launchId !in launches {
        return None;
      }
      var columns := RowFields(launches[launchId]);
      var launch := columns;
      var k := 0;
      while k < |JSON_FIELDS|
        invariant 0 <= k <= |JSON_FIELDS|
        invariant launch.Keys == columns.Keys
        invariant forall c :: c in launch ==>
          launch[c] == if c in JSON_FIELDS[..k] then DecodeIfPresent(columns[c]) else columns[c]
      {
        var field := JSON_FIELDS[k];
        if launch[field].Text? && launch[field].text.Some? && launch[field].text.value != "" {
          launch := launch[field := Decoded(launch[field].text.value)];
        }
        assert JSON_FIELDS[..k + 1] == JSON_FIELDS[..k] + [field];
        k := k + 1;
      }
      assert JSON_FIELDS[..k] == JSON_FIELDS;
      details := Some(launch);
    }
  }
}

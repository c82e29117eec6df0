/** What the sync receives from the remote API and how it turns it into rows of
    the `launches` table: the rocket and launchpad name lookups, the outcome
    encoding, name resolution and the per-launch row. Transport is not modelled:
    each of the three requests either fails or yields a decoded JSON list. */
module SyncInput {
  import opened Values
  import opened LaunchStore

  /** One element of the launches list. `id` is None when the key is absent;
      the other members distinguish an absent key from a JSON null. crew,
      payloads, failures and links carry their JSON text. */
  datatype RawLaunch = RawLaunch(
    id: Option<string>,
    name: Json<string>,
    dateUtc: Json<string>,
    dateUnix: Json<int>,
    success: Json<bool>,
    details: Json<string>,
    rocket: Json<string>,
    launchpad: Json<string>,
    crew: Json<string>,
    payloads: Json<string>,
    failures: Json<string>,
    links: Json<string>)

  /** One element of the rockets or launchpads list: an id and a display name,
      each absent, null or present. */
  datatype RawReference = RawReference(id: Json<string>, name: Json<string>)

  /** The outcome of one request: a failure (a request that raises, an error
      status on the launches request, or a body the code cannot read) or the
      decoded list. The rockets and launchpads bodies are read whatever their
      status. */
  datatype Fetched<T> = RequestFailed | Received(items: seq<T>)

  /** The three responses one sync works from. */
  datatype ApiResponses = ApiResponses(
    launches: Fetched<RawLaunch>,
    rockets: Fetched<RawReference>,
    launchpads: Fetched<RawReference>)

  /** id -> display name. A JSON null id is the key None, a JSON null name the
      value None. */
  type NameLookup = map<Option<string>, Option<string>>

  /** The `success` column written for a raw flag: 1 for true, 0 for false, NULL
      when the flag is absent or null. */
  function EncodeSuccess(flag: Json<bool>): (code: Option<int>)
    ensures IsOutcomeCode(code)
    ensures code == Some(1) <==> flag == Present(true)
    ensures code == Some(0) <==> flag == Present(false)
    ensures code == None <==> !flag.Present?
  {
    match flag
    case Present(b) => if b then Some(1) else Some(0)
    case _ => None
  }

  /** The dict keys a reference list gives: its ids, a null id as None. */
  function ReferenceIds(refs: seq<RawReference>): set<Option<string>> {
    set i | 0 <= i < |refs| :: Get(refs[i].id)
  }

  /** A reference the dict comprehension can read: both keys exist (either may
      hold null). */
  predicate Readable(ref: RawReference) {
    !ref.id.Missing? && !ref.name.Missing?
  }

  /** `{r['id']: r['name'] for r in refs}`: fails when any element lacks a key;
      a later element overrides an earlier one with the same id. */
  function BuildLookup(refs: seq<RawReference>): (r: Option<NameLookup>)
    ensures r.Some? <==> forall i :: 0 <= i < |refs| ==> Readable(refs[i])
    ensures r.Some? ==> r.value.Keys == ReferenceIds(refs)
    decreases |refs|
  {
    if refs == [] then Some(map[])
    else
      var front := refs[..|refs| - 1];
      var last := refs[|refs| - 1];
      assert forall i :: 0 <= i < |front| ==> front[i] == refs[i];
      match BuildLookup(front)
      case None => None
      case Some(m) =>
        if Readable(last) then
          assert ReferenceIds(refs) == ReferenceIds(front) + {Get(last.id)} by {
            forall x | x in ReferenceIds(refs) ensures x in ReferenceIds(front) + {Get(last.id)} {
              var i :| 0 <= i < |refs| && Get(refs[i].id) == x;
              if i < |front| {
                assert Get(front[i].id) == x;
              }
            }
          }
          Some(m[Get(last.id) := Get(last.name)])
        else None
  }

  /** The lookup holds, for each id, the name of the last reference carrying it. */
  lemma {:induction false} LookupLastWins(refs: seq<RawReference>, i: int)
    requires BuildLookup(refs).Some?
    requires 0 <= i < |refs|
    requires forall j :: i < j < |refs| ==> Get(refs[j].id) != Get(refs[i].id)
    ensures Get(refs[i].id) in BuildLookup(refs).value
    ensures BuildLookup(refs).value[Get(refs[i].id)] == Get(refs[i].name)
    decreases |refs|
  {
    var front := refs[..|refs| - 1];
    assert forall k :: 0 <= k < |front| ==> front[k] == refs[k];
    if i < |refs| - 1 {
      LookupLastWins(front, i);
    }
  }

  /** `names.get(launch.get(field))`: an absent or null reference reads as None,
      which finds the name of a reference with a null id if there is one; an id
      the lookup does not know gives None. */
  function ResolveName(names: NameLookup, ref: Json<string>): (name: Option<string>)
    ensures ref.Present? && Some(ref.value) in names ==> name == names[Some(ref.value)]
    ensures !ref.Present? && None in names ==> name == names[None]
    ensures Get(ref) !in names ==> name == None
    ensures name.Some? ==> Get(ref) in names
  {
    if Get(ref) in names then names[Get(ref)] else None
  }

  /** `json.dumps(launch.get(field, default))` where the member holds JSON text:
      the default's text when the member is absent, `null` when it is null. */
  function Dumped(doc: Json<string>, default: string): (text: string)
    ensures doc.Missing? ==> text == default
    ensures doc.Null? ==> text == "null"
    ensures doc.Present? ==> text == doc.value
  {
    match doc
    case Missing => default
    case Null => "null"
    case Present(text) => text
  }

  /** The launch carries what the INSERT needs: `launch['id']`, `['name']`,
      `['date_utc']` and `['date_unix']` exist, and name and dates are not null
      (their columns are NOT NULL). */
  predicate Insertable(raw: RawLaunch) {
    raw.id.Some? && raw.name.Present? && raw.dateUtc.Present? && raw.dateUnix.Present?
  }

  /** The row the INSERT OR REPLACE writes for one launch, None when building it
      raises (missing key) or the insert violates a NOT NULL constraint. */
  function BuildRow(raw: RawLaunch, rockets: NameLookup, launchpads: NameLookup, now: int): (r: Option<LaunchRow>)
    ensures r.Some? <==> Insertable(raw)
    ensures r.Some? ==> r.value.id == raw.id.value && r.value.fetchedAt == now
  {
    if !Insertable(raw) then None
    else Some(LaunchRow(
      raw.id.value,
      raw.name.value,
      raw.dateUtc.value,
      raw.dateUnix.value,
      EncodeSuccess(raw.success),
      Get(raw.details),
      Get(raw.rocket),
      ResolveName(rockets, raw.rocket),
      Get(raw.launchpad),
      ResolveName(launchpads, raw.launchpad),
      Dumped(raw.crew, "[]"),
      Dumped(raw.payloads, "[]"),
      Dumped(raw.failures, "[]"),
      Dumped(raw.links, "{}"),
      now))
  }

  /** The columns of a built row: name and dates as the launch gives them,
      details, rocket and launchpad ids as `get` reads them, names from the
      lookups, the flag as 1 / 0 / NULL, and the four JSON members as their text
      with `[]` (`{}` for links) when absent and `null` when null. */
  lemma BuildRowFields(raw: RawLaunch, rockets: NameLookup, launchpads: NameLookup, now: int)
    requires Insertable(raw)
    ensures var row := BuildRow(raw, rockets, launchpads, now).value;
      && row.name == raw.name.value
      && row.dateUtc == raw.dateUtc.value
      && row.dateUnix == raw.dateUnix.value
      && row.details == Get(raw.details)
      && row.success == EncodeSuccess(raw.success)
      && row.rocketId == Get(raw.rocket)
      && row.launchpadId == Get(raw.launchpad)
      && row.rocketName == (if Get(raw.rocket) in rockets then rockets[Get(raw.rocket)] else None)
      && row.launchpadName == (if Get(raw.launchpad) in launchpads then launchpads[Get(raw.launchpad)] else None)
      && row.crew == Dumped(raw.crew, "[]")
      && row.payloads == Dumped(raw.payloads, "[]")
      && row.failures == Dumped(raw.failures, "[]")
      && row.links == Dumped(raw.links, "{}")
  {
  }

  /** Rows built from the same launch at two clock readings differ only in
      `fetched_at`. */
  lemma BuildRowClockOnly(raw: RawLaunch, rockets: NameLookup, launchpads: NameLookup, now1: int, now2: int)
    requires Insertable(raw)
    ensures SameExceptFetchedAt(BuildRow(raw, rockets, launchpads, now1).value, BuildRow(raw, rockets, launchpads, now2).value)
  {
  }

  /** The rows of the whole launches list, in list order; None as soon as one of
      them cannot be built. */
  function BuildBatch(raws: seq<RawLaunch>, rockets: NameLookup, launchpads: NameLookup, now: int): (r: Option<seq<LaunchRow>>)
    ensures r.Some? <==> forall i :: 0 <= i < |raws| ==> Insertable(raws[i])
    ensures r.Some? ==> |r.value| == |raws|
    ensures r.Some? ==> forall i :: 0 <= i < |raws| ==> Some(r.value[i]) == BuildRow(raws[i], rockets, launchpads, now)
    decreases |raws|
  {
    if raws == [] then Some([])
    else
      var front := raws[..|raws| - 1];
      assert forall i :: 0 <= i < |front| ==> front[i] == raws[i];
      match BuildBatch(front, rockets, launchpads, now)
      case None => None
      case Some(rows) =>
        match BuildRow(raws[|raws| - 1], rockets, launchpads, now)
        case None => None
        case Some(row) => Some(rows + [row])
  }

  /** Everything a sync does before it writes: all three responses arrived, both
      lookups were built and every launch yields a row. */
  function PrepareSync(api: ApiResponses, now: int): (batch: Option<seq<LaunchRow>>)
    ensures batch.Some? <==>
      && api.launches.Received? && api.rockets.Received? && api.launchpads.Received?
      && BuildLookup(api.rockets.items).Some? && BuildLookup(api.launchpads.items).Some?
      && forall i :: 0 <= i < |api.launches.items| ==> Insertable(api.launches.items[i])
    ensures batch.Some? ==>
      batch == BuildBatch(api.launches.items, BuildLookup(api.rockets.items).value, BuildLookup(api.launchpads.items).value, now)
    ensures batch.Some? ==> |batch.value| == |api.launches.items|
    ensures batch.Some? ==> forall i :: 0 <= i < |batch.value| ==> Some(batch.value[i].id) == api.launches.items[i].id
  {
    if api.launches.RequestFailed? || api.rockets.RequestFailed? || api.launchpads.RequestFailed? then None
    else
      match (BuildLookup(api.rockets.items), BuildLookup(api.launchpads.items))
      case (Some(rockets), Some(launchpads)) => BuildBatch(api.launches.items, rockets, launchpads, now)
      case _ => None
  }

  /** The batch of a sync only holds outcome codes, so it keeps the table well-formed. */
  lemma PreparedRowsWellFormed(t: LaunchTable, api: ApiResponses, now: int)
    requires WellFormedTable(t)
    requires PrepareSync(api, now).Some?
    ensures WellFormedTable(UpsertAll(t, PrepareSync(api, now).value))
  {
    var batch := PrepareSync(api, now).value;
    forall i | 0 <= i < |batch| ensures IsOutcomeCode(batch[i].success) {
      var raws := api.launches.items;
      var rockets := BuildLookup(api.rockets.items).value;
      var launchpads := BuildLookup(api.launchpads.items).value;
      assert Some(batch[i]) == BuildRow(raws[i], rockets, launchpads, now);
    }
    UpsertAllWellFormed(t, batch);
  }

  /** Two syncs of the same responses at different times: the second leaves the
      same ids, and every row equals the first sync's row except for `fetched_at`. */
  lemma RerunChangesOnlyFetchedAt(t: LaunchTable, api: ApiResponses, now1: int, now2: int)
    requires PrepareSync(api, now1).Some?
    ensures PrepareSync(api, now2).Some?
    ensures var first := UpsertAll(t, PrepareSync(api, now1).value);
      var second := UpsertAll(first, PrepareSync(api, now2).value);
      && second.Keys == first.Keys
      && forall id :: id in first ==> SameExceptFetchedAt(first[id], second[id])
  {
    var b1 := PrepareSync(api, now1).value;
    var b2 := PrepareSync(api, now2).value;
    var raws := api.launches.items;
    var rockets := BuildLookup(api.rockets.items).value;
    var launchpads := BuildLookup(api.launchpads.items).value;
    assert forall i :: 0 <= i < |raws| ==> Insertable(raws[i]);
    assert |b1| == |b2| == |raws|;
    forall i | 0 <= i < |raws|
      ensures b1[i].id == b2[i].id && SameExceptFetchedAt(b1[i], b2[i])
    {
      assert Some(b1[i]) == BuildRow(raws[i], rockets, launchpads, now1);
      assert Some(b2[i]) == BuildRow(raws[i], rockets, launchpads, now2);
      BuildRowClockOnly(raws[i], rockets, launchpads, now1, now2);
    }
    assert BatchIds(b1) == BatchIds(b2) by {
      forall x ensures x in BatchIds(b1) <==> x in BatchIds(b2) {
        if x in BatchIds(b1) {
          var i :| 0 <= i < |b1| && b1[i].id == x;
          assert b2[i].id == x;
        }
        if x in BatchIds(b2) {
          var i :| 0 <= i < |b2| && b2[i].id == x;
          assert b1[i].id == x;
        }
      }
    }
    var first := UpsertAll(t, b1);
    var second := UpsertAll(first, b2);
    UpsertAllKeys(t, b1);
    UpsertAllKeys(first, b2);
    forall id | id in first ensures SameExceptFetchedAt(first[id], second[id]) {
      UpsertAllAt(t, b1, id);
      UpsertAllAt(first, b2, id);
      if id in BatchIds(b1) {
        LastWithCorresponds(b1, b2, id);
      }
    }
  }

  /** Two batches that agree element by element except for `fetched_at` pick
      corresponding last rows for every id. */
  lemma {:induction false} LastWithCorresponds(b1: seq<LaunchRow>, b2: seq<LaunchRow>, id: string)
    requires |b1| == |b2|
    requires forall i :: 0 <= i < |b1| ==> b1[i].id == b2[i].id && SameExceptFetchedAt(b1[i], b2[i])
    requires id in BatchIds(b1) && id in BatchIds(b2)
    ensures SameExceptFetchedAt(LastWith(b1, id), LastWith(b2, id))
    decreases |b1|
  {
    BatchIdsSnoc(b1);
    BatchIdsSnoc(b2);
    var n := |b1| - 1;
    if b1[n].id != id {
      LastWithCorresponds(b1[..n], b2[..n], id);
    }
  }

  /** Syncing a launches list with pairwise distinct ids into an empty table
      stores exactly one row per launch. */
  lemma SyncFromEmptyRowCount(api: ApiResponses, now: int)
    requires PrepareSync(api, now).Some?
    requires forall i, j :: 0 <= i < j < |api.launches.items| ==> api.launches.items[i].id != api.launches.items[j].id
    ensures |UpsertAll(map[], PrepareSync(api, now).value)| == |api.launches.items|
  {
    var batch := PrepareSync(api, now).value;
    var raws := api.launches.items;
    assert forall i :: 0 <= i < |raws| ==> Insertable(raws[i]) by {
      var rockets := BuildLookup(api.rockets.items).value;
      var launchpads := BuildLookup(api.launchpads.items).value;
      assert BuildBatch(raws, rockets, launchpads, now).Some?;
    }
    forall i, j | 0 <= i < j < |batch| ensures batch[i].id != batch[j].id {
      assert raws[i].id != raws[j].id;
    }
    UpsertAllFromEmptySize(batch);
  }
}

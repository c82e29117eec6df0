/** The statistics of a table filled by one sync into an empty store, stated in
    terms of the launches list the API returned: the stored outcome counts are
    the numbers of launches with each flag, so the success rate is the share of
    launches the API reports as succeeded. */
module SyncedStatistics {
  import opened Values
  import opened LaunchStore
  import opened SyncInput
  import opened Statistics

  /** The rows of a batch whose `success` column holds `v`. */
  function CountOutcome(rows: seq<LaunchRow>, v: Option<int>): nat
    decreases |rows|
  {
    if rows == [] then 0
    else CountOutcome(rows[..|rows| - 1], v) + (if rows[|rows| - 1].success == v then 1 else 0)
  }

  /** The launches of the list whose `success` member is present and equal to `b`. */
  function CountFlag(raws: seq<RawLaunch>, b: bool): nat
    decreases |raws|
  {
    if raws == [] then 0
    else CountFlag(raws[..|raws| - 1], b) + (if raws[|raws| - 1].success == Present(b) then 1 else 0)
  }

  /** Adding a row under a new id adds it to its outcome class and nowhere else. */
  lemma WithOutcomeUpsertNew(t: LaunchTable, row: LaunchRow, v: Option<int>)
    requires row.id !in t
    ensures var u := Upsert(t, row);
      |WithOutcome(u, u.Keys, v)| == |WithOutcome(t, t.Keys, v)| + (if row.success == v then 1 else 0)
  {
    var u := Upsert(t, row);
    var before := WithOutcome(t, t.Keys, v);
    var added: set<string> := if row.success == v then {row.id} else {};
    assert WithOutcome(u, u.Keys, v) == before + added;
    assert before * added == {};
  }

  /** Upserting rows with pairwise distinct ids into an empty table stores each
      outcome class with as many rows as the batch has. */
  lemma {:induction false} OutcomesFromEmpty(rows: seq<LaunchRow>, v: Option<int>)
    requires forall i, j :: 0 <= i < j < |rows| ==> rows[i].id != rows[j].id
    ensures var t := UpsertAll(map[], rows);
      |WithOutcome(t, t.Keys, v)| == CountOutcome(rows, v)
    decreases |rows|
  {
    if rows != [] {
      var front := rows[..|rows| - 1];
      var last := rows[|rows| - 1];
      OutcomesFromEmpty(front, v);
      UpsertAllKeys(map[], front);
      assert last.id !in BatchIds(front);
      WithOutcomeUpsertNew(UpsertAll(map[], front), last, v);
    }
  }

  /** The batch of a launches list holds one row with success = 1 per launch the
      API reports as succeeded. */
  lemma {:induction false} SucceededRows(raws: seq<RawLaunch>, rockets: NameLookup, launchpads: NameLookup, now: int)
    requires BuildBatch(raws, rockets, launchpads, now).Some?
    ensures CountOutcome(BuildBatch(raws, rockets, launchpads, now).value, Some(1)) == CountFlag(raws, true)
    decreases |raws|
  {
    if raws != [] {
      var front := raws[..|raws| - 1];
      var rows := BuildBatch(front, rockets, launchpads, now).value;
      var row := BuildRow(raws[|raws| - 1], rockets, launchpads, now).value;
      SucceededRows(front, rockets, launchpads, now);
      assert (rows + [row])[..|rows|] == rows;
    }
  }

  /** A sync of a launches list with pairwise distinct ids into an empty store
      yields the success rate of the list itself: the launches flagged as
      succeeded over all launches. */
  lemma SyncedSuccessRate(api: ApiResponses, now: int)
    requires PrepareSync(api, now).Some?
    requires forall i, j :: 0 <= i < j < |api.launches.items| ==> api.launches.items[i].id != api.launches.items[j].id
    ensures var s := LaunchStatistics(UpsertAll(map[], PrepareSync(api, now).value));
      && s.total == |api.launches.items|
      && s.successful == CountFlag(api.launches.items, true)
      && s.successRate == SuccessRate(CountFlag(api.launches.items, true), |api.launches.items|)
  {
    var batch := PrepareSync(api, now).value;
    var raws := api.launches.items;
    var rockets := BuildLookup(api.rockets.items).value;
    var launchpads := BuildLookup(api.launchpads.items).value;
    assert BuildBatch(raws, rockets, launchpads, now) == Some(batch);
    SyncFromEmptyRowCount(api, now);
    forall i, j | 0 <= i < j < |batch| ensures batch[i].id != batch[j].id {
      assert raws[i].id != raws[j].id;
    }
    OutcomesFromEmpty(batch, Some(1));
    SucceededRows(raws, rockets, launchpads, now);
  }
}

/** The two SQLite tables of the tracker as maps, INSERT OR REPLACE on the
    `launches` table, and the ordered scan behind every `ORDER BY date_unix DESC`
    query. */
module LaunchStore {
  import opened Values

  /** One row of the `launches` table. `success` is the INTEGER column: 1, 0 or
      NULL as written by the sync. crew, payloads, failures and links hold JSON
      text that the model treats as opaque. Timestamps are seconds. */
  datatype LaunchRow = LaunchRow(
    id: string,
    name: string,
    dateUtc: string,
    dateUnix: int,
    success: Option<int>,
    details: Option<string>,
    rocketId: Option<string>,
    rocketName: Option<string>,
    launchpadId: Option<string>,
    launchpadName: Option<string>,
    crew: string,
    payloads: string,
    failures: string,
    links: string,
    fetchedAt: int)

  /** `launches`, keyed by the primary key `id`. */
  type LaunchTable = map<string, LaunchRow>

  /** One row of `cache_metadata`: the time of the last successful sync of the
      key and an optional payload. */
  datatype CacheEntry = CacheEntry(lastUpdated: int, data: Option<string>)

  /** `cache_metadata`, keyed by the cache key. */
  type MetadataTable = map<string, CacheEntry>

  /** The encodings the sync writes into `success`. */
  predicate IsOutcomeCode(v: Option<int>) {
    v == None || v == Some(0) || v == Some(1)
  }

  /** Every row sits under its own id and holds an outcome code. */
  predicate WellFormedTable(t: LaunchTable) {
    forall id :: id in t ==> t[id].id == id && IsOutcomeCode(t[id].success)
  }

  /** Two rows that differ at most in the audit column `fetched_at`. */
  predicate SameExceptFetchedAt(a: LaunchRow, b: LaunchRow) {
    a.(fetchedAt := 0) == b.(fetchedAt := 0)
  }

  // ---------------------------------------------------------------------------
  // INSERT OR REPLACE

  /** INSERT OR REPLACE of one row: replaces any row with the same id. */
  function Upsert(t: LaunchTable, row: LaunchRow): (r: LaunchTable)
    ensures r.Keys == t.Keys + {row.id}
    ensures r[row.id] == row
    ensures forall id :: id in t && id != row.id ==> r[id] == t[id]
  {
    t[row.id := row]
  }

  /** INSERT OR REPLACE of a batch, one row after the other in batch order. */
  function UpsertAll(t: LaunchTable, rows: seq<LaunchRow>): (r: LaunchTable)
    ensures t.Keys <= r.Keys
    ensures rows != [] ==> rows[|rows| - 1].id in r && r[rows[|rows| - 1].id] == rows[|rows| - 1]
    decreases |rows|
  {
    if rows == [] then t
    else Upsert(UpsertAll(t, rows[..|rows| - 1]), rows[|rows| - 1])
  }

  /** Writing one more row after a batch is the batch extended by that row. */
  lemma UpsertAllSnoc(t: LaunchTable, rows: seq<LaunchRow>, row: LaunchRow)
    ensures UpsertAll(t, rows + [row]) == Upsert(UpsertAll(t, rows), row)
  {
    assert (rows + [row])[..|rows|] == rows;
  }

  /** The ids a batch writes. */
  function BatchIds(rows: seq<LaunchRow>): set<string> {
    set i | 0 <= i < |rows| :: rows[i].id
  }

  lemma BatchIdsSnoc(rows: seq<LaunchRow>)
    requires rows != []
    ensures BatchIds(rows) == BatchIds(rows[..|rows| - 1]) + {rows[|rows| - 1].id}
  {
    var front := rows[..|rows| - 1];
    forall id | id in BatchIds(rows) ensures id in BatchIds(front) + {rows[|rows| - 1].id} {
      var i :| 0 <= i < |rows| && rows[i].id == id;
      if i < |rows| - 1 {
        assert front[i].id == id;
      }
    }
  }

  /** The row of the batch that the last write under `id` puts in the table. */
  function LastWith(rows: seq<LaunchRow>, id: string): (r: LaunchRow)
    requires id in BatchIds(rows)
    ensures r.id == id && r in rows
    decreases |rows|
  {
    BatchIdsSnoc(rows);
    if rows[|rows| - 1].id == id then rows[|rows| - 1]
    else
      var front := rows[..|rows| - 1];
      var r := LastWith(front, id);
      assert r in rows by {
        var i :| 0 <= i < |front| && front[i] == r;
        assert rows[i] == r;
      }
      r
  }

  /** LastWith picks the batch element after which no element has the same id. */
  lemma {:induction false} LastWithIsLast(rows: seq<LaunchRow>, i: int)
    requires 0 <= i < |rows|
    requires forall j :: i < j < |rows| ==> rows[j].id != rows[i].id
    ensures rows[i].id in BatchIds(rows)
    ensures LastWith(rows, rows[i].id) == rows[i]
    decreases |rows|
  {
    assert rows[i].id in BatchIds(rows);
    if i < |rows| - 1 {
      var front := rows[..|rows| - 1];
      assert front[i] == rows[i];
      LastWithIsLast(front, i);
    }
  }

  /** What a batch upsert leaves under each id: the last batch row with that id,
      otherwise the old row. */
  lemma {:induction false} UpsertAllAt(t: LaunchTable, rows: seq<LaunchRow>, id: string)
    ensures id in UpsertAll(t, rows) <==> id in t || id in BatchIds(rows)
    ensures id in BatchIds(rows) ==> UpsertAll(t, rows)[id] == LastWith(rows, id)
    ensures id !in BatchIds(rows) && id in t ==> UpsertAll(t, rows)[id] == t[id]
    decreases |rows|
  {
    if rows != [] {
      BatchIdsSnoc(rows);
      UpsertAllAt(t, rows[..|rows| - 1], id);
    }
  }

  /** The key set after a batch upsert is the old key set plus the batch ids. */
  lemma UpsertAllKeys(t: LaunchTable, rows: seq<LaunchRow>)
    ensures UpsertAll(t, rows).Keys == t.Keys + BatchIds(rows)
  {
    forall id ensures id in UpsertAll(t, rows) <==> id in t || id in BatchIds(rows) {
      UpsertAllAt(t, rows, id);
    }
  }

  /** Running the same batch again changes nothing. */
  lemma UpsertAllIdempotent(t: LaunchTable, rows: seq<LaunchRow>)
    ensures UpsertAll(UpsertAll(t, rows), rows) == UpsertAll(t, rows)
  {
    var once := UpsertAll(t, rows);
    var twice := UpsertAll(once, rows);
    UpsertAllKeys(t, rows);
    UpsertAllKeys(once, rows);
    forall id | id in twice ensures twice[id] == once[id] {
      UpsertAllAt(t, rows, id);
      UpsertAllAt(once, rows, id);
    }
  }

  /** Upserting a batch with pairwise distinct ids into an empty table gives one
      row per batch element. */
  lemma {:induction false} UpsertAllFromEmptySize(rows: seq<LaunchRow>)
    requires forall i, j :: 0 <= i < j < |rows| ==> rows[i].id != rows[j].id
    ensures |UpsertAll(map[], rows)| == |rows|
    decreases |rows|
  {
    if rows != [] {
      var front := rows[..|rows| - 1];
      UpsertAllFromEmptySize(front);
      UpsertAllKeys(map[], front);
      assert rows[|rows| - 1].id !in BatchIds(front);
    }
  }

  /** A batch of well-formed rows keeps the table well-formed. */
  lemma {:induction false} UpsertAllWellFormed(t: LaunchTable, rows: seq<LaunchRow>)
    requires WellFormedTable(t)
    requires forall i :: 0 <= i < |rows| ==> IsOutcomeCode(rows[i].success)
    ensures WellFormedTable(UpsertAll(t, rows))
    decreases |rows|
  {
    if rows != [] {
      UpsertAllWellFormed(t, rows[..|rows| - 1]);
    }
  }

  // ---------------------------------------------------------------------------
  // SELECT ... ORDER BY date_unix DESC

  /** `ids` name rows of `t`, later launches first. Rows with equal `date_unix`
      may come in any order: SQLite does not fix one. */
  predicate ByDateDescending(t: LaunchTable, ids: seq<string>) {
    && (forall i :: 0 <= i < |ids| ==> ids[i] in t)
    && (forall i, j :: 0 <= i < j < |ids| ==> t[ids[j]].dateUnix <= t[ids[i]].dateUnix)
  }

  predicate Distinct(ids: seq<string>) {
    forall i, j :: 0 <= i < j < |ids| ==> ids[i] != ids[j]
  }

  /** In a list by date descending, no later entry was launched after the head. */
  lemma HeadIsLatest(t: LaunchTable, ids: seq<string>)
    requires ByDateDescending(t, ids) && ids != []
    ensures forall x :: x in ids[1..] ==> t[x].dateUnix <= t[ids[0]].dateUnix
  {
    forall x | x in ids[1..] ensures t[x].dateUnix <= t[ids[0]].dateUnix {
      var j :| 0 <= j < |ids[1..]| && ids[1..][j] == x;
      assert ids[j + 1] == x;
    }
  }

  /** Putting in front a row launched no earlier than any listed one, and not
      listed yet, keeps the list by date descending and duplicate-free. */
  lemma ConsLatest(t: LaunchTable, head: string, rest: seq<string>)
    requires ByDateDescending(t, rest) && Distinct(rest)
    requires head in t && head !in rest
    requires forall k :: 0 <= k < |rest| ==> t[rest[k]].dateUnix <= t[head].dateUnix
    ensures ByDateDescending(t, [head] + rest) && Distinct([head] + rest)
  {
    var r := [head] + rest;
    assert forall k :: 0 < k < |r| ==> r[k] == rest[k - 1];
  }

  /** Places `id` in front of the first row launched strictly before it. */
  function InsertByDate(t: LaunchTable, ids: seq<string>, id: string): (r: seq<string>)
    requires ByDateDescending(t, ids) && Distinct(ids)
    requires id in t && id !in ids
    ensures |r| == |ids| + 1
    ensures forall x :: x in r <==> x == id || x in ids
    ensures ByDateDescending(t, r) && Distinct(r)
  {
    if ids == [] then [id]
    else if t[ids[0]].dateUnix < t[id].dateUnix then
      ConsLatest(t, id, ids);
      [id] + ids
    else
      var rest := InsertByDate(t, ids[1..], id);
      HeadIsLatest(t, ids);
      assert forall k :: 0 <= k < |rest| ==> rest[k] in rest;
      ConsLatest(t, ids[0], rest);
      [ids[0]] + rest
  }

  /** SELECT id FROM launches WHERE keep ORDER BY date_unix DESC: one pass over
      the table in an unspecified order, each kept row inserted by date. */
  method SelectByDateDescending(t: LaunchTable, keep: LaunchRow -> bool) returns (ids: seq<string>)
    ensures ByDateDescending(t, ids) && Distinct(ids)
    ensures forall id :: id in ids <==> id in t && keep(t[id])
  {
    ids := [];
    var unseen := t.Keys;
    while unseen != {}
      invariant unseen <= t.Keys
      invariant ByDateDescending(t, ids) && Distinct(ids)
      invariant forall id :: id in ids <==> id in t && id !in unseen && keep(t[id])
      decreases |unseen|
    {
      var id :| id in unseen;
      if keep(t[id]) {
        ids := InsertByDate(t, ids, id);
      }
      unseen := unseen - {id};
    }
  }

  /** A sequence with distinct elements has as many elements as its set. */
  lemma {:induction false} DistinctSize(ids: seq<string>)
    requires Distinct(ids)
    ensures |set x | x in ids| == |ids|
    decreases |ids|
  {
    if ids != [] {
      var rest := ids[1..];
      DistinctSize(rest);
      assert (set x | x in ids) == {ids[0]} + (set x | x in rest);
      assert ids[0] !in rest;
    }
  }

  /** A scan that keeps every row lists each row of the table exactly once. */
  lemma SelectionCoversTable(t: LaunchTable, all: seq<string>)
    requires Distinct(all)
    requires forall id :: id in all <==> id in t
    ensures |all| == |t|
  {
    assert (set x | x in all) == t.Keys;
    DistinctSize(all);
  }

  /** The first `n` rows of a full scan by date descending are the `n` latest,
      still in order: no row left out was launched after any row kept. */
  lemma PrefixIsLatest(t: LaunchTable, all: seq<string>, n: int)
    requires ByDateDescending(t, all) && Distinct(all)
    requires forall id :: id in all <==> id in t
    requires 0 <= n <= |all|
    ensures ByDateDescending(t, all[..n]) && Distinct(all[..n])
    ensures forall id, i :: id in t && id !in all[..n] && 0 <= i < n ==> t[id].dateUnix <= t[all[i]].dateUnix
  {
    var kept := all[..n];
    assert forall m :: 0 <= m < n ==> kept[m] == all[m];
    forall id, i | id in t && id !in kept && 0 <= i < n
      ensures t[id].dateUnix <= t[all[i]].dateUnix
    {
      var j :| 0 <= j < |all| && all[j] == id;
      assert forall m :: 0 <= m < n ==> all[m] in kept;
    }
  }
}

# SpaceX launch tracker — a Dafny model

The tracker keeps a local SQLite cache of SpaceX launches. A sync pulls
three lists from the SpaceX REST API: launches, rockets and launchpads. It
resolves rocket and launchpad names, writes one row per launch with
INSERT OR REPLACE, commits, and then stamps a `cache_metadata` row. A
freshness policy decides whether a sync is due. Queries over the cached
rows produce outcome statistics and breakdowns, the latest launches, and
the full record of a single launch. A web front end shows the launch
table with status labels and filters, builds dropdown options, and draws
top-10 charts of rockets and launch sites.

The model works as follows:

- The two tables are Dafny maps. `launches` maps an id to a `LaunchRow`.
  `cache_metadata` maps a key to a `CacheEntry`. Timestamps are integer
  seconds.
- The tracker object is the class `Tracker.Tracker`. It owns both maps.
- The sync, the metadata write, and the per-field decode loop of
  `get_launch_details` are methods on that class.
- The clock reading, the three API responses and a failing write during a
  sync (`StorageFault`) are parameters.
- Every `ORDER BY date_unix DESC` query is one method. It scans the map in
  an unspecified order and inserts each kept row by date. Rows with equal
  dates come out in no fixed order, as in SQLite.
- Statistics and chart selections are functions over the table. The
  lemmas beside them prove the partitions, sums, orders and bounds the
  code relies on.

Modules:

- `Values`: SQL NULL and JSON member states.
- `LaunchStore`: the tables, INSERT OR REPLACE and the date-ordered scan.
- `Freshness`: the refresh decision.
- `SyncInput`: the API data and row building.
- `Tracker`: the class and the INSERT loop.
- `TextOrder`: SQLite's BINARY text order and sorting.
- `Ranking`: ranking by count and top-n.
- `Statistics`: `get_launch_statistics`.
- `SyncedStatistics`: statistics after a sync into an empty store.
- `App`: the front-end logic.

Four behaviours of the code are easy to expect otherwise, and the model keeps them as written:

- The refresh decision consults only the metadata timestamp. An empty
  `launches` table with a recent stamp is not due.
- The count-descending orders of `by_rocket` and of the charts have no
  tie-break. The model fixes no order among equal counts.
- `by_month` lists every month that has launches. The comment at
  src/spacex_tracker.py:237 says "last 12 months", but the query has no
  LIMIT and no WHERE, and `Statistics.ByPeriod` lists them all.
- A sync is not all-or-nothing once the rows are committed. When the
  metadata write after the commit fails (src/spacex_tracker.py:190-202),
  the rows stay committed and `fetch_launches` returns False;
  `Tracker.Tracker.FetchLaunches` states this.

## Model

| member | source | states |
|---|---|---|
| Values.Get | src/spacex_tracker.py:178-182 | `launch.get(field)`: absent and null members both read as None, a present member as its value |
| Freshness.ShouldRefresh | src/spacex_tracker.py:70-93 | due when the key has no metadata row, otherwise exactly when the stamp is more than `max_age_hours` hours before now |
| Freshness.MaxAgeBoundary | src/spacex_tracker.py:93 | the comparison is strict: a stamp exactly max-age old is fresh, one second older is due |
| Freshness.DueStaysDue | src/spacex_tracker.py:89-93 | with unchanged metadata, a due key stays due as the clock advances |
| Freshness.FreshAfterStamp | src/spacex_tracker.py:105-108 | after the key is stamped at t, it is fresh for every clock reading in [t, t + max age] |
| Freshness.DefaultMaxAgeIsOneDay | src/spacex_tracker.py:70-93 | with the default of 24 hours, a stamp exactly 86400 seconds old is fresh and one 86401 seconds old is due |
| LaunchStore.Upsert | src/spacex_tracker.py:168-171 | INSERT OR REPLACE of one row: key set gains the id, the id maps to the new row, every other row is unchanged |
| LaunchStore.UpsertAll | src/spacex_tracker.py:167-188 | a batch upsert keeps every old id, and the batch's last row is stored under its id |
| LaunchStore.UpsertAllSnoc | src/spacex_tracker.py:167-188 | writing one more row after a batch equals upserting it into the batch's result |
| LaunchStore.LastWith | src/spacex_tracker.py:167-188 | for a batch id, a batch row with that id, the last one written |
| LaunchStore.LastWithIsLast | src/spacex_tracker.py:167-188 | LastWith picks the batch row after which no row repeats the id |
| LaunchStore.UpsertAllAt | src/spacex_tracker.py:167-188 | after a batch, an id is present iff it was present or is in the batch; a batch id holds the last batch row with it; any other id keeps its old row |
| LaunchStore.UpsertAllKeys | src/spacex_tracker.py:167-188 | the key set after a batch is the old key set plus the batch ids |
| LaunchStore.UpsertAllIdempotent | src/spacex_tracker.py:167-188 | writing the same batch twice gives the same table as writing it once |
| LaunchStore.UpsertAllFromEmptySize | test/test_spacex_core.py:44-56 | a batch with pairwise distinct ids written into an empty table gives one row per batch element |
| LaunchStore.UpsertAllWellFormed | src/spacex_tracker.py:177 | rows holding only the codes 1, 0 or NULL keep the table well-formed |
| LaunchStore.InsertByDate | src/spacex_tracker.py:317 | inserting an unlisted row into a date-descending duplicate-free list keeps it date-descending and duplicate-free, adding exactly that row |
| LaunchStore.SelectByDateDescending | src/spacex_tracker.py:314-319 | `SELECT ... WHERE keep ORDER BY date_unix DESC`: exactly the kept rows, each once, later launches first |
| LaunchStore.SelectionCoversTable | src/spacex_tracker.py:314-319 | an unfiltered scan lists as many ids as the table has rows |
| LaunchStore.PrefixIsLatest | src/spacex_tracker.py:317-318 | the first n ids of the full scan are still ordered and distinct, and no row left out was launched after a kept one |
| SyncInput.EncodeSuccess | src/spacex_tracker.py:177 | a true flag is stored as 1, false as 0, an absent or null flag as NULL |
| SyncInput.BuildLookup | src/spacex_tracker.py:157-162 | the id -> name dict exists iff every reference has both keys (either may be null); its keys are the reference ids, a null id as None |
| SyncInput.LookupLastWins | src/spacex_tracker.py:158 | a later reference with the same id overrides an earlier one |
| SyncInput.ResolveName | src/spacex_tracker.py:180 | `names.get(launch.get(ref))`: the lookup value for a known id; an absent or null reference finds the name stored under a null id, if any; NULL when the lookup has no such key |
| SyncInput.Dumped | src/spacex_tracker.py:183-186 | `json.dumps(launch.get(field, default))` of a JSON member: the default when absent, `null` when null, the member's text when present |
| SyncInput.BuildRow | src/spacex_tracker.py:172-188 | a launch yields a row iff its id, name, date_utc and date_unix are present and non-null; the row carries that id and the clock reading |
| SyncInput.BuildRowFields | src/spacex_tracker.py:173-186 | name, date_utc and date_unix are the launch's values, details as `get` reads it; the outcome code is the encoded flag; rocket and launchpad ids are stored verbatim and their names come from the lookups or are NULL; crew, payloads and failures are their text, `[]` when absent, `null` when null; links likewise with `{}` |
| SyncInput.BuildRowClockOnly | src/spacex_tracker.py:187 | rows built from one launch at two clock readings differ only in `fetched_at` |
| SyncInput.BuildBatch | src/spacex_tracker.py:167-188 | the rows of the list exist iff every launch is insertable; they are one per launch, in list order |
| SyncInput.PrepareSync | src/spacex_tracker.py:144-188 | a batch exists iff all three responses arrived, both lookups can be built and every launch is insertable; it is then the batch of the launches list under those lookups: one row per launch, carrying the launch id |
| SyncInput.PreparedRowsWellFormed | src/spacex_tracker.py:167-190 | a sync's batch keeps the table well-formed |
| SyncInput.RerunChangesOnlyFetchedAt | src/spacex_tracker.py:167-190 | re-running a sync of the same responses keeps the ids and changes each row at most in `fetched_at` |
| SyncInput.SyncFromEmptyRowCount | test/test_spacex_core.py:44-56 | a sync of launches with distinct ids into an empty store stores exactly one row per launch |
| Tracker.DecodeIfPresent | src/spacex_tracker.py:354-355 | non-empty JSON text is decoded; NULL and the empty string are kept |
| Tracker.RowFields | src/spacex_tracker.py:346-350 | `dict(zip(columns, row))`: exactly the fifteen columns, and the four JSON columns hold non-NULL text |
| Tracker.Recent | src/spacex_tracker.py:315-322 | the seven selected columns of a row: id, name, date_utc, success, rocket_name, launchpad_name, details |
| Tracker.WriteLoop | src/spacex_tracker.py:167-188 | the loop run without storage fault keeps every old id, and when it finishes its last launch was insertable and is stored under its id |
| Tracker.WriteLoopIsBatchUpsert | src/spacex_tracker.py:167-188 | the loop run without storage fault is the whole batch upserted in list order, or nothing when some launch yields no row |
| Tracker.WriteLoopStep | src/spacex_tracker.py:167-188 | an insertable next launch extends the loop's table by its row |
| Tracker.WriteLoopStops | src/spacex_tracker.py:172-176 | a launch with a missing key or NULL in a NOT NULL column makes the loop raise |
| Tracker.Written | src/spacex_tracker.py:167-188 | a raising row write leaves nothing to commit; what is left keeps every old id |
| Tracker.WrittenIsBatchUpsert | src/spacex_tracker.py:167-188 | the loop leaves something to commit iff every launch is insertable and no write raises; what it leaves is the batch upserted over the old table |
| Tracker.WriteRows | src/spacex_tracker.py:167-188 | the INSERT OR REPLACE loop leaves the batch upserted over the old table when every launch yields a row and no write raises, and nothing to commit otherwise (via `Written` and WrittenIsBatchUpsert) |
| Tracker.Tracker.constructor | src/spacex_tracker.py:23-59 | a new database has both tables empty and well-formed |
| Tracker.Tracker.CacheLastUpdated | src/spacex_tracker.py:113-125 | None iff the key has no metadata row, otherwise that row's stamp |
| Tracker.Tracker.UpdateCacheMetadata | src/spacex_tracker.py:105-110 | last write wins: the key's row becomes (now, data); other keys and the launches table are unchanged |
| Tracker.Tracker.FetchLaunches | src/spacex_tracker.py:131-203 | fresh and not forced: true, nothing changes. Otherwise rows are committed only when all responses arrived, every launch yields a row and no write or commit fails; the stamp is written only after that commit; true iff both happened; a false result leaves the metadata unchanged |
| Tracker.Tracker.GetRecentLaunches | src/spacex_tracker.py:302-325 | the latest `limit` rows (all rows for a negative limit), newest first and without repetition; no row left out is later than a returned one; each carries the selected columns |
| Tracker.Tracker.GetLaunchDetails | src/spacex_tracker.py:327-357 | None iff the id has no row; otherwise every column of the row, with crew, payloads, failures and links decoded when non-empty |
| TextOrder.Less | src/spacex_tracker.py:233 | SQLite's BINARY order on text: a proper prefix comes first, and no text is before itself |
| TextOrder.LessIsLexicographic | src/spacex_tracker.py:233 | a text is before another iff it is a proper prefix of it or, at the first position where they differ, has the smaller character |
| TextOrder.InsertDescending | src/spacex_tracker.py:233 | inserting a new key into a strictly descending list keeps it strictly descending, adding exactly that key |
| TextOrder.SortDescending | src/spacex_tracker.py:233 | `ORDER BY key DESC` over distinct keys: every key once, strictly descending in SQLite's BINARY order |
| TextOrder.SortAscending | app.py:127 | `SELECT DISTINCT ... ORDER BY name`: every name once, strictly ascending |
| Ranking.RankByWeight | src/spacex_tracker.py:252 | `ORDER BY count DESC`: every group once with its own value, counts non-increasing, ties in no fixed order |
| Ranking.Top | app.py:172 | `.head(n)` of a ranked list: its first min(n, len) entries, and none left out outweighs one kept |
| Ranking.TopRanked | app.py:172 | the n heaviest groups, ranked: min(n, groups) distinct entries with their values, and no group left out weighs more than any kept |
| Statistics.WithOutcome | src/spacex_tracker.py:219-225 | the rows among the given ones whose `success` holds the given code |
| Statistics.Outcomes | src/spacex_tracker.py:219-226 | the three outcome counts of a set of rows add up to at most its size |
| Statistics.OutcomesPartition | src/spacex_tracker.py:219-226 | on a table the sync wrote, successful + failed + pending is the number of rows counted |
| Statistics.SuccessRate | src/spacex_tracker.py:294 | the rate in hundredths of a percent: within half a hundredth of successful/total, and 0 for an empty table |
| Statistics.SuccessRateUnique | src/spacex_tracker.py:294 | no other whole number of hundredths is within half a hundredth of the exact rate |
| Statistics.SuccessRateRange | src/spacex_tracker.py:294 | the rate is at most 100.00; it is 100.00 when every launch succeeded and 0 when none did |
| Statistics.YearKey | src/spacex_tracker.py:230 | `strftime('%Y', date_utc)`: the first four characters for a date, NULL otherwise |
| Statistics.MonthKey | src/spacex_tracker.py:239 | `strftime('%Y-%m', date_utc)`: the first seven characters for a date, NULL otherwise |
| Statistics.Members | src/spacex_tracker.py:232 | the rows of one GROUP BY group |
| Statistics.Names | src/spacex_tracker.py:250-251 | the non-NULL group names: exactly the values some row has |
| Statistics.GroupCounts | src/spacex_tracker.py:278-285 | `dict(SELECT name, COUNT(*) ... WHERE name IS NOT NULL GROUP BY name)`: the non-NULL names, each with its positive row count |
| Statistics.SumOfGroups | src/spacex_tracker.py:247-254 | distinct groups listed with their counts add up to the rows in those groups |
| Statistics.NamedAndUnnamed | src/spacex_tracker.py:229-235 | rows with a non-NULL key plus rows with a NULL key make the whole table |
| Statistics.WithNullGroup | src/spacex_tracker.py:233 | the named groups, then the NULL group (sorted last in descending order) when it has rows; the counts add up |
| Statistics.ByPeriod | src/spacex_tracker.py:229-244 | one entry per non-NULL period, plus the NULL period as the last entry, with its row count, when some row has no date |
| Statistics.ByPeriodCounts | src/spacex_tracker.py:229-244 | each period of `by_year` / `by_month` is listed with its row count, and none is empty |
| Statistics.ByPeriodCovers | src/spacex_tracker.py:229-244 | every period some row has is listed |
| Statistics.ByPeriodOrdered | src/spacex_tracker.py:233 | period keys are strictly descending, so each is listed once; the NULL period, if any, is last |
| Statistics.ByPeriodSum | src/spacex_tracker.py:229-244 | the period counts add up to the number of rows |
| Statistics.ByRocket | src/spacex_tracker.py:247-254 | `by_rocket`: every named rocket once with its launch count, counts non-increasing |
| Statistics.RocketOutcomes | src/spacex_tracker.py:257-275 | `by_rocket_success`: for each named rocket, the outcome counts of its rows |
| Statistics.LaunchStatistics | src/spacex_tracker.py:205-300 | the statistics dictionary: total, outcome counts, rate, the period breakdowns, `by_rocket`, `by_rocket_success`, and `by_launch_site` with only non-NULL sites |
| Statistics.StatisticsTotals | src/spacex_tracker.py:215-244 | successful + failed + pending = total, and the year and month counts each add up to the total |
| Statistics.RocketBreakdownConsistent | src/spacex_tracker.py:247-275 | `by_rocket` adds up to the rows with a rocket name; each rocket's successful + failed + pending equals its `by_rocket` count |
| SyncedStatistics.WithOutcomeUpsertNew | src/spacex_tracker.py:168-177 | a row under a new id joins its outcome class and no other |
| SyncedStatistics.OutcomesFromEmpty | src/spacex_tracker.py:167-188 | a distinct-id batch written into an empty table has, per outcome code, as many rows as the batch |
| SyncedStatistics.SucceededRows | src/spacex_tracker.py:177 | a batch has one success = 1 row per launch flagged as succeeded |
| SyncedStatistics.SyncedSuccessRate | test/test_spacex_core.py:78-90 | after a sync of distinct launches into an empty store, total is the list length, successful is the number flagged succeeded, and the rate is their ratio |
| App.StatusLabel | app.py:31-35 | 'Success' iff the code is 1, 'Failed' iff it is 0, 'Pending' for everything else |
| App.LabelOfSyncedFlag | app.py:94-98 | a launch reported succeeded shows 'Success', failed shows 'Failed', no or null flag shows 'Pending' |
| App.Display | app.py:28-38 | a table row: name, date, status label, rocket, site, details of the stored row |
| App.DisplayAll | app.py:42 | one display row per listed id, in order |
| App.GetAllLaunches | app.py:24-49 | every launch exactly once, newest first, each shown with its status label |
| App.HoldsAllConcat | app.py:88 | joining two condition lists with AND holds iff both hold |
| App.ClausesMeanFilters | app.py:61-88 | a row satisfies the conditions built from a selection iff it matches every supplied filter |
| App.ClausesMeanFiltersEverywhere | app.py:61-88 | the same, for every row at once |
| App.ClausesCount | app.py:61-88 | at most five conditions, and none (WHERE 1=1) exactly when nothing is selected |
| App.Conditions | app.py:61-88 | the conditions list: a row satisfies all of them iff it matches the filters; at most five; empty iff no selection |
| App.BuildConditions | app.py:61-86 | the list appended one selection at a time equals `Conditions` |
| App.FilterLaunches | app.py:51-119 | exactly the rows that match every supplied filter, each once, newest first; with no selection, every row, as the unfiltered table |
| App.StatusFilterAgreesWithLabel | app.py:76-98 | on a synced table, the status filter keeps exactly the rows showing that label |
| App.FilterOptions | app.py:121-136 | "All", then each distinct non-NULL rocket (site) name once, ascending |
| App.RocketChart | app.py:168-174 | at most ten rockets, distinct, with their outcome counts, ranked by total |
| App.SiteChart | app.py:186-192 | at most ten sites, distinct, with their counts, ranked by count; no site left out has more launches than a charted one |
| App.RocketChartKeepsBusiest | app.py:168-174 | a charted rocket's total is its launch count, and no rocket left out has more launches than a charted one |

## Left out

- HTTP transport is not modelled: requests, status checks and timeouts. Each response is an input that either failed or is a decoded list.
- SQLite connection handling and schema creation are not modelled. The `Tracker.Tracker.constructor` models a new, empty database; reopening an existing file is not modelled.
- JSON is treated as opaque text: `json.dumps` of crew, payloads, failures and links, and `json.loads` in `get_launch_details`.
- A launch whose `id` member is JSON null is outside the model. SQLite would store NULL in the non-integer primary key; `RawLaunch.id` is either a string or absent.
- Date handling is reduced to integer seconds. This covers `datetime.now()`, `fromisoformat`, the `strftime` display formats and time zones. `CacheLastUpdated` returns the stamp rather than the formatted text.
- Tracker.Tracker.FetchLaunches: one sync uses one clock reading for the freshness decision, for every row's `fetched_at` and for the metadata stamp. The code reads the clock separately for each (src/spacex_tracker.py:93, once per row at :187, and :108), so those values may differ slightly.
- Tracker.Tracker.FetchLaunches: reading the metadata in `_should_refresh_cache` cannot fail here. In the code, a storage error or a stamp `fromisoformat` cannot parse is raised outside the `try` (src/spacex_tracker.py:79-93, called at :140), so `fetch_launches` raises instead of returning False. `StorageFault` models failing writes only.
- Statistics.YearKey and Statistics.MonthKey treat any `date_utc` that starts with `YYYY-MM-DD` as a date. SQLite's further checks of the time part and of field ranges are not modelled.
- Statistics.SuccessRate rounds half up to whole hundredths of a percent. Python's `round` on a binary float, with ties to even, is not modelled.
- Statistics.LaunchStatistics gives `by_launch_site` as a map. The insertion order of the Python dict, which follows the count order of the query, is not kept.
- `search_launches` is not modelled. Its LIKE matching is case-insensitive and has wildcards.
- UI and output code is not modelled: the Gradio widgets, pandas reshaping (`melt`, `concat`, column renames, the frequency chart), the last-updated text, the statistics summary text, the `display_*` printing and the interactive `main` loop.
- App.FilterLaunches takes the date bounds as integers, as `apply_filters` passes them (app.py:306-312). SQLite's comparison of a text parameter with the INTEGER column is not modelled.
- App.FilterOptions lists a rocket or site literally named "All" a second time, as the code does. The model does not flag this.
- A storage error in a read query is not modelled: `get_cache_last_updated`, `get_launch_statistics`, `get_recent_launches`, `get_launch_details` (src/spacex_tracker.py:113-357) and the queries of app.py:24-136 always succeed in the model. In the code, the error reaches the caller.
- Concurrency is not modelled. Every operation runs alone.

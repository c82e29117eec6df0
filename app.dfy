/** The logic of the web front end: the status labels of the launch table, the
    filter built from the UI selections, the dropdown options and the top-10
    selections behind the two charts. Display formatting and the widgets are
    not modelled. */
module App {
  import opened Values
  import opened LaunchStore
  import opened TextOrder
  import opened Ranking
  import opened SyncInput
  import opened Statistics

  // ---------------------------------------------------------------------------
  // Status labels

  /** `CASE WHEN success = 1 THEN 'Success' WHEN success = 0 THEN 'Failed' ELSE
      'Pending' END`; NULL and any other value fall through to 'Pending'. */
  function StatusLabel(success: Option<int>): (shown: string)
    ensures shown == "Success" <==> success == Some(1)
    ensures shown == "Failed" <==> success == Some(0)
    ensures shown == "Pending" <==> success != Some(1) && success != Some(0)
  {
    if success == Some(1) then "Success"
    else if success == Some(0) then "Failed"
    else "Pending"
  }

  /** A launch the API reports as succeeded shows 'Success', one it reports as
      failed shows 'Failed', one with no or a null flag shows 'Pending'. */
  lemma LabelOfSyncedFlag(flag: Json<bool>)
    ensures StatusLabel(EncodeSuccess(flag)) ==
      match flag
      case Present(b) => if b then "Success" else "Failed"
      case _ => "Pending"
  {
  }

  /** One row of the launch table: mission name, launch date, status, rocket,
      launch site, details. */
  datatype DisplayRow = DisplayRow(
    name: string,
    date: string,
    status: string,
    rocket: Option<string>,
    site: Option<string>,
    details: Option<string>)

  function Display(row: LaunchRow): (d: DisplayRow)
    ensures d.name == row.name && d.date == row.dateUtc
    ensures d.status == StatusLabel(row.success)
    ensures d.rocket == row.rocketName && d.site == row.launchpadName && d.details == row.details
  {
    DisplayRow(row.name, row.dateUtc, StatusLabel(row.success), row.rocketName, row.launchpadName, row.details)
  }

  /** The display rows of `ids`, in order. */
  method DisplayAll(t: LaunchTable, ids: seq<string>) returns (rows: seq<DisplayRow>)
    requires forall i :: 0 <= i < |ids| ==> ids[i] in t
    ensures |rows| == |ids|
    ensures forall i :: 0 <= i < |ids| ==> rows[i] == Display(t[ids[i]])
  {
    rows := [];
    var k := 0;
    while k < |ids|
      invariant 0 <= k <= |ids|
      invariant |rows| == k
      invariant forall i :: 0 <= i < k ==> rows[i] == Display(t[ids[i]])
    {
      rows := rows + [Display(t[ids[k]])];
      k := k + 1;
    }
  }

  /** `get_all_launches_df`: every launch, newest first (equal dates in no fixed
      order). */
  method GetAllLaunches(t: LaunchTable) returns (rows: seq<DisplayRow>, ghost ids: seq<string>)
    ensures ByDateDescending(t, ids) && Distinct(ids)
    ensures forall id :: id in ids <==> id in t
    ensures |rows| == |ids| == |t|
    ensures forall i :: 0 <= i < |ids| ==> rows[i] == Display(t[ids[i]])
  {
    var all := SelectByDateDescending(t, _ => true);
    SelectionCoversTable(t, all);
    rows := DisplayAll(t, all);
    ids := all;
  }

  // ---------------------------------------------------------------------------
  // Filters

  /** A date bound the UI passes (seconds) adds a condition only when it is
      truthy: present and not 0. */
  predicate Truthy(bound: Option<int>) {
    bound.Some? && bound.value != 0
  }

  /** A dropdown selection adds a condition only when it is a non-empty string
      other than "All". */
  predicate Selected(choice: Option<string>) {
    choice.Some? && choice.value != "" && choice.value != "All"
  }

  /** One entry of the `conditions` list, with its bound parameter. */
  datatype Condition =
    | DateFrom(from: int)
    | DateTo(to: int)
    | RocketIs(rocket: string)
    | SuccessIs(code: int)
    | SuccessIsNull
    | SiteIs(site: string)

  /** A condition in SQL's terms: a comparison with NULL is not true. */
  predicate Holds(c: Condition, row: LaunchRow) {
    match c
    case DateFrom(from) => row.dateUnix >= from
    case DateTo(to) => row.dateUnix <= to
    case RocketIs(rocket) => row.rocketName == Some(rocket)
    case SuccessIs(code) => row.success == Some(code)
    case SuccessIsNull => row.success == None
    case SiteIs(site) => row.launchpadName == Some(site)
  }

  /** The WHERE clause: the conjunction of the conditions, `1=1` when there are none. */
  predicate HoldsAll(cs: seq<Condition>, row: LaunchRow) {
    forall i :: 0 <= i < |cs| ==> Holds(cs[i], row)
  }

  /** The status selection as a condition on `success`: "Success" is 1, "Failed"
      is 0, "Pending" is NULL; "All", the empty string and any other text
      impose nothing. */
  predicate StatusMatches(status: Option<string>, success: Option<int>) {
    if !Selected(status) then true
    else if status.value == "Success" then success == Some(1)
    else if status.value == "Failed" then success == Some(0)
    else if status.value == "Pending" then success == None
    else true
  }

  /** The rows a filter selection stands for, stated directly: each supplied
      selection constrains its column, and all of them must hold. */
  predicate MatchesFilters(row: LaunchRow, start: Option<int>, end: Option<int>,
                           rocket: Option<string>, status: Option<string>, site: Option<string>) {
    && (Truthy(start) ==> row.dateUnix >= start.value)
    && (Truthy(end) ==> row.dateUnix <= end.value)
    && (Selected(rocket) ==> row.rocketName == Some(rocket.value))
    && StatusMatches(status, row.success)
    && (Selected(site) ==> row.launchpadName == Some(site.value))
  }

  /** No selection constrains anything. */
  predicate NoFilters(start: Option<int>, end: Option<int>,
                      rocket: Option<string>, status: Option<string>, site: Option<string>) {
    !Truthy(start) && !Truthy(end) && !Selected(rocket) && !Selected(site)
    && (!Selected(status) || status.value !in ["Success", "Failed", "Pending"])
  }

  /** The conditions one selection contributes. */
  function StartClause(start: Option<int>): seq<Condition> {
    if Truthy(start) then [DateFrom(start.value)] else []
  }

  function EndClause(end: Option<int>): seq<Condition> {
    if Truthy(end) then [DateTo(end.value)] else []
  }

  function RocketClause(rocket: Option<string>): seq<Condition> {
    if Selected(rocket) then [RocketIs(rocket.value)] else []
  }

  function StatusClause(status: Option<string>): seq<Condition> {
    if !Selected(status) then []
    else if status.value == "Success" then [SuccessIs(1)]
    else if status.value == "Failed" then [SuccessIs(0)]
    else if status.value == "Pending" then [SuccessIsNull]
    else []
  }

  function SiteClause(site: Option<string>): seq<Condition> {
    if Selected(site) then [SiteIs(site.value)] else []
  }

  /** Joining two condition lists with AND. */
  lemma HoldsAllConcat(a: seq<Condition>, b: seq<Condition>, row: LaunchRow)
    ensures HoldsAll(a + b, row) <==> HoldsAll(a, row) && HoldsAll(b, row)
  {
    if HoldsAll(a, row) && HoldsAll(b, row) {
      forall i | 0 <= i < |a + b| ensures Holds((a + b)[i], row) {
        if i >= |a| {
          assert (a + b)[i] == b[i - |a|];
        }
      }
    }
    if HoldsAll(a + b, row) {
      forall i | 0 <= i < |a| ensures Holds(a[i], row) {
        assert (a + b)[i] == a[i];
      }
      forall i | 0 <= i < |b| ensures Holds(b[i], row) {
        assert (a + b)[|a| + i] == b[i];
      }
    }
  }

  /** The five contributions together say exactly what the filter selection means. */
  lemma ClausesMeanFilters(start: Option<int>, end: Option<int>,
                           rocket: Option<string>, status: Option<string>, site: Option<string>, row: LaunchRow)
    ensures HoldsAll(StartClause(start) + EndClause(end) + RocketClause(rocket) + StatusClause(status) + SiteClause(site), row)
      <==> MatchesFilters(row, start, end, rocket, status, site)
  {
    var a := StartClause(start);
    var b := EndClause(end);
    var c := RocketClause(rocket);
    var d := StatusClause(status);
    var e := SiteClause(site);
    assert HoldsAll(a, row) <==> (Truthy(start) ==> row.dateUnix >= start.value) by {
      if Truthy(start) { assert a[0] == DateFrom(start.value); }
    }
    assert HoldsAll(b, row) <==> (Truthy(end) ==> row.dateUnix <= end.value) by {
      if Truthy(end) { assert b[0] == DateTo(end.value); }
    }
    assert HoldsAll(c, row) <==> (Selected(rocket) ==> row.rocketName == Some(rocket.value)) by {
      if Selected(rocket) { assert c[0] == RocketIs(rocket.value); }
    }
    assert HoldsAll(d, row) <==> StatusMatches(status, row.success) by {
      if |d| == 1 { assert HoldsAll(d, row) <==> Holds(d[0], row); }
    }
    assert HoldsAll(e, row) <==> (Selected(site) ==> row.launchpadName == Some(site.value)) by {
      if Selected(site) { assert e[0] == SiteIs(site.value); }
    }
    HoldsAllConcat(a, b, row);
    HoldsAllConcat(a + b, c, row);
    HoldsAllConcat(a + b + c, d, row);
    HoldsAllConcat(a + b + c + d, e, row);
  }

  lemma ClausesMeanFiltersEverywhere(start: Option<int>, end: Option<int>,
                                     rocket: Option<string>, status: Option<string>, site: Option<string>)
    ensures forall row ::
      (HoldsAll(StartClause(start) + EndClause(end) + RocketClause(rocket) + StatusClause(status) + SiteClause(site), row)
       <==> MatchesFilters(row, start, end, rocket, status, site))
  {
    forall row
      ensures HoldsAll(StartClause(start) + EndClause(end) + RocketClause(rocket) + StatusClause(status) + SiteClause(site), row)
        <==> MatchesFilters(row, start, end, rocket, status, site)
    {
      ClausesMeanFilters(start, end, rocket, status, site, row);
    }
  }

  /** The five contributions hold at most one condition each, and none at all
      exactly when nothing is selected. */
  lemma ClausesCount(start: Option<int>, end: Option<int>,
                     rocket: Option<string>, status: Option<string>, site: Option<string>)
    ensures var cs := StartClause(start) + EndClause(end) + RocketClause(rocket) + StatusClause(status) + SiteClause(site);
      |cs| <= 5 && (cs == [] <==> NoFilters(start, end, rocket, status, site))
  {
    var a := StartClause(start);
    var b := EndClause(end);
    var c := RocketClause(rocket);
    var d := StatusClause(status);
    var e := SiteClause(site);
    assert |a| <= 1 && (a == [] <==> !Truthy(start));
    assert |b| <= 1 && (b == [] <==> !Truthy(end));
    assert |c| <= 1 && (c == [] <==> !Selected(rocket));
    assert |d| <= 1 && (d == [] <==> !Selected(status) || status.value !in ["Success", "Failed", "Pending"]);
    assert |e| <= 1 && (e == [] <==> !Selected(site));
    assert |a + b + c + d + e| == |a| + |b| + |c| + |d| + |e|;
  }

  /** The conditions list for a filter selection: a row satisfies all of them
      exactly when it matches the filters; there are at most five, and none
      exactly when nothing is selected. */
  function Conditions(start: Option<int>, end: Option<int>,
                      rocket: Option<string>, status: Option<string>, site: Option<string>): (cs: seq<Condition>)
    ensures forall row :: HoldsAll(cs, row) <==> MatchesFilters(row, start, end, rocket, status, site)
    ensures |cs| <= 5
    ensures cs == [] <==> NoFilters(start, end, rocket, status, site)
  {
    ClausesMeanFiltersEverywhere(start, end, rocket, status, site);
    ClausesCount(start, end, rocket, status, site);
    StartClause(start) + EndClause(end) + RocketClause(rocket) + StatusClause(status) + SiteClause(site)
  }

  /** The `conditions` list of `filter_launches`, appended one selection at a
      time in the order start date, end date, rocket, status, site. */
  method BuildConditions(start: Option<int>, end: Option<int>,
                         rocket: Option<string>, status: Option<string>, site: Option<string>)
    returns (cs: seq<Condition>)
    ensures cs == Conditions(start, end, rocket, status, site)
  {
    cs := [];
    if Truthy(start) {
      cs := cs + [DateFrom(start.value)];
    }
    assert cs == StartClause(start);
    if Truthy(end) {
      cs := cs + [DateTo(end.value)];
    }
    assert cs == StartClause(start) + EndClause(end);
    if Selected(rocket) {
      cs := cs + [RocketIs(rocket.value)];
    }
    ghost var before := cs;
    assert before == StartClause(start) + EndClause(end) + RocketClause(rocket);
    if Selected(status) {
      if status.value == "Success" {
        cs := cs + [SuccessIs(1)];
      } else if status.value == "Failed" {
        cs := cs + [SuccessIs(0)];
      } else if status.value == "Pending" {
        cs := cs + [SuccessIsNull];
      } else {
        assert StatusClause(status) == [];
      }
    } else {
      assert StatusClause(status) == [];
    }
    assert cs == before + StatusClause(status);
    before := cs;
    if Selected(site) {
      cs := cs + [SiteIs(site.value)];
    }
    assert cs == before + SiteClause(site);
  }

  /** `filter_launches(start_date, end_date, rocket, status, launch_site)`: the
      launches that match every supplied selection, newest first; with no
      selection, every launch, as on the unfiltered table. */
  method FilterLaunches(t: LaunchTable, start: Option<int>, end: Option<int>,
                        rocket: Option<string>, status: Option<string>, site: Option<string>)
    returns (rows: seq<DisplayRow>, ghost ids: seq<string>)
    ensures ByDateDescending(t, ids) && Distinct(ids)
    ensures forall id :: id in ids <==> id in t && MatchesFilters(t[id], start, end, rocket, status, site)
    ensures NoFilters(start, end, rocket, status, site) ==> forall id :: id in ids <==> id in t
    ensures |rows| == |ids|
    ensures forall i :: 0 <= i < |ids| ==> rows[i] == Display(t[ids[i]])
  {
    var cs := BuildConditions(start, end, rocket, status, site);
    var selected := SelectByDateDescending(t, row => HoldsAll(cs, row));
    rows := DisplayAll(t, selected);
    ids := selected;
  }

  /** For a table the sync wrote, choosing a status in the dropdown keeps
      exactly the rows that show that status label. */
  lemma StatusFilterAgreesWithLabel(t: LaunchTable, id: string, status: string)
    requires WellFormedTable(t) && id in t
    requires status in ["Success", "Failed", "Pending"]
    ensures StatusMatches(Some(status), t[id].success) <==> StatusLabel(t[id].success) == status
  {
    assert IsOutcomeCode(t[id].success);
  }

  // ---------------------------------------------------------------------------
  // Dropdown options

  /** `get_filter_options`: "All", then the distinct non-NULL names in
      ascending order, for rockets and for launch sites. */
  ghost function FilterOptions(t: LaunchTable): (options: (seq<string>, seq<string>))
    ensures |options.0| == |Names(t, RocketKey)| + 1 && options.0[0] == "All"
    ensures StrictlyAscending(options.0[1..])
    ensures forall k :: k in options.0[1..] <==> exists id :: id in t && t[id].rocketName == Some(k)
    ensures |options.1| == |Names(t, SiteKey)| + 1 && options.1[0] == "All"
    ensures StrictlyAscending(options.1[1..])
    ensures forall k :: k in options.1[1..] <==> exists id :: id in t && t[id].launchpadName == Some(k)
  {
    var rockets := SortAscending(Names(t, RocketKey));
    var sites := SortAscending(Names(t, SiteKey));
    assert (["All"] + rockets)[1..] == rockets;
    assert (["All"] + sites)[1..] == sites;
    (["All"] + rockets, ["All"] + sites)
  }

  // ---------------------------------------------------------------------------
  // Charts

  /** The number of charted rockets and sites. */
  const CHART_LIMIT: nat := 10

  /** The rocket chart: the `by_rocket_success` entries ranked by their total,
      largest first, cut to the first ten. */
  ghost function RocketChart(t: LaunchTable): (r: seq<(string, OutcomeCounts)>)
    ensures |r| == Min(CHART_LIMIT, |Names(t, RocketKey)|)
    ensures NonIncreasing(r, Total) && DistinctKeys(r)
    ensures forall i :: 0 <= i < |r| ==> r[i].0 in Names(t, RocketKey) && r[i].1 == RocketOutcomes(t)[r[i].0]
  {
    TopRanked(RocketOutcomes(t), Total, CHART_LIMIT)
  }

  /** The site chart: the `by_launch_site` entries ranked by count, largest
      first, cut to the first ten. */
  ghost function SiteChart(t: LaunchTable): (r: seq<(string, nat)>)
    ensures |r| == Min(CHART_LIMIT, |Names(t, SiteKey)|)
    ensures NonIncreasing(r, Count) && DistinctKeys(r)
    ensures forall i :: 0 <= i < |r| ==> r[i].0 in Names(t, SiteKey) && r[i].1 == |Members(t, SiteKey, Some(r[i].0))|
    ensures forall k, i :: k in Names(t, SiteKey) && k !in KeysOf(r) && 0 <= i < |r| ==>
      |Members(t, SiteKey, Some(k))| <= r[i].1
  {
    TopRanked(GroupCounts(t, SiteKey), Count, CHART_LIMIT)
  }

  /** A rocket left off the chart has no more launches than any charted one,
      and a charted rocket's total is its number of launches. */
  lemma RocketChartKeepsBusiest(t: LaunchTable)
    requires WellFormedTable(t)
    ensures var r := RocketChart(t);
      && (forall i :: 0 <= i < |r| ==> Total(r[i].1) == |Members(t, RocketKey, Some(r[i].0))|)
      && (forall k, i :: k in Names(t, RocketKey) && k !in KeysOf(r) && 0 <= i < |r| ==>
            |Members(t, RocketKey, Some(k))| <= Total(r[i].1))
  {
    var g := RocketOutcomes(t);
    forall k | k in g ensures Total(g[k]) == |Members(t, RocketKey, Some(k))| {
      OutcomesPartition(t, Members(t, RocketKey, Some(k)));
    }
  }
}

/** `get_launch_statistics`: outcome counts, the success rate and the breakdowns
    by period, rocket and launch site, all computed from the `launches` table. */
module Statistics {
  import opened Values
  import opened LaunchStore
  import opened TextOrder
  import opened Ranking

  // ---------------------------------------------------------------------------
  // Outcome counts and the success rate

  /** The three `SUM(CASE WHEN ...)` columns over a set of rows; an empty SUM
      (NULL in SQL, `or 0` in the code) is 0 here. */
  datatype OutcomeCounts = OutcomeCounts(successful: nat, failed: nat, pending: nat)

  /** The chart total of a rocket: successful + failed + pending. */
  function Total(c: OutcomeCounts): nat {
    c.successful + c.failed + c.pending
  }

  /** The rows among `ids` whose `success` column holds `v`. */
  function WithOutcome(t: LaunchTable, ids: set<string>, v: Option<int>): (r: set<string>)
    ensures r <= ids
    ensures forall id :: id in r <==> id in ids && id in t && t[id].success == v
  {
    set id | id in ids && id in t && t[id].success == v
  }

  /** The outcome counts of the rows `ids`: success = 1, success = 0 and
      success IS NULL. */
  function Outcomes(t: LaunchTable, ids: set<string>): (c: OutcomeCounts)
    ensures Total(c) <= |ids|
  {
    var s := WithOutcome(t, ids, Some(1));
    var f := WithOutcome(t, ids, Some(0));
    var p := WithOutcome(t, ids, None);
    assert s * f == {} && (s + f) * p == {};
    assert |s + f + p| <= |ids| by {
      SubsetSize(s + f + p, ids);
    }
    OutcomeCounts(|s|, |f|, |p|)
  }

  lemma {:induction false} SubsetSize(a: set<string>, b: set<string>)
    requires a <= b
    ensures |a| <= |b|
    decreases |b|
  {
    if a != {} {
      var x :| x in a;
      SubsetSize(a - {x}, b - {x});
    }
  }

  /** In a table the sync wrote, every row falls in exactly one of the three
      outcome classes, so the counts add up to the number of rows. */
  lemma OutcomesPartition(t: LaunchTable, ids: set<string>)
    requires WellFormedTable(t)
    requires ids <= t.Keys
    ensures Total(Outcomes(t, ids)) == |ids|
  {
    var s := WithOutcome(t, ids, Some(1));
    var f := WithOutcome(t, ids, Some(0));
    var p := WithOutcome(t, ids, None);
    assert s * f == {};
    assert (s + f) * p == {};
    assert s + f + p == ids;
  }

  /** `round(successful / total * 100, 2) if total > 0 else 0`, in hundredths of
      a percent: the nearest whole number of hundredths, 0 for an empty table. */
  function SuccessRate(successful: nat, total: nat): (r: nat)
    ensures total == 0 ==> r == 0
    ensures total > 0 ==> -(total as int) < 2 * (r * total - 10000 * successful) <= total
  {
    if total == 0 then 0
    else
      var num := 20000 * successful + total;
      var q := num / (2 * total);
      assert q * (2 * total) <= num < q * (2 * total) + 2 * total;
      q
  }

  lemma MulMonotone(a: int, b: int, c: nat)
    requires a <= b
    ensures a * c <= b * c
  {
  }

  /** The success rate is determined by its rounding bound: no other number of
      hundredths lies within half a hundredth of the exact rate. */
  lemma SuccessRateUnique(successful: nat, total: nat, x: int)
    requires total > 0
    requires -(total as int) < 2 * (x * total - 10000 * successful) <= total
    ensures x == SuccessRate(successful, total)
  {
    var r := SuccessRate(successful, total);
    if x > r {
      MulMonotone(r + 1, x, total);
    } else if x < r {
      MulMonotone(x + 1, r, total);
    }
  }

  /** A table with no failed or pending row has rate 100.00; one with no
      successful row has rate 0; the rate never exceeds 100.00. */
  lemma SuccessRateRange(successful: nat, total: nat)
    requires successful <= total
    ensures SuccessRate(successful, total) <= 10000
    ensures total > 0 && successful == total ==> SuccessRate(successful, total) == 10000
    ensures successful == 0 ==> SuccessRate(successful, total) == 0
  {
    if total > 0 {
      var r := SuccessRate(successful, total);
      if r > 10000 {
        MulMonotone(10001, r, total);
      }
      if successful == total {
        SuccessRateUnique(successful, total, 10000);
      }
      if successful == 0 {
        SuccessRateUnique(successful, total, 0);
      }
    }
  }

  // ---------------------------------------------------------------------------
  // Grouping

  predicate IsDigit(c: char) {
    '0' <= c <= '9'
  }

  /** `date_utc` starts with an ISO date `YYYY-MM-DD`. */
  predicate IsoDatePrefix(d: string) {
    && |d| >= 10
    && IsDigit(d[0]) && IsDigit(d[1]) && IsDigit(d[2]) && IsDigit(d[3])
    && d[4] == '-' && IsDigit(d[5]) && IsDigit(d[6])
    && d[7] == '-' && IsDigit(d[8]) && IsDigit(d[9])
  }

  /** `strftime('%Y', date_utc)`: NULL when the text is not a date. */
  function YearKey(row: LaunchRow): (k: Option<string>)
    ensures k.Some? <==> IsoDatePrefix(row.dateUtc)
    ensures k.Some? ==> |k.value| == 4 && k.value == row.dateUtc[..4]
  {
    if IsoDatePrefix(row.dateUtc) then Some(row.dateUtc[..4]) else None
  }

  /** `strftime('%Y-%m', date_utc)`: NULL when the text is not a date. */
  function MonthKey(row: LaunchRow): (k: Option<string>)
    ensures k.Some? <==> IsoDatePrefix(row.dateUtc)
    ensures k.Some? ==> |k.value| == 7 && k.value == row.dateUtc[..7]
  {
    if IsoDatePrefix(row.dateUtc) then Some(row.dateUtc[..7]) else None
  }

  function RocketKey(row: LaunchRow): Option<string> {
    row.rocketName
  }

  function SiteKey(row: LaunchRow): Option<string> {
    row.launchpadName
  }

  /** The rows of the group `k` of a GROUP BY on `key`. */
  function Members(t: LaunchTable, key: LaunchRow -> Option<string>, k: Option<string>): (r: set<string>)
    ensures forall id :: id in r <==> id in t && key(t[id]) == k
  {
    set id | id in t && key(t[id]) == k
  }

  /** The non-NULL group names of a GROUP BY on `key`. */
  function Names(t: LaunchTable, key: LaunchRow -> Option<string>): (r: set<string>)
    ensures forall k :: k in r <==> exists id :: id in t && key(t[id]) == Some(k)
  {
    set id | id in t && key(t[id]).Some? :: key(t[id]).value
  }

  /** The rows whose group is one of the names `ks`. */
  function Covered(t: LaunchTable, key: LaunchRow -> Option<string>, ks: set<string>): (r: set<string>)
    ensures forall id :: id in r <==> id in t && key(t[id]).Some? && key(t[id]).value in ks
  {
    set id | id in t && key(t[id]).Some? && key(t[id]).value in ks
  }

  /** `SELECT key, COUNT(*) ... WHERE key IS NOT NULL GROUP BY key` as a map. */
  function GroupCounts(t: LaunchTable, key: LaunchRow -> Option<string>): (m: map<string, nat>)
    ensures m.Keys == Names(t, key)
    ensures forall k :: k in m ==> m[k] == |Members(t, key, Some(k))| && m[k] > 0
  {
    map k | k in Names(t, key) :: NonEmptyGroup(t, key, k); |Members(t, key, Some(k))|
  }

  lemma NonEmptyGroup(t: LaunchTable, key: LaunchRow -> Option<string>, k: string)
    requires k in Names(t, key)
    ensures |Members(t, key, Some(k))| > 0
  {
    var id :| id in t && key(t[id]) == Some(k);
    assert id in Members(t, key, Some(k));
  }

  /** The sum of the counts of a list of groups. */
  function SumCounts<K>(ps: seq<(K, nat)>): nat {
    if ps == [] then 0 else ps[0].1 + SumCounts(ps[1..])
  }

  lemma SumCountsAppend<K>(a: seq<(K, nat)>, b: seq<(K, nat)>)
    ensures SumCounts(a + b) == SumCounts(a) + SumCounts(b)
  {
    if a == [] {
      assert a + b == b;
    } else {
      assert (a + b)[0] == a[0];
      assert (a + b)[1..] == a[1..] + b;
      SumCountsAppend(a[1..], b);
    }
  }

  lemma KeysOfCons<V>(ps: seq<(string, V)>)
    requires ps != []
    ensures KeysOf(ps) == {ps[0].0} + KeysOf(ps[1..])
  {
    var rest := ps[1..];
    forall x | x in KeysOf(ps) ensures x in {ps[0].0} + KeysOf(rest) {
      var i :| 0 <= i < |ps| && ps[i].0 == x;
      if i > 0 {
        assert rest[i - 1].0 == x;
      }
    }
    forall x | x in KeysOf(rest) ensures x in KeysOf(ps) {
      var i :| 0 <= i < |rest| && rest[i].0 == x;
      assert ps[i + 1].0 == x;
    }
    assert ps[0].0 in KeysOf(ps);
  }

  /** Adding one name to a set of names adds the rows of that group, which no
      other listed group holds. */
  lemma CoveredAdd(t: LaunchTable, key: LaunchRow -> Option<string>, k: string, ks: set<string>)
    requires k !in ks
    ensures |Covered(t, key, {k} + ks)| == |Members(t, key, Some(k))| + |Covered(t, key, ks)|
  {
    var head := Members(t, key, Some(k));
    var others := Covered(t, key, ks);
    assert Covered(t, key, {k} + ks) == head + others;
    assert head * others == {};
  }

  /** Groups listed with their row counts and without repetition count every
      row whose group is listed exactly once. */
  lemma {:induction false} SumOfGroups(t: LaunchTable, key: LaunchRow -> Option<string>, ps: seq<(string, nat)>)
    requires DistinctKeys(ps)
    requires forall i :: 0 <= i < |ps| ==> ps[i].1 == |Members(t, key, Some(ps[i].0))|
    ensures SumCounts(ps) == |Covered(t, key, KeysOf(ps))|
    decreases |ps|
  {
    if ps == [] {
      assert Covered(t, key, KeysOf(ps)) == {};
    } else {
      var rest := ps[1..];
      assert forall i :: 0 <= i < |rest| ==> rest[i] == ps[i + 1];
      SumOfGroups(t, key, rest);
      KeysOfCons(ps);
      assert ps[0].0 !in KeysOf(rest);
      CoveredAdd(t, key, ps[0].0, KeysOf(rest));
    }
  }

  /** The rows with a non-NULL group and those with a NULL group make up the table. */
  lemma NamedAndUnnamed(t: LaunchTable, key: LaunchRow -> Option<string>)
    ensures |Covered(t, key, Names(t, key))| + |Members(t, key, None)| == |t|
  {
    var named := Covered(t, key, Names(t, key));
    var unnamed := Members(t, key, None);
    assert named * unnamed == {};
    forall id | id in t ensures id in named + unnamed {
      if key(t[id]).Some? {
        assert key(t[id]).value in Names(t, key);
      }
    }
    assert named + unnamed == t.Keys;
  }

  /** The names of a group map with their counts, in the given order. */
  function Counted(t: LaunchTable, key: LaunchRow -> Option<string>, ks: seq<string>): (ps: seq<(string, nat)>)
    ensures |ps| == |ks|
    ensures forall i :: 0 <= i < |ps| ==> ps[i] == (ks[i], |Members(t, key, Some(ks[i]))|)
  {
    seq(|ks|, i requires 0 <= i < |ks| => (ks[i], |Members(t, key, Some(ks[i]))|))
  }

  /** A group name as the Python value: None for the NULL group. */
  function Named(ps: seq<(string, nat)>): (r: seq<(Option<string>, nat)>)
    ensures |r| == |ps|
    ensures forall i :: 0 <= i < |r| ==> r[i] == (Some(ps[i].0), ps[i].1)
    ensures SumCounts(r) == SumCounts(ps)
  {
    if ps == [] then []
    else [(Some(ps[0].0), ps[0].1)] + Named(ps[1..])
  }

  /** Distinct group names, each listed with its row count: distinct keys,
      positive counts. */
  lemma CountedGroups(t: LaunchTable, key: LaunchRow -> Option<string>, ks: seq<string>)
    requires StrictlyDescending(ks)
    requires forall i :: 0 <= i < |ks| ==> ks[i] in Names(t, key)
    ensures DistinctKeys(Counted(t, key, ks))
    ensures forall i :: 0 <= i < |ks| ==> Counted(t, key, ks)[i].1 > 0
  {
    var named := Counted(t, key, ks);
    forall i | 0 <= i < |ks| ensures named[i].1 > 0 {
      NonEmptyGroup(t, key, ks[i]);
    }
    forall i, j | 0 <= i < j < |named| ensures named[i].0 != named[j].0 {
      Irreflexive(ks[i]);
    }
  }

  /** The named groups followed by the NULL group when it has rows. */
  function WithNullGroup(named: seq<(string, nat)>, undated: nat): (r: seq<(Option<string>, nat)>)
    ensures |r| == |named| + (if undated > 0 then 1 else 0)
    ensures forall i :: 0 <= i < |named| ==> r[i] == (Some(named[i].0), named[i].1)
    ensures undated > 0 ==> r[|named|] == (None, undated)
    ensures SumCounts(r) == SumCounts(named) + undated
  {
    var tail: seq<(Option<string>, nat)> := if undated > 0 then [(None, undated)] else [];
    SumCountsAppend(Named(named), tail);
    Named(named) + tail
  }

  /** `SELECT key, COUNT(*) ... GROUP BY key ORDER BY key DESC`: the non-NULL
      groups in descending text order, each with its row count, then the NULL
      group, which SQLite sorts below every text, when some row has one. */
  ghost function ByPeriod(t: LaunchTable, key: LaunchRow -> Option<string>): (r: seq<(Option<string>, nat)>)
    ensures |r| == |Names(t, key)| + (if |Members(t, key, None)| > 0 then 1 else 0)
    ensures |Members(t, key, None)| > 0 ==> r[|r| - 1] == (None, |Members(t, key, None)|)
  {
    WithNullGroup(Counted(t, key, SortDescending(Names(t, key))), |Members(t, key, None)|)
  }

  /** Each period is listed with the number of its rows, and no period is empty. */
  lemma ByPeriodCounts(t: LaunchTable, key: LaunchRow -> Option<string>)
    ensures var r := ByPeriod(t, key);
      forall i :: 0 <= i < |r| ==> r[i].1 == |Members(t, key, r[i].0)| && r[i].1 > 0
  {
    var ks := SortDescending(Names(t, key));
    var named := Counted(t, key, ks);
    var r := ByPeriod(t, key);
    CountedGroups(t, key, ks);
    forall i | 0 <= i < |r| ensures r[i].1 == |Members(t, key, r[i].0)| && r[i].1 > 0 {
      if i < |named| {
        assert r[i] == (Some(ks[i]), named[i].1);
      } else {
        assert r[i] == (None, |Members(t, key, None)|);
      }
    }
  }

  /** Every non-NULL period of some row is listed. */
  lemma ByPeriodCovers(t: LaunchTable, key: LaunchRow -> Option<string>)
    ensures var r := ByPeriod(t, key);
      forall k :: k in Names(t, key) ==> exists i :: 0 <= i < |r| && r[i].0 == Some(k)
  {
    var ks := SortDescending(Names(t, key));
    var r := ByPeriod(t, key);
    forall k | k in Names(t, key) ensures exists i :: 0 <= i < |r| && r[i].0 == Some(k) {
      var i :| 0 <= i < |ks| && ks[i] == k;
      assert r[i].0 == Some(k);
    }
  }

  /** The period keys are strictly descending, so each is listed once, and the
      NULL group, if any, comes last. */
  lemma ByPeriodOrdered(t: LaunchTable, key: LaunchRow -> Option<string>)
    ensures var r := ByPeriod(t, key);
      && (forall i, j :: 0 <= i < j < |r| && r[j].0.Some? ==> r[i].0.Some? && Less(r[j].0.value, r[i].0.value))
      && (forall i :: 0 <= i < |r| - 1 ==> r[i].0.Some?)
  {
  }

  /** Every row falls in exactly one group of the period breakdown: its counts
      add up to the number of rows. */
  lemma ByPeriodSum(t: LaunchTable, key: LaunchRow -> Option<string>)
    ensures SumCounts(ByPeriod(t, key)) == |t|
  {
    var ks := SortDescending(Names(t, key));
    var named := Counted(t, key, ks);
    CountedGroups(t, key, ks);
    assert KeysOf(named) == Names(t, key) by {
      forall x | x in Names(t, key) ensures x in KeysOf(named) {
        var i :| 0 <= i < |ks| && ks[i] == x;
        assert named[i].0 == x;
      }
    }
    SumOfGroups(t, key, named);
    NamedAndUnnamed(t, key);
  }

  // ---------------------------------------------------------------------------
  // The statistics dictionary

  datatype LaunchStats = LaunchStats(
    total: nat,
    successful: nat,
    failed: nat,
    pending: nat,
    successRate: nat,
    byYear: seq<(Option<string>, nat)>,
    byMonth: seq<(Option<string>, nat)>,
    byRocket: seq<(string, nat)>,
    byRocketSuccess: map<string, OutcomeCounts>,
    byLaunchSite: map<string, nat>)

  /** The weight of a plain count. */
  function Count(n: nat): nat {
    n
  }

  /** `by_rocket`: the named rockets with their launch counts, most launches
      first (equal counts in no fixed order). */
  ghost function ByRocket(t: LaunchTable): (r: seq<(string, nat)>)
    ensures NonIncreasing(r, Count) && DistinctKeys(r)
    ensures KeysOf(r) == Names(t, RocketKey)
    ensures forall i :: 0 <= i < |r| ==> r[i].1 == |Members(t, RocketKey, Some(r[i].0))|
  {
    RankByWeight(GroupCounts(t, RocketKey), Count)
  }

  /** `by_rocket_success`: the outcome counts of each named rocket's rows. */
  function RocketOutcomes(t: LaunchTable): (m: map<string, OutcomeCounts>)
    ensures m.Keys == Names(t, RocketKey)
    ensures forall k :: k in m ==> m[k] == Outcomes(t, Members(t, RocketKey, Some(k)))
  {
    map k | k in Names(t, RocketKey) :: Outcomes(t, Members(t, RocketKey, Some(k)))
  }

  /** `get_launch_statistics()` on the table `t`. */
  ghost function LaunchStatistics(t: LaunchTable): (s: LaunchStats)
    ensures s.total == |t|
    ensures s.successful == |WithOutcome(t, t.Keys, Some(1))|
    ensures s.failed == |WithOutcome(t, t.Keys, Some(0))|
    ensures s.pending == |WithOutcome(t, t.Keys, None)|
    ensures s.successRate == SuccessRate(s.successful, s.total)
    ensures s.byYear == ByPeriod(t, YearKey) && s.byMonth == ByPeriod(t, MonthKey)
    ensures s.byRocket == ByRocket(t)
    ensures s.byRocketSuccess == RocketOutcomes(t)
    ensures s.byLaunchSite.Keys == Names(t, SiteKey)
    ensures forall k :: k in s.byLaunchSite ==> s.byLaunchSite[k] == |Members(t, SiteKey, Some(k))|
  {
    var outcomes := Outcomes(t, t.Keys);
    LaunchStats(
      |t|,
      outcomes.successful,
      outcomes.failed,
      outcomes.pending,
      SuccessRate(outcomes.successful, |t|),
      ByPeriod(t, YearKey),
      ByPeriod(t, MonthKey),
      ByRocket(t),
      RocketOutcomes(t),
      GroupCounts(t, SiteKey))
  }

  /** On a table the sync wrote, the outcome counts add up to the total and the
      year and month breakdowns each add up to the total. */
  lemma StatisticsTotals(t: LaunchTable)
    requires WellFormedTable(t)
    ensures var s := LaunchStatistics(t);
      && s.successful + s.failed + s.pending == s.total
      && SumCounts(s.byYear) == s.total
      && SumCounts(s.byMonth) == s.total
  {
    OutcomesPartition(t, t.Keys);
    ByPeriodSum(t, YearKey);
    ByPeriodSum(t, MonthKey);
  }

  /** `by_rocket` adds up to the rows with a rocket name, and each rocket's
      outcome breakdown adds up to its `by_rocket` count. */
  lemma RocketBreakdownConsistent(t: LaunchTable)
    requires WellFormedTable(t)
    ensures var r := ByRocket(t);
      && SumCounts(r) == |Covered(t, RocketKey, Names(t, RocketKey))|
      && forall i :: 0 <= i < |r| ==>
           r[i].0 in RocketOutcomes(t) && Total(RocketOutcomes(t)[r[i].0]) == r[i].1
  {
    var r := ByRocket(t);
    SumOfGroups(t, RocketKey, r);
    forall i | 0 <= i < |r|
      ensures r[i].0 in RocketOutcomes(t) && Total(RocketOutcomes(t)[r[i].0]) == r[i].1
    {
      assert r[i].0 in KeysOf(r);
      OutcomesPartition(t, Members(t, RocketKey, Some(r[i].0)));
    }
  }
}

/** Ranking of (key, value) groups by a weight, largest first, as ORDER BY count
    DESC and pandas' sort_values(ascending=False) do. Neither names a tie-break,
    so nothing here fixes the order among groups of equal weight. */
module Ranking {

  /** Weights never increase along the sequence. */
  predicate NonIncreasing<V>(ps: seq<(string, V)>, w: V -> nat) {
    forall i, j :: 0 <= i < j < |ps| ==> w(ps[j].1) <= w(ps[i].1)
  }

  predicate DistinctKeys<V>(ps: seq<(string, V)>) {
    forall i, j :: 0 <= i < j < |ps| ==> ps[i].0 != ps[j].0
  }

  function KeysOf<V>(ps: seq<(string, V)>): set<string> {
    set i | 0 <= i < |ps| :: ps[i].0
  }

  /** Every pair of `ps` is an entry of `g`. */
  ghost predicate EntriesOf<V>(ps: seq<(string, V)>, g: map<string, V>) {
    forall i :: 0 <= i < |ps| ==> ps[i].0 in g && g[ps[i].0] == ps[i].1
  }

  /** `k` is an entry of `g` whose weight no other entry exceeds. */
  ghost predicate Heaviest<V>(g: map<string, V>, w: V -> nat, k: string) {
    k in g && forall k' :: k' in g ==> w(g[k']) <= w(g[k])
  }

  lemma {:induction false} HeaviestExists<V>(g: map<string, V>, w: V -> nat)
    requires |g| > 0
    ensures exists k :: Heaviest(g, w, k)
    decreases |g|
  {
    var k :| k in g;
    var rest := g - {k};
    if |rest| == 0 {
      assert rest.Keys == {};
      assert Heaviest(g, w, k);
    } else {
      HeaviestExists(rest, w);
      var m :| Heaviest(rest, w, m);
      assert forall k' :: k' in g ==> k' == k || (k' in rest && rest[k'] == g[k']);
      if w(g[m]) < w(g[k]) {
        assert Heaviest(g, w, k);
      } else {
        assert Heaviest(g, w, m);
      }
    }
  }

  /** The entries of `g`, heaviest first, equal weights in an unspecified order. */
  ghost function RankByWeight<V>(g: map<string, V>, w: V -> nat): (r: seq<(string, V)>)
    ensures |r| == |g|
    ensures EntriesOf(r, g)
    ensures KeysOf(r) == g.Keys
    ensures DistinctKeys(r)
    ensures NonIncreasing(r, w)
    decreases |g|
  {
    if |g| == 0 then []
    else
      HeaviestExists(g, w);
      var k :| Heaviest(g, w, k);
      var rest := RankByWeight(g - {k}, w);
      ConsHeaviest(g, w, k, rest);
      [(k, g[k])] + rest
  }

  /** Putting a heaviest entry in front of a ranking of the other entries ranks them all. */
  lemma ConsHeaviest<V>(g: map<string, V>, w: V -> nat, k: string, rest: seq<(string, V)>)
    requires Heaviest(g, w, k)
    requires EntriesOf(rest, g - {k}) && KeysOf(rest) == (g - {k}).Keys
    requires DistinctKeys(rest) && NonIncreasing(rest, w)
    ensures EntriesOf([(k, g[k])] + rest, g)
    ensures KeysOf([(k, g[k])] + rest) == g.Keys
    ensures DistinctKeys([(k, g[k])] + rest)
    ensures NonIncreasing([(k, g[k])] + rest, w)
  {
    var r := [(k, g[k])] + rest;
    assert forall i :: 0 < i < |r| ==> r[i] == rest[i - 1];
    ConsKeys(g, k, rest);
    assert forall i :: 0 <= i < |rest| ==> rest[i].0 in (g - {k}).Keys;
  }

  lemma ConsKeys<V>(g: map<string, V>, k: string, rest: seq<(string, V)>)
    requires k in g
    requires KeysOf(rest) == (g - {k}).Keys
    ensures KeysOf([(k, g[k])] + rest) == g.Keys
  {
    var r := [(k, g[k])] + rest;
    forall x | x in KeysOf(r) ensures x in g.Keys {
      var i :| 0 <= i < |r| && r[i].0 == x;
      if i > 0 {
        assert rest[i - 1].0 == x;
        assert x in KeysOf(rest);
      }
    }
    forall x | x in g.Keys ensures x in KeysOf(r) {
      if x == k {
        assert r[0].0 == x;
      } else {
        assert x in KeysOf(rest);
        var i :| 0 <= i < |rest| && rest[i].0 == x;
        assert r[i + 1].0 == x;
      }
    }
  }

  function Min(a: nat, b: nat): nat {
    if a <= b then a else b
  }

  /** `.head(n)` of a ranking: the first `n` groups (all of them when fewer). */
  function Top<V>(ps: seq<(string, V)>, n: nat, w: V -> nat): (r: seq<(string, V)>)
    requires NonIncreasing(ps, w)
    ensures |r| == Min(n, |ps|)
    ensures r == ps[..|r|]
    ensures NonIncreasing(r, w)
    ensures forall i, j :: 0 <= i < |r| <= j < |ps| ==> w(ps[j].1) <= w(r[i].1)
  {
    ps[..Min(n, |ps|)]
  }

  /** A key of `ps` that is not among the first `m` entries sits further on. */
  lemma KeyBeyondPrefix<V>(ps: seq<(string, V)>, m: nat, k: string)
    requires m <= |ps|
    requires k in KeysOf(ps) && k !in KeysOf(ps[..m])
    ensures exists j :: m <= j < |ps| && ps[j].0 == k
  {
    var j :| 0 <= j < |ps| && ps[j].0 == k;
    assert forall x :: 0 <= x < m ==> ps[..m][x] == ps[x];
  }

  /** A prefix of a list keeps the list's entries and distinct keys. */
  lemma PrefixEntries<V>(ps: seq<(string, V)>, g: map<string, V>, m: nat)
    requires m <= |ps|
    requires EntriesOf(ps, g) && DistinctKeys(ps)
    ensures EntriesOf(ps[..m], g) && DistinctKeys(ps[..m])
  {
    assert forall x :: 0 <= x < m ==> ps[..m][x] == ps[x];
  }

  /** `sort_values(ascending=False).head(n)` on the entries of `g`: at most `n`
      entries of `g`, heaviest first, and an entry left out weighs no more
      than any entry kept. */
  ghost function TopRanked<V>(g: map<string, V>, w: V -> nat, n: nat): (r: seq<(string, V)>)
    ensures |r| == Min(n, |g|)
    ensures NonIncreasing(r, w) && DistinctKeys(r) && EntriesOf(r, g)
    ensures forall k, i :: k in g && k !in KeysOf(r) && 0 <= i < |r| ==> w(g[k]) <= w(r[i].1)
  {
    var ps := RankByWeight(g, w);
    var r := Top(ps, n, w);
    PrefixEntries(ps, g, |r|);
    forall k, i | k in g && k !in KeysOf(r) && 0 <= i < |r| ensures w(g[k]) <= w(r[i].1) {
      KeyBeyondPrefix(ps, |r|, k);
    }
    r
  }
}

/** The order SQLite's default BINARY collation puts on TEXT values: lexicographic
    by code point (the same as comparing UTF-8 bytes), a proper prefix first.
    ORDER BY on rocket names, site names and year/month keys uses it. */
module TextOrder {

  predicate Less(a: string, b: string)
    ensures |a| < |b| && a == b[..|a|] ==> Less(a, b)
    ensures Less(a, b) ==> a != b
    decreases |a|
  {
    if |a| == 0 then |b| > 0
    else if |b| == 0 then false
    else if a[0] != b[0] then a[0] < b[0]
    else Less(a[1..], b[1..])
  }

  /** `a` is a proper prefix of `b`. */
  predicate ProperPrefix(a: string, b: string) {
    |a| < |b| && a == b[..|a|]
  }

  /** `a` and `b` agree before position `k`, where `a` has the smaller character. */
  predicate FirstDifference(a: string, b: string, k: int) {
    0 <= k < |a| && k < |b| && a[..k] == b[..k] && a[k] < b[k]
  }

  lemma {:induction false} LessFindsDifference(a: string, b: string)
    requires Less(a, b) && !ProperPrefix(a, b)
    ensures exists k :: FirstDifference(a, b, k)
    decreases |a|
  {
    if a[0] != b[0] {
      assert FirstDifference(a, b, 0);
    } else {
      assert !ProperPrefix(a[1..], b[1..]);
      LessFindsDifference(a[1..], b[1..]);
      var k :| FirstDifference(a[1..], b[1..], k);
      assert a[..k + 1] == [a[0]] + a[1..][..k];
      assert b[..k + 1] == [b[0]] + b[1..][..k];
      assert FirstDifference(a, b, k + 1);
    }
  }

  lemma {:induction false} DifferenceIsLess(a: string, b: string, k: int)
    requires FirstDifference(a, b, k)
    ensures Less(a, b)
    decreases k
  {
    if k > 0 {
      assert a[0] == a[..k][0] && b[0] == b[..k][0];
      assert a[1..][..k - 1] == a[..k][1..] && b[1..][..k - 1] == b[..k][1..];
      DifferenceIsLess(a[1..], b[1..], k - 1);
    }
  }

  /** Less is the lexicographic order: `a` is a proper prefix of `b`, or the two
      agree up to a first differing character, which is smaller in `a`. */
  lemma LessIsLexicographic(a: string, b: string)
    ensures Less(a, b) <==> ProperPrefix(a, b) || exists k :: FirstDifference(a, b, k)
  {
    if Less(a, b) && !ProperPrefix(a, b) {
      LessFindsDifference(a, b);
    }
    if exists k :: FirstDifference(a, b, k) {
      var k :| FirstDifference(a, b, k);
      DifferenceIsLess(a, b, k);
    }
  }

  lemma {:induction false} Irreflexive(a: string)
    ensures !Less(a, a)
    decreases |a|
  {
    if |a| > 0 {
      Irreflexive(a[1..]);
    }
  }

  lemma {:induction false} Transitive(a: string, b: string, c: string)
    requires Less(a, b) && Less(b, c)
    ensures Less(a, c)
    decreases |a|
  {
    if |a| > 0 && a[0] == b[0] && b[0] == c[0] {
      Transitive(a[1..], b[1..], c[1..]);
    }
  }

  lemma {:induction false} Trichotomy(a: string, b: string)
    ensures a == b || Less(a, b) || Less(b, a)
    decreases |a|
  {
    if |a| > 0 && |b| > 0 && a[0] == b[0] {
      Trichotomy(a[1..], b[1..]);
      if a[1..] == b[1..] {
        assert a == [a[0]] + a[1..] && b == [b[0]] + b[1..];
      }
    }
  }

  /** Every later element sorts strictly before every earlier one: ORDER BY key DESC
      over distinct keys. */
  predicate StrictlyDescending(s: seq<string>) {
    forall i, j :: 0 <= i < j < |s| ==> Less(s[j], s[i])
  }

  /** ORDER BY key ASC over distinct keys. */
  predicate StrictlyAscending(s: seq<string>) {
    forall i, j :: 0 <= i < j < |s| ==> Less(s[i], s[j])
  }

  /** Places `x` into a descending sequence in front of the first element below it. */
  function InsertDescending(x: string, s: seq<string>): (r: seq<string>)
    requires StrictlyDescending(s) && x !in s
    ensures |r| == |s| + 1
    ensures forall y :: y in r <==> y == x || y in s
    ensures StrictlyDescending(r)
  {
    if s == [] then [x]
    else if Less(s[0], x) then
      assert forall j :: 0 <= j < |s| ==> Less(s[j], x) by {
        forall j | 0 < j < |s| ensures Less(s[j], x) {
          Transitive(s[j], s[0], x);
        }
      }
      [x] + s
    else
      Trichotomy(x, s[0]);
      var rest := InsertDescending(x, s[1..]);
      assert forall y :: y in s[1..] ==> Less(y, s[0]) by {
        forall y | y in s[1..] ensures Less(y, s[0]) {
          var j :| 0 <= j < |s[1..]| && s[1..][j] == y;
          assert s[j + 1] == y;
        }
      }
      [s[0]] + rest
  }

  /** The distinct members of a finite set of keys, largest first. */
  ghost function SortDescending(keys: set<string>): (r: seq<string>)
    ensures |r| == |keys|
    ensures forall y :: y in r <==> y in keys
    ensures StrictlyDescending(r)
    decreases |keys|
  {
    if keys == {} then []
    else
      var x :| x in keys;
      InsertDescending(x, SortDescending(keys - {x}))
  }

  function Reverse(s: seq<string>): (r: seq<string>)
    ensures |r| == |s|
    ensures forall i :: 0 <= i < |s| ==> r[i] == s[|s| - 1 - i]
  {
    seq(|s|, i requires 0 <= i < |s| => s[|s| - 1 - i])
  }

  /** The distinct members of a finite set of keys, smallest first. */
  ghost function SortAscending(keys: set<string>): (r: seq<string>)
    ensures |r| == |keys|
    ensures forall y :: y in r <==> y in keys
    ensures StrictlyAscending(r)
  {
    var d := SortDescending(keys);
    var r := Reverse(d);
    assert forall y :: y in r <==> y in d by {
      forall y ensures y in r <==> y in d {
        if y in d {
          var i :| 0 <= i < |d| && d[i] == y;
          assert r[|d| - 1 - i] == y;
        }
      }
    }
    r
  }
}

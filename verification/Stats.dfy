/** The latency statistics of a bucket of checks (internal/store/rollup.go, stats). */
module Stats {

  /** Division of Go's int: towards zero. */
  function Quo(a: int, b: int): int
    requires b > 0
  {
    if a >= 0 then a / b else -(-a / b)
  }

  function Sum(s: seq<int>): int {
    if s == [] then 0 else Sum(s[..|s| - 1]) + s[|s| - 1]
  }

  function Put(s: seq<int>, x: int): (r: seq<int>)
    ensures |r| == |s| + 1
  {
    if s == [] || s[|s| - 1] <= x then s + [x] else Put(s[..|s| - 1], x) + [s[|s| - 1]]
  }

  /** slices.Sort */
  function Sort(s: seq<int>): (r: seq<int>)
    ensures |r| == |s|
  {
    if s == [] then [] else Put(Sort(s[..|s| - 1]), s[|s| - 1])
  }

  /** The index of the 95th percentile among n sorted samples. */
  function Rank95(n: nat): (r: int)
    ensures n > 0 ==> 0 <= r < n
    ensures 100 * r < 95 * n <= 100 * (r + 1)
  {
    (95 * n + 99) / 100 - 1
  }

  datatype Summary = Summary(avg: int, p95: int, max: int)

  function Summarize(lat: seq<int>): Summary {
    var n := |lat|;
    if n == 0 then Summary(0, 0, 0)
    else
      var sorted := Sort(lat);
      Summary(Quo(Sum(sorted), n), sorted[Rank95(n)], sorted[n - 1])
  }

  class Stats {
    var total: nat
    var ok: nat
    var lat: seq<int>

    constructor ()
      ensures total == 0 && ok == 0 && lat == []
    {
      total, ok, lat := 0, 0, [];
    }

    method Add(okay: bool, latency: int)
      modifies this
      ensures total == old(total) + 1
      ensures ok == old(ok) + (if okay then 1 else 0)
      ensures lat == old(lat) + (if okay then [latency] else [])
    {
      total := total + 1;
      if okay {
        ok := ok + 1;
        lat := lat + [latency];
      } else {
        assert lat == lat + [];
      }
    }

    method Latency() returns (avg: int, p95: int, maxMs: int)
      modifies this`lat
      ensures Summary(avg, p95, maxMs) == Summarize(old(lat))
      ensures lat == Sort(old(lat))
      ensures old(lat) == [] ==> avg == p95 == maxMs == 0
    {
      var n := |lat|;
      if n == 0 {
        return 0, 0, 0;
      }
      lat := Sort(lat);
      var sum := 0;
      for i := 0 to n
        invariant sum == Sum(lat[..i]) && lat == Sort(old(lat))
      {
        assert lat[..i + 1][..i] == lat[..i];
        sum := sum + lat[i];
      }
      assert lat[..n] == lat;
      return Quo(sum, n), lat[Rank95(n)], lat[n - 1];
    }
  }

  // ----- sorting -----

  ghost predicate Ascending(s: seq<int>) {
    forall i, j :: 0 <= i <= j < |s| ==> s[i] <= s[j]
  }

  lemma AscendingAppend(s: seq<int>, x: int)
    requires Ascending(s) && forall y :: y in s ==> y <= x
    ensures Ascending(s + [x])
  {
    forall i | 0 <= i < |s| ensures s[i] <= x {
      assert s[i] in s;
    }
  }

  lemma {:induction false} PutKeeps(s: seq<int>, x: int)
    ensures multiset(Put(s, x)) == multiset(s) + multiset{x}
  {
    var n := |s| - 1;
    if s != [] && s[n] > x {
      PutKeeps(s[..n], x);
      assert s == s[..n] + [s[n]];
    }
  }

  lemma PutElements(s: seq<int>, x: int)
    ensures forall y :: y in Put(s, x) ==> y == x || y in s
  {
    PutKeeps(s, x);
    forall y | y in Put(s, x) ensures y == x || y in s {
      assert y in multiset(Put(s, x));
    }
  }

  lemma {:induction false} PutSorts(s: seq<int>, x: int)
    requires Ascending(s)
    ensures Ascending(Put(s, x))
  {
    var n := |s| - 1;
    if s == [] || s[n] <= x {
      AscendingAppend(s, x);
    } else {
      PutSorts(s[..n], x);
      PutElements(s[..n], x);
      AscendingAppend(Put(s[..n], x), s[n]);
    }
  }

  lemma {:induction false} SortSorts(s: seq<int>)
    ensures Ascending(Sort(s)) && multiset(Sort(s)) == multiset(s)
  {
    if s != [] {
      var n := |s| - 1;
      SortSorts(s[..n]);
      PutSorts(Sort(s[..n]), s[n]);
      PutKeeps(Sort(s[..n]), s[n]);
      assert s == s[..n] + [s[n]];
    }
  }

  lemma LastIsLargest(a: seq<int>, x: int)
    requires Ascending(a) && x in multiset(a)
    ensures x <= a[|a| - 1]
  {
    assert x in a;
  }

  lemma WithoutLast(a: seq<int>)
    requires a != []
    ensures Ascending(a) ==> Ascending(a[..|a| - 1])
    ensures multiset(a[..|a| - 1]) == multiset(a) - multiset{a[|a| - 1]}
  {
    assert a == a[..|a| - 1] + [a[|a| - 1]];
  }

  lemma SameLast(a: seq<int>, b: seq<int>)
    requires Ascending(a) && Ascending(b) && multiset(a) == multiset(b) && a != []
    ensures |a| == |b| && a[|a| - 1] == b[|b| - 1]
  {
    assert |a| == |multiset(a)| == |multiset(b)| == |b|;
    LastIsLargest(a, b[|b| - 1]);
    LastIsLargest(b, a[|a| - 1]);
  }

  lemma {:induction false} AscendingIsUnique(a: seq<int>, b: seq<int>)
    requires Ascending(a) && Ascending(b) && multiset(a) == multiset(b)
    ensures a == b
  {
    hide Ascending;
    if a == [] {
      assert |b| == |multiset(b)| == |multiset(a)|;
    } else {
      SameLast(a, b);
      WithoutLast(a);
      WithoutLast(b);
      AscendingIsUnique(a[..|a| - 1], b[..|b| - 1]);
      LastJoins(a);
      LastJoins(b);
    }
  }

  lemma LastJoins(a: seq<int>)
    requires a != []
    ensures a == a[..|a| - 1] + [a[|a| - 1]]
  {
  }

  /** The statistics depend on the samples, not on the order in which they were added. */
  lemma SummaryIgnoresOrder(a: seq<int>, b: seq<int>)
    requires multiset(a) == multiset(b)
    ensures Summarize(a) == Summarize(b)
  {
    SortSorts(a);
    SortSorts(b);
    AscendingIsUnique(Sort(a), Sort(b));
  }

  // ----- what the three numbers mean -----

  /** How many samples are at most v. */
  function AtMost(s: seq<int>, v: int): nat {
    if s == [] then 0 else AtMost(s[..|s| - 1], v) + if s[|s| - 1] <= v then 1 else 0
  }

  lemma {:induction false} AtMostPut(s: seq<int>, x: int, v: int)
    ensures AtMost(Put(s, x), v) == AtMost(s, v) + if x <= v then 1 else 0
  {
    var n := |s| - 1;
    if s == [] || s[n] <= x {
      assert (s + [x])[..|s|] == s;
    } else {
      AtMostPut(s[..n], x, v);
      assert (Put(s[..n], x) + [s[n]])[..|s|] == Put(s[..n], x);
    }
  }

  lemma {:induction false} AtMostSort(s: seq<int>, v: int)
    ensures AtMost(Sort(s), v) == AtMost(s, v)
  {
    if s != [] {
      AtMostSort(s[..|s| - 1], v);
      AtMostPut(Sort(s[..|s| - 1]), s[|s| - 1], v);
    }
  }

  /** In a sorted list, the first k + 1 samples are at most the k-th, and no more than k
      samples are below it. */
  lemma {:induction false} AtMostOfSorted(s: seq<int>, k: nat, v: int)
    requires Ascending(s) && k < |s|
    ensures v >= s[k] ==> AtMost(s, v) > k
    ensures v < s[k] ==> AtMost(s, v) <= k
  {
    var n := |s| - 1;
    AtMostBound(s[..n], v);
    if k < n {
      AtMostOfSorted(s[..n], k, v);
    } else if v >= s[n] {
      AllAtMost(s[..n], v);
    }
  }

  lemma {:induction false} AtMostBound(s: seq<int>, v: int)
    ensures AtMost(s, v) <= |s|
  {
    if s != [] {
      AtMostBound(s[..|s| - 1], v);
    }
  }

  lemma {:induction false} AllAtMost(s: seq<int>, v: int)
    requires forall i :: 0 <= i < |s| ==> s[i] <= v
    ensures AtMost(s, v) == |s|
  {
    if s != [] {
      AllAtMost(s[..|s| - 1], v);
    }
  }

  /** p95 is the smallest sample with at least 95 percent of all samples at or below it. */
  lemma NearestRank(lat: seq<int>)
    requires lat != []
    ensures var p95 := Summarize(lat).p95;
            && p95 in lat
            && 100 * AtMost(lat, p95) >= 95 * |lat|
            && forall v :: v < p95 ==> 100 * AtMost(lat, v) < 95 * |lat|
  {
    var n, sorted := |lat|, Sort(lat);
    SortSorts(lat);
    var k: nat := Rank95(n);
    assert sorted[k] in multiset(lat);
    AtMostOfSorted(sorted, k, sorted[k]);
    AtMostSort(lat, sorted[k]);
    forall v | v < sorted[k] ensures 100 * AtMost(lat, v) < 95 * n {
      AtMostOfSorted(sorted, k, v);
      AtMostSort(lat, v);
    }
  }

  lemma {:induction false} SumBounds(s: seq<int>, lo: int, hi: int)
    requires forall i :: 0 <= i < |s| ==> lo <= s[i] <= hi
    ensures lo * |s| <= Sum(s) <= hi * |s|
  {
    if s != [] {
      SumBounds(s[..|s| - 1], lo, hi);
      assert lo * |s| == lo * (|s| - 1) + lo && hi * |s| == hi * (|s| - 1) + hi;
    }
  }

  lemma CancelFactor(x: int, y: int, n: nat)
    requires n > 0 && x * n < y * n
    ensures x < y
  {
    assert (y - x) * n == y * n - x * n;
  }

  lemma QuoBounds(a: int, n: nat, lo: int, hi: int)
    requires n > 0 && lo * n <= a <= hi * n
    ensures lo <= Quo(a, n) <= hi
  {
    var q := Quo(a, n);
    if a >= 0 {
      assert q * n <= a < (q + 1) * n;
    } else {
      assert (q - 1) * n < a <= q * n;
    }
    assert (q - 1) * n == q * n - n && (q + 1) * n == q * n + n && (hi + 1) * n == hi * n + n && (lo - 1) * n == lo * n - n;
    CancelFactor(lo - 1, q, n);
    CancelFactor(q, hi + 1, n);
  }

  /** max is the largest sample, p95 is at most that, and the mean lies between the smallest
      and the largest sample. */
  lemma SummaryBounds(lat: seq<int>, lo: int)
    requires lat != [] && forall v :: v in lat ==> lo <= v
    ensures var r := Summarize(lat);
            && r.max in lat && (forall v :: v in lat ==> v <= r.max)
            && r.p95 <= r.max && lo <= r.avg <= r.max
  {
    var n, sorted := |lat|, Sort(lat);
    SortSorts(lat);
    forall i | 0 <= i < n ensures lo <= sorted[i] <= sorted[n - 1] && sorted[i] in lat {
      assert sorted[i] in multiset(lat);
      assert sorted[i] in lat;
    }
    forall v | v in lat ensures v <= sorted[n - 1] {
      assert v in multiset(sorted);
    }
    SumBounds(sorted, lo, sorted[n - 1]);
    QuoBounds(Sum(sorted), n, lo, sorted[n - 1]);
  }

  lemma {:induction false} SumPut(s: seq<int>, x: int)
    ensures Sum(Put(s, x)) == Sum(s) + x
  {
    var n := |s| - 1;
    if s == [] || s[n] <= x {
      assert (s + [x])[..|s|] == s;
    } else {
      SumPut(s[..n], x);
      assert (Put(s[..n], x) + [s[n]])[..|s|] == Put(s[..n], x);
    }
  }

  /** Sorting does not change the sum, so the mean is that of the samples as added. */
  lemma {:induction false} SumSort(s: seq<int>)
    ensures Sum(Sort(s)) == Sum(s)
  {
    if s != [] {
      SumSort(s[..|s| - 1]);
      SumPut(Sort(s[..|s| - 1]), s[|s| - 1]);
    }
  }

  /** What the three numbers say of some samples, each from the samples alone: without any they are 0,
      otherwise the mean towards zero, the nearest rank and the largest one. */
  ghost predicate Tells(lat: seq<int>, avg: int, p95: int, max: int) {
    if lat == [] then avg == p95 == max == 0
    else
      && (Sum(lat) >= 0 ==> avg * |lat| <= Sum(lat) < (avg + 1) * |lat|)
      && (Sum(lat) < 0 ==> (avg - 1) * |lat| < Sum(lat) <= avg * |lat|)
      && p95 in lat && 100 * AtMost(lat, p95) >= 95 * |lat| && (forall v :: v < p95 ==> 100 * AtMost(lat, v) < 95 * |lat|)
      && max in lat && (forall v :: v in lat ==> v <= max)
  }

  lemma QuoIs(a: int, n: nat)
    requires n > 0
    ensures a >= 0 ==> Quo(a, n) * n <= a < (Quo(a, n) + 1) * n
    ensures a < 0 ==> (Quo(a, n) - 1) * n < a <= Quo(a, n) * n
  {
  }

  lemma Least(lat: seq<int>, k: nat) returns (lo: int)
    requires k <= |lat|
    ensures forall i :: 0 <= i < k ==> lo <= lat[i]
  {
    lo := 0;
    if k > 0 {
      lo := Least(lat, k - 1);
      if lat[k - 1] < lo {
        lo := lat[k - 1];
      }
    }
  }

  lemma MeanIs(lat: seq<int>)
    requires lat != []
    ensures Summarize(lat).avg == Quo(Sum(lat), |lat|)
  {
    hide Sum, Sort, Quo;
    SumSort(lat);
  }

  lemma SummaryTells(lat: seq<int>)
    ensures var s := Summarize(lat); Tells(lat, s.avg, s.p95, s.max)
  {
    hide AtMost, Sort, Sum, Quo;
    if lat != [] {
      MeanIs(lat);
      hide Summarize;
      NearestRank(lat);
      var lo := Least(lat, |lat|);
      SummaryBounds(lat, lo);
      QuoIs(Sum(lat), |lat|);
    }
  }
}

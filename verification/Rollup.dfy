/** The table hourly and the statements on it (internal/store/rollup.go) as functions of
    the tables and the clock. */
module Rollup {
  import opened Base
  import opened Tables
  import opened Stats

  const HOUR := 3600

  /** The remainder of Go's int64, with the sign of the dividend. */
  function Rem(u: int, m: int): int
    requires m > 0
  {
    if u >= 0 then u % m else -(-u % m)
  }

  function HourStart(u: int): (h: int)
    ensures h % HOUR == 0 && (u >= 0 ==> h <= u < h + HOUR)
  {
    u - Rem(u, HOUR)
  }

  /** Before 1970 the remainder of Go has the sign of the time: an hour is known by its end. */
  lemma HourBefore1970(u: int)
    requires u < 0
    ensures HourStart(u) - 3600 < u <= HourStart(u) && HourStart(u) % 3600 == 0
  {
  }

  datatype Key = Key(target: int, hour: int)

  /** A row of hourly. */
  datatype HourRow = HourRow(total: nat, ok: nat, avg: int, p95: int, max: int)

  type Hourly = map<Key, HourRow>

  function KeyOf(c: Check): Key {
    Key(c.target, HourStart(c.at))
  }

  /** The checks of one target in one hour. */
  function Bucket(checks: seq<Check>, k: Key): seq<Check> {
    Filter(checks, (c: Check) => KeyOf(c) == k)
  }

  function Between(checks: seq<Check>, from: int, to: int): seq<Check> {
    Filter(checks, (c: Check) => from <= c.at < to)
  }

  /** The latencies of the successful checks. */
  function Latencies(checks: seq<Check>): (r: seq<int>)
    ensures |r| <= |checks|
  {
    if checks == [] then []
    else
      var c := checks[|checks| - 1];
      Latencies(checks[..|checks| - 1]) + if c.ok then [c.latency] else []
  }

  function RowOf(bucket: seq<Check>): HourRow {
    var lat := Latencies(bucket);
    var sum := Summarize(lat);
    HourRow(|bucket|, |lat|, sum.avg, sum.p95, sum.max)
  }

  function KeysOf(checks: seq<Check>): set<Key> {
    set c | c in checks :: KeyOf(c)
  }

  /** What Rollup scans: the two full hours before the current one. */
  function Scanned(checks: seq<Check>, now: int): seq<Check> {
    Between(checks, HourStart(now) - 2 * HOUR, HourStart(now))
  }

  /** hourly after Rollup. */
  function RolledUp(checks: seq<Check>, hourly: Hourly, now: int): Hourly {
    var rows := Scanned(checks, now);
    map k | k in hourly.Keys + KeysOf(rows) :: if k in KeysOf(rows) then RowOf(Bucket(rows, k)) else hourly[k]
  }

  /** A Rollup at now computes the rows of the two full hours before. */
  predicate Covers(now: int, hour: int) {
    hour == HourStart(now) - HOUR || hour == HourStart(now) - 2 * HOUR
  }

  /** The second statement of Prune. */
  function PrunedHours(hourly: Hourly, before: int): Hourly {
    map k | k in hourly && before <= k.hour :: hourly[k]
  }

  /** total, or ok_count, of a row. */
  function Value(r: HourRow, okOnly: bool): nat {
    if okOnly then r.ok else r.total
  }

  /** sum(total), or sum(ok_count), over the rows of a target with lo <= hour < hi. */
  function SumRows(hourly: Hourly, target: int, lo: int, hi: int, okOnly: bool): nat
    decreases hi - lo
  {
    if lo >= hi then 0
    else
      SumRows(hourly, target, lo, hi - 1, okOnly) +
      if Key(target, hi - 1) in hourly then Value(hourly[Key(target, hi - 1)], okOnly) else 0
  }

  /** count(*), or sum(ok), over the checks of a target from from on. */
  function Since(checks: seq<Check>, target: int, from: int, okOnly: bool): nat {
    if checks == [] then 0
    else
      var c := checks[|checks| - 1];
      Since(checks[..|checks| - 1], target, from, okOnly) +
      if c.target == target && from <= c.at && (!okOnly || c.ok) then 1 else 0
  }

  // ----- uptime -----

  datatype Ratio = NoData | Share(ok: nat, total: nat)

  function RatioOf(ok: nat, total: nat): Ratio {
    if total == 0 then NoData else Share(ok, total)
  }

  /** What the index holds for the current hour and the n hours before. */
  function Indexed(checks: seq<Check>, hourly: Hourly, target: int, now: int, n: nat, okOnly: bool): nat {
    var cur := HourStart(now);
    SumRows(hourly, target, cur - n * HOUR, cur, okOnly) + Since(checks, target, cur, okOnly)
  }

  function IndexedRatio(checks: seq<Check>, hourly: Hourly, target: int, now: int, n: nat): Ratio {
    RatioOf(Indexed(checks, hourly, target, now, n, true), Indexed(checks, hourly, target, now, n, false))
  }

  datatype Shares = Shares(day: Ratio, week: Ratio, month: Ratio)

  function UptimeOf(checks: seq<Check>, hourly: Hourly, target: int, now: int): Shares {
    Shares(IndexedRatio(checks, hourly, target, now, 23),
           IndexedRatio(checks, hourly, target, now, 167),
           IndexedRatio(checks, hourly, target, now, 719))
  }

  /** The answer for a window: nothing if it holds no check, otherwise how many of its checks were
      successes, and how many there are. */
  ghost predicate Counts(r: Ratio, checks: seq<Check>, hourly: Hourly, target: int, now: int, n: nat) {
    var total, ok := Indexed(checks, hourly, target, now, n, false), Indexed(checks, hourly, target, now, n, true);
    && (r.NoData? <==> total == 0)
    && (r.Share? ==> r.ok == ok && r.total == total)
  }

  lemma RatioCounts(checks: seq<Check>, hourly: Hourly, target: int, now: int, n: nat)
    ensures Counts(IndexedRatio(checks, hourly, target, now, n), checks, hourly, target, now, n)
  {
  }

  /** What Since counts: the target's checks from from on, or the successes among them. */
  lemma {:induction false} SinceCounts(checks: seq<Check>, target: int, from: int)
    ensures Since(checks, target, from, false) == |Filter(checks, (c: Check) => c.target == target && from <= c.at)|
    ensures Since(checks, target, from, true) == |Filter(checks, (c: Check) => c.target == target && from <= c.at && c.ok)|
  {
    if checks != [] {
      SinceCounts(checks[..|checks| - 1], target, from);
    }
  }

  /** No window has more successes than checks, if no row has. */
  lemma {:induction false} RowsAreSane(hourly: Hourly, target: int, lo: int, hi: int)
    requires forall k :: k in hourly ==> hourly[k].ok <= hourly[k].total
    ensures SumRows(hourly, target, lo, hi, true) <= SumRows(hourly, target, lo, hi, false)
    decreases hi - lo
  {
    if lo < hi {
      RowsAreSane(hourly, target, lo, hi - 1);
    }
  }

  lemma {:induction false} FewerSucceed(checks: seq<Check>, target: int, from: int)
    ensures Since(checks, target, from, true) <= Since(checks, target, from, false)
  {
    if checks != [] {
      FewerSucceed(checks[..|checks| - 1], target, from);
    }
  }

  lemma SharesAreSane(checks: seq<Check>, hourly: Hourly, target: int, now: int, n: nat)
    requires forall k :: k in hourly ==> hourly[k].ok <= hourly[k].total
    ensures var r := IndexedRatio(checks, hourly, target, now, n); r.Share? ==> r.ok <= r.total && r.total > 0
  {
    hide SumRows, Since;
    RowsAreSane(hourly, target, HourStart(now) - n * HOUR, HourStart(now));
    FewerSucceed(checks, target, HourStart(now));
  }

  // ----- what a row says of its checks -----

  lemma {:induction false} LatenciesAre(checks: seq<Check>)
    ensures var good := Filter(checks, (c: Check) => c.ok);
            && |Latencies(checks)| == |good|
            && forall i :: 0 <= i < |good| ==> Latencies(checks)[i] == good[i].latency
  {
    if checks != [] {
      LatenciesAre(checks[..|checks| - 1]);
    }
  }

  /** A row says how many checks its hour had, how many of them succeeded, and the mean, the nearest
      rank and the largest of the latencies of those. */
  lemma RowMeans(bucket: seq<Check>)
    ensures var row, good := RowOf(bucket), Filter(bucket, (c: Check) => c.ok);
            && row.total == |bucket| && row.ok == |good|
            && exists lat :: |lat| == |good| && (forall i :: 0 <= i < |good| ==> lat[i] == good[i].latency)
                             && Tells(lat, row.avg, row.p95, row.max)
  {
    hide Filter, Tells, Summarize;
    LatenciesAre(bucket);
    SummaryTells(Latencies(bucket));
  }

  // ----- Rollup is a group by -----

  /** A time whose hour starts at h > 0 lies in that hour. */
  lemma HourOf(u: int, h: int)
    requires h > 0 && HourStart(u) == h
    ensures h <= u < h + HOUR
  {
  }

  lemma BucketOfScanned(checks: seq<Check>, now: int, k: Key)
    requires now >= 3 * HOUR && Covers(now, k.hour)
    ensures Bucket(Scanned(checks, now), k) == Bucket(checks, k)
  {
    hide Filter;
    var cur := HourStart(now);
    var scan := (c: Check) => cur - 2 * HOUR <= c.at < cur;
    var pick := (c: Check) => KeyOf(c) == k;
    var both := (c: Check) => scan(c) && pick(c);
    FilterFilter(checks, scan, pick, both);
    forall c | c in checks ensures both(c) == pick(c) {
      if pick(c) {
        HourOf(c.at, k.hour);
      }
    }
    FilterAgree(checks, both, pick);
  }

  /** A check is scanned exactly if its hour is one of the two that Rollup covers. */
  lemma ScannedKeys(checks: seq<Check>, now: int, k: Key)
    requires now >= 3 * HOUR
    ensures k in KeysOf(Scanned(checks, now)) <==> Covers(now, k.hour) && Bucket(checks, k) != []
  {
    hide Filter;
    var cur, rows, bucket := HourStart(now), Scanned(checks, now), Bucket(checks, k);
    if k in KeysOf(rows) {
      var c :| c in rows && KeyOf(c) == k;
      assert c in bucket;
    }
    if Covers(now, k.hour) && bucket != [] {
      var c := bucket[0];
      assert c in bucket && KeyOf(c) == k;
      HourOf(c.at, k.hour);
      assert c in rows;
    }
  }

  /** After Rollup, every target and hour with checks in the last two full hours has the row
      of exactly those checks, and every other row is as it was. */
  lemma RollupGroups(checks: seq<Check>, hourly: Hourly, now: int, k: Key)
    requires now >= 3 * HOUR
    ensures var after := RolledUp(checks, hourly, now);
            if Covers(now, k.hour) && Bucket(checks, k) != []
            then k in after && after[k] == RowOf(Bucket(checks, k))
            else (k in after <==> k in hourly) && (k in after ==> after[k] == hourly[k])
  {
    hide Bucket, RowOf;
    ScannedKeys(checks, now, k);
    if Covers(now, k.hour) {
      BucketOfScanned(checks, now, k);
    }
  }

  /** A second Rollup of the same checks in the same hour changes nothing. */
  lemma RollupTwice(checks: seq<Check>, hourly: Hourly, now: int, later: int)
    requires HourStart(now) == HourStart(later)
    ensures var once := RolledUp(checks, hourly, now);
            RolledUp(checks, once, later) == once
  {
    hide RowOf, Bucket, KeysOf, Filter;
    var rows := Scanned(checks, now);
    assert Scanned(checks, later) == rows;
    var once := RolledUp(checks, hourly, now);
    assert once.Keys + KeysOf(rows) == once.Keys;
  }

  /** The sizes of the buckets of some keys together. */
  function BucketSizes(rows: seq<Check>, keys: seq<Key>): nat {
    if keys == [] then 0 else |Bucket(rows, keys[|keys| - 1])| + BucketSizes(rows, keys[..|keys| - 1])
  }

  ghost predicate Distinct<T>(s: seq<T>) {
    forall i, j :: 0 <= i < j < |s| ==> s[i] != s[j]
  }

  lemma {:induction false} BucketSizesStep(rows: seq<Check>, c: Check, keys: seq<Key>)
    requires Distinct(keys)
    ensures BucketSizes(rows + [c], keys) == BucketSizes(rows, keys) + if KeyOf(c) in keys then 1 else 0
  {
    if keys != [] {
      var n := |keys| - 1;
      BucketSizesStep(rows, c, keys[..n]);
      assert (rows + [c])[..|rows|] == rows;
      assert keys == keys[..n] + [keys[n]];
    }
  }

  lemma {:induction false} BucketSizesNone(keys: seq<Key>)
    ensures BucketSizes([], keys) == 0
  {
    if keys != [] {
      BucketSizesNone(keys[..|keys| - 1]);
    }
  }

  /** No check is lost or counted twice: the totals of the buckets add up to the rows scanned. */
  lemma {:induction false} BucketsPartition(rows: seq<Check>, keys: seq<Key>)
    requires Distinct(keys) && forall c :: c in rows ==> KeyOf(c) in keys
    ensures BucketSizes(rows, keys) == |rows|
  {
    if rows == [] {
      BucketSizesNone(keys);
    } else {
      var n := |rows| - 1;
      BucketsPartition(rows[..n], keys);
      BucketSizesStep(rows[..n], rows[n], keys);
      assert rows == rows[..n] + [rows[n]];
    }
  }
}

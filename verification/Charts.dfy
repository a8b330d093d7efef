/** What the detail page draws: the hour bars (internal/store/rollup.go, Hours, and
    internal/web/public.go, cells) and the latency line (Latency and slots). */
module Charts {
  import opened Base
  import opened Tables
  import opened Stats
  import opened Rollup
  import UptimeIndex

  // ----- hour bars -----

  datatype Hour = Hour(start: int, total: nat, ok: nat)

  function StoredHour(hourly: Hourly, target: int, h: int): Hour {
    if Key(target, h) in hourly then Hour(h, hourly[Key(target, h)].total, hourly[Key(target, h)].ok) else Hour(h, 0, 0)
  }

  /** The n hours up to the current one, oldest first. */
  function HoursOf(checks: seq<Check>, hourly: Hourly, target: int, now: int, n: nat): seq<Hour>
    requires n >= 1
  {
    var cur := HourStart(now);
    seq(n - 1, i requires 0 <= i < n - 1 => StoredHour(hourly, target, cur - (n - 1 - i) * HOUR)) +
    [Hour(cur, Since(checks, target, cur, false), Since(checks, target, cur, true))]
  }

  function SumHours(hours: seq<Hour>, okOnly: bool): nat {
    if hours == [] then 0
    else SumHours(hours[1..], okOnly) + if okOnly then hours[0].ok else hours[0].total
  }

  lemma {:induction false} SumHoursConcat(a: seq<Hour>, b: seq<Hour>, okOnly: bool)
    ensures SumHours(a + b, okOnly) == SumHours(a, okOnly) + SumHours(b, okOnly)
    decreases |a|
  {
    if a == [] {
      assert a + b == b;
    } else {
      assert (a + b)[1..] == a[1..] + b;
      SumHoursConcat(a[1..], b, okOnly);
    }
  }

  lemma {:induction false} StoredHoursSum(hourly: Hourly, target: int, cur: int, hours: seq<Hour>, okOnly: bool)
    requires UptimeIndex.Aligned(hourly) && cur % HOUR == 0
    requires forall i :: 0 <= i < |hours| ==> hours[i] == StoredHour(hourly, target, cur - (|hours| - i) * HOUR)
    ensures SumHours(hours, okOnly) == SumRows(hourly, target, cur - |hours| * HOUR, cur, okOnly)
    decreases |hours|
  {
    if hours != [] {
      hide SumRows;
      var h := cur - |hours| * HOUR;
      StoredHoursSum(hourly, target, cur, hours[1..], okOnly);
      UptimeIndex.SumRowsOfHour(hourly, Key(target, h), okOnly);
      UptimeIndex.SumRowsSplit(hourly, target, h, h + HOUR, cur, okOnly);
    } else {
      UptimeIndex.SumRowsNone(hourly, target, cur, cur, okOnly);
    }
  }

  /** Bars agree with percentages: what the n bars show adds up to what the percentage over
      the same hours is computed from, for the day (24), the week (168) and the month (720). */
  lemma BarsAgreeWithUptime(checks: seq<Check>, hourly: Hourly, target: int, now: int, n: nat)
    requires UptimeIndex.Aligned(hourly) && n >= 1
    ensures var hours := HoursOf(checks, hourly, target, now, n);
            IndexedRatio(checks, hourly, target, now, n - 1) == RatioOf(SumHours(hours, true), SumHours(hours, false))
  {
    hide SumRows, Since;
    var hours, cur := HoursOf(checks, hourly, target, now, n), HourStart(now);
    forall okOnly ensures SumHours(hours, okOnly) == Indexed(checks, hourly, target, now, n - 1, okOnly) {
      assert hours == hours[..n - 1] + [hours[n - 1]];
      SumHoursConcat(hours[..n - 1], [hours[n - 1]], okOnly);
      assert [hours[n - 1]][1..] == [];
      StoredHoursSum(hourly, target, cur, hours[..n - 1], okOnly);
    }
  }

  datatype CellState = Unknown | Up | Down

  datatype Cell = Cell(start: int, state: CellState, share: Ratio)

  function CellOf(group: seq<Hour>): Cell
    requires group != []
  {
    var total, ok := SumHours(group, false), SumHours(group, true);
    Cell(group[0].start, if total == 0 then Unknown else if ok < total then Down else Up, RatioOf(ok, total))
  }

  /** One cell for every full group of n hours. */
  function CellsOf(hours: seq<Hour>, n: nat): seq<Cell>
    requires n >= 1
    decreases |hours|
  {
    if |hours| < n then [] else [CellOf(hours[..n])] + CellsOf(hours[n..], n)
  }

  method Tally(group: seq<Hour>) returns (total: nat, ok: nat)
    ensures total == SumHours(group, false) && ok == SumHours(group, true)
  {
    total, ok := 0, 0;
    for j := 0 to |group|
      invariant total + SumHours(group[j..], false) == SumHours(group, false)
      invariant ok + SumHours(group[j..], true) == SumHours(group, true)
    {
      assert group[j..][1..] == group[j + 1..];
      total := total + group[j].total;
      ok := ok + group[j].ok;
    }
    assert group[|group|..] == [];
  }

  /** cells; its inner loop is Tally. */
  method Cells(hours: seq<Hour>, n: nat) returns (out: seq<Cell>)
    requires n >= 1
    ensures out == CellsOf(hours, n)
  {
    out := [];
    var i := 0;
    while i + n <= |hours|
      invariant 0 <= i <= |hours| && out + CellsOf(hours[i..], n) == CellsOf(hours, n)
    {
      var group := hours[i..i + n];
      var total, ok := Tally(group);
      var state := Unknown;
      if total > 0 {
        state := Up;
        if ok < total {
          state := Down;
        }
      }
      assert hours[i..][..n] == group && hours[i..][n..] == hours[i + n..];
      out := out + [Cell(hours[i].start, state, RatioOf(ok, total))];
      i := i + n;
    }
  }

  /** There are as many cells as full groups. */
  lemma {:induction false} CellCount(hours: seq<Hour>, n: nat)
    requires n >= 1
    ensures |CellsOf(hours, n)| == |hours| / n
    decreases |hours|
  {
    hide CellOf;
    if |hours| >= n {
      CellCount(hours[n..], n);
      OneGroupMore(|hours| - n, n);
    } else {
      assert CellsOf(hours, n) == [];
    }
  }

  lemma SliceOfDrop<T>(s: seq<T>, n: nat, a: nat, b: nat)
    requires a <= b && n + b <= |s|
    ensures s[n..][a..b] == s[n + a..n + b]
  {
  }

  /** Cell k shows the hours k * n up to (k + 1) * n. */
  lemma {:induction false} CellAt(hours: seq<Hour>, n: nat, k: nat, from: nat)
    requires n >= 1 && k < |CellsOf(hours, n)| && from == k * n
    ensures from + n <= |hours| && CellsOf(hours, n)[k] == CellOf(hours[from..from + n])
    decreases |hours|
  {
    hide CellOf;
    if k > 0 {
      assert from == (k - 1) * n + n;
      CellAt(hours[n..], n, k - 1, from - n);
      SliceOfDrop(hours, n, from - n, from);
    }
  }

  lemma Quotient(a: nat, n: nat, q: nat)
    requires n >= 1 && q * n <= a < q * n + n
    ensures a / n == q
  {
    var r := a / n;
    assert r * n <= a < r * n + n;
    assert (q + 1) * n == q * n + n && (r + 1) * n == r * n + n;
    CancelFactor(q, r + 1, n);
    CancelFactor(r, q + 1, n);
  }

  lemma OneGroupMore(len: nat, n: nat)
    requires n >= 1
    ensures (len + n) / n == len / n + 1
  {
    var q := len / n;
    assert (q + 1) * n == q * n + n;
    assert q * n <= len < q * n + n;
    Quotient(len + n, n, q + 1);
  }

  lemma {:induction false} SumHoursMeaning(group: seq<Hour>)
    requires forall h :: h in group ==> h.ok <= h.total
    ensures SumHours(group, true) <= SumHours(group, false)
    ensures SumHours(group, false) == 0 <==> forall h :: h in group ==> h.total == 0
    ensures SumHours(group, true) < SumHours(group, false) <==> exists h :: h in group && h.ok < h.total
    decreases |group|
  {
    if group != [] {
      SumHoursMeaning(group[1..]);
      assert group == [group[0]] + group[1..];
    }
  }

  /** No bar claims more successes than checks, if no stored row does. */
  lemma BarsAreSane(checks: seq<Check>, hourly: Hourly, target: int, now: int, n: nat)
    requires n >= 1 && forall k :: k in hourly ==> hourly[k].ok <= hourly[k].total
    ensures forall h :: h in HoursOf(checks, hourly, target, now, n) ==> h.ok <= h.total
  {
    hide Since;
    FewerSucceed(checks, target, HourStart(now));
    var hours := HoursOf(checks, hourly, target, now, n);
    forall i | 0 <= i < n ensures hours[i].ok <= hours[i].total {
      if i < n - 1 {
        assert hours[i] == StoredHour(hourly, target, HourStart(now) - (n - 1 - i) * HOUR);
      }
    }
  }

  /** A cell is down exactly if one of its hours has a failure, and unknown exactly if none
      of them has a check. */
  lemma CellMeaning(group: seq<Hour>)
    requires group != [] && forall h :: h in group ==> h.ok <= h.total
    ensures CellOf(group).state == Down <==> exists h :: h in group && h.ok < h.total
    ensures CellOf(group).state == Unknown <==> forall h :: h in group ==> h.total == 0
    ensures CellOf(group).share == NoData <==> CellOf(group).state == Unknown
    ensures CellOf(group).share.Share? ==>
              CellOf(group).share.ok == SumHours(group, true) && CellOf(group).share.total == SumHours(group, false)
    ensures CellOf(group).start == group[0].start
  {
    SumHoursMeaning(group);
  }

  // ----- the latency line -----

  const STEP := 600

  function StepStart(u: int): (r: int)
    ensures r % STEP == 0 && (if u >= 0 then r <= u < r + STEP else r - STEP < u <= r)
  {
    u - Rem(u, STEP)
  }

  datatype Point = Point(at: int, avg: int, p95: int, max: int)

  /** The rows Latency reads for a span of a day. */
  function LatencyRows(checks: seq<Check>, target: int, since: int): seq<Check> {
    ByTime(Filter(checks, (c: Check) => c.target == target && c.ok && since <= c.at))
  }

  /** The latencies of the rows of one step. */
  function StepLatencies(rows: seq<Check>, step: int): seq<int> {
    if rows == [] then []
    else
      var c := rows[|rows| - 1];
      StepLatencies(rows[..|rows| - 1], step) + if StepStart(c.at) == step then [c.latency] else []
  }

  function PointOf(rows: seq<Check>, step: int): Point {
    var s := Summarize(StepLatencies(rows, step));
    Point(step, s.avg, s.p95, s.max)
  }

  /** A point tells of the latencies of its step. */
  lemma PointTells(rows: seq<Check>, step: int)
    ensures var p := PointOf(rows, step); p.at == step && Tells(StepLatencies(rows, step), p.avg, p.p95, p.max)
  {
    hide Tells, Summarize;
    SummaryTells(StepLatencies(rows, step));
  }

  /** The points are the rows grouped by step: one point for every step that has rows, in
      order, computed from exactly the rows of that step. */
  ghost predicate Grouped(rows: seq<Check>, points: seq<Point>) {
    && (forall i, j :: 0 <= i < j < |points| ==> points[i].at < points[j].at)
    && (forall i :: 0 <= i < |points| ==>
          points[i] == PointOf(rows, points[i].at) && StepLatencies(rows, points[i].at) != [])
    && (forall i :: 0 <= i < |rows| ==> exists j :: 0 <= j < |points| && points[j].at == StepStart(rows[i].at))
  }

  /** time.Time.Truncate: down to a multiple of step since the zero time. */
  function Truncate(now: int, step: int): int
    requires step > 0
  {
    now - (now - ZERO_TIME) % step
  }

  /** The value of the slot [from, from + step): that of the last point in it, or -1. */
  function SlotValue(points: seq<Point>, from: int, step: int): int {
    if points == [] then -1
    else
      var p := points[|points| - 1];
      if from <= p.at < from + step then p.avg else SlotValue(points[..|points| - 1], from, step)
  }

  /** slots */
  method Slots(points: seq<Point>, now: int, dur: int, n: nat) returns (ms: array<int>)
    requires n >= 1 && dur >= n
    ensures var step := dur / n;
            var first := Truncate(now, step) - (n - 1) * step;
            && ms.Length == n
            && forall i :: 0 <= i < n ==> ms[i] == SlotValue(points, first + i * step, step)
  {
    var step := dur / n;
    StepIsPositive(dur, n);
    var first := Truncate(now, step) - (n - 1) * step;
    ms := new int[n](_ => -1);
    for k := 0 to |points|
      invariant forall i :: 0 <= i < n ==> ms[i] == SlotValue(points[..k], first + i * step, step)
    {
      var p := points[k];
      var i := Quo(p.at - first, step);
      assert points[..k + 1][..k] == points[..k];
      forall j | 0 <= j < n
        ensures first + j * step <= p.at < first + j * step + step <==> p.at >= first && i == j
      {
        InSlot(p.at - first, j, step);
      }
      if p.at >= first && i < n {
        ms[i] := p.avg;
      }
    }
    assert points[..|points|] == points;
  }

  lemma StepIsPositive(dur: int, n: nat)
    requires 1 <= n <= dur
    ensures dur / n >= 1
  {
  }

  /** Which slot a point falls into. */
  lemma InSlot(d: int, j: nat, step: int)
    requires step > 0
    ensures j * step <= d < j * step + step <==> d >= 0 && Quo(d, step) == j
  {
    if d >= 0 {
      assert d == d / step * step + d % step;
      if d / step < j {
        assert (d / step + 1) * step <= j * step;
      } else if d / step > j {
        assert d / step * step >= (j + 1) * step;
      }
    } else {
      assert j * step >= 0;
    }
  }
}

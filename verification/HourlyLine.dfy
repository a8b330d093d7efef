/** The latency line of a week or a month: the hourly rows as they are (internal/store/rollup.go,
    hourlyLatency, and internal/web/public.go, slots). */
module HourlyLine {
  import opened Base
  import opened Tables
  import opened Stats
  import opened Rollup
  import opened Charts
  import LatencyLine
  import UptimeIndex

  /** Whether hourlyLatency selects the row k. */
  predicate Drawn(hourly: Hourly, target: int, from: int, k: Key) {
    k in hourly && k.target == target && from <= k.hour && hourly[k].ok > 0
  }

  function PointAt(hourly: Hourly, k: Key): Point
    requires k in hourly
  {
    Point(k.hour, hourly[k].avg, hourly[k].p95, hourly[k].max)
  }

  /** One point for each selected row, by hour. */
  ghost predicate ByHour(hourly: Hourly, target: int, from: int, points: seq<Point>) {
    && (forall i, j :: 0 <= i < j < |points| ==> points[i].at < points[j].at)
    && (forall i :: 0 <= i < |points| ==>
          Drawn(hourly, target, from, Key(target, points[i].at)) && points[i] == PointAt(hourly, Key(target, points[i].at)))
    && (forall k :: Drawn(hourly, target, from, k) ==> exists i :: 0 <= i < |points| && points[i].at == k.hour)
  }

  /** The rows of the hours above all of hours are listed in out, those of hours are still to come. */
  ghost predicate Partial(hourly: Hourly, target: int, from: int, hours: set<int>, out: seq<Point>) {
    && (forall h :: h in hours ==> Drawn(hourly, target, from, Key(target, h)))
    && (forall h, i :: h in hours && 0 <= i < |out| ==> h < out[i].at)
    && (forall i, j :: 0 <= i < j < |out| ==> out[i].at < out[j].at)
    && (forall i :: 0 <= i < |out| ==>
          Drawn(hourly, target, from, Key(target, out[i].at)) && out[i] == PointAt(hourly, Key(target, out[i].at)))
    && (forall k :: Drawn(hourly, target, from, k) && k.hour !in hours ==> exists i :: 0 <= i < |out| && out[i].at == k.hour)
  }

  lemma PartialStarts(hourly: Hourly, target: int, from: int, hours: set<int>)
    requires hours == set k | k in hourly && Drawn(hourly, target, from, k) :: k.hour
    ensures Partial(hourly, target, from, hours, [])
  {
    forall h | h in hours ensures Drawn(hourly, target, from, Key(target, h)) {
      var k :| k in hourly && Drawn(hourly, target, from, k) && k.hour == h;
      assert k == Key(target, h);
    }
  }

  lemma PartialStep(hourly: Hourly, target: int, from: int, hours: set<int>, out: seq<Point>, h: int)
    requires Partial(hourly, target, from, hours, out) && h in hours && forall g :: g in hours ==> g <= h
    ensures Key(target, h) in hourly
    ensures Partial(hourly, target, from, hours - {h}, [PointAt(hourly, Key(target, h))] + out)
  {
    hide Drawn;
    assert Drawn(hourly, target, from, Key(target, h));
    assert Key(target, h) in hourly by { DrawnIsStored(hourly, target, from, Key(target, h)); }
    var next := [PointAt(hourly, Key(target, h))] + out;
    assert next[0].at == h;
    forall i | 0 <= i < |next| ensures i > 0 ==> next[i] == out[i - 1] {
    }
    forall k | Drawn(hourly, target, from, k) && k.hour !in hours - {h}
      ensures exists i :: 0 <= i < |next| && next[i].at == k.hour
    {
      if k.hour != h {
        var i :| 0 <= i < |out| && out[i].at == k.hour;
        assert next[i + 1].at == k.hour;
      }
    }
  }

  lemma DrawnIsStored(hourly: Hourly, target: int, from: int, k: Key)
    requires Drawn(hourly, target, from, k)
    ensures k in hourly && k.target == target
  {
  }

  lemma PartialEnds(hourly: Hourly, target: int, from: int, hours: set<int>, out: seq<Point>)
    requires Partial(hourly, target, from, hours, out) && |hours| == 0
    ensures ByHour(hourly, target, from, out)
  {
  }

  lemma AlignedHour(at: int, from: int)
    requires at % HOUR == 0 && from % HOUR == 0
    ensures from <= at < from + HOUR <==> at == from
  {
  }

  /** A slot of an hour shows the value of that hour's row, if there is a point for it. */
  lemma {:induction false} SlotShowsHour(points: seq<Point>, from: int, v: int)
    requires from % HOUR == 0
    requires forall i :: 0 <= i < |points| ==> points[i].at % HOUR == 0 && (points[i].at == from ==> points[i].avg == v)
    ensures SlotValue(points, from, HOUR) == if exists i :: 0 <= i < |points| && points[i].at == from then v else -1
  {
    if points != [] {
      var n := |points| - 1;
      var front := points[..n];
      SlotShowsHour(front, from, v);
      AlignedHour(points[n].at, from);
      assert forall i :: 0 <= i < n ==> front[i] == points[i];
    }
  }

  /** Where slot i begins: on an hour, and within what was selected. */
  lemma SlotHour(queried: int, drawn: int, n: nat, i: nat)
    requires n * HOUR <= queried <= drawn && i < n
    ensures var from := Truncate(drawn, HOUR) - (n - 1) * HOUR + i * HOUR;
            from % HOUR == 0 && HourStart(queried - n * HOUR) <= from
  {
    assert ZERO_TIME % HOUR == 0;
    assert (drawn - ZERO_TIME) % HOUR == drawn % HOUR;
    assert Truncate(drawn, HOUR) == drawn - drawn % HOUR;
    assert HourStart(queried - n * HOUR) <= queried - n * HOUR;
  }

  /** Slot i of the line over n hours is the stored mean of its hour, or -1 if that hour has no
      row with a success. */
  lemma LineShowsRows(hourly: Hourly, target: int, points: seq<Point>, queried: int, drawn: int, n: nat, i: nat)
    requires n * HOUR <= queried <= drawn && i < n
    requires ByHour(hourly, target, HourStart(queried - n * HOUR), points) && UptimeIndex.Aligned(hourly)
    ensures var from := Truncate(drawn, HOUR) - (n - 1) * HOUR + i * HOUR;
            var k := Key(target, from);
            SlotValue(points, from, HOUR) == if k in hourly && hourly[k].ok > 0 then hourly[k].avg else -1
  {
    hide Truncate, HourStart, SlotValue;
    var from := Truncate(drawn, HOUR) - (n - 1) * HOUR + i * HOUR;
    var k := Key(target, from);
    SlotHour(queried, drawn, n, i);
    SlotShowsHour(points, from, if k in hourly then hourly[k].avg else 0);
    if k in hourly && hourly[k].ok > 0 {
      assert Drawn(hourly, target, HourStart(queried - n * HOUR), k);
    }
  }

  /** The stored mean is the integer mean of the successful checks that the row was computed from,
      after any run of inserts, roll-ups and prunings. */
  lemma RowShowsMean(run: seq<UptimeIndex.Action>, k: Key)
    requires UptimeIndex.Valid(run) && UptimeIndex.Clock(run) - HOURLY_KEEP <= k.hour
    ensures var hourly, lat := UptimeIndex.After(run).hourly, Latencies(UptimeIndex.Seen(run, k));
            (if k in hourly && hourly[k].ok > 0 then hourly[k].avg else -1) == LatencyLine.MeanOr(lat)
  {
    hide Sort, Sum;
    UptimeIndex.RowHoldsSeen(run, k);
    SumSort(Latencies(UptimeIndex.Seen(run, k)));
  }
}

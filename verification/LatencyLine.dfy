/** The latency line of the last 24 hours, end to end: from the checks in the table to the
    slots that are drawn. */
module LatencyLine {
  import opened Base
  import opened Tables
  import opened Stats
  import opened Rollup
  import opened Charts

  const SLOTS := 144

  /** The latencies of a target's successful checks in [from, to). */
  function Successes(checks: seq<Check>, target: int, from: int, to: int): seq<int> {
    if checks == [] then []
    else
      var c := checks[|checks| - 1];
      Successes(checks[..|checks| - 1], target, from, to) +
      if c.target == target && c.ok && from <= c.at < to then [c.latency] else []
  }

  /** The integer mean, or -1 of nothing. */
  function MeanOr(lat: seq<int>): int {
    if lat == [] then -1 else Quo(Sum(lat), |lat|)
  }

  lemma StepAppend(rows: seq<Check>, c: Check, step: int)
    ensures StepLatencies(rows + [c], step) == StepLatencies(rows, step) + if StepStart(c.at) == step then [c.latency] else []
  {
    assert (rows + [c])[..|rows|] == rows;
  }

  lemma {:induction false} PlaceKeepsSteps(s: seq<Check>, c: Check, step: int)
    ensures multiset(StepLatencies(Place(s, c), step)) == multiset(StepLatencies(s + [c], step))
  {
    if s != [] && c.at < s[|s| - 1].at {
      hide StepLatencies;
      var front, d := s[..|s| - 1], s[|s| - 1];
      assert s == front + [d];
      PlaceKeepsSteps(front, c, step);
      StepAppend(front, c, step);
      StepAppend(front, d, step);
      StepAppend(s, c, step);
      StepAppend(Place(front, c), d, step);
    }
  }

  lemma {:induction false} ByTimeKeepsSteps(s: seq<Check>, step: int)
    ensures multiset(StepLatencies(ByTime(s), step)) == multiset(StepLatencies(s, step))
  {
    if s != [] {
      hide StepLatencies, Place;
      var front, c := s[..|s| - 1], s[|s| - 1];
      assert s == front + [c];
      ByTimeKeepsSteps(front, step);
      PlaceKeepsSteps(ByTime(front), c, step);
      StepAppend(ByTime(front), c, step);
      StepAppend(front, c, step);
    }
  }

  lemma StepOf(at: int, step: int)
    requires 0 <= at && step % STEP == 0
    ensures StepStart(at) == step <==> step <= at < step + STEP
  {
  }

  lemma {:induction false} FilterKeepsSteps(checks: seq<Check>, target: int, since: int, step: int)
    requires 0 <= since <= step && step % STEP == 0
    ensures StepLatencies(Filter(checks, (c: Check) => c.target == target && c.ok && since <= c.at), step)
            == Successes(checks, target, step, step + STEP)
  {
    if checks != [] {
      hide StepLatencies, StepStart, Rem;
      var front, c := checks[..|checks| - 1], checks[|checks| - 1];
      var p := (c: Check) => c.target == target && c.ok && since <= c.at;
      FilterKeepsSteps(front, target, since, step);
      assert Filter(checks, p) == if p(c) then Filter(front, p) + [c] else Filter(front, p);
      if p(c) {
        StepAppend(Filter(front, p), c, step);
        StepOf(c.at, step);
      }
    }
  }

  /** The rows of a step that Latency reads are exactly the successes in it. */
  lemma RowsOfStep(checks: seq<Check>, target: int, since: int, step: int)
    requires 0 <= since <= step && step % STEP == 0
    ensures multiset(StepLatencies(LatencyRows(checks, target, since), step)) == multiset(Successes(checks, target, step, step + STEP))
  {
    hide StepLatencies, ByTime, Filter;
    ByTimeKeepsSteps(Filter(checks, (c: Check) => c.target == target && c.ok && since <= c.at), step);
    FilterKeepsSteps(checks, target, since, step);
  }

  /** A step with latencies has a row. */
  lemma {:induction false} StepHasRow(rows: seq<Check>, step: int) returns (i: nat)
    requires StepLatencies(rows, step) != []
    ensures i < |rows| && StepStart(rows[i].at) == step
  {
    i := |rows| - 1;
    if StepStart(rows[i].at) != step {
      i := StepHasRow(rows[..|rows| - 1], step);
    }
  }

  lemma AlignedSlot(at: int, from: int)
    requires at % STEP == 0 && from % STEP == 0
    ensures from <= at < from + STEP <==> at == from
  {
  }

  lemma PointsAreAligned(rows: seq<Check>, points: seq<Point>, i: nat)
    requires Grouped(rows, points) && i < |points|
    ensures points[i].at % STEP == 0
  {
    hide StepLatencies, PointOf, StepStart, Rem;
    var j := StepHasRow(rows, points[i].at);
  }

  /** A slot shows the value of its step, if there is a point for it. */
  lemma {:induction false} SlotShowsPoint(points: seq<Point>, from: int, v: int)
    requires from % STEP == 0
    requires forall i :: 0 <= i < |points| ==> points[i].at % STEP == 0 && (points[i].at == from ==> points[i].avg == v)
    ensures SlotValue(points, from, STEP) == if exists i :: 0 <= i < |points| && points[i].at == from then v else -1
  {
    if points != [] {
      var n := |points| - 1;
      var front := points[..n];
      SlotShowsPoint(front, from, v);
      AlignedSlot(points[n].at, from);
      assert forall i :: 0 <= i < n ==> front[i] == points[i];
    }
  }

  /** No two points fall into the same slot. */
  lemma PointsDoNotShare(rows: seq<Check>, points: seq<Point>, i: nat, j: nat, from: int)
    requires Grouped(rows, points) && i < |points| && j < |points| && from % STEP == 0
    requires from <= points[i].at < from + STEP && from <= points[j].at < from + STEP
    ensures i == j
  {
    hide PointOf, StepLatencies;
    PointsAreAligned(rows, points, i);
    PointsAreAligned(rows, points, j);
    AlignedSlot(points[i].at, from);
    AlignedSlot(points[j].at, from);
  }

  lemma PointMean(rows: seq<Check>, lat: seq<int>, step: int)
    requires multiset(StepLatencies(rows, step)) == multiset(lat) && lat != []
    ensures StepLatencies(rows, step) != [] && PointOf(rows, step).avg == MeanOr(lat)
  {
    hide StepLatencies, Sort, Sum;
    assert |StepLatencies(rows, step)| == |multiset(lat)| == |lat|;
    SummaryIgnoresOrder(StepLatencies(rows, step), lat);
    SumSort(lat);
  }

  lemma SlotStart(now: int, i: nat)
    requires now >= DAY && i < SLOTS
    ensures var from := Truncate(now, STEP) - (SLOTS - 1) * STEP + i * STEP;
            from % STEP == 0 && now - DAY < from
  {
    assert ZERO_TIME % STEP == 0;
    assert (now - ZERO_TIME) % STEP == now % STEP;
  }

  /** Slot i of the line is the integer mean latency of exactly the successful checks in its
      ten minutes, or -1 if there are none; the first slot is never cut short by the start of
      the span. queried is the clock of Latency, drawn the later one of slots. */
  lemma LineShowsMeans(checks: seq<Check>, target: int, points: seq<Point>, queried: int, drawn: int, i: nat)
    requires DAY <= queried <= drawn && i < SLOTS
    requires Grouped(LatencyRows(checks, target, queried - DAY), points)
    ensures var from := Truncate(drawn, STEP) - (SLOTS - 1) * STEP + i * STEP;
            SlotValue(points, from, STEP) == MeanOr(Successes(checks, target, from, from + STEP))
  {
    hide StepLatencies, PointOf, Successes, LatencyRows, Truncate, MeanOr;
    var rows := LatencyRows(checks, target, queried - DAY);
    var from := Truncate(drawn, STEP) - (SLOTS - 1) * STEP + i * STEP;
    var lat := Successes(checks, target, from, from + STEP);
    SlotStart(drawn, i);
    RowsOfStep(checks, target, queried - DAY, from);
    forall i | 0 <= i < |points| ensures points[i].at % STEP == 0 {
      PointsAreAligned(rows, points, i);
    }
    SlotShowsPoint(points, from, PointOf(rows, from).avg);
    if lat != [] {
      PointMean(rows, lat, from);
      var j := StepHasRow(rows, from);
    } else {
      assert |StepLatencies(rows, from)| == |multiset(lat)| == 0;
      MeanOfNothing(lat);
    }
  }

  lemma MeanOfNothing(lat: seq<int>)
    requires lat == []
    ensures MeanOr(lat) == -1
  {
  }

  // ----- the streaming loop of Latency groups by step -----

  ghost predicate TimeSorted(rows: seq<Check>) {
    forall i, j :: 0 <= i <= j < |rows| ==> rows[i].at <= rows[j].at
  }

  lemma {:induction false} PlaceSorts(s: seq<Check>, c: Check)
    requires TimeSorted(s)
    ensures TimeSorted(Place(s, c))
    ensures forall d :: d in Place(s, c) ==> d == c || d in s
  {
    if s != [] && c.at < s[|s| - 1].at {
      var front, last := s[..|s| - 1], s[|s| - 1];
      PlaceSorts(front, c);
      assert forall d :: d in front ==> d in s && d.at <= last.at;
      assert Place(s, c) == Place(front, c) + [last];
      assert forall i :: 0 <= i < |Place(front, c)| ==> Place(front, c)[i] in Place(front, c) && Place(front, c)[i].at <= last.at;
    }
  }

  lemma {:induction false} ByTimeSorts(s: seq<Check>)
    ensures TimeSorted(ByTime(s))
    ensures forall d :: d in ByTime(s) ==> d in s
  {
    if s != [] {
      hide Place;
      ByTimeSorts(s[..|s| - 1]);
      PlaceSorts(ByTime(s[..|s| - 1]), s[|s| - 1]);
    }
  }

  lemma LatencyRowsSorted(checks: seq<Check>, target: int, since: int)
    ensures var rows := LatencyRows(checks, target, since);
            TimeSorted(rows) && forall c :: c in rows ==> since <= c.at && c.ok
  {
    hide ByTime;
    ByTimeSorts(Filter(checks, (c: Check) => c.target == target && c.ok && since <= c.at));
  }

  /** p is the point of its step among the first i rows. */
  ghost predicate Finished(rows: seq<Check>, i: nat, p: Point)
    requires i <= |rows|
  {
    p == PointOf(rows[..i], p.at) && StepLatencies(rows[..i], p.at) != []
  }

  ghost predicate HasPoint(points: seq<Point>, step: int) {
    exists a :: 0 <= a < |points| && points[a].at == step
  }

  ghost predicate Rising(points: seq<Point>, bound: int) {
    && (forall a, b :: 0 <= a < b < |points| ==> points[a].at < points[b].at)
    && (forall a :: 0 <= a < |points| ==> points[a].at < bound)
  }

  /** What holds after i rows: out has the points of the finished steps, and bucket is the
      step of the last row, or -1. */
  ghost predicate Streamed(rows: seq<Check>, i: nat, out: seq<Point>, bucket: int)
    requires i <= |rows|
  {
    && (if i == 0 then bucket == -1 && out == [] else bucket == StepStart(rows[i - 1].at) && bucket >= 0)
    && Rising(out, bucket)
    && (forall a :: 0 <= a < |out| ==> Finished(rows, i, out[a]))
    && (forall j :: 0 <= j < i ==> StepStart(rows[j].at) == bucket || HasPoint(out, StepStart(rows[j].at)))
  }

  /** No row so far is in a later step. */
  lemma {:induction false} NothingLater(rows: seq<Check>, i: nat, step: int)
    requires i <= |rows| && forall j :: 0 <= j < i ==> StepStart(rows[j].at) != step
    ensures StepLatencies(rows[..i], step) == []
  {
    if i > 0 {
      NothingLater(rows, i - 1, step);
      assert rows[..i][..i - 1] == rows[..i - 1];
    }
  }

  lemma {:induction false} SomethingThere(rows: seq<Check>, i: nat, j: nat)
    requires j < i <= |rows|
    ensures StepLatencies(rows[..i], StepStart(rows[j].at)) != []
  {
    assert rows[..i][..i - 1] == rows[..i - 1];
    if j < i - 1 {
      SomethingThere(rows, i - 1, j);
    }
  }

  lemma StepOneMore(rows: seq<Check>, i: nat, step: int)
    requires i < |rows|
    ensures StepLatencies(rows[..i + 1], step) == StepLatencies(rows[..i], step) + if StepStart(rows[i].at) == step then [rows[i].latency] else []
  {
    assert rows[..i + 1] == rows[..i] + [rows[i]];
    StepAppend(rows[..i], rows[i], step);
  }

  lemma LaterStep(a: int, b: int)
    requires 0 <= a <= b
    ensures 0 <= StepStart(a) <= StepStart(b)
  {
  }

  lemma FinishedStays(rows: seq<Check>, i: nat, p: Point)
    requires i < |rows| && Finished(rows, i, p) && StepStart(rows[i].at) != p.at
    ensures Finished(rows, i + 1, p)
  {
    hide StepLatencies, StepStart;
    StepOneMore(rows, i, p.at);
    assert StepLatencies(rows[..i + 1], p.at) == StepLatencies(rows[..i], p.at);
  }

  /** The next row belongs to the same step: the finished points stay as they are. */
  lemma StreamSame(rows: seq<Check>, i: nat, out: seq<Point>, bucket: int)
    requires i < |rows| && Streamed(rows, i, out, bucket) && StepStart(rows[i].at) == bucket && bucket >= 0
    ensures Streamed(rows, i + 1, out, bucket)
  {
    hide Finished, StepStart, HasPoint;
    forall a | 0 <= a < |out| ensures Finished(rows, i + 1, out[a]) {
      FinishedStays(rows, i, out[a]);
    }
  }

  lemma HasPointGrows(out: seq<Point>, p: Point)
    ensures HasPoint(out + [p], p.at)
    ensures forall step :: HasPoint(out, step) ==> HasPoint(out + [p], step)
  {
    assert (out + [p])[|out|] == p;
    forall step | HasPoint(out, step) ensures HasPoint(out + [p], step) {
      var a :| 0 <= a < |out| && out[a].at == step;
      assert (out + [p])[a] == out[a];
    }
  }

  /** The point of the last step is finished when a later one begins. */
  lemma LastIsFinished(rows: seq<Check>, i: nat)
    requires 0 < i <= |rows|
    ensures Finished(rows, i, PointOf(rows[..i], StepStart(rows[i - 1].at)))
  {
    hide StepLatencies, StepStart;
    SomethingThere(rows, i, i - 1);
  }

  /** The next row begins a new step: the old one is finished. */
  lemma StreamFlush(rows: seq<Check>, i: nat, out: seq<Point>, bucket: int, out': seq<Point>)
    requires i < |rows| && TimeSorted(rows) && 0 <= rows[0].at
    requires Streamed(rows, i, out, bucket) && StepStart(rows[i].at) != bucket
    requires out' == if bucket >= 0 then out + [PointOf(rows[..i], bucket)] else out
    ensures Streamed(rows, i + 1, out', StepStart(rows[i].at))
    ensures StepLatencies(rows[..i], StepStart(rows[i].at)) == []
  {
    hide StepLatencies, StepStart, Finished, HasPoint;
    var next := StepStart(rows[i].at);
    LaterStep(rows[0].at, rows[i].at);
    forall j | 0 <= j < i ensures StepStart(rows[j].at) < next {
      LaterStep(rows[j].at, rows[i - 1].at);
      LaterStep(rows[i - 1].at, rows[i].at);
    }
    NothingLater(rows, i, next);
    if i > 0 {
      LastIsFinished(rows, i);
      HasPointGrows(out, PointOf(rows[..i], bucket));
    }
    assert Rising(out', next);
    forall a | 0 <= a < |out'| ensures Finished(rows, i + 1, out'[a]) {
      FinishedStays(rows, i, out'[a]);
    }
  }

  /** After the last row and the last flush, the points are the groups. */
  lemma StreamEnds(rows: seq<Check>, out: seq<Point>, bucket: int, out': seq<Point>)
    requires Streamed(rows, |rows|, out, bucket)
    requires out' == if bucket >= 0 then out + [PointOf(rows, bucket)] else out
    ensures Grouped(rows, out')
  {
    hide StepLatencies, StepStart, PointOf;
    assert rows[..|rows|] == rows;
    if rows != [] {
      LastIsFinished(rows, |rows|);
      HasPointGrows(out, PointOf(rows, bucket));
    }
    PointStep(rows, bucket);
    assert Rising(out', bucket + 1);
    forall a | 0 <= a < |out'| ensures out'[a] == PointOf(rows, out'[a].at) && StepLatencies(rows, out'[a].at) != [] {
      assert Finished(rows, |rows|, out'[a]);
    }
    forall i | 0 <= i < |rows| ensures exists j :: 0 <= j < |out'| && out'[j].at == StepStart(rows[i].at) {
      assert HasPoint(out', StepStart(rows[i].at));
    }
  }

  lemma PointStep(rows: seq<Check>, step: int)
    ensures PointOf(rows, step).at == step
  {
  }

  lemma StreamStarts(rows: seq<Check>)
    ensures Streamed(rows, 0, [], -1) && StepLatencies(rows[..0], -1) == []
  {
  }

  /** Before the first row nothing has been collected. */
  lemma StartsEmpty(rows: seq<Check>, i: nat, out: seq<Point>, bucket: int)
    requires i <= |rows| && Streamed(rows, i, out, bucket)
    ensures bucket < 0 ==> StepLatencies(rows[..i], bucket) == []
  {
  }

  lemma PointIs(rows: seq<Check>, step: int)
    ensures var s := Summarize(StepLatencies(rows, step));
            PointOf(rows, step) == Point(step, s.avg, s.p95, s.max)
  {
  }
}

/** The latency line of the detail page (internal/web/public.go, detail): what is drawn, from the
    tables to the slots. */
module Detail {
  import Base
  import opened Rollup
  import opened Tables
  import Charts
  import HourlyLine
  import LatencyLine
  import Stats
  import Store

  /** The spans the page offers. */
  datatype Period = Day | Week | Month
  {
    function Span(): nat {
      match this
      case Day => DAY
      case Week => 7 * DAY
      case Month => 30 * DAY
    }

    function Slots(): nat {
      match this
      case Day => 144
      case Week => 168
      case Month => 720
    }
  }

  /** Where slot i of the line begins. */
  function SlotFrom(p: Period, drawn: int, i: nat): int {
    var step := if p.Day? then Charts.STEP else HOUR;
    Charts.Truncate(drawn, step) - (p.Slots() - 1) * step + i * step
  }

  /** The mean a slot stands for: of the checks in the table for a day, of the hour's row else. */
  function Shown(checks: seq<Check>, hourly: Hourly, target: int, p: Period, from: int): int {
    if p.Day? then LatencyLine.MeanOr(LatencyLine.Successes(checks, target, from, from + Charts.STEP))
    else
      var k := Key(target, from);
      if k in hourly && hourly[k].ok > 0 then hourly[k].avg else -1
  }

  /** queried is the clock of Latency, drawn the one of slots. */
  method Line(store: Store.Store, target: int, p: Period, queried: int, drawn: int) returns (ms: array<int>)
    requires store.Valid() && p.Span() <= queried <= drawn
    ensures ms.Length == p.Slots()
    ensures forall i :: 0 <= i < ms.Length ==> ms[i] == Shown(store.checks, store.hourly, target, p, SlotFrom(p, drawn, i))
  {
    hide Shown, SlotFrom, Charts.Grouped, Charts.LatencyRows, HourlyLine.ByHour, HourStart, Charts.Truncate, Charts.SlotValue;
    var dur, n := p.Span(), p.Slots();
    var points := store.Latency(target, queried, dur);
    ms := Charts.Slots(points, drawn, dur, n);
    forall i | 0 <= i < n ensures ms[i] == Shown(store.checks, store.hourly, target, p, SlotFrom(p, drawn, i)) {
      SlotIsShown(store.checks, store.hourly, target, p, points, queried, drawn, i);
    }
  }

  lemma SlotIsShown(checks: seq<Check>, hourly: Hourly, target: int, p: Period, points: seq<Charts.Point>,
                    queried: int, drawn: int, i: nat)
    requires p.Span() <= queried <= drawn && i < p.Slots() && HourlyLine.UptimeIndex.Aligned(hourly)
    requires p.Day? ==> Charts.Grouped(Charts.LatencyRows(checks, target, queried - p.Span()), points)
    requires !p.Day? ==> HourlyLine.ByHour(hourly, target, HourStart(queried - p.Span()), points)
    ensures p.Span() / p.Slots() == if p.Day? then Charts.STEP else HOUR
    ensures var step := p.Span() / p.Slots();
            var from := Charts.Truncate(drawn, step) - (p.Slots() - 1) * step + i * step;
            from == SlotFrom(p, drawn, i) && Charts.SlotValue(points, from, step) == Shown(checks, hourly, target, p, from)
  {
    hide Charts.Grouped, Charts.LatencyRows, HourlyLine.ByHour, HourStart, Charts.Truncate, Charts.SlotValue, LatencyLine.MeanOr, LatencyLine.Successes;
    if p.Day? {
      LatencyLine.LineShowsMeans(checks, target, points, queried, drawn, i);
    } else {
      HourlyLine.LineShowsRows(hourly, target, points, queried, drawn, p.Slots(), i);
    }
  }

  // ----- where the slots are -----

  /** The slots in numbers: the last one begins at a full ten minutes (or hour) and contains the
      clock, the others lie before it without a gap. */
  lemma SlotsEndNow(p: Period, drawn: int, i: nat)
    requires i < p.Slots()
    ensures var n, step := if p.Day? then 144 else if p.Week? then 168 else 720, if p.Day? then 600 else 3600;
            var last := SlotFrom(p, drawn, n - 1);
            && p.Slots() == n && last % step == 0 && last <= drawn < last + step
            && SlotFrom(p, drawn, i) == last - (n - 1 - i) * step
  {
    hide Charts.Truncate;
    if p.Day? {
      TenMinutes(drawn);
    } else {
      FullHour(drawn);
    }
  }

  lemma TenMinutes(drawn: int)
    ensures Charts.Truncate(drawn, Charts.STEP) == drawn - drawn % 600
  {
    assert Base.ZERO_TIME % 600 == 0;
  }

  lemma FullHour(drawn: int)
    ensures Charts.Truncate(drawn, HOUR) == drawn - drawn % 3600
  {
    assert Base.ZERO_TIME % 3600 == 0;
  }

  /** A time on the line lies in exactly one slot. */
  lemma SlotOf(p: Period, drawn: int, at: int) returns (i: nat)
    requires SlotFrom(p, drawn, 0) <= at <= drawn
    ensures i < p.Slots()
    ensures forall j: nat :: j < p.Slots() ==>
              var from := SlotFrom(p, drawn, j); (from <= at < from + if p.Day? then 600 else 3600) <==> j == i
  {
    hide SlotFrom;
    var step := if p.Day? then 600 else 3600;
    SlotsEndNow(p, drawn, 0);
    var first := SlotFrom(p, drawn, 0);
    i := (at - first) / step;
    forall j: nat | j < p.Slots()
      ensures var from := SlotFrom(p, drawn, j); (from <= at < from + step) <==> j == i
    {
      SlotsEndNow(p, drawn, j);
    }
  }

  lemma SuccessesAppend(checks: seq<Check>, c: Check, from: int, to: int)
    ensures LatencyLine.Successes(checks + [c], c.target, from, to) ==
            LatencyLine.Successes(checks, c.target, from, to) + if c.ok && from <= c.at < to then [c.latency] else []
  {
    assert (checks + [c])[..|checks|] == checks;
  }

  lemma MeanOfOne(v: int)
    ensures LatencyLine.MeanOr([v]) == v
  {
    assert [v][..0] == [];
    assert Stats.Sum([v]) == Stats.Sum([v][..0]) + v == v;
    assert Stats.Quo(v, 1) == v;
  }

  /** The line of a day from the side of a check: a success on the line counts in the slot that
      contains it and in no other, and is what that slot shows if it is the only one there. A
      failure counts nowhere. */
  lemma CheckCountsOnce(checks: seq<Check>, hourly: Hourly, c: Check, drawn: int) returns (i: nat)
    requires SlotFrom(Day, drawn, 0) <= c.at <= drawn
    ensures i < 144 && SlotFrom(Day, drawn, i) <= c.at < SlotFrom(Day, drawn, i) + 600
    ensures forall j: nat :: j < 144 ==>
              var from := SlotFrom(Day, drawn, j);
              LatencyLine.Successes(checks + [c], c.target, from, from + 600) ==
              LatencyLine.Successes(checks, c.target, from, from + 600) + if c.ok && j == i then [c.latency] else []
    ensures forall j: nat :: j < 144 && (j != i || !c.ok) ==>
              var from := SlotFrom(Day, drawn, j);
              Shown(checks + [c], hourly, c.target, Day, from) == Shown(checks, hourly, c.target, Day, from)
    ensures var from := SlotFrom(Day, drawn, i);
            c.ok && LatencyLine.Successes(checks, c.target, from, from + 600) == [] ==>
              Shown(checks + [c], hourly, c.target, Day, from) == c.latency
  {
    hide SlotFrom, LatencyLine.Successes, LatencyLine.MeanOr;
    i := SlotOf(Day, drawn, c.at);
    forall j: nat | j < 144
      ensures var from := SlotFrom(Day, drawn, j);
              LatencyLine.Successes(checks + [c], c.target, from, from + 600) ==
              LatencyLine.Successes(checks, c.target, from, from + 600) + if c.ok && j == i then [c.latency] else []
    {
      SuccessesAppend(checks, c, SlotFrom(Day, drawn, j), SlotFrom(Day, drawn, j) + 600);
    }
    MeanOfOne(c.latency);
    forall j: nat | j < 144 && (j != i || !c.ok)
      ensures var from := SlotFrom(Day, drawn, j);
              Shown(checks + [c], hourly, c.target, Day, from) == Shown(checks, hourly, c.target, Day, from)
    {
      var from := SlotFrom(Day, drawn, j);
      var lat := LatencyLine.Successes(checks, c.target, from, from + 600);
      assert lat + [] == lat;
    }
    assert [] + [c.latency] == [c.latency];
  }

  /** The lines of a week and a month: a check on the line belongs to the row that the slot of its
      hour shows. */
  lemma CheckIsInItsHour(p: Period, drawn: int, c: Check) returns (i: nat)
    requires !p.Day? && SlotFrom(p, drawn, 0) <= c.at <= drawn && c.at >= 0
    ensures i < p.Slots() && KeyOf(c) == Key(c.target, SlotFrom(p, drawn, i))
    ensures SlotFrom(p, drawn, i) == c.at - c.at % 3600
  {
    hide SlotFrom;
    i := SlotOf(p, drawn, c.at);
    SlotsEndNow(p, drawn, i);
  }
}

/** The store (internal/store) as an object: its tables, changed in place by its methods.
    A call that fails is one whose statement fails in the database; it has no effect. */
module Store {
  import opened Base
  import opened Tables
  import opened TimeOrder
  import opened Stats
  import opened Rollup
  import opened Charts
  import HourlyLine
  import LatencyLine
  import Retry
  import UptimeIndex

  datatype OpenResult = Opened(id: int) | AlreadyOpen | OpenFailed

  /** The statistics hold exactly these checks. */
  ghost predicate Holds(st: Stats, bucket: seq<Check>)
    reads st
  {
    st.total == |bucket| && st.lat == Latencies(bucket) && st.ok == |st.lat|
  }

  predicate ByStart(tbl: Incidents, a: int, b: int)
    requires a in tbl && b in tbl
  {
    tbl[a].startedAt < tbl[b].startedAt || (tbl[a].startedAt == tbl[b].startedAt && a < b)
  }

  class Store {
    var checks: seq<Check>
    var hourly: Hourly
    var incidents: Incidents

    constructor ()
      ensures checks == [] && hourly == map[] && incidents == map[] && Valid()
    {
      checks, hourly, incidents := [], map[], map[];
    }

    ghost predicate Valid()
      reads this
    {
      && UptimeIndex.Aligned(hourly)
      && forall k :: k in hourly ==> hourly[k].ok <= hourly[k].total
    }

    // ----- checks and incidents -----

    method InsertCheck(c: Check, fails: bool) returns (err: bool)
      modifies this`checks
      ensures err == fails && checks == if fails then old(checks) else old(checks) + [c]
    {
      if !fails {
        checks := checks + [c];
      }
      return fails;
    }

    method LastChecks(target: int, n: nat) returns (out: seq<Check>)
      ensures out == Newest(checks, target, n)
      ensures exists pos :: NewestFirst(checks, target, n, out, pos)
    {
      out := Newest(checks, target, n);
      ghost var pos := NewestIsNewest(checks, target, n);
    }

    /** newId is the row id the database would assign. */
    method OpenIncident(target: int, at: int, cause: string, newId: int, fails: bool) returns (r: OpenResult)
      modifies this`incidents
      ensures r == if fails then OpenFailed else if HasOpen(old(incidents), target) then AlreadyOpen else Opened(newId)
      ensures incidents == if r.Opened? then Tables.Opened(old(incidents), newId, target, at, cause) else old(incidents)
      ensures r.Opened? ==> newId in incidents && incidents[newId] == Incident(target, at, None, cause, false, false)
      ensures forall id :: id in old(incidents) && (!r.Opened? || id != newId) ==> id in incidents && incidents[id] == old(incidents)[id]
    {
      if fails {
        return OpenFailed;
      }
      if HasOpen(incidents, target) {
        return AlreadyOpen;
      }
      incidents := Tables.Opened(incidents, newId, target, at, cause);
      return Opened(newId);
    }

    method CloseIncident(id: int, at: int, fails: bool) returns (err: bool, found: bool)
      modifies this`incidents
      ensures err == fails
      ensures found <==> !fails && id in old(incidents) && old(incidents)[id].endedAt.None?
      ensures incidents == if fails then old(incidents) else Closed(old(incidents), id, at)
      ensures incidents.Keys == old(incidents).Keys
      ensures found ==> incidents[id] == old(incidents)[id].(endedAt := Some(at))
      ensures forall i :: i in incidents && (i != id || !found) ==> incidents[i] == old(incidents)[i]
    {
      if fails {
        return true, false;
      }
      found := id in incidents && incidents[id].endedAt.None?;
      incidents := Closed(incidents, id, at);
      return false, found;
    }

    /** Closes whatever is open for the target and marks it mailed; all other rows stay. */
    method ClosePausedIncident(target: int, now: int, fails: bool) returns (err: bool)
      modifies this`incidents
      ensures err == fails
      ensures fails ==> incidents == old(incidents)
      ensures !fails ==> !HasOpen(incidents, target) && incidents.Keys == old(incidents).Keys
      ensures !fails ==> forall id :: id in incidents ==>
                if OpenRow(old(incidents), id, target)
                then incidents[id] == old(incidents)[id].(endedAt := Some(now), mailedDown := true, mailedUp := true)
                else incidents[id] == old(incidents)[id]
    {
      if !fails {
        incidents := ClosedPaused(incidents, target, now);
      }
      return fails;
    }

    /** Sets the mark of one direction; that of the end only once the incident has ended. */
    method MarkMailed(id: int, up: bool, fails: bool) returns (err: bool, found: bool)
      modifies this`incidents
      ensures err == fails
      ensures found <==> !fails && id in old(incidents) && (up ==> old(incidents)[id].endedAt.Some?)
      ensures incidents.Keys == old(incidents).Keys
      ensures forall i :: i in incidents && (i != id || !found) ==> incidents[i] == old(incidents)[i]
      ensures found && !up ==> incidents[id] == old(incidents)[id].(mailedDown := true)
      ensures found && up ==> incidents[id] == old(incidents)[id].(mailedUp := true)
    {
      if fails {
        return true, false;
      }
      found := id in incidents && (up ==> incidents[id].endedAt.Some?);
      incidents := Marked(incidents, id, up);
      return false, found;
    }

    /** The ids of the incidents with a mail missing, by start and id: those that started at since or
        later and are not marked, and those that ended then or later and are not marked as ended. */
    method UnmailedIncidents(since: int) returns (list: seq<int>)
      ensures forall id :: id in list <==>
                id in incidents && var i := incidents[id];
                || (!i.mailedDown && i.startedAt >= since)
                || (!i.mailedUp && i.endedAt.Some? && i.endedAt.value >= since)
      ensures forall a, b :: 0 <= a < b < |list| ==>
                list[a] in incidents && list[b] in incidents && ByStart(incidents, list[a], list[b])
    {
      var rest := set id | id in incidents && Retry.Unmailed(incidents[id], since);
      ghost var all := rest;
      list := [];
      while |rest| > 0
        invariant rest <= all && forall id :: id in list <==> id in all && id !in rest
        invariant forall a :: 0 <= a < |list| ==> list[a] in incidents
        invariant forall a, b :: 0 <= a < b < |list| ==> ByStart(incidents, list[a], list[b])
        invariant forall a, id :: 0 <= a < |list| && id in rest ==> ByStart(incidents, list[a], id)
      {
        var id := First(rest);
        ghost var before := list;
        list := list + [id];
        rest := rest - {id};
        forall a, b | 0 <= a < b < |list| ensures ByStart(incidents, list[a], list[b]) {
          assert list[a] == before[a];
        }
      }
    }

    /** The one that comes first by start and id. */
    method First(ids: set<int>) returns (first: int)
      requires |ids| > 0 && forall id :: id in ids ==> id in incidents
      ensures first in ids && forall id :: id in ids && id != first ==> ByStart(incidents, first, id)
    {
      HasElement(ids);
      first :| first in ids;
      var rest := ids - {first};
      while |rest| > 0
        invariant first in ids && first !in rest && rest <= ids
        invariant forall id :: id in ids && id !in rest && id != first ==> ByStart(incidents, first, id)
      {
        HasElement(rest);
        var id :| id in rest;
        if ByStart(incidents, id, first) {
          first := id;
        }
        rest := rest - {id};
      }
    }

    method OpenIncidentFor(target: int) returns (r: Option<int>)
      ensures OneOpenEach(incidents) ==> r == OpenFor(incidents, target)
    {
      if !HasOpen(incidents, target) {
        return None;
      }
      var id :| id in incidents && OpenRow(incidents, id, target);
      return Some(id);
    }

    method LastIncidentEnd(target: int) returns (end: int)
      ensures end == LastEnd(incidents, target)
    {
      var ends := set id | id in incidents && incidents[id].target == target && incidents[id].endedAt.Some? :: incidents[id].endedAt.value;
      ghost var all := ends;
      assert all == Ends(incidents, target);
      if |ends| == 0 {
        return ZERO_TIME;
      }
      HasElement(ends);
      var e :| e in ends;
      end := e;
      ends := ends - {e};
      while |ends| != 0
        invariant ends <= all && end in all
        invariant forall x :: x in all && x !in ends ==> x <= end
      {
        HasElement(ends);
        e :| e in ends;
        if e > end {
          end := e;
        }
        ends := ends - {e};
      }
      LastEndIs(incidents, target, end);
    }

    // ----- roll-up -----

    method Rollup(now: int, fails: bool) returns (err: bool)
      requires Valid()
      modifies this`hourly
      ensures Valid() && err == fails
      ensures hourly == if fails then old(hourly) else RolledUp(checks, old(hourly), now)
    {
      hide RowOf, Bucket;
      var rows := Scanned(checks, now);
      var keys, buckets := Collect(rows);
      var table := Replace(rows, keys, buckets, hourly);
      if fails {
        return true;
      }
      RollupKeepsValid(checks, hourly, now);
      assert table == RolledUp(checks, hourly, now);
      hourly := table;
      return false;
    }

    // ----- what the pages read -----

    method Uptime(target: int, now: int) returns (r: Shares)
      ensures r == UptimeOf(checks, hourly, target, now)
      ensures Counts(r.day, checks, hourly, target, now, 23)
      ensures Counts(r.week, checks, hourly, target, now, 167)
      ensures Counts(r.month, checks, hourly, target, now, 719)
      ensures Valid() ==> forall share :: share in {r.day, r.week, r.month} && share.Share? ==> 0 < share.total && share.ok <= share.total
    {
      if forall k :: k in hourly ==> hourly[k].ok <= hourly[k].total {
        SharesAreSane(checks, hourly, target, now, 23);
        SharesAreSane(checks, hourly, target, now, 167);
        SharesAreSane(checks, hourly, target, now, 719);
      }
      RatioCounts(checks, hourly, target, now, 23);
      RatioCounts(checks, hourly, target, now, 167);
      RatioCounts(checks, hourly, target, now, 719);
      var cur := HourStart(now);
      var dayT, dayOK := SumRows(hourly, target, cur - 23 * HOUR, cur, false), SumRows(hourly, target, cur - 23 * HOUR, cur, true);
      var weekT, weekOK := SumRows(hourly, target, cur - 167 * HOUR, cur, false), SumRows(hourly, target, cur - 167 * HOUR, cur, true);
      var monthT, monthOK := SumRows(hourly, target, cur - 719 * HOUR, cur, false), SumRows(hourly, target, cur - 719 * HOUR, cur, true);
      var total, ok := Since(checks, target, cur, false), Since(checks, target, cur, true);
      return Shares(RatioOf(dayOK + ok, dayT + total),
                    RatioOf(weekOK + ok, weekT + total),
                    RatioOf(monthOK + ok, monthT + total));
    }

    method Hours(target: int, now: int, n: nat) returns (cells: array<Hour>)
      requires Valid() && n >= 1
      ensures fresh(cells) && cells[..] == HoursOf(checks, hourly, target, now, n)
    {
      hide Quo, Since, HourStart, UptimeIndex.Aligned;
      var cur := HourStart(now);
      var first := cur - (n - 1) * HOUR;
      cells := new Hour[n](i => Hour(first + i * HOUR, 0, 0));
      var rows := set k | k in hourly && k.target == target && first <= k.hour < cur;
      while |rows| != 0
        invariant forall k :: k in rows ==> k in hourly && k.target == target && first <= k.hour < cur
        invariant forall i :: 0 <= i < n ==>
                    var h := first + i * HOUR;
                    cells[i] == if i < n - 1 && Key(target, h) !in rows then StoredHour(hourly, target, h) else Hour(h, 0, 0)
      {
        HasRow(rows);
        var k :| k in rows;
        var i := Quo(k.hour - first, HOUR);
        SlotOfHour(hourly, k, first, n, cur);
        cells[i] := Hour(first + i * HOUR, hourly[k].total, hourly[k].ok);
        rows := rows - {k};
      }
      cells[n - 1] := Hour(cells[n - 1].start, Since(checks, target, cur, false), Since(checks, target, cur, true));
    }

    method Latency(target: int, now: int, span: nat) returns (out: seq<Point>)
      requires span <= now
      ensures span <= DAY ==> Grouped(LatencyRows(checks, target, now - span), out)
      ensures span > DAY ==> HourlyLine.ByHour(hourly, target, HourStart(now - span), out)
    {
      hide HourlyLine.ByHour, Grouped, LatencyRows, HourStart;
      if span > DAY {
        out := HourlyLatency(target, HourStart(now - span));
      } else {
        out := StepLatency(target, now - span);
      }
    }

    /** One point for every ten minutes with successful checks since since. */
    method StepLatency(target: int, since: nat) returns (out: seq<Point>)
      ensures Grouped(LatencyRows(checks, target, since), out)
    {
      hide StepLatencies, LatencyRows, LatencyLine.Streamed, PointOf, LatencyLine.TimeSorted;
      var rows := LatencyRows(checks, target, since);
      LatencyLine.LatencyRowsSorted(checks, target, since);
      assert rows != [] ==> rows[0] in rows;
      var st := new Stats();
      var bucket := -1;
      out := [];
      LatencyLine.StreamStarts(rows);
      for i := 0 to |rows|
        invariant fresh(st) && LatencyLine.Streamed(rows, i, out, bucket)
        invariant st.lat == StepLatencies(rows[..i], bucket)
      {
        var b := StepStart(rows[i].at);
        LatencyLine.StepOneMore(rows, i, b);
        if b != bucket {
          LatencyLine.PointIs(rows[..i], bucket);
          ghost var before := out;
          if bucket >= 0 {
            var avg, p95, maxMs := st.Latency();
            out := out + [Point(bucket, avg, p95, maxMs)];
            st := new Stats();
          }
          LatencyLine.StreamFlush(rows, i, before, bucket, out);
          LatencyLine.StartsEmpty(rows, i, before, bucket);
          bucket := b;
        } else {
          LatencyLine.StreamSame(rows, i, out, bucket);
        }
        st.Add(true, rows[i].latency);
      }
      LatencyLine.PointIs(rows, bucket);
      assert rows[..|rows|] == rows;
      ghost var before := out;
      if bucket >= 0 {
        var avg, p95, maxMs := st.Latency();
        out := out + [Point(bucket, avg, p95, maxMs)];
      }
      LatencyLine.StreamEnds(rows, before, bucket, out);
    }

    method HourlyLatency(target: int, since: int) returns (out: seq<Point>)
      ensures HourlyLine.ByHour(hourly, target, since, out)
    {
      hide HourlyLine.Partial, HourlyLine.ByHour;
      var hours := set k | k in hourly && HourlyLine.Drawn(hourly, target, since, k) :: k.hour;
      out := [];
      HourlyLine.PartialStarts(hourly, target, since, hours);
      while |hours| > 0
        invariant HourlyLine.Partial(hourly, target, since, hours, out)
      {
        ghost var last := MaxOf(hours);
        var h :| h in hours && forall g :: g in hours ==> g <= h;
        HourlyLine.PartialStep(hourly, target, since, hours, out, h);
        out := [HourlyLine.PointAt(hourly, Key(target, h))] + out;
        hours := hours - {h};
      }
      HourlyLine.PartialEnds(hourly, target, since, hours, out);
    }

    // ----- retention -----

    /** Prune; failed is the number of the statement that fails, 0 for none. What was deleted
        before stays deleted. */
    method Prune(now: int, days: nat, failed: nat) returns (err: bool)
      requires Valid()
      modifies this
      ensures Valid() && err == (1 <= failed <= 3)
      ensures checks == if failed == 1 then old(checks) else Kept(old(checks), now - days * DAY)
      ensures hourly == if 1 <= failed <= 2 then old(hourly) else PrunedHours(old(hourly), now - HOURLY_KEEP)
      ensures incidents == if 1 <= failed <= 3 then old(incidents) else PrunedIncidents(old(incidents), now - HOURLY_KEEP)
      ensures failed != 1 ==> forall c :: c in checks <==> c in old(checks) && now - c.at <= days * 86400
      ensures failed == 0 || failed > 2 ==>
                && (forall k :: k in hourly <==> k in old(hourly) && now - k.hour <= 400 * 86400)
                && (forall k :: k in hourly ==> hourly[k] == old(hourly)[k])
      ensures !err ==>
                && (forall id :: id in incidents <==>
                      id in old(incidents) &&
                      (old(incidents)[id].endedAt.Some? ==> now - old(incidents)[id].endedAt.value <= 400 * 86400))
                && (forall id :: id in incidents ==> incidents[id] == old(incidents)[id])
    {
      if failed == 1 {
        return true;
      }
      checks := Kept(checks, now - days * DAY);
      if failed == 2 {
        return true;
      }
      hourly := PrunedHours(hourly, now - HOURLY_KEEP);
      if failed == 3 {
        return true;
      }
      incidents := PrunedIncidents(incidents, now - HOURLY_KEEP);
      return false;
    }
  }

  /** The first loop of Rollup: a statistics object for every target and hour among the rows,
      and their keys in the order in which they appear. */
  method Collect(rows: seq<Check>) returns (keys: seq<Key>, buckets: map<Key, Stats>)
    ensures Distinct(keys) && (forall k :: k in keys <==> k in buckets)
    ensures forall k :: k in buckets <==> k in KeysOf(rows)
    ensures forall k :: k in buckets ==> fresh(buckets[k]) && Holds(buckets[k], Bucket(rows, k))
    ensures forall a, b :: a in buckets && b in buckets && a != b ==> buckets[a] != buckets[b]
  {
    hide Bucket, Latencies, KeyOf, KeysOf;
    keys, buckets := [], map[];
    NoKeys();
    for i := 0 to |rows|
      invariant Distinct(keys) && (forall k :: k in keys <==> k in buckets)
      invariant forall k :: k in buckets <==> k in KeysOf(rows[..i])
      invariant forall k :: k in buckets ==> fresh(buckets[k]) && Holds(buckets[k], Bucket(rows[..i], k))
      invariant forall a, b :: a in buckets && b in buckets && a != b ==> buckets[a] != buckets[b]
    {
      var c := rows[i];
      var k := KeyOf(c);
      assert rows[..i + 1] == rows[..i] + [c];
      KeysGrow(rows[..i], c);
      if k !in buckets {
        NoBucket(rows[..i], k);
        NothingHeld();
        var st := new Stats();
        buckets := buckets[k := st];
        keys := keys + [k];
      }
      var st := buckets[k];
      assert Holds(st, Bucket(rows[..i], k));
      st.Add(c.ok, c.latency);
      LatenciesAppend(Bucket(rows[..i], k), c);
      forall q | q in buckets ensures Holds(buckets[q], Bucket(rows[..i + 1], q)) {
        UptimeIndex.BucketAppend(rows[..i], c, q);
        if q != k {
          assert Bucket(rows[..i + 1], q) == Bucket(rows[..i], q);
        }
      }
    }
    assert rows[..|rows|] == rows;
  }

  /** The second loop of Rollup: insert or replace the row of every key. */
  method Replace(rows: seq<Check>, keys: seq<Key>, buckets: map<Key, Stats>, hourly: Hourly) returns (table: Hourly)
    requires Distinct(keys) && (forall k :: k in keys <==> k in buckets)
    requires forall k :: k in buckets ==> Holds(buckets[k], Bucket(rows, k))
    requires forall a, b :: a in buckets && b in buckets && a != b ==> buckets[a] != buckets[b]
    modifies buckets.Values
    ensures forall k :: k in table <==> k in hourly || k in keys
    ensures forall k :: k in table ==> table[k] == if k in keys then RowOf(Bucket(rows, k)) else hourly[k]
  {
    hide RowOf, Bucket, Latencies;
    table := hourly;
    for j := 0 to |keys|
      invariant forall k :: k in table <==> k in hourly || k in keys[..j]
      invariant forall k :: k in table ==> table[k] == if k in keys[..j] then RowOf(Bucket(rows, k)) else hourly[k]
      invariant forall i :: j <= i < |keys| ==> Holds(buckets[keys[i]], Bucket(rows, keys[i]))
    {
      var k := keys[j];
      var st := buckets[k];
      assert st in buckets.Values;
      var avg, p95, maxMs := st.Latency();
      RowFromStats(Bucket(rows, k));
      assert keys[..j + 1] == keys[..j] + [k];
      forall i | j + 1 <= i < |keys| ensures Holds(buckets[keys[i]], Bucket(rows, keys[i])) {
        assert keys[i] in buckets && buckets[keys[i]] != st;
      }
      table := table[k := HourRow(st.total, st.ok, avg, p95, maxMs)];
    }
    assert keys[..|keys|] == keys;
  }

  // ----- facts about buckets for the loops above -----

  lemma KeysGrow(rows: seq<Check>, c: Check)
    ensures KeysOf(rows + [c]) == KeysOf(rows) + {KeyOf(c)}
  {
    assert c in rows + [c];
    forall k | k in KeysOf(rows) ensures k in KeysOf(rows + [c]) {
      var d :| d in rows && KeyOf(d) == k;
      assert d in rows + [c];
    }
  }

  lemma {:induction false} NoBucket(rows: seq<Check>, k: Key)
    requires k !in KeysOf(rows)
    ensures Bucket(rows, k) == []
  {
    if rows != [] {
      var n := |rows| - 1;
      assert rows == rows[..n] + [rows[n]];
      KeysGrow(rows[..n], rows[n]);
      NoBucket(rows[..n], k);
    }
  }

  lemma NoKeys()
    ensures KeysOf([]) == {}
  {
  }

  lemma NothingHeld()
    ensures Latencies([]) == []
  {
  }

  lemma LatenciesAppend(bucket: seq<Check>, c: Check)
    ensures Latencies(bucket + [c]) == Latencies(bucket) + if c.ok then [c.latency] else []
  {
    assert (bucket + [c])[..|bucket|] == bucket;
  }

  lemma RowFromStats(bucket: seq<Check>)
    ensures var s := Summarize(Latencies(bucket));
            RowOf(bucket) == HourRow(|bucket|, |Latencies(bucket)|, s.avg, s.p95, s.max)
  {
  }

  /** Rows stand at full hours and never count more successes than checks. */
  lemma RollupKeepsValid(checks: seq<Check>, hourly: Hourly, now: int)
    requires UptimeIndex.Aligned(hourly) && forall k :: k in hourly ==> hourly[k].ok <= hourly[k].total
    ensures var after := RolledUp(checks, hourly, now);
            UptimeIndex.Aligned(after) && forall k :: k in after ==> after[k].ok <= after[k].total
  {
  }

  lemma HasRow(rows: set<Key>)
    requires |rows| != 0
    ensures exists k :: k in rows
  {
    if forall k :: k !in rows {
      assert false;
    }
  }

  /** The index Hours computes for a row is in range, and the row is that hour's. */
  lemma SlotOfHour(hourly: Hourly, k: Key, first: int, n: nat, cur: int)
    requires UptimeIndex.Aligned(hourly) && k in hourly && n >= 1
    requires cur % HOUR == 0 && first == cur - (n - 1) * HOUR && first <= k.hour < cur
    ensures 0 <= Quo(k.hour - first, HOUR) < n - 1
    ensures first + Quo(k.hour - first, HOUR) * HOUR == k.hour
  {
    assert k.hour % HOUR == 0 && first % HOUR == 0;
  }
}

/** The hourly table as an index over all checks ever inserted: what it answers after any
    sequence of inserts, roll-ups and prunings (internal/store/rollup.go, retention.go). */
module UptimeIndex {
  import opened Base
  import opened Tables
  import opened Stats
  import opened Rollup

  datatype Action =
    | Insert(c: Check, now: int)
    | Roll(now: int)
    | Prune(now: int, days: nat)

  datatype Index = Index(checks: seq<Check>, hourly: Hourly)

  function Do(x: Index, a: Action): Index {
    match a
    case Insert(c, _) => x.(checks := x.checks + [c])
    case Roll(now) => x.(hourly := RolledUp(x.checks, x.hourly, now))
    case Prune(now, days) =>
      Index(Kept(x.checks, now - days * DAY), PrunedHours(x.hourly, now - HOURLY_KEEP))
  }

  /** What each action leaves of the tables. */
  lemma DoLeaves(x: Index, a: Action)
    ensures var y := Do(x, a);
            match a
            case Insert(c, _) => y.checks == x.checks + [c] && y.hourly == x.hourly
            case Roll(now) => y.checks == x.checks && (forall k :: k in x.hourly ==> k in y.hourly)
            case Prune(now, days) =>
              && (forall c :: c in y.checks <==> c in x.checks && now - c.at <= days * 86400)
              && (forall k :: k in y.hourly <==> k in x.hourly && now - k.hour <= 400 * 86400)
              && (forall k :: k in y.hourly ==> y.hourly[k] == x.hourly[k])
  {
    hide RowOf, Bucket, KeysOf;
  }

  /** The tables after a run of actions. */
  function After(run: seq<Action>): Index {
    if run == [] then Index([], map[]) else Do(After(run[..|run| - 1]), run[|run| - 1])
  }

  /** Every check ever inserted, pruned or not. */
  function History(run: seq<Action>): seq<Check> {
    if run == [] then []
    else
      var a := run[|run| - 1];
      History(run[..|run| - 1]) + if a.Insert? then [a.c] else []
  }

  /** The clock of the last action. */
  function Clock(run: seq<Action>): int {
    if run == [] then 3 * HOUR else run[|run| - 1].now
  }

  /** The clock does not go back, no check is dated in the future, and the retention is at
      least the one day that the configuration allows. */
  ghost predicate Valid(run: seq<Action>) {
    run == [] ||
    var before, a := run[..|run| - 1], run[|run| - 1];
    && Valid(before) && Clock(before) <= a.now
    && (a.Insert? ==> 0 <= a.c.at <= a.now)
    && (a.Prune? ==> a.days >= 1)
  }

  // ----- pruning never takes what is still read -----

  lemma KeptOfKept(checks: seq<Check>, low: int, cut: int)
    requires low <= cut
    ensures Kept(Kept(checks, low), cut) == Kept(checks, cut)
  {
    hide Filter;
    var p, q := (c: Check) => c.at >= low, (c: Check) => c.at >= cut;
    var both := (c: Check) => p(c) && q(c);
    FilterFilter(checks, p, q, both);
    FilterAgree(checks, both, q);
  }

  lemma KeptAppend(checks: seq<Check>, c: Check, cut: int)
    ensures Kept(checks + [c], cut) == Kept(checks, cut) + if c.at >= cut then [c] else []
  {
    assert (checks + [c])[..|checks|] == checks;
  }

  lemma {:induction false} ClockRuns(run: seq<Action>)
    requires Valid(run)
    ensures Clock(run) >= 3 * HOUR
  {
    if run != [] {
      ClockRuns(run[..|run| - 1]);
    }
  }

  /** All checks of the last day are in the table, in the order of insertion. */
  lemma {:induction false} TableKeepsRecent(run: seq<Action>, now: int)
    requires Valid(run) && Clock(run) <= now
    ensures Kept(After(run).checks, now - DAY) == Kept(History(run), now - DAY)
  {
    if run != [] {
      hide Kept, PrunedHours, RolledUp;
      var before, a := run[..|run| - 1], run[|run| - 1];
      TableKeepsRecent(before, now);
      match a {
        case Insert(c, _) =>
          KeptAppend(After(before).checks, c, now - DAY);
          KeptAppend(History(before), c, now - DAY);
        case Roll(_) =>
          assert History(run) == History(before);
        case Prune(earlier, days) =>
          assert History(run) == History(before);
          assert days * DAY >= DAY;
          KeptOfKept(After(before).checks, earlier - days * DAY, now - DAY);
      }
    }
  }

  lemma BucketOfKept(checks: seq<Check>, cut: int, k: Key)
    requires 0 < k.hour && cut <= k.hour
    ensures Bucket(Kept(checks, cut), k) == Bucket(checks, k)
  {
    hide Filter;
    var p, q := (c: Check) => c.at >= cut, (c: Check) => KeyOf(c) == k;
    var both := (c: Check) => p(c) && q(c);
    FilterFilter(checks, p, q, both);
    forall c | c in checks ensures both(c) == q(c) {
      if q(c) {
        HourOf(c.at, k.hour);
      }
    }
    FilterAgree(checks, both, q);
  }

  /** A Rollup, and a count of the current hour, finds every check ever inserted that it is
      there to count. */
  lemma RollupSeesHistory(run: seq<Action>, now: int, k: Key)
    requires Valid(run) && Clock(run) <= now && Covers(now, k.hour)
    ensures Bucket(After(run).checks, k) == Bucket(History(run), k)
  {
    hide Bucket, Kept;
    ClockRuns(run);
    TableKeepsRecent(run, now);
    BucketOfKept(After(run).checks, now - DAY, k);
    BucketOfKept(History(run), now - DAY, k);
  }

  // ----- what a row of the index holds, for every run -----

  /** The checks of k that had been inserted at the last Rollup that covered its hour. */
  function Seen(run: seq<Action>, k: Key): seq<Check> {
    if run == [] then []
    else
      var a := run[|run| - 1];
      if a.Roll? && Covers(a.now, k.hour) then Bucket(History(run), k) else Seen(run[..|run| - 1], k)
  }

  lemma BucketAppend(checks: seq<Check>, c: Check, k: Key)
    ensures Bucket(checks + [c], k) == Bucket(checks, k) + if KeyOf(c) == k then [c] else []
  {
    assert (checks + [c])[..|checks|] == checks;
  }

  lemma HistoryStep(run: seq<Action>, k: Key)
    requires run != []
    ensures var before, a := run[..|run| - 1], run[|run| - 1];
            Bucket(History(run), k) == Bucket(History(before), k) + if a.Insert? && KeyOf(a.c) == k then [a.c] else []
  {
    hide Bucket;
    var before, a := run[..|run| - 1], run[|run| - 1];
    if a.Insert? {
      BucketAppend(History(before), a.c, k);
    } else {
      assert History(run) == History(before);
    }
  }

  lemma {:induction false} SeenIsPrefix(run: seq<Action>, k: Key)
    ensures Seen(run, k) <= Bucket(History(run), k)
  {
    if run != [] {
      hide Bucket;
      HistoryStep(run, k);
      SeenIsPrefix(run[..|run| - 1], k);
    }
  }

  /** After any run, the row of a target and hour is computed from exactly the checks that
      had been inserted at the last Rollup covering that hour; there is none if that was
      none. Rows older than 400 days are gone. */
  lemma {:induction false} RowHoldsSeen(run: seq<Action>, k: Key)
    requires Valid(run) && Clock(run) - HOURLY_KEEP <= k.hour
    ensures var hourly, seen := After(run).hourly, Seen(run, k);
            && (k in hourly <==> seen != [])
            && (k in hourly ==> hourly[k] == RowOf(seen))
  {
    if run != [] {
      hide Bucket, RowOf, Kept, RolledUp;
      var before, a := run[..|run| - 1], run[|run| - 1];
      RowHoldsSeen(before, k);
      match a {
        case Insert(_, _) =>
        case Roll(now) =>
          ClockRuns(before);
          RollupGroups(After(before).checks, After(before).hourly, now, k);
          assert History(run) == History(before);
          SeenIsPrefix(before, k);
          if Covers(now, k.hour) {
            RollupSeesHistory(before, now, k);
          }
        case Prune(_, _) =>
      }
    }
  }

  /** Every check of k was inserted before some Rollup that covers its hour. */
  ghost predicate Covered(run: seq<Action>, k: Key) {
    forall i :: 0 <= i < |run| && run[i].Insert? && KeyOf(run[i].c) == k ==>
                  exists j :: i < j < |run| && run[j].Roll? && Covers(run[j].now, k.hour)
  }

  lemma CoveredStep(run: seq<Action>, k: Key)
    requires run != []
    ensures var before, a := run[..|run| - 1], run[|run| - 1];
            Covered(run, k) <==>
            (a.Roll? && Covers(a.now, k.hour)) || (!(a.Insert? && KeyOf(a.c) == k) && Covered(before, k))
  {
    var n := |run| - 1;
    var before, a := run[..n], run[n];
    if a.Roll? && Covers(a.now, k.hour) {
      assert Covered(run, k);
    } else if Covered(run, k) {
      forall i | 0 <= i < n && before[i].Insert? && KeyOf(before[i].c) == k
        ensures exists j :: i < j < n && before[j].Roll? && Covers(before[j].now, k.hour)
      {
        var j :| i < j < |run| && run[j].Roll? && Covers(run[j].now, k.hour);
        assert before[j] == run[j];
      }
    } else if Covered(before, k) && !(a.Insert? && KeyOf(a.c) == k) {
      forall i | 0 <= i < |run| && run[i].Insert? && KeyOf(run[i].c) == k
        ensures exists j :: i < j < |run| && run[j].Roll? && Covers(run[j].now, k.hour)
      {
        assert before[i] == run[i];
        var j :| i < j < n && before[j].Roll? && Covers(before[j].now, k.hour);
        assert run[j] == before[j];
      }
    }
  }

  /** The index holds all checks of k if and only if each was followed by a covering Rollup. */
  lemma {:induction false} SeenIsAll(run: seq<Action>, k: Key)
    ensures Seen(run, k) == Bucket(History(run), k) <==> Covered(run, k)
  {
    if run != [] {
      hide Bucket, Covered;
      CoveredStep(run, k);
      HistoryStep(run, k);
      SeenIsPrefix(run[..|run| - 1], k);
      SeenIsAll(run[..|run| - 1], k);
    } else {
      assert Covered(run, k);
    }
  }

  // ----- from rows to sums -----

  /** How many checks of a target, or successful ones, lie in [lo, hi). */
  function Weigh(checks: seq<Check>, target: int, lo: int, hi: int, okOnly: bool): nat {
    if checks == [] then 0
    else
      var c := checks[|checks| - 1];
      Weigh(checks[..|checks| - 1], target, lo, hi, okOnly) +
      if c.target == target && lo <= c.at < hi && (!okOnly || c.ok) then 1 else 0
  }

  function Size(bucket: seq<Check>, okOnly: bool): nat {
    if okOnly then |Latencies(bucket)| else |bucket|
  }

  lemma SizeAppend(bucket: seq<Check>, c: Check, okOnly: bool)
    ensures Size(bucket + [c], okOnly) == Size(bucket, okOnly) + if !okOnly || c.ok then 1 else 0
  {
    assert (bucket + [c])[..|bucket|] == bucket;
  }

  lemma KeyOfHour(c: Check, k: Key)
    requires k.hour > 0 && k.hour % HOUR == 0
    ensures KeyOf(c) == k <==> c.target == k.target && k.hour <= c.at < k.hour + HOUR
  {
  }

  lemma {:induction false} BucketWeight(checks: seq<Check>, k: Key, okOnly: bool)
    requires k.hour > 0 && k.hour % HOUR == 0
    ensures Size(Bucket(checks, k), okOnly) == Weigh(checks, k.target, k.hour, k.hour + HOUR, okOnly)
  {
    if checks != [] {
      hide Bucket, Size, KeyOf;
      var front, c := checks[..|checks| - 1], checks[|checks| - 1];
      assert checks == front + [c];
      BucketAppend(front, c, k);
      BucketWeight(front, k, okOnly);
      SizeAppend(Bucket(front, k), c, okOnly);
      KeyOfHour(c, k);
    } else {
      assert Bucket(checks, k) == [];
    }
  }

  lemma {:induction false} WeighSplit(checks: seq<Check>, target: int, lo: int, mid: int, hi: int, okOnly: bool)
    requires lo <= mid <= hi
    ensures Weigh(checks, target, lo, hi, okOnly) == Weigh(checks, target, lo, mid, okOnly) + Weigh(checks, target, mid, hi, okOnly)
  {
    if checks != [] {
      WeighSplit(checks[..|checks| - 1], target, lo, mid, hi, okOnly);
    }
  }

  lemma {:induction false} WeighNothing(checks: seq<Check>, target: int, lo: int, okOnly: bool)
    ensures Weigh(checks, target, lo, lo, okOnly) == 0
  {
    if checks != [] {
      WeighNothing(checks[..|checks| - 1], target, lo, okOnly);
    }
  }

  lemma {:induction false} SinceSplit(checks: seq<Check>, target: int, lo: int, mid: int, okOnly: bool)
    requires lo <= mid
    ensures Since(checks, target, lo, okOnly) == Weigh(checks, target, lo, mid, okOnly) + Since(checks, target, mid, okOnly)
  {
    if checks != [] {
      SinceSplit(checks[..|checks| - 1], target, lo, mid, okOnly);
    }
  }

  lemma {:induction false} SinceOfKept(checks: seq<Check>, target: int, cut: int, from: int, okOnly: bool)
    requires cut <= from
    ensures Since(Kept(checks, cut), target, from, okOnly) == Since(checks, target, from, okOnly)
  {
    if checks != [] {
      hide Kept;
      var front, c := checks[..|checks| - 1], checks[|checks| - 1];
      assert checks == front + [c];
      SinceOfKept(front, target, cut, from, okOnly);
      KeptAppend(front, c, cut);
      assert c.at >= cut ==> (Kept(front, cut) + [c])[..|Kept(front, cut)|] == Kept(front, cut);
    }
  }

  /** The count of the current hour is that over the whole history. */
  lemma CurrentHourIsExact(run: seq<Action>, target: int, now: int, okOnly: bool)
    requires Valid(run) && Clock(run) <= now
    ensures Since(After(run).checks, target, HourStart(now), okOnly) == Since(History(run), target, HourStart(now), okOnly)
  {
    hide Since, Kept;
    ClockRuns(run);
    TableKeepsRecent(run, now);
    SinceOfKept(After(run).checks, target, now - DAY, HourStart(now), okOnly);
    SinceOfKept(History(run), target, now - DAY, HourStart(now), okOnly);
  }

  /** All rows stand at full hours. */
  ghost predicate Aligned(hourly: Hourly) {
    forall k :: k in hourly ==> k.hour % HOUR == 0
  }

  lemma {:induction false} RowsAreAligned(run: seq<Action>)
    ensures Aligned(After(run).hourly)
  {
    if run != [] {
      RowsAreAligned(run[..|run| - 1]);
    }
  }

  lemma {:induction false} SumRowsSplit(hourly: Hourly, target: int, lo: int, mid: int, hi: int, okOnly: bool)
    requires lo <= mid <= hi
    ensures SumRows(hourly, target, lo, hi, okOnly) == SumRows(hourly, target, lo, mid, okOnly) + SumRows(hourly, target, mid, hi, okOnly)
    decreases hi - mid
  {
    if mid < hi {
      SumRowsSplit(hourly, target, lo, mid, hi - 1, okOnly);
    }
  }

  lemma {:induction false} SumRowsNone(hourly: Hourly, target: int, lo: int, hi: int, okOnly: bool)
    requires forall h :: lo <= h < hi ==> Key(target, h) !in hourly
    ensures SumRows(hourly, target, lo, hi, okOnly) == 0
    decreases hi - lo
  {
    if lo < hi {
      SumRowsNone(hourly, target, lo, hi - 1, okOnly);
    }
  }

  /** Within one hour the sum is that of the one row that can be there. */
  lemma SumRowsOfHour(hourly: Hourly, k: Key, okOnly: bool)
    requires Aligned(hourly) && k.hour % HOUR == 0
    ensures SumRows(hourly, k.target, k.hour, k.hour + HOUR, okOnly) == if k in hourly then Value(hourly[k], okOnly) else 0
  {
    SumRowsSplit(hourly, k.target, k.hour, k.hour + 1, k.hour + HOUR, okOnly);
    forall h | k.hour + 1 <= h < k.hour + HOUR ensures Key(k.target, h) !in hourly {
      assert h % HOUR != 0;
    }
    SumRowsNone(hourly, k.target, k.hour + 1, k.hour + HOUR, okOnly);
  }

  lemma HourSum(hourly: Hourly, k: Key, seen: seq<Check>, okOnly: bool)
    requires Aligned(hourly) && k.hour % HOUR == 0
    requires (k in hourly <==> seen != []) && (k in hourly ==> hourly[k] == RowOf(seen))
    ensures SumRows(hourly, k.target, k.hour, k.hour + HOUR, okOnly) == Size(seen, okOnly)
  {
    hide SumRows;
    SumRowsOfHour(hourly, k, okOnly);
  }

  /** One hour: the index never holds more than the history, holds the same number of checks
      exactly if the hour is covered, and then also the same number of successes. */
  lemma HourIsExact(run: seq<Action>, k: Key)
    requires Valid(run) && Clock(run) - HOURLY_KEEP <= k.hour && 0 < k.hour && k.hour % HOUR == 0
    ensures var hourly, history := After(run).hourly, History(run);
            && SumRows(hourly, k.target, k.hour, k.hour + HOUR, false) <= Weigh(history, k.target, k.hour, k.hour + HOUR, false)
            && (SumRows(hourly, k.target, k.hour, k.hour + HOUR, false) == Weigh(history, k.target, k.hour, k.hour + HOUR, false)
                <==> Covered(run, k))
            && (Covered(run, k) ==>
                  SumRows(hourly, k.target, k.hour, k.hour + HOUR, true) == Weigh(history, k.target, k.hour, k.hour + HOUR, true))
  {
    hide Bucket, SumRows, Weigh, Covered, Seen, After, History, Valid, Clock;
    var hourly, seen, all := After(run).hourly, Seen(run, k), Bucket(History(run), k);
    RowsAreAligned(run);
    RowHoldsSeen(run, k);
    SeenIsPrefix(run, k);
    SeenIsAll(run, k);
    HourSum(hourly, k, seen, false);
    HourSum(hourly, k, seen, true);
    BucketWeight(History(run), k, false);
    BucketWeight(History(run), k, true);
    assert |seen| == |all| ==> seen == all;
  }

  // ----- the uptime windows -----

  /** Every finished hour of the window is covered. */
  ghost predicate WindowCovered(run: seq<Action>, target: int, now: int, n: nat) {
    forall i :: 1 <= i <= n ==> Covered(run, Key(target, HourStart(now) - i * HOUR))
  }

  lemma {:induction false} RowsAreExact(run: seq<Action>, target: int, now: int, n: nat)
    requires Valid(run) && Clock(run) <= now && n <= 719 && HourStart(now) > n * HOUR
    ensures var hourly, history, cur := After(run).hourly, History(run), HourStart(now);
            && SumRows(hourly, target, cur - n * HOUR, cur, false) <= Weigh(history, target, cur - n * HOUR, cur, false)
            && (SumRows(hourly, target, cur - n * HOUR, cur, false) == Weigh(history, target, cur - n * HOUR, cur, false)
                <==> WindowCovered(run, target, now, n))
            && (WindowCovered(run, target, now, n) ==>
                  SumRows(hourly, target, cur - n * HOUR, cur, true) == Weigh(history, target, cur - n * HOUR, cur, true))
  {
    hide SumRows, Weigh, Covered, After, History, Valid, Clock;
    var hourly, history, cur := After(run).hourly, History(run), HourStart(now);
    if n == 0 {
      forall okOnly ensures SumRows(hourly, target, cur, cur, okOnly) == Weigh(history, target, cur, cur, okOnly) == 0 {
        SumRowsNone(hourly, target, cur, cur, okOnly);
        WeighNothing(history, target, cur, okOnly);
      }
    } else {
      var h := cur - n * HOUR;
      RowsAreExact(run, target, now, n - 1);
      HourIsExact(run, Key(target, h));
      forall okOnly ensures SumRows(hourly, target, h, cur, okOnly) == SumRows(hourly, target, h, h + HOUR, okOnly) + SumRows(hourly, target, h + HOUR, cur, okOnly)
                            && Weigh(history, target, h, cur, okOnly) == Weigh(history, target, h, h + HOUR, okOnly) + Weigh(history, target, h + HOUR, cur, okOnly) {
        SumRowsSplit(hourly, target, h, h + HOUR, cur, okOnly);
        WeighSplit(history, target, h, h + HOUR, cur, okOnly);
      }
    }
  }

  /** The index agrees with history: for any run, the number of checks it answers for the
      current and the n hours before equals the number of all checks ever inserted since then,
      pruned or not, if and only if every one of them was inserted before a Rollup that covers
      its hour; it is never more. And then the successes agree too. */
  lemma IndexAgreesWithHistory(run: seq<Action>, target: int, now: int, n: nat)
    requires Valid(run) && Clock(run) <= now && n <= 719 && HourStart(now) > n * HOUR
    ensures var x, history, from := After(run), History(run), HourStart(now) - n * HOUR;
            && Indexed(x.checks, x.hourly, target, now, n, false) <= Since(history, target, from, false)
            && (Indexed(x.checks, x.hourly, target, now, n, false) == Since(history, target, from, false)
                <==> WindowCovered(run, target, now, n))
            && (WindowCovered(run, target, now, n) ==>
                  Indexed(x.checks, x.hourly, target, now, n, true) == Since(history, target, from, true))
  {
    hide SumRows, Weigh, Since, WindowCovered, After, History, Valid, Clock;
    var cur := HourStart(now);
    RowsAreExact(run, target, now, n);
    forall okOnly ensures Since(After(run).checks, target, cur, okOnly) == Since(History(run), target, cur, okOnly)
                          && Since(History(run), target, cur - n * HOUR, okOnly) == Weigh(History(run), target, cur - n * HOUR, cur, okOnly) + Since(History(run), target, cur, okOnly) {
      CurrentHourIsExact(run, target, now, okOnly);
      SinceSplit(History(run), target, cur - n * HOUR, cur, okOnly);
    }
  }

  /** The ratio over all checks ever inserted since from. */
  function TrueRatio(history: seq<Check>, target: int, from: int): Ratio {
    RatioOf(Since(history, target, from, true), Since(history, target, from, false))
  }

  lemma RatiosTell(ok: nat, total: nat, ok': nat, total': nat)
    requires RatioOf(ok, total) == RatioOf(ok', total')
    ensures total == total'
  {
  }

  /** Uptime over a day, a week and a month, as pairs of successes and total, is that of all checks
      ever inserted if and only if every finished hour of the month is covered. */
  lemma UptimeIsExact(run: seq<Action>, target: int, now: int)
    requires Valid(run) && Clock(run) <= now && HourStart(now) > 719 * HOUR
    ensures var x, history, cur := After(run), History(run), HourStart(now);
            UptimeOf(x.checks, x.hourly, target, now) ==
            Shares(TrueRatio(history, target, cur - 23 * HOUR),
                   TrueRatio(history, target, cur - 167 * HOUR),
                   TrueRatio(history, target, cur - 719 * HOUR))
            <==> WindowCovered(run, target, now, 719)
  {
    hide Indexed, Since, Covered, After, History, Valid, Clock, RatioOf;
    var x, history, from := After(run), History(run), HourStart(now) - 719 * HOUR;
    IndexAgreesWithHistory(run, target, now, 719);
    if WindowCovered(run, target, now, 719) {
      IndexAgreesWithHistory(run, target, now, 23);
      IndexAgreesWithHistory(run, target, now, 167);
    } else if IndexedRatio(x.checks, x.hourly, target, now, 719) == TrueRatio(history, target, from) {
      RatiosTell(Indexed(x.checks, x.hourly, target, now, 719, true), Indexed(x.checks, x.hourly, target, now, 719, false),
                 Since(history, target, from, true), Since(history, target, from, false));
      assert false;
    }
  }

  /** The condition is needed: after a downtime of more than two hours the hour before it is
      never rolled up, and its check is missing from the day although it is still stored. */
  lemma DowntimeLosesAnHour() returns (run: seq<Action>, now: int)
    ensures Valid(run) && Clock(run) <= now && HourStart(now) > 719 * HOUR
    ensures UptimeOf(After(run).checks, After(run).hourly, 1, now).day == NoData
    ensures TrueRatio(History(run), 1, HourStart(now) - 23 * HOUR) == Share(1, 1)
    ensures After(run).checks == History(run)
  {
    var h := 1000 * HOUR;
    var c := Check(1, h + 60, true, 5, "");
    now := h + 4 * HOUR;
    var first := [Insert(c, h + 60)];
    run := first + [Roll(now)];
    OneInsert(c, h + 60);
    assert run[..1] == first && run[1] == Roll(now);
    OneCheck(c, now);
    assert After(run) == Index([c], map[]);
    assert History(run) == [c];
    assert Valid(run);
    OneSince(c, now, false);
    OneSince(c, now, true);
  }

  lemma OneInsert(c: Check, at: int)
    requires 0 <= c.at <= at && 3 * HOUR <= at
    ensures var first := [Insert(c, at)];
            Valid(first) && Clock(first) == at && After(first) == Index([c], map[]) && History(first) == [c]
  {
    assert [Insert(c, at)][..0] == [];
    assert Valid([]) && Clock([]) == 3 * HOUR && After([]) == Index([], map[]) && History([]) == [];
  }

  lemma OneSince(c: Check, now: int, okOnly: bool)
    requires c.target == 1 && c.ok && now % HOUR == 0 && now > 0 && now - 23 * HOUR <= c.at < now
    ensures Indexed([c], map[], 1, now, 23, okOnly) == 0
    ensures Since([c], 1, HourStart(now) - 23 * HOUR, okOnly) == 1
  {
    assert [c][..0] == [];
    assert HourStart(now) == now;
    assert Since([], 1, now, okOnly) == 0 && Since([], 1, now - 23 * HOUR, okOnly) == 0;
    SumRowsNone(map[], 1, now - 23 * HOUR, now, okOnly);
  }

  lemma OneCheck(c: Check, now: int)
    requires now % HOUR == 0 && now > 2 * HOUR && 0 <= c.at < now - 2 * HOUR
    ensures RolledUp([c], map[], now) == map[]
  {
    assert [c][..0] == [];
    assert HourStart(now) == now;
    assert Scanned([c], now) == [];
    assert KeysOf([]) == {};
  }
}

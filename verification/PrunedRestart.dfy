/** When a restart stays invisible although old rows were pruned in between
    (internal/store/retention.go and internal/monitor/scheduler.go, restore). */
module PrunedRestart {
  import opened Base
  import opened Lifecycle
  import opened Tables
  import opened TimeOrder
  import opened Monitor
  import opened Restart

  /** What Prune leaves of the tables a runner reads. */
  function Pruned(db: Db, now: int, days: nat): Db {
    Db(Kept(db.checks, now - days * DAY), PrunedIncidents(db.incidents, now - HOURLY_KEEP))
  }

  // ----- pruning shortens the list of newest checks at its old end -----

  lemma PlaceElements(s: seq<Check>, c: Check)
    ensures forall x :: x in Place(s, c) ==> x == c || x in s
  {
    forall x | x in Place(s, c) ensures x == c || x in s {
      assert x in multiset(Place(s, c));
    }
  }

  lemma KeptAppend(s: seq<Check>, c: Check, cut: int)
    ensures Kept(s + [c], cut) == Kept(s, cut) + if c.at >= cut then [c] else []
  {
    assert (s + [c])[..|s|] == s;
  }

  /** In time order the rows before cut come first, and the kept rows follow in the order
      they would have on their own. */
  lemma {:induction false} PruningSplits(s: seq<Check>, cut: int) returns (low: seq<Check>)
    ensures ByTime(s) == low + ByTime(Kept(s, cut))
    ensures AllBefore(low, cut) && AllFrom(ByTime(Kept(s, cut)), cut)
  {
    low := [];
    if s != [] {
      hide ByTime, Place, Filter;
      var front, c := s[..|s| - 1], s[|s| - 1];
      assert s == front + [c];
      low := PruningSplits(front, cut);
      var high := ByTime(Kept(front, cut));
      ByTimeLast(front, c);
      KeptAppend(front, c, cut);
      if c.at < cut {
        PlaceBefore(low, high, c);
        PlaceElements(low, c);
        low := Place(low, c);
      } else {
        PlaceBehind(low, high, c);
        PlaceElements(high, c);
        ByTimeLast(Kept(front, cut), c);
      }
    }
  }

  lemma ReverseOfConcat<T>(a: seq<T>, b: seq<T>)
    ensures Reverse(a + b) == Reverse(b) + Reverse(a)
  {
    forall i | 0 <= i < |a + b| ensures Reverse(a + b)[i] == (Reverse(b) + Reverse(a))[i] {
      ReverseAt(a + b, i);
      if i < |b| {
        ReverseAt(b, i);
      } else {
        ReverseAt(a, i - |b|);
      }
    }
  }

  lemma OfKept(checks: seq<Check>, target: int, cut: int)
    ensures Of(Kept(checks, cut), target) == Kept(Of(checks, target), cut)
  {
    var both := (c: Check) => c.target == target && c.at >= cut;
    FilterFilter(checks, (c: Check) => c.at >= cut, (c: Check) => c.target == target, both);
    FilterFilter(checks, (c: Check) => c.target == target, (c: Check) => c.at >= cut, both);
  }

  /** last' is what is left of the newest-first list last without the rows before cut. */
  ghost predicate CutList(last: seq<Check>, last': seq<Check>, cut: int) {
    && |last'| <= |last| && last' == last[..|last'|]
    && forall i :: 0 <= i < |last| ==> (cut <= last[i].at <==> i < |last'|)
  }

  lemma AllAfterPrune(checks: seq<Check>, target: int, cut: int)
    ensures CutList(Reverse(ByTime(Of(checks, target))), Reverse(ByTime(Of(Kept(checks, cut), target))), cut)
  {
    hide ByTime, Filter;
    var own := Of(checks, target);
    var low := PruningSplits(own, cut);
    var high := ByTime(Kept(own, cut));
    OfKept(checks, target, cut);
    ReverseOfConcat(low, high);
    forall i | 0 <= i < |low| + |high| ensures cut <= Reverse(low + high)[i].at <==> i < |high| {
      if i < |high| {
        ReverseAt(high, i);
      } else {
        ReverseAt(low, i - |high|);
      }
    }
  }

  lemma CutListTake(last: seq<Check>, last': seq<Check>, cut: int, n: nat)
    requires CutList(last, last', cut)
    ensures CutList(Take(last, n), Take(last', n), cut)
  {
  }

  /** The newest-first list of a target loses exactly its rows before cut, at its end. */
  lemma NewestAfterPrune(checks: seq<Check>, target: int, n: nat, cut: int)
    ensures CutList(Newest(checks, target, n), Newest(Kept(checks, cut), target, n), cut)
  {
    AllAfterPrune(checks, target, cut);
    CutListTake(Reverse(ByTime(Of(checks, target))), Reverse(ByTime(Of(Kept(checks, cut), target))), cut, n);
  }

  // ----- what that does to restore -----

  /** The counted run is cut where the list is cut. */
  lemma RunLengthOfPrefix(s: seq<Check>, k: nat, end: int)
    requires k <= |s|
    ensures RunLength(s[..k], end) == if RunLength(s, end) < k then RunLength(s, end) else k
  {
    assert s[..k] == Take(s, k);
    RunLengthOfTake(s, k, end);
  }

  /** Whether a row counts does not depend on ends that lie before all rows. */
  lemma {:induction false} RunLengthIgnoresOldEnds(s: seq<Check>, end: int, end': int)
    requires end == end' || (AllFrom(s, end + 1) && AllFrom(s, end' + 1))
    ensures RunLength(s, end) == RunLength(s, end')
    decreases |s|
  {
    if end != end' && s != [] {
      assert s[0] in s && forall c :: c in s[1..] ==> c in s;
      RunLengthIgnoresOldEnds(s[1..], end, end');
    }
  }

  /** Pruning incidents forgets the last end only if it lies before keepBefore. */
  lemma LastEndAfterPrune(tbl: Incidents, target: int, keepBefore: int)
    requires ZERO_TIME < keepBefore
    ensures var before, after := LastEnd(tbl, target), LastEnd(PrunedIncidents(tbl, keepBefore), target);
            before == after || (before < keepBefore && after < keepBefore)
  {
    var kept := PrunedIncidents(tbl, keepBefore);
    forall e | e in Ends(tbl, target) && keepBefore <= e ensures e in Ends(kept, target) {
      var id :| id in tbl && tbl[id].target == target && tbl[id].endedAt == Some(e);
      assert id in kept && kept[id] == tbl[id];
    }
    assert forall e :: e in Ends(kept, target) ==> e in Ends(tbl, target) && keepBefore <= e;
  }

  lemma OpenRowsAfterPrune(tbl: Incidents, keepBefore: int)
    ensures var kept := PrunedIncidents(tbl, keepBefore);
            && (forall id, t :: OpenRow(kept, id, t) <==> OpenRow(tbl, id, t))
            && (forall id :: id in kept ==> id in tbl && kept[id] == tbl[id])
  {
  }

  lemma OpenForAfterPrune(tbl: Incidents, target: int, keepBefore: int)
    requires OneOpenEach(tbl)
    ensures OpenFor(PrunedIncidents(tbl, keepBefore), target) == OpenFor(tbl, target)
  {
    OpenRowsAfterPrune(tbl, keepBefore);
    var kept := PrunedIncidents(tbl, keepBefore);
    if HasOpen(tbl, target) {
      assert OpenRow(kept, OpenFor(tbl, target).value, target);
    }
  }

  /** The counted run after pruning: its length only falls, and stays the same exactly when
      its oldest row is kept. */
  lemma CountAfterPrune(last: seq<Check>, last': seq<Check>, cut: int, end: int, end': int)
    requires CutList(last, last', cut) && (end == end' || (end < cut && end' < cut))
    ensures var n, n' := RunLength(last, end), RunLength(last', end');
            && n' <= n
            && (n' > 0 ==> last'[n' - 1] == last[n' - 1])
            && (n' == n <==> n == 0 || cut <= last[n - 1].at)
  {
    RunLengthIgnoresOldEnds(last', end, end');
    RunLengthOfPrefix(last, |last'|, end);
  }

  /** What a restart counts before and after a prune: the prune takes failures away, from the
      first one on, exactly if that one is too old. */
  ghost predicate Forgets(before: State, after: State, cut: int) {
    && before.open == after.open
    && (before.open ==> before.startedAt == after.startedAt && before.incident == after.incident)
    && after.fails <= before.fails
    && (after.fails > 0 ==> cut <= after.firstFail)
    && (before.fails == 0 || cut <= before.firstFail ==>
          after.fails == before.fails && (after.fails > 0 ==> after.firstFail == before.firstFail))
    && (before.fails > 0 && before.firstFail < cut ==> after.fails < before.fails)
  }

  lemma RebuiltAfterPrune(before: Incidents, after: Incidents, row: Option<int>,
                                             last: seq<Check>, last': seq<Check>, cut: int, end: int, end': int)
    requires row.Some? ==> row.value in before && row.value in after && before[row.value] == after[row.value]
    requires CutList(last, last', cut) && (end == end' || (end < cut && end' < cut))
    ensures Forgets(Rebuilt(before, row, end, last), Rebuilt(after, row, end', last'), cut)
  {
    hide FirstText;
    CountAfterPrune(last, last', cut, end, end');
  }

  /** The retention is one that the configuration allows. */
  predicate Allowed(now: int, days: nat) {
    1 <= days <= 400 && ZERO_TIME < now - HOURLY_KEEP
  }

  lemma PruneForgets(db: Db, t: Target, now: int, days: nat)
    requires OneOpenEach(db.incidents) && Allowed(now, days)
    ensures Forgets(Restored(db, t, READS_WORK), Restored(Pruned(db, now, days), t, READS_WORK), now - days * DAY)
  {
    hide Newest, Rebuilt, Forgets;
    var cut, db' := now - days * DAY, Pruned(db, now, days);
    LastEndAfterPrune(db.incidents, t.id, now - HOURLY_KEEP);
    OpenForAfterPrune(db.incidents, t.id, now - HOURLY_KEEP);
    OpenRowsAfterPrune(db.incidents, now - HOURLY_KEEP);
    NewestAfterPrune(db.checks, t.id, t.threshold, cut);
    RebuiltAfterPrune(db.incidents, db'.incidents, OpenFor(db.incidents, t.id),
                      Newest(db.checks, t.id, t.threshold), Newest(db'.checks, t.id, t.threshold),
                      cut, LastEnd(db.incidents, t.id), LastEnd(db'.incidents, t.id));
  }

  /** A prune before a restart cannot be seen in any future if and only if an incident is open,
      or no failure counts, or the first failure that counts is within the retention. If it can
      be seen, then already in a run of checks without any trouble. */
  lemma PruneBeforeRestart(db: Db, t: Target, now: int, days: nat)
    requires OneOpenEach(db.incidents) && Allowed(now, days)
    ensures var before, db' := Restored(db, t, READS_WORK), Pruned(db, now, days);
            var after := Restored(db', t, READS_WORK);
            var unseen := before.open || before.fails == 0 || now - days * DAY <= before.firstFail;
            && (unseen <==> forall ys :: SameFuture(before, after, db', t, ys))
            && (!unseen ==> exists ys :: Plausible(before, db', t, ys) && !SameFuture(before, after, db', t, ys))
  {
    hide Restored, SameFuture, Plausible, Pruned;
    var before, db' := Restored(db, t, READS_WORK), Pruned(db, now, days);
    var after := Restored(db', t, READS_WORK);
    PruneForgets(db, t, now, days);
    if before.open || before.fails == 0 || now - days * DAY <= before.firstFail {
      AlikeFutures(before, after, db', t);
    } else {
      PrunedIsClosed(db, t, now, days);
      var ys := TellApart(before, after, db', t);
    }
  }

  lemma PrunedIsClosed(db: Db, t: Target, now: int, days: nat)
    requires OneOpenEach(db.incidents)
    ensures OneOpenEach(Pruned(db, now, days).incidents)
    ensures Restored(db, t, READS_WORK).open <==> HasOpen(Pruned(db, now, days).incidents, t.id)
  {
    hide Rebuilt;
    OpenRowsAfterPrune(db.incidents, now - HOURLY_KEEP);
    RestoredOpens(db, t);
  }

  lemma RestoredOpens(db: Db, t: Target)
    ensures Restored(db, t, READS_WORK).open <==> HasOpen(db.incidents, t.id)
  {
  }

  // ----- a run in which pruning is seen -----

  lemma LoneCheck(c: Check)
    ensures Newest([c], c.target, 2) == [c] && Newest([], c.target, 2) == []
  {
    assert [c][..0] == [];
    assert Of([c], c.target) == [c];
    assert ByTime([c]) == [c];
  }

  lemma LoneFailure(c: Check, t: Target)
    requires t == Target(c.target, 2) && !c.ok && ZERO_TIME < c.at
    ensures Restored(Db([c], map[]), t, READS_WORK) == State(1, c.at, c.err, false, ZERO_TIME, 0)
    ensures Restored(Db([], map[]), t, READS_WORK) == FRESH
  {
    hide Newest;
    LoneCheck(c);
    assert [c][..1] == [c];
    assert FirstText([c]) == c.err;
    assert Ends(map[], t.id) == {};
  }

  lemma LonePruned(c: Check, now: int, days: nat)
    requires c.at < now - days * DAY
    ensures Pruned(Db([c], map[]), now, days) == Db([], map[])
  {
    assert [c][..0] == [];
  }

  /** Pruning can be seen: with a threshold of two, a daily check and a retention of one day,
      the first failure is gone before the second one comes, so the incident that the
      uninterrupted runner announces is missed after a restart. */
  lemma PruningCanBeSeen() returns (db: Db, t: Target, now: int, x: Input)
    ensures OneOpenEach(db.incidents) && |db.checks| == 1 && now < x.at && Later(db, t, x)
    ensures Round(Restored(db, t, READS_WORK), db, t, x).alert == DownAlert(x.newId, db.checks[0].at, x.err)
    ensures Round(Restored(Pruned(db, now, 1), t, READS_WORK), Pruned(db, now, 1), t, x).alert == NoAlert
  {
    hide Restored, Pruned;
    var at := 500 * DAY;
    var failed := Check(1, at, false, 0, "refused");
    t, db, now := Target(1, 2), Db([failed], map[]), at + DAY + 10;
    x := Input(at + DAY + 20, false, 0, "refused", 7, NO_FAULT, false);
    assert Ends(db.incidents, 1) == {};
    LoneFailure(failed, t);
    LonePruned(failed, now, 1);
  }
}

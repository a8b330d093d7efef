/** Rebuilding a runner from the newest checks (internal/monitor/scheduler.go, restore)
    cannot be told from never having stopped it. */
module Restart {
  import opened Base
  import opened Lifecycle
  import opened Tables
  import opened Monitor
  import TimeOrder

  // ----- what restore counts -----

  lemma {:induction false} RunLengthIs(last: seq<Check>, end: int)
    ensures var n := RunLength(last, end);
            && (forall i :: 0 <= i < n ==> !last[i].ok && last[i].at > end)
            && (n < |last| ==> last[n].ok || last[n].at <= end)
  {
    if last != [] {
      RunLengthIs(last[1..], end);
    }
  }

  lemma {:induction false} FirstTextIs(rows: seq<Check>, i: nat)
    requires i <= |rows| && forall k :: 0 <= k < i ==> rows[k].err == ""
    requires i < |rows| ==> rows[i].err != ""
    ensures FirstText(rows) == if i < |rows| then rows[i].err else ""
  {
    if i > 0 {
      FirstTextIs(rows[1..], i - 1);
    }
  }

  /** What restore builds from the tables: open with the target's open row, if there is one; the
      failures at the front of the newest checks count that came after the last incident's end, up to
      a success or the threshold; the oldest of them is the first failure, and the newest error text
      that is not empty is the cause. A read that fails counts as one that found nothing. */
  lemma RestoredMeans(db: Db, t: Target, f: ReadFaults, i: nat)
    ensures var st := Restored(db, t, f);
            var last := if f.last then [] else Newest(db.checks, t.id, t.threshold);
            var end := if f.end then ZERO_TIME else LastEnd(db.incidents, t.id);
            && st.fails <= |last|
            && (forall k :: 0 <= k < st.fails ==> !last[k].ok && last[k].at > end)
            && (st.fails < |last| ==> last[st.fails].ok || last[st.fails].at <= end)
            && st.firstFail == (if st.fails > 0 then last[st.fails - 1].at else ZERO_TIME)
            && (i <= st.fails && (forall k :: 0 <= k < i ==> last[k].err == "") ==>
                  (i == st.fails ==> st.cause == "") && (i < st.fails && last[i].err != "" ==> st.cause == last[i].err))
    ensures var st := Restored(db, t, f);
            && (st.open <==> !f.open && HasOpen(db.incidents, t.id))
            && (st.open ==> Owns(st, db.incidents, t))
  {
    hide Newest, RunLength, FirstText, LastEnd;
    var last := if f.last then [] else Newest(db.checks, t.id, t.threshold);
    var end := if f.end then ZERO_TIME else LastEnd(db.incidents, t.id);
    RunLengthIs(last, end);
    var counted := last[..RunLength(last, end)];
    if i <= |counted| && (forall k :: 0 <= k < i ==> last[k].err == "") && (i < |counted| ==> counted[i].err != "") {
      FirstTextIs(counted, i);
    }
  }

  /** Closing the incident of a target that is paused forgets its failures: a runner that is started
      later begins with none, so that a new incident takes a whole new run of them. */
  lemma PausingForgets(db: Db, t: Target, now: int)
    requires HasOpen(db.incidents, t.id) && forall c :: c in db.checks && c.target == t.id ==> c.at <= now
    ensures var st := Restored(db.(incidents := ClosedPaused(db.incidents, t.id, now)), t, READS_WORK);
            st.fails == 0 && st.firstFail == ZERO_TIME && st.cause == "" && !st.open
  {
    hide Newest, RunLength, FirstText, LastEnd;
    var closed := ClosedPaused(db.incidents, t.id, now);
    var after := db.(incidents := closed);
    var id :| id in db.incidents && OpenRow(db.incidents, id, t.id);
    assert closed[id].endedAt == Some(now);
    assert now in Ends(closed, t.id);
    var pos := TimeOrder.NewestIsNewest(db.checks, t.id, t.threshold);
    RestoredMeans(after, t, READS_WORK, 0);
    var last := Newest(db.checks, t.id, t.threshold);
    if |last| > 0 {
      assert last[0] == db.checks[pos[0]] && db.checks[pos[0]] in db.checks;
    }
  }

  /** The states cannot be told apart by any future check. */
  ghost predicate Alike(a: State, b: State) {
    && a.open == b.open
    && (a.open ==> a.startedAt == b.startedAt && a.incident == b.incident)
    && (!a.open ==> a.fails == b.fails && (a.fails > 0 ==> a.firstFail == b.firstFail))
  }

  lemma AlikeRound(a: State, b: State, db: Db, t: Target, x: Input)
    requires Alike(a, b)
    ensures var ra, rb := Round(a, db, t, x), Round(b, db, t, x);
            ra.db == rb.db && ra.alert == rb.alert && Alike(ra.st, rb.st)
  {
  }

  /** Alike states announce the same incidents with the same ids, starts, ends and causes,
      and write the same rows, for every future sequence of checks and failures. */
  lemma {:induction false} AlikeRun(a: State, b: State, db: Db, t: Target, xs: seq<Input>)
    requires Alike(a, b)
    ensures var pa, pb := Play(a, db, t, xs), Play(b, db, t, xs);
            pa.db == pb.db && pa.alerts == pb.alerts && Alike(pa.st, pb.st)
    decreases |xs|
  {
    if xs != [] {
      AlikeRound(a, b, db, t, xs[0]);
      var ra, rb := Round(a, db, t, xs[0]), Round(b, db, t, xs[0]);
      AlikeRun(ra.st, rb.st, ra.db, t, xs[1..]);
    }
  }

  /** x comes after every stored check of t and strictly after its last incident's end. */
  ghost predicate Later(db: Db, t: Target, x: Input) {
    && (forall c :: c in db.checks && c.target == t.id ==> c.at <= x.at)
    && LastEnd(db.incidents, t.id) < x.at
  }

  lemma {:induction false} RunLengthOfTake(s: seq<Check>, n: nat, end: int)
    ensures RunLength(Take(s, n), end) == if RunLength(s, end) < n then RunLength(s, end) else n
    decreases |s|
  {
    if n > 0 && s != [] {
      assert Take(s, n)[0] == s[0];
      assert Take(s, n)[1..] == Take(s[1..], n - 1);
      RunLengthOfTake(s[1..], n - 1, end);
    }
  }

  /** Reading one row less makes no difference to a run that is shorter than that. */
  lemma RunLengthOfFewer(checks: seq<Check>, target: int, n: nat, end: int)
    requires RunLength(Newest(checks, target, n + 1), end) < n
    ensures var fewer, more := Newest(checks, target, n), Newest(checks, target, n + 1);
            && RunLength(fewer, end) == RunLength(more, end)
            && |fewer| <= |more| && forall i :: 0 <= i < |fewer| ==> fewer[i] == more[i]
  {
    hide Reverse, ByTime, Filter, RunLength;
    var all := Reverse(ByTime(Of(checks, target)));
    RunLengthOfTake(all, n, end);
    RunLengthOfTake(all, n + 1, end);
  }

  lemma RunLengthOfCons(c: Check, s: seq<Check>, end: int)
    requires !c.ok && end < c.at
    ensures RunLength([c] + s, end) == 1 + RunLength(s, end)
  {
    assert ([c] + s)[1..] == s;
  }

  /** A newer failure prolongs the counted run by one and leaves its first row in place. */
  lemma CountAfterInsert(checks: seq<Check>, c: Check, th: nat, end: int,
                                            before: seq<Check>, after: seq<Check>)
    requires forall d :: d in checks && d.target == c.target ==> d.at <= c.at
    requires before == Newest(checks, c.target, th) && after == Newest(checks + [c], c.target, th)
    requires !c.ok && end < c.at && RunLength(before, end) + 1 < th
    ensures RunLength(after, end) == 1 + RunLength(before, end)
    ensures after[RunLength(before, end)] == if RunLength(before, end) == 0 then c else before[RunLength(before, end) - 1]
  {
    hide Newest, RunLength;
    var n := th - 1;
    RunLengthOfFewer(checks, c.target, n, end);
    NewestAfterInsert(checks, c, n);
    RunLengthOfCons(c, Newest(checks, c.target, n), end);
  }

  /** An undisturbed failing round that announces nothing adds one to the restored count. */
  lemma FailureIsRestored(db: Db, t: Target, x: Input, db': Db)
    requires !x.ok && Later(db, t, x) && db' == db.(checks := db.checks + [x.Row(t.id)])
    requires Restored(db, t, READS_WORK).fails + 1 < t.threshold
    ensures var before, after := Restored(db, t, READS_WORK), Restored(db', t, READS_WORK);
            && after.fails == before.fails + 1
            && after.firstFail == (if before.fails == 0 then x.at else before.firstFail)
  {
    hide Newest, RunLength, FirstText;
    CountAfterInsert(db.checks, x.Row(t.id), t.threshold, LastEnd(db.incidents, t.id),
                     Newest(db.checks, t.id, t.threshold), Newest(db'.checks, t.id, t.threshold));
  }

  lemma SuccessIsRestored(db: Db, t: Target, x: Input, incidents: Incidents)
    requires x.ok && Later(db, t, x) && t.threshold >= 1
    requires !HasOpen(incidents, t.id)
    ensures Restored(Db(db.checks + [x.Row(t.id)], incidents), t, READS_WORK) == FRESH
  {
    NewestAfterInsert(db.checks, x.Row(t.id), t.threshold - 1);
  }

  lemma OpenIsRestored(st: State, db: Db, t: Target)
    requires st.open && Coupled(st, db.incidents, t)
    ensures Alike(st, Restored(db, t, READS_WORK))
  {
    assert OpenRow(db.incidents, st.incident, t.id);
    RestoredIsCoupled(db, t, READS_WORK);
  }

  /** One undisturbed round keeps the runner alike to the one a restart would build. */
  lemma RoundIsRestored(st: State, db: Db, t: Target, x: Input)
    requires Coupled(st, db.incidents, t) && Alike(st, Restored(db, t, READS_WORK))
    requires x.faults == NO_FAULT && FreshId(x, db.incidents) && Later(db, t, x) && t.threshold >= 1
    ensures var r := Round(st, db, t, x);
            Coupled(r.st, r.db.incidents, t) && Alike(r.st, Restored(r.db, t, READS_WORK))
  {
    var r := Round(st, db, t, x);
    RoundKeepsCoupling(st, db, t, x);
    if r.st.open {
      OpenIsRestored(r.st, r.db, t);
    } else if x.ok {
      SuccessIsRestored(db, t, x, r.db.incidents);
    } else {
      FailureIsRestored(db, t, x, r.db);
      RestoredIsCoupled(r.db, t, READS_WORK);
    }
  }

  /** Every ended row of before is still there in after, and what ended since ended at at. */
  ghost predicate EndsGrow(before: Incidents, after: Incidents, at: int) {
    && (forall id :: id in before && before[id].endedAt.Some? ==>
          id in after && after[id].endedAt == before[id].endedAt && after[id].target == before[id].target)
    && (forall id :: id in after && after[id].endedAt.Some? && after[id].endedAt.value != at ==>
          id in before && after[id].endedAt == before[id].endedAt && after[id].target == before[id].target)
  }

  lemma LastEndGrows(before: Incidents, after: Incidents, target: int, at: int)
    requires EndsGrow(before, after, at) && LastEnd(before, target) <= at
    ensures LastEnd(after, target) <= at
  {
    assert forall e :: e in Ends(before, target) ==> e in Ends(after, target);
    assert forall e :: e in Ends(after, target) ==> e == at || e in Ends(before, target);
    if Ends(after, target) == {} {
      assert Ends(before, target) == {};
    }
  }

  lemma MarkedEnds(before: Incidents, after: Incidents, id: int, up: bool, at: int)
    requires EndsGrow(before, after, at)
    ensures EndsGrow(before, Marked(after, id, up), at)
  {
    MarkedRows(after, id, up);
  }

  /** A round moves the last incident's end no further than its own time. */
  lemma RoundMovesEnd(st: State, db: Db, t: Target, x: Input)
    requires Later(db, t, x) && FreshId(x, db.incidents)
    ensures var r := Round(st, db, t, x);
            && LastEnd(r.db.incidents, t.id) <= x.at
            && forall c :: c in r.db.checks && c.target == t.id ==> c.at <= x.at
  {
    hide EndsGrow, LastEnd;
    var r := Round(st, db, t, x);
    var (nst, event) := Next(st, x.Obs(), t.threshold);
    match event {
      case Quiet =>
      case Down =>
        MarkedEnds(db.incidents, Opened(db.incidents, x.newId, t.id, nst.startedAt, nst.cause), x.newId, false, x.at);
      case Up =>
        MarkedEnds(db.incidents, Closed(db.incidents, st.incident, x.at), st.incident, true, x.at);
    }
    LastEndGrows(db.incidents, r.db.incidents, t.id, x.at);
  }

  // ----- states that are not alike can be told apart -----

  /** Rounds of an undisturbed run: all writes work, and the clock moves on. */
  ghost predicate Undisturbed(xs: seq<Input>) {
    && (forall i :: 0 <= i < |xs| ==> xs[i].faults == NO_FAULT)
    && (forall i, j :: 0 <= i < j < |xs| ==> xs[i].at < xs[j].at)
  }

  /** What may follow on these tables when nothing fails: the clock is ahead of them, and the
      database hands out unused ids. */
  ghost predicate Plausible(st: State, db: Db, t: Target, xs: seq<Input>) {
    Undisturbed(xs) && FreshIds(st, db, t, xs) && (xs != [] ==> Later(db, t, xs[0]))
  }

  /** The same alerts and the same rows. */
  ghost predicate SameFuture(a: State, b: State, db: Db, t: Target, xs: seq<Input>) {
    Play(a, db, t, xs).alerts == Play(b, db, t, xs).alerts && Play(a, db, t, xs).db == Play(b, db, t, xs).db
  }

  /** A failure that is stored and announced without trouble. */
  function Failure(at: int, newId: int): Input {
    Input(at, false, 0, "refused", newId, NO_FAULT, false)
  }

  lemma PlayOne(st: State, db: Db, t: Target, x: Input)
    ensures Play(st, db, t, [x]).alerts == [Round(st, db, t, x).alert]
    ensures FreshId(x, db.incidents) ==> FreshIds(st, db, t, [x])
  {
  }

  lemma PlayMore(st: State, db: Db, t: Target, x: Input, xs: seq<Input>)
    ensures var r := Round(st, db, t, x);
            && Play(st, db, t, [x] + xs).alerts == [r.alert] + Play(r.st, r.db, t, xs).alerts
            && (FreshId(x, db.incidents) && FreshIds(r.st, r.db, t, xs) ==> FreshIds(st, db, t, [x] + xs))
  {
    assert ([x] + xs)[1..] == xs;
  }

  /** A closed runner after a failure: it counts it, or announces the start of its run. */
  lemma FailureCounts(st: State, db: Db, t: Target, at: int, newId: int)
    requires !st.open && !HasOpen(db.incidents, t.id)
    ensures var r, start := Round(st, db, t, Failure(at, newId)), if st.fails == 0 then at else st.firstFail;
            if st.fails + 1 >= Needed(t.threshold) then r.alert == DownAlert(newId, start, "refused")
            else
              && r.alert == NoAlert && r.st == st.(fails := st.fails + 1, firstFail := start, cause := "refused")
              && r.db == db.(checks := db.checks + [Failure(at, newId).Row(t.id)])
  {
  }

  lemma UndisturbedMore(x: Input, xs: seq<Input>)
    requires Undisturbed(xs) && x.faults == NO_FAULT && (xs != [] ==> x.at < xs[0].at)
    ensures Undisturbed([x] + xs)
  {
    var all := [x] + xs;
    forall i, j | 0 <= i < j < |all| ensures all[i].at < all[j].at {
      assert all[j] == xs[j - 1];
      if i > 0 {
        assert all[i] == xs[i - 1];
      }
    }
  }

  /** Of two closed runners the one that counts more failures announces first, or with another
      start: enough plain failures tell them apart. */
  lemma {:induction false} Apart(a: State, b: State, db: Db, t: Target, at: int, newId: int) returns (xs: seq<Input>)
    requires !a.open && !b.open && b.fails < a.fails && !HasOpen(db.incidents, t.id) && newId !in db.incidents
    requires a.firstFail < at && (b.fails > 0 ==> a.firstFail != b.firstFail)
    ensures xs != [] && xs[0].at == at && Undisturbed(xs)
    ensures FreshIds(a, db, t, xs) && Play(a, db, t, xs).alerts != Play(b, db, t, xs).alerts
    decreases if a.fails < t.threshold then t.threshold - a.fails else 0
  {
    hide Round, Play, FreshIds, HasOpen;
    var x := Failure(at, newId);
    FailureCounts(a, db, t, at, newId);
    FailureCounts(b, db, t, at, newId);
    var ra, rb := Round(a, db, t, x), Round(b, db, t, x);
    if a.fails + 1 >= Needed(t.threshold) {
      xs := [x];
      PlayOne(a, db, t, x);
      PlayOne(b, db, t, x);
      assert ra.alert != rb.alert;
      assert [ra.alert][0] != [rb.alert][0];
    } else {
      var rest := Apart(ra.st, rb.st, ra.db, t, at + 1, newId);
      xs := [x] + rest;
      UndisturbedMore(x, rest);
      PlayMore(a, db, t, x, rest);
      PlayMore(b, db, t, x, rest);
      var pa, pb := Play(ra.st, ra.db, t, rest).alerts, Play(rb.st, ra.db, t, rest).alerts;
      assert ([ra.alert] + pa)[1..] == pa && ([rb.alert] + pb)[1..] == pb;
    }
  }

  lemma {:induction false} TimeAfter(checks: seq<Check>, low: int) returns (at: int)
    ensures low < at && forall c :: c in checks ==> c.at < at
  {
    at := low + 1;
    if checks != [] {
      var last := checks[|checks| - 1];
      at := TimeAfter(checks[..|checks| - 1], low);
      assert forall c :: c in checks ==> c == last || c in checks[..|checks| - 1];
      if at <= last.at {
        at := last.at + 1;
      }
    }
  }

  /** Two closed runners with different counts are told apart by a run that can happen next. */
  lemma TellApart(a: State, b: State, db: Db, t: Target) returns (xs: seq<Input>)
    requires !a.open && !b.open && b.fails < a.fails && !HasOpen(db.incidents, t.id)
    requires b.fails > 0 ==> a.firstFail != b.firstFail
    ensures Plausible(a, db, t, xs) && !SameFuture(a, b, db, t, xs)
  {
    hide Play, FreshIds, Undisturbed, HasOpen, LastEnd;
    var end := LastEnd(db.incidents, t.id);
    var at := TimeAfter(db.checks, if end < a.firstFail then a.firstFail else end);
    var newId := UnusedId(db.incidents);
    xs := Apart(a, b, db, t, at, newId);
  }

  lemma AlikeFutures(a: State, b: State, db: Db, t: Target)
    requires Alike(a, b)
    ensures forall xs :: SameFuture(a, b, db, t, xs)
  {
    forall xs ensures SameFuture(a, b, db, t, xs) {
      AlikeRun(a, b, db, t, xs);
    }
  }
}

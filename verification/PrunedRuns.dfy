/** Restarting after any run of checks and prunes (internal/monitor/scheduler.go, restore, and
    internal/store/retention.go): when it can be told from never having stopped. */
module PrunedRuns {
  import opened Base
  import opened Lifecycle
  import opened Tables
  import opened TimeOrder
  import opened Monitor
  import opened Restart
  import opened PrunedRestart

  /** What happens to a target's tables: a round of its runner, or a prune. */
  datatype Action = Checked(x: Input) | Pruning(now: int, days: nat)

  datatype World = World(st: State, db: Db)

  /** The runner started on db and its tables after a run. */
  ghost function After(db: Db, t: Target, run: seq<Action>): World {
    if run == [] then World(Restored(db, t, READS_WORK), db)
    else
      var w := After(db, t, run[..|run| - 1]);
      match run[|run| - 1]
      case Checked(x) => var r := Round(w.st, w.db, t, x); World(r.st, r.db)
      case Pruning(now, days) => World(w.st, Pruned(w.db, now, days))
  }

  /** The time of the last check, or start. */
  function LastTime(run: seq<Action>, start: int): int {
    if run == [] then start
    else if run[|run| - 1].Checked? then run[|run| - 1].x.at
    else LastTime(run[..|run| - 1], start)
  }

  /** The tables say nothing later than start. */
  ghost predicate Until(db: Db, t: Target, start: int) {
    && (forall c :: c in db.checks && c.target == t.id ==> c.at <= start)
    && LastEnd(db.incidents, t.id) <= start && ZERO_TIME <= start
  }

  /** No prune of the run is dated a day or more after at: a check does not take that long. */
  predicate NotLongAfter(run: seq<Action>, at: int) {
    forall i :: 0 <= i < |run| && run[i].Pruning? ==> run[i].now < at + DAY
  }

  /** All writes work, check times increase, and the retention is one the configuration allows. */
  ghost predicate Valid(db: Db, t: Target, start: int, run: seq<Action>) {
    if run == [] then OneOpenEach(db.incidents) && t.threshold >= 1 && Until(db, t, start)
    else
      var front := run[..|run| - 1];
      && Valid(db, t, start, front)
      && match run[|run| - 1]
         case Checked(x) =>
           && x.faults == NO_FAULT && FreshId(x, After(db, t, front).db.incidents)
           && LastTime(front, start) < x.at && NotLongAfter(front, x.at)
         case Pruning(now, days) => Allowed(now, days)
  }

  /** No prune of the run took rows of time at. */
  ghost predicate Remembered(run: seq<Action>, at: int) {
    forall i :: 0 <= i < |run| && run[i].Pruning? ==> run[i].now - run[i].days * DAY <= at
  }

  /** Whether the tables still hold all that the runner's state came from. */
  ghost predicate Unseen(st: State, run: seq<Action>) {
    st.open || st.fails == 0 || Remembered(run, st.firstFail)
  }

  /** What a restart would build, next to the state of the runner. */
  ghost predicate Tracks(w: World, t: Target, run: seq<Action>, last: int) {
    && Coupled(w.st, w.db.incidents, t) && Until(w.db, t, last)
    && (!w.st.open && w.st.fails > 0 ==> w.st.firstFail <= last)
    && (Unseen(w.st, run) ==> Alike(w.st, Restored(w.db, t, READS_WORK)))
    && (!Unseen(w.st, run) ==>
          && Restored(w.db, t, READS_WORK).fails < w.st.fails
          && forall c :: c in w.db.checks && c.target == t.id ==> w.st.firstFail < c.at)
  }

  lemma UntilIsLater(db: Db, t: Target, last: int, x: Input)
    requires Until(db, t, last) && last < x.at
    ensures Later(db, t, x)
  {
  }

  lemma RememberedMore(run: seq<Action>, a: Action, at: int)
    ensures Remembered(run + [a], at) <==> Remembered(run, at) && (a.Pruning? ==> a.now - a.days * DAY <= at)
  {
    var all := run + [a];
    assert all[|run|] == a;
    assert forall i :: 0 <= i < |run| ==> all[i] == run[i];
  }

  lemma {:induction false} AllowedRun(db: Db, t: Target, start: int, run: seq<Action>, i: nat)
    requires Valid(db, t, start, run) && i < |run| && run[i].Pruning?
    ensures run[i].days >= 1
  {
    if i < |run| - 1 {
      AllowedRun(db, t, start, run[..|run| - 1], i);
    }
  }

  lemma NowIsRemembered(db: Db, t: Target, start: int, run: seq<Action>, at: int)
    requires Valid(db, t, start, run) && NotLongAfter(run, at)
    ensures Remembered(run, at)
  {
    hide Valid;
    forall i | 0 <= i < |run| && run[i].Pruning? ensures run[i].now - run[i].days * DAY <= at {
      AllowedRun(db, t, start, run, i);
    }
  }

  /** A round whose past is still stored. */
  lemma CheckedUnseen(w: World, t: Target, run: seq<Action>, last: int, x: Input)
    requires Tracks(w, t, run, last) && Unseen(w.st, run) && t.threshold >= 1
    requires x.faults == NO_FAULT && FreshId(x, w.db.incidents) && last < x.at && Remembered(run, x.at)
    ensures var r := Round(w.st, w.db, t, x);
            Tracks(World(r.st, r.db), t, run + [Checked(x)], x.at)
  {
    hide Restored, Remembered, LastEnd, Alike, Coupled;
    UntilIsLater(w.db, t, last, x);
    RoundIsRestored(w.st, w.db, t, x);
    RoundMovesEnd(w.st, w.db, t, x);
    var r := Round(w.st, w.db, t, x);
    RoundStaysUnseen(w.st, w.db, t, run, last, x);
  }

  lemma RoundStaysUnseen(st: State, db: Db, t: Target, run: seq<Action>, last: int, x: Input)
    requires Unseen(st, run) && x.faults == NO_FAULT && last < x.at && Remembered(run, x.at)
    requires !st.open && st.fails > 0 ==> st.firstFail <= last
    ensures var r := Round(st, db, t, x);
            && Unseen(r.st, run + [Checked(x)])
            && (!r.st.open && r.st.fails > 0 ==> r.st.firstFail <= x.at)
  {
    hide Remembered;
    RememberedMore(run, Checked(x), x.at);
    RememberedMore(run, Checked(x), st.firstFail);
  }

  /** A round of a closed runner whose first failure is no longer stored. */
  lemma CheckedSeen(w: World, t: Target, run: seq<Action>, last: int, x: Input)
    requires Tracks(w, t, run, last) && !Unseen(w.st, run) && t.threshold >= 1
    requires x.faults == NO_FAULT && FreshId(x, w.db.incidents) && last < x.at
    ensures var r := Round(w.st, w.db, t, x);
            Tracks(World(r.st, r.db), t, run + [Checked(x)], x.at)
  {
    hide Restored, Remembered, LastEnd;
    var r := Round(w.st, w.db, t, x);
    UntilIsLater(w.db, t, last, x);
    RoundKeepsCoupling(w.st, w.db, t, x);
    RoundMovesEnd(w.st, w.db, t, x);
    RememberedMore(run, Checked(x), r.st.firstFail);
    if r.st.open {
      OpenIsRestored(r.st, r.db, t);
    } else if x.ok {
      SuccessIsRestored(w.db, t, x, r.db.incidents);
    } else {
      FailureIsRestored(w.db, t, x, r.db);
    }
  }

  lemma PrunedUntil(db: Db, t: Target, last: int, now: int, days: nat)
    requires Until(db, t, last)
    ensures Until(Pruned(db, now, days), t, last)
  {
    var kept := PrunedIncidents(db.incidents, now - HOURLY_KEEP);
    assert forall e :: e in Ends(kept, t.id) ==> e in Ends(db.incidents, t.id);
  }

  lemma PrunedTracks(w: World, t: Target, run: seq<Action>, last: int, now: int, days: nat)
    requires Tracks(w, t, run, last) && Allowed(now, days)
    ensures Tracks(World(w.st, Pruned(w.db, now, days)), t, run + [Pruning(now, days)], last)
  {
    hide Restored, Remembered, LastEnd, Until, HasOpen;
    var cut := now - days * DAY;
    var db' := Pruned(w.db, now, days);
    PrunedUntil(w.db, t, last, now, days);
    OpenRowsAfterPrune(w.db.incidents, now - HOURLY_KEEP);
    PrunedIsClosed(w.db, t, now, days);
    RestoredOpens(w.db, t);
    PruneForgets(w.db, t, now, days);
    RememberedMore(run, Pruning(now, days), w.st.firstFail);
    if w.st.open {
      OpenIsRestored(w.st, db', t);
    }
  }

  lemma StartTracks(db: Db, t: Target, start: int)
    requires OneOpenEach(db.incidents) && Until(db, t, start)
    ensures Tracks(World(Restored(db, t, READS_WORK), db), t, [], start)
  {
    hide LastEnd;
    RestoredIsCoupled(db, t, READS_WORK);
    RestoredRow(db, t);
  }

  /** The first failure that a restart counts is a row of the table. */
  lemma RestoredRow(db: Db, t: Target)
    ensures var st := Restored(db, t, READS_WORK);
            st.fails > 0 ==> exists c :: c in db.checks && c.target == t.id && c.at == st.firstFail
  {
    hide Newest, RunLength, LastEnd, FirstText;
    var pos := NewestIsNewest(db.checks, t.id, t.threshold);
    var st, last := Restored(db, t, READS_WORK), Newest(db.checks, t.id, t.threshold);
    if st.fails > 0 {
      assert last[st.fails - 1] == db.checks[pos[st.fails - 1]];
    }
  }

  lemma {:induction false} RunTracks(db: Db, t: Target, start: int, run: seq<Action>)
    requires Valid(db, t, start, run)
    ensures Tracks(After(db, t, run), t, run, LastTime(run, start)) && t.threshold >= 1
  {
    hide Tracks, Unseen, NotLongAfter, Until;
    if run == [] {
      StartTracks(db, t, start);
    } else {
      var front, a := run[..|run| - 1], run[|run| - 1];
      assert run == front + [a];
      RunTracks(db, t, start, front);
      var w, last := After(db, t, front), LastTime(front, start);
      match a {
        case Checked(x) =>
          NowIsRemembered(db, t, start, front, x.at);
          if Unseen(w.st, front) {
            CheckedUnseen(w, t, front, last, x);
          } else {
            CheckedSeen(w, t, front, last, x);
          }
        case Pruning(now, days) =>
          PrunedTracks(w, t, front, last, now, days);
      }
    }
  }

  lemma TracksTells(w: World, t: Target, run: seq<Action>, last: int)
    requires Tracks(w, t, run, last) && !Unseen(w.st, run)
    ensures var rebuilt := Restored(w.db, t, READS_WORK);
            && !w.st.open && !rebuilt.open && !HasOpen(w.db.incidents, t.id) && rebuilt.fails < w.st.fails
            && (rebuilt.fails > 0 ==> w.st.firstFail != rebuilt.firstFail)
  {
    hide Restored;
    RestoredRow(w.db, t);
    RestoredOpens(w.db, t);
  }

  /** Start a runner on any tables, let checks and prunes happen in any order, and stop it. A
      runner rebuilt from the tables, although it reads no more checks than the threshold, cannot
      be told from the old one by any future checks, failures and ids, if and only if an incident
      is open, or no failure counts, or no prune took the first failure that counts; without
      prunes, always. If it can be told, then already in a run of checks without any trouble. */
  lemma RestartIsInvisible(db: Db, t: Target, start: int, run: seq<Action>)
    requires Valid(db, t, start, run)
    ensures var w := After(db, t, run);
            var rebuilt := Restored(w.db, t, READS_WORK);
            && (Unseen(w.st, run) <==> forall ys :: SameFuture(w.st, rebuilt, w.db, t, ys))
            && (!Unseen(w.st, run) ==> exists ys :: Plausible(w.st, w.db, t, ys) && !SameFuture(w.st, rebuilt, w.db, t, ys))
            && ((forall i :: 0 <= i < |run| ==> run[i].Checked?) ==> Unseen(w.st, run))
  {
    hide Restored, SameFuture, Plausible, After, Valid, HasOpen, Until;
    RunTracks(db, t, start, run);
    var w := After(db, t, run);
    var rebuilt := Restored(w.db, t, READS_WORK);
    if Unseen(w.st, run) {
      AlikeFutures(w.st, rebuilt, w.db, t);
    } else {
      TracksTells(w, t, run, LastTime(run, start));
      var ys := TellApart(w.st, rebuilt, w.db, t);
    }
  }
}

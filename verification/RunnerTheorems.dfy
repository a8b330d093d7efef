/** The promises of Manager (internal/monitor/scheduler.go), for every reachable state and
    every interleaving. */
module RunnerTheorems {
  import opened Base
  import opened Lifecycle
  import opened Tables
  import opened Monitor
  import opened RunnerProtocol
  import opened RunnerSafety

  lemma {:induction false} InvHolds(s: Sys, ls: seq<Label>)
    requires Inv(s) && Runnable(s, ls)
    ensures Inv(RunAll(s, ls))
    decreases |ls|
  {
    if ls != [] {
      hide Inv, Step, Enabled;
      StepKeepsInv(s, ls[0]);
      InvHolds(Step(s, ls[0]), ls[1..]);
    }
  }

  lemma InvReached(s: Sys, ls: seq<Label>)
    requires Init(s) && Runnable(s, ls)
    ensures Inv(RunAll(s, ls))
  {
    InvHolds(s, ls);
  }

  // ----- safety -----

  /** In every reachable state an unfinished runner is the one m.runners has for its target,
      or the one the holder of ops is stopping; so no target has two, and a target that is
      being stopped has no entry in m.runners. */
  lemma AtMostOneRunner(s0: Sys, ls: seq<Label>)
    requires Init(s0) && Runnable(s0, ls)
    ensures var s := RunAll(s0, ls);
            && (forall r: nat :: Live(s, r) ==> Accounted(s, r))
            && (forall a: nat, b: nat :: Live(s, a) && Live(s, b) && s.all[a].target.id == s.all[b].target.id ==> a == b)
            && (OpRunner(s.op).Some? ==> s.op.id !in s.runners)
  {
    hide TableOk, SlotsOk, Runnable, Init, RunAll;
    InvReached(s0, ls);
    var s := RunAll(s0, ls);
    forall a: nat, b: nat | Live(s, a) && Live(s, b) && s.all[a].target.id == s.all[b].target.id ensures a == b {
      OneRunnerPerTarget(s, a, b);
    }
  }

  /** The slots taken are exactly the checks in flight, and there are at most eight. */
  lemma SlotsNeverLeak(s0: Sys, ls: seq<Label>)
    requires Init(s0) && Runnable(s0, ls)
    ensures var s := RunAll(s0, ls);
            s.sem == InFlight(s.all) <= 8
  {
    InvReached(s0, ls);
  }

  /** In every reachable state, in spite of stragglers, failing calls, pauses, deletions and
      pruning, no target has two open incidents, and no runner claims one that is not open. */
  lemma SoundInEveryInterleaving(s0: Sys, ls: seq<Label>, r: nat)
    requires Init(s0) && Runnable(s0, ls)
    requires var s := RunAll(s0, ls);
             Live(s, r) && s.all[r].pc != Restoring && s.all[r].pc != Adopting
    ensures var s := RunAll(s0, ls); Sound(s.all[r].st, s.incidents, s.all[r].target)
  {
    InvReached(s0, ls);
    var s := RunAll(s0, ls);
    assert Fits(s.incidents, s.all[r]);
  }

  /** The runner has read its open row: what it knows is complete. */
  ghost predicate Knows(s: Sys, r: nat) {
    r < |s.all| && s.all[r].exact && s.all[r].pc != Restoring && s.all[r].pc != Adopting
  }

  lemma ActKeepsKnowing(s: Sys, x: Runner, a: Act)
    requires CanAct(s, x, a) && Fits(s.incidents, x) && x.exact && x.pc != Restoring && x.pc != Adopting
    ensures var x' := RunnerAfter(s, x, a); x'.exact && x'.pc != Restoring && x'.pc != Adopting
  {
  }

  lemma ReadingKnows(s: Sys, x: Runner)
    requires x.pc == Restoring
    ensures var x' := RunnerAfter(s, x, ReadOpen(false)); x'.exact && x'.pc == Counting
  {
  }

  /** Steps of others change at most the timer, the nudge or the cancellation of a runner. */
  lemma OtherKeepsKnowing(s: Sys, l: Label, r: nat)
    requires Knows(s, r) && Enabled(s, l) && !(l.Work? && l.runner == r)
    ensures Knows(Step(s, l), r)
  {
    hide RunnerAfter, IncidentsAfter;
  }

  lemma StepKeepsKnowing(s: Sys, l: Label, r: nat)
    requires Inv(s) && Knows(s, r) && Enabled(s, l)
    ensures Knows(Step(s, l), r)
  {
    if l.Work? && l.runner == r {
      hide RunnerAfter, IncidentsAfter, CanAct, Fits;
      assert Fits(s.incidents, s.all[r]);
      ActKeepsKnowing(s, s.all[r], l.act);
    } else {
      OtherKeepsKnowing(s, l, r);
    }
  }

  lemma {:induction false} KnowingLasts(s: Sys, ls: seq<Label>, r: nat)
    requires Inv(s) && Knows(s, r) && Runnable(s, ls)
    ensures Knows(RunAll(s, ls), r)
    decreases |ls|
  {
    hide Inv, Step, Enabled, Knows;
    if ls != [] {
      StepKeepsKnowing(s, ls[0], r);
      StepKeepsInv(s, ls[0]);
      KnowingLasts(Step(s, ls[0]), ls[1..], r);
    }
  }

  /** A runner whose first step could read the open incident is coupled to the table in every
      later state of every run, until it is done: open exactly when its target has an open row,
      with the same id and start. */
  lemma CoupledInEveryInterleaving(s0: Sys, before: seq<Label>, r: nat, after: seq<Label>)
    requires Init(s0) && Runnable(s0, before)
    requires Enabled(RunAll(s0, before), Work(r, ReadOpen(false)))
    requires Runnable(Step(RunAll(s0, before), Work(r, ReadOpen(false))), after)
    ensures var s := RunAll(Step(RunAll(s0, before), Work(r, ReadOpen(false))), after);
            Live(s, r) ==> Coupled(s.all[r].st, s.incidents, s.all[r].target)
  {
    hide Runnable, RunAll, Init, Inv, RunnerAfter, IncidentsAfter;
    var s, l := RunAll(s0, before), Work(r, ReadOpen(false));
    InvReached(s0, before);
    StepKeepsInv(s, l);
    ReadingKnows(s, s.all[r]);
    KnowingLasts(Step(s, l), after, r);
    InvHolds(Step(s, l), after);
    if Live(RunAll(Step(s, l), after), r) {
      KnowingIsCoupled(RunAll(Step(s, l), after), r);
    }
  }

  lemma KnowingIsCoupled(s: Sys, r: nat)
    requires Inv(s) && Knows(s, r) && Live(s, r)
    ensures Coupled(s.all[r].st, s.incidents, s.all[r].target)
  {
    assert Fits(s.incidents, s.all[r]);
  }

  // ----- pausing is final -----

  /** No runner, no open incident, and nobody working on the target. */
  ghost predicate Quiet(s: Sys, id: int) {
    && id !in s.runners
    && (forall r: nat :: Live(s, r) ==> s.all[r].target.id != id)
    && !HasOpen(s.incidents, id)
    && OpId(s.op) != Some(id) && !s.op.Starting?
  }

  lemma ActKeepsQuiet(s: Sys, id: int, r: nat, a: Act)
    requires Inv(s) && Quiet(s, id) && Enabled(s, Work(r, a))
    ensures Quiet(Step(s, Work(r, a)), id)
  {
    hide RunnerAfter, IncidentsAfter, Fits, InFlight, CanAct;
    var s', x := Step(s, Work(r, a)), s.all[r];
    RunnerAfterFrame(s, x, a);
    assert Live(s, r) && Fits(s.incidents, x);
    ActFits(s, x, a);
    assert SameOpen(s.incidents, s'.incidents, id);
    assert forall i :: OpenRow(s'.incidents, i, id) ==> OpenRow(s.incidents, i, id);
    assert forall q: nat :: Live(s', q) ==> Live(s, q) && s'.all[q].target == s.all[q].target;
  }

  lemma MoveKeepsQuiet(s: Sys, id: int, l: Label)
    requires Quiet(s, id) && Enabled(s, l) && Moves(l)
    ensures Quiet(Step(s, l), id)
  {
    hide OpAfter, HasOpen;
    MovesStay(s, l);
    assert forall q: nat :: Live(Step(s, l), q) ==> Live(s, q);
  }

  predicate ChangesTable(l: Label) {
    l.Remail? || l.Prune? || l.ClosePaused? || l.DeleteRow?
  }

  lemma TableStepKeepsQuiet(s: Sys, id: int, l: Label)
    requires Quiet(s, id) && Enabled(s, l) && ChangesTable(l)
    ensures Quiet(Step(s, l), id)
  {
    var s' := Step(s, l);
    if l.Remail? {
      MarkedRows(s.incidents, l.incident, l.up);
    }
    assert s'.all == s.all && s'.runners == s.runners;
    assert forall i :: OpenRow(s'.incidents, i, id) ==> OpenRow(s.incidents, i, id);
    assert forall q: nat :: Live(s', q) ==> Live(s, q);
  }

  lemma OtherStepKeepsQuiet(s: Sys, id: int, l: Label)
    requires Quiet(s, id) && Enabled(s, l) && !ChangesTable(l) && !l.Work? && !Moves(l)
    requires !(l.BeginStop? && l.id == id)
    ensures Quiet(Step(s, l), id)
  {
    hide HasOpen;
    var s' := Step(s, l);
    assert s'.incidents == s.incidents;
    assert forall q: nat :: Live(s', q) && q < |s.all| ==> Live(s, q) && s'.all[q].target == s.all[q].target;
  }

  lemma StepKeepsQuiet(s: Sys, id: int, l: Label)
    requires Inv(s) && Quiet(s, id) && Enabled(s, l)
    requires !(l.BeginStop? && l.id == id)
    ensures Quiet(Step(s, l), id)
  {
    hide Inv, Quiet, Step, Enabled;
    if l.Work? {
      ActKeepsQuiet(s, id, l.runner, l.act);
    } else if Moves(l) {
      MoveKeepsQuiet(s, id, l);
    } else if ChangesTable(l) {
      TableStepKeepsQuiet(s, id, l);
    } else {
      OtherStepKeepsQuiet(s, id, l);
    }
  }

  ghost predicate NoStop(ls: seq<Label>, id: int) {
    forall i :: 0 <= i < |ls| ==> !(ls[i].BeginStop? && ls[i].id == id)
  }

  lemma {:induction false} QuietLasts(s: Sys, id: int, ls: seq<Label>)
    requires Inv(s) && Quiet(s, id) && Runnable(s, ls) && NoStop(ls, id)
    ensures Quiet(RunAll(s, ls), id)
    decreases |ls|
  {
    if ls != [] {
      hide Inv, Step, Enabled, Quiet;
      StepKeepsInv(s, ls[0]);
      StepKeepsQuiet(s, id, ls[0]);
      QuietLasts(Step(s, ls[0]), id, ls[1..]);
    }
  }

  /** When a Reload that read Paused returns nil, the target has no unfinished runner and no
      open incident, and stays that way until the next Reload or Delete of it, whatever the
      runners of before had still been writing. */
  lemma PausingIsFinal(s0: Sys, before: seq<Label>, now: int, after: seq<Label>)
    requires Init(s0) && Runnable(s0, before)
    requires RunAll(s0, before).op.ClosingPaused?
    requires Runnable(Step(RunAll(s0, before), ClosePaused(now, false)), after)
    requires NoStop(after, RunAll(s0, before).op.id)
    ensures var s := RunAll(s0, before);
            Quiet(RunAll(Step(s, ClosePaused(now, false)), after), s.op.id)
  {
    var s := RunAll(s0, before);
    assert Inv(s) by {
      InvReached(s0, before);
    }
    StepKeepsInv(s, ClosePaused(now, false));
    ClosePausedKeepsTable(s, now, false);
    NoRunner(s, s.op.id);
    assert Quiet(Step(s, ClosePaused(now, false)), s.op.id);
    QuietLasts(Step(s, ClosePaused(now, false)), s.op.id, after);
  }

  // ----- deleting is complete -----

  /** No runner, no statistics, no checks, and nobody about to start a runner. */
  ghost predicate Gone(s: Sys, id: int) {
    && id !in s.runners
    && (forall r: nat :: Live(s, r) ==> s.all[r].target.id != id)
    && id !in s.stats && id !in s.checked
    && !s.op.Starting?
    && !((s.op.Testing? || s.op.Spawning?) && s.op.target.id == id)
  }

  /** Once Delete has deleted the row, no check of the target comes back. */
  ghost predicate RowGone(s: Sys) {
    s.op.DroppingStats? ==> s.op.id !in s.checked
  }

  /** The step at which a Reload, or a Delete that failed, finds the target's row. */
  ghost predicate Finds(s: Sys, l: Label, id: int)
    requires Enabled(s, l)
  {
    (l.ReadTarget? || l.Reread?) && OpAfter(s, l).Testing? && OpAfter(s, l).target.id == id
  }

  lemma StepKeepsRowGone(s: Sys, l: Label)
    requires Inv(s) && RowGone(s) && Enabled(s, l)
    ensures RowGone(Step(s, l))
  {
    hide RunnerAfter, IncidentsAfter, TableOk, SlotsOk;
    if s.op.DroppingStats? && l.Work? {
      NoRunner(s, s.op.id);
      assert Live(s, l.runner);
    }
  }

  lemma {:induction false} RowGoneHolds(s: Sys, ls: seq<Label>)
    requires Inv(s) && RowGone(s) && Runnable(s, ls)
    ensures RowGone(RunAll(s, ls))
    decreases |ls|
  {
    if ls != [] {
      StepKeepsRowGone(s, ls[0]);
      hide Inv, Step, Enabled, RowGone;
      StepKeepsInv(s, ls[0]);
      RowGoneHolds(Step(s, ls[0]), ls[1..]);
    }
  }

  lemma ActKeepsGone(s: Sys, id: int, r: nat, a: Act)
    requires Gone(s, id) && Enabled(s, Work(r, a))
    ensures Gone(Step(s, Work(r, a)), id)
  {
    hide RunnerAfter, IncidentsAfter, CanAct;
    var s' := Step(s, Work(r, a));
    RunnerAfterFrame(s, s.all[r], a);
    assert Live(s, r);
    assert forall q: nat :: Live(s', q) ==> Live(s, q) && s'.all[q].target == s.all[q].target;
  }

  predicate TouchesRunner(l: Label) {
    l.Nudge? || l.Fire? || l.Cancel?
  }

  lemma TouchKeepsGone(s: Sys, id: int, l: Label)
    requires Gone(s, id) && Enabled(s, l) && TouchesRunner(l)
    ensures Gone(Step(s, l), id)
  {
    var s' := Step(s, l);
    assert forall q: nat :: Live(s', q) ==> Live(s, q) && s'.all[q].target == s.all[q].target;
  }

  lemma SpawnKeepsGone(s: Sys, id: int)
    requires Gone(s, id) && Enabled(s, Spawn)
    ensures Gone(Step(s, Spawn), id)
  {
    var s' := Step(s, Spawn);
    assert forall q: nat :: Live(s', q) && q < |s.all| ==> Live(s, q);
  }

  lemma PlainStepKeepsGone(s: Sys, id: int, l: Label)
    requires Gone(s, id) && Enabled(s, l) && !l.Work? && !Moves(l) && !TouchesRunner(l) && !l.Spawn?
    ensures Gone(Step(s, l), id)
  {
    var s' := Step(s, l);
    assert s'.all == s.all;
    assert forall q: nat :: Live(s', q) ==> Live(s, q);
  }

  lemma MoveKeepsGone(s: Sys, id: int, l: Label)
    requires Gone(s, id) && Enabled(s, l) && Moves(l) && !Finds(s, l, id)
    ensures Gone(Step(s, l), id)
  {
    MovesStay(s, l);
    assert forall q: nat :: Live(Step(s, l), q) ==> Live(s, q);
  }

  lemma StepKeepsGone(s: Sys, id: int, l: Label)
    requires Gone(s, id) && Enabled(s, l) && !Finds(s, l, id)
    ensures Gone(Step(s, l), id)
  {
    hide Step, Gone, Enabled, Moves;
    if l.Work? {
      ActKeepsGone(s, id, l.runner, l.act);
    } else if Moves(l) {
      MoveKeepsGone(s, id, l);
    } else if TouchesRunner(l) {
      TouchKeepsGone(s, id, l);
    } else if l.Spawn? {
      SpawnKeepsGone(s, id);
    } else {
      PlainStepKeepsGone(s, id, l);
    }
  }

  ghost predicate NeverFinds(s: Sys, ls: seq<Label>, id: int)
    requires Runnable(s, ls)
    decreases |ls|
  {
    ls == [] || (!Finds(s, ls[0], id) && NeverFinds(Step(s, ls[0]), ls[1..], id))
  }

  lemma {:induction false} GoneLasts(s: Sys, id: int, ls: seq<Label>)
    requires Gone(s, id) && Runnable(s, ls) && NeverFinds(s, ls, id)
    ensures Gone(RunAll(s, ls), id)
    decreases |ls|
  {
    if ls != [] {
      StepKeepsGone(s, id, ls[0]);
      GoneLasts(Step(s, ls[0]), id, ls[1..]);
    }
  }

  /** When Delete returns nil, the target has no runner, no entry in stats and no checks, and
      gets none until its row is found again. */
  lemma DeletingIsComplete(s0: Sys, before: seq<Label>, after: seq<Label>)
    requires Init(s0) && Runnable(s0, before)
    requires RunAll(s0, before).op.DroppingStats?
    requires Runnable(Step(RunAll(s0, before), DropStats), after)
    requires NeverFinds(Step(RunAll(s0, before), DropStats), after, RunAll(s0, before).op.id)
    ensures var s := RunAll(s0, before);
            Gone(RunAll(Step(s, DropStats), after), s.op.id)
  {
    var s := RunAll(s0, before);
    assert Inv(s) && RowGone(s) by {
      InvReached(s0, before);
      RowGoneHolds(s0, before);
    }
    NoRunner(s, s.op.id);
    GoneLasts(Step(s, DropStats), s.op.id, after);
  }

  // ----- stop returns -----

  /** The holder of ops is never stuck by itself: unless it waits for a runner, or in Wait
      for all of them, it has a step. */
  lemma HolderCanMove(s: Sys) returns (l: Label)
    requires Inv(s) && s.op != Free && s.op != Draining
    requires s.op.Awaiting? ==> s.all[s.op.runner].pc == Done
    ensures Enabled(s, l) && !Outside(l) && !l.Work?
  {
    match s.op {
      case Starting(_) => l := StartNext;
      case Cancelling(_, _, _) => l := Cancel;
      case Awaiting(_, _, _) => l := SeeDone;
      case Stopped(kind, _) => l := if kind == Reloading then ReadTarget(false) else DeleteRow(false);
      case ClosingPaused(_) => l := ClosePaused(0, false);
      case Rereading(_) => l := Reread(false);
      case Testing(_) => l := TestShutdown;
      case Spawning(_) => l := Spawn;
      case DroppingStats(_) => l := DropStats;
    }
  }

  /** An unfinished runner whose context has ended always has a step of its own. */
  lemma EndedCanAct(s: Sys, x: Runner) returns (a: Act)
    requires Ended(s, x) && x.pc != Done
    ensures CanAct(s, x, a)
  {
    match x.pc {
      case Restoring => a := ReadOpen(true);
      case Counting => a := ReadChecks(0, 0, "", false);
      case Idle => a := Exit;
      case WantSlot => a := GiveUp;
      case Checking => a := EndCheck(Obs(false, "", 0));
      case Judging => a := Judge;
      case Recording => a := Record;
      case Inserting => a := Insert(true);
      case Deciding =>
        var id := UnusedId(s.incidents);
        a := Decide(id, true);
      case Adopting => a := Adopt(true);
      case Mailing => a := Mail(false);
    }
  }

  /** No deadlock: in every reachable state, if a caller holds ops, it has a step, or a runner
      has one. Wait counts only once the manager is shut down. */
  lemma NobodyIsStuck(s0: Sys, ls: seq<Label>) returns (l: Label)
    requires Init(s0) && Runnable(s0, ls)
    requires var s := RunAll(s0, ls); s.op != Free && (s.op == Draining ==> s.shutdown)
    ensures Enabled(RunAll(s0, ls), l) && !Outside(l)
  {
    hide Runnable, RunAll, Init, CanAct, Inv;
    InvReached(s0, ls);
    l := FreeHand(RunAll(s0, ls));
  }

  lemma FreeHand(s: Sys) returns (l: Label)
    requires Inv(s) && s.op != Free && (s.op == Draining ==> s.shutdown)
    ensures Enabled(s, l) && !Outside(l)
  {
    hide CanAct, Inv;
    if s.op == Draining {
      if AllDone(s) {
        l := EndWait;
      } else {
        var r :| 0 <= r < |s.all| && s.all[r].pc != Done;
        var a := EndedCanAct(s, s.all[r]);
        l := Work(r, a);
      }
    } else if s.op.Awaiting? {
      AwaitedIsCancelled(s);
      if s.all[s.op.runner].pc != Done {
        var a := EndedCanAct(s, s.all[s.op.runner]);
        l := Work(s.op.runner, a);
      } else {
        l := HolderCanMove(s);
      }
    } else {
      l := HolderCanMove(s);
    }
  }

  /** How many steps a runner has left at most once its context has ended. Only in its select does
      the timer matter: a tick may take it through one more check. */
  function Left(x: Runner): nat {
    match x.pc
    case Idle => if x.armed || x.fired then 5 else 1
    case Recording => 5
    case WantSlot => 4
    case Inserting => 4
    case Restoring => 3
    case Checking => 3
    case Deciding => 3
    case Counting => 2
    case Judging => 2
    case Adopting => 2
    case Mailing => 2
    case Done => 0
  }

  lemma ActUsesUp(s: Sys, x: Runner, a: Act)
    requires Ended(s, x) && CanAct(s, x, a)
    ensures Left(RunnerAfter(s, x, a)) < Left(x)
  {
  }

  function StepsOf(ls: seq<Label>, r: nat): nat {
    if ls == [] then 0 else (if ls[0].Work? && ls[0].runner == r then 1 else 0) + StepsOf(ls[1..], r)
  }

  lemma StepUsesUp(s: Sys, l: Label)
    requires Inv(s) && Enabled(s, l) && s.op.Awaiting? && l != SeeDone
    ensures var r, s' := s.op.runner, Step(s, l);
            && s'.op == s.op && r < |s.all| && r < |s'.all|
            && Left(s'.all[r]) + (if l.Work? && l.runner == r then 1 else 0) <= Left(s.all[r])
  {
    hide RunnerAfter, IncidentsAfter, Left, TableOk, SlotsOk, LiveOk;
    var r := s.op.runner;
    if l.Work? && l.runner == r {
      ActUsesUp(s, s.all[r], l.act);
    } else if l == Fire(r) {
      FireUsesNothing(s.all[r]);
    }
  }

  lemma FireUsesNothing(x: Runner)
    requires x.armed
    ensures Left(x.(armed := false, fired := true)) == Left(x)
  {
  }

  lemma AwaitedIsCancelled(s: Sys)
    requires Inv(s) && s.op.Awaiting?
    ensures s.op.runner < |s.all| && s.all[s.op.runner].cancelled && Left(s.all[s.op.runner]) <= 5
  {
  }

  /** While a caller waits in stop, the cancelled runner makes at most Left(x) <= 5 more
      steps, whatever others do meanwhile; until it is done it always has one (EndedCanAct),
      and then the caller has one (HolderCanMove). */
  lemma {:induction false} StopReturns(s: Sys, ls: seq<Label>)
    requires Inv(s) && Runnable(s, ls) && s.op.Awaiting?
    requires forall i :: 0 <= i < |ls| ==> ls[i] != SeeDone
    ensures var r, s' := s.op.runner, RunAll(s, ls);
            && s'.op == s.op && r < |s.all| && r < |s'.all|
            && StepsOf(ls, r) + Left(s'.all[r]) <= Left(s.all[r]) <= 5
            && Ended(s', s'.all[r])
    decreases |ls|
  {
    hide Inv, Step, Enabled, Left;
    AwaitedIsCancelled(s);
    if ls != [] {
      StepUsesUp(s, ls[0]);
      StepKeepsInv(s, ls[0]);
      StopReturns(Step(s, ls[0]), ls[1..]);
    }
  }

  // ----- Wait returns -----

  function TotalLeft(all: seq<Runner>): nat {
    if all == [] then 0 else TotalLeft(all[..|all| - 1]) + Left(all[|all| - 1])
  }

  lemma {:induction false} TotalUpdate(all: seq<Runner>, r: nat, x: Runner)
    requires r < |all|
    ensures TotalLeft(all[r := x]) == TotalLeft(all) - Left(all[r]) + Left(x)
  {
    hide Left;
    var n := |all| - 1;
    if r < n {
      TotalUpdate(all[..n], r, x);
      assert all[r := x][..n] == all[..n][r := x];
    } else {
      assert all[r := x][..n] == all[..n];
    }
  }

  /** The steps of runners, and the nudges, among some labels. */
  function Works(ls: seq<Label>): nat {
    if ls == [] then 0 else (if ls[0].Work? then 1 else 0) + Works(ls[1..])
  }

  function Nudges(ls: seq<Label>): nat {
    if ls == [] then 0 else (if ls[0].Nudge? then 1 else 0) + Nudges(ls[1..])
  }

  lemma NudgeAdds(s: Sys, id: int)
    requires Enabled(s, Nudge(id))
    ensures TotalLeft(Step(s, Nudge(id)).all) <= TotalLeft(s.all) + 3
  {
    var r := s.runners[id];
    TotalUpdate(s.all, r, s.all[r].(pc := WantSlot, armed := false, fired := false));
  }

  lemma WorkLowers(s: Sys, r: nat, a: Act)
    requires s.shutdown && Enabled(s, Work(r, a))
    ensures TotalLeft(Step(s, Work(r, a)).all) < TotalLeft(s.all)
  {
    hide Left, RunnerAfter, IncidentsAfter, CanAct, TotalLeft;
    ActUsesUp(s, s.all[r], a);
    TotalUpdate(s.all, r, RunnerAfter(s, s.all[r], a));
  }

  lemma FireKeeps(s: Sys, r: nat)
    requires Enabled(s, Fire(r))
    ensures TotalLeft(Step(s, Fire(r)).all) == TotalLeft(s.all)
  {
    hide Left, TotalLeft;
    FireUsesNothing(s.all[r]);
    TotalUpdate(s.all, r, s.all[r].(armed := false, fired := true));
  }

  lemma DrainingStep(s: Sys, l: Label)
    requires Enabled(s, l) && s.op == Draining && s.shutdown && l != EndWait
    ensures var s' := Step(s, l);
            && s'.op == Draining && s'.shutdown
            && TotalLeft(s'.all) + (if l.Work? then 1 else 0) <= TotalLeft(s.all) + (if l.Nudge? then 3 else 0)
  {
    hide TotalLeft, RunnerAfter, IncidentsAfter, CanAct;
    match l {
      case Work(r, a) => WorkLowers(s, r, a);
      case Fire(r) => FireKeeps(s, r);
      case Nudge(id) => NudgeAdds(s, id);
      case _ =>
    }
  }

  /** While a caller waits in Wait on a cancelled manager, the runners together make no more steps
      than they have left, and three more for each nudge that still gets through. */
  lemma {:induction false} WaitReturns(s: Sys, ls: seq<Label>)
    requires Runnable(s, ls) && s.op == Draining && s.shutdown
    requires forall i :: 0 <= i < |ls| ==> ls[i] != EndWait
    ensures RunAll(s, ls).op == Draining
    ensures Works(ls) + TotalLeft(RunAll(s, ls).all) <= TotalLeft(s.all) + 3 * Nudges(ls)
    ensures TotalLeft(s.all) <= 5 * |s.all|
    decreases |ls|
  {
    hide Step, Enabled, TotalLeft;
    TotalBound(s.all);
    if ls != [] {
      DrainingStep(s, ls[0]);
      WaitReturns(Step(s, ls[0]), ls[1..]);
    }
  }

  lemma {:induction false} TotalBound(all: seq<Runner>)
    ensures TotalLeft(all) <= 5 * |all|
  {
    if all != [] {
      TotalBound(all[..|all| - 1]);
    }
  }

  // ----- shutdown -----

  /** After Wait returned on a cancelled manager, no runner runs, and none ever will. */
  ghost predicate Drained(s: Sys) {
    s.shutdown && AllDone(s) && !s.op.Spawning? && !s.op.Starting?
  }

  lemma StepKeepsDrained(s: Sys, l: Label)
    requires Drained(s) && Enabled(s, l)
    ensures Drained(Step(s, l))
  {
    hide RunnerAfter, IncidentsAfter;
    if l.Work? {
      RunnerAfterFrame(s, s.all[l.runner], l.act);
    }
  }

  lemma ShutdownIsFinal(s0: Sys, before: seq<Label>, after: seq<Label>)
    requires Init(s0) && Runnable(s0, before)
    requires Enabled(RunAll(s0, before), EndWait) && RunAll(s0, before).shutdown
    requires Runnable(Step(RunAll(s0, before), EndWait), after)
    ensures Drained(RunAll(Step(RunAll(s0, before), EndWait), after))
  {
    DrainedLasts(Step(RunAll(s0, before), EndWait), after);
  }

  lemma {:induction false} DrainedLasts(s: Sys, ls: seq<Label>)
    requires Drained(s) && Runnable(s, ls)
    ensures Drained(RunAll(s, ls))
    decreases |ls|
  {
    if ls != [] {
      StepKeepsDrained(s, ls[0]);
      hide Step, Enabled, Drained;
      DrainedLasts(Step(s, ls[0]), ls[1..]);
    }
  }
}

/** What the manager makes happen (internal/monitor/scheduler.go): which runners there must be after
    Start, Reload and Delete, and that a runner that is called goes on to a check. */
module RunnerProgress {
  import opened Base
  import opened Lifecycle
  import opened Tables
  import opened Monitor
  import opened RunnerProtocol
  import opened RunnerSafety
  import RunnerTheorems

  /** Steps of anyone but the holder of ops. */
  predicate Others(l: Label) {
    Outside(l) || l.Work?
  }

  lemma OthersKeepOp(s: Sys, l: Label)
    requires Enabled(s, l) && Others(l)
    ensures Step(s, l).op == s.op
  {
  }

  function HolderSteps(ls: seq<Label>): nat {
    if ls == [] then 0 else (if Others(ls[0]) then 0 else 1) + HolderSteps(ls[1..])
  }

  // ----- Reload and Delete, once the old runner is gone -----

  /** What the holder of ops meets: whether the row can be deleted, and what it reads. */
  datatype Case =
    | Reloads(id: int, row: TargetRow)
    | Deletes(id: int)
    | CannotDelete(id: int, row: TargetRow)

  /** Where its program counter goes from there, until it returns. */
  function Path(c: Case): seq<Op> {
    match c
    case Reloads(id, row) =>
      [Stopped(Reloading, id)] + Ending(id, row)
    case Deletes(id) =>
      [Stopped(Deleting, id), DroppingStats(id)]
    case CannotDelete(id, row) =>
      [Stopped(Deleting, id), Rereading(id)] + if row.paused then [] else Ending(id, row)
  }

  function Ending(id: int, row: TargetRow): seq<Op> {
    if row.paused then [ClosingPaused(id)]
    else [Testing(Target(id, row.threshold)), Spawning(Target(id, row.threshold))]
  }

  /** The step is one of others, or goes as the case says, and the manager is not shut down when
      that is asked. */
  ghost predicate Meets(s: Sys, l: Label, c: Case) {
    || Others(l)
    || (match l
        case ReadTarget(fail) => c.Reloads? && !fail && c.id in s.targets && s.targets[c.id] == c.row
        case Reread(fail) => c.CannotDelete? && !fail && c.id in s.targets && s.targets[c.id] == c.row
        case DeleteRow(fail) => if c.Deletes? then !fail && c.id in s.targets else c.CannotDelete? && fail
        case ClosePaused(_, fail) => !fail
        case TestShutdown => !s.shutdown
        case Spawn => true
        case DropStats => true
        case _ => false)
  }

  ghost predicate MeetsAll(s: Sys, ls: seq<Label>, c: Case)
    requires Runnable(s, ls)
    decreases |ls|
  {
    ls == [] || (Meets(s, ls[0], c) && MeetsAll(Step(s, ls[0]), ls[1..], c))
  }

  lemma GoesOn(s: Sys, l: Label, c: Case, k: nat)
    requires k + 1 < |Path(c)| && s.op == Path(c)[k] && Enabled(s, l) && Meets(s, l, c) && !Others(l)
    ensures Step(s, l).op == Path(c)[k + 1]
  {
  }

  /** The holder follows its path one step at a time, whatever others do in between. */
  lemma {:induction false} FollowsPath(s: Sys, ls: seq<Label>, c: Case, k: nat)
    requires Runnable(s, ls) && MeetsAll(s, ls, c)
    requires k + HolderSteps(ls) < |Path(c)| && s.op == Path(c)[k]
    ensures RunAll(s, ls).op == Path(c)[k + HolderSteps(ls)]
    decreases |ls|
  {
    hide Step, Enabled, Meets, Path, Others;
    if ls != [] {
      if Others(ls[0]) {
        OthersKeepOp(s, ls[0]);
        FollowsPath(Step(s, ls[0]), ls[1..], c, k);
      } else {
        GoesOn(s, ls[0], c, k);
        FollowsPath(Step(s, ls[0]), ls[1..], c, k + 1);
      }
    }
  }

  lemma NobodyReturnsEarly(c: Case, k: nat)
    requires k < |Path(c)|
    ensures Path(c)[k] != Free
  {
  }

  /** The target has an unfinished runner in runners, with the threshold of its row. */
  ghost predicate HasRunner(s: Sys, id: int, threshold: nat) {
    id in s.runners && Live(s, s.runners[id]) && s.all[s.runners[id]].target == Target(id, threshold)
  }

  lemma SpawnStarts(s: Sys, l: Label, id: int, threshold: nat)
    requires s.op == Spawning(Target(id, threshold)) && Enabled(s, l) && !Others(l)
    ensures Step(s, l).op == Free && HasRunner(Step(s, l), id, threshold)
  {
  }

  lemma PauseCloses(s: Sys, l: Label, id: int)
    requires s.op == ClosingPaused(id) && Enabled(s, l) && !Others(l) && l.ClosePaused? && !l.fail
    ensures Step(s, l).op == Free && !HasOpen(Step(s, l).incidents, id)
  {
  }

  /** Reload of a target that is not paused does not return before it has started a runner: with the
      row read, and no shutdown when that is asked, it has made two steps and is about to, and the
      third one starts it, with the row's threshold. Others take any steps meanwhile. */
  lemma ReloadStarts(s: Sys, id: int, row: TargetRow, ls: seq<Label>)
    requires s.op == Stopped(Reloading, id) && !row.paused
    requires Runnable(s, ls) && MeetsAll(s, ls, Reloads(id, row)) && HolderSteps(ls) <= 2
    ensures RunAll(s, ls).op != Free
    ensures forall l :: HolderSteps(ls) == 2 && Enabled(RunAll(s, ls), l) && !Others(l) ==>
              Step(RunAll(s, ls), l).op == Free && HasRunner(Step(RunAll(s, ls), l), id, row.threshold)
  {
    hide Enabled, Step, Runnable, RunAll, MeetsAll, HasRunner, Others;
    var c := Reloads(id, row);
    FollowsPath(s, ls, c, 0);
    var t := RunAll(s, ls);
    forall l | HolderSteps(ls) == 2 && Enabled(t, l) && !Others(l)
      ensures Step(t, l).op == Free && HasRunner(Step(t, l), id, row.threshold)
    {
      SpawnStarts(t, l, id, row.threshold);
    }
  }

  /** Reload of a paused target does not return before it has closed its incident. */
  lemma ReloadPauses(s: Sys, id: int, row: TargetRow, ls: seq<Label>)
    requires s.op == Stopped(Reloading, id) && row.paused
    requires Runnable(s, ls) && MeetsAll(s, ls, Reloads(id, row)) && HolderSteps(ls) <= 1
    ensures RunAll(s, ls).op != Free
    ensures HolderSteps(ls) == 1 ==> RunAll(s, ls).op == ClosingPaused(id)
    ensures forall l :: HolderSteps(ls) == 1 && Enabled(RunAll(s, ls), l) && !Others(l) && l.ClosePaused? && !l.fail ==>
              Step(RunAll(s, ls), l).op == Free && !HasOpen(Step(RunAll(s, ls), l).incidents, id)
  {
    hide Enabled, Step, Runnable, RunAll, MeetsAll, HasOpen, Others;
    var c := Reloads(id, row);
    FollowsPath(s, ls, c, 0);
    var t := RunAll(s, ls);
    forall l | HolderSteps(ls) == 1 && Enabled(t, l) && !Others(l) && l.ClosePaused? && !l.fail
      ensures Step(t, l).op == Free && !HasOpen(Step(t, l).incidents, id)
    {
      PauseCloses(t, l, id);
    }
  }

  lemma DeletesRow(s: Sys, l: Label, id: int)
    requires s.op == Stopped(Deleting, id) && Enabled(s, l) && Meets(s, l, Deletes(id)) && !Others(l)
    ensures var t := Step(s, l);
            && t.op == DroppingStats(id) && t.targets == s.targets - {id} && id !in t.checked
            && (forall i :: i in t.incidents <==> i in s.incidents && s.incidents[i].target != id)
            && (forall i :: i in t.incidents ==> t.incidents[i] == s.incidents[i])
  {
  }

  lemma DropsStats(s: Sys, l: Label, id: int)
    requires s.op == DroppingStats(id) && Enabled(s, l) && !Others(l)
    ensures Step(s, l).op == Free && Step(s, l).stats == s.stats - {id}
  {
  }

  /** Delete deletes the target with its rows in its first step and returns in its second, which
      drops the statistics; not before. */
  lemma DeleteDrops(s: Sys, id: int, ls: seq<Label>)
    requires s.op == Stopped(Deleting, id)
    requires Runnable(s, ls) && MeetsAll(s, ls, Deletes(id)) && HolderSteps(ls) <= 1
    ensures RunAll(s, ls).op != Free
    ensures HolderSteps(ls) == 1 ==> RunAll(s, ls).op == DroppingStats(id)
    ensures forall l :: HolderSteps(ls) == 1 && Enabled(RunAll(s, ls), l) && !Others(l) ==>
              Step(RunAll(s, ls), l).op == Free && Step(RunAll(s, ls), l).stats == RunAll(s, ls).stats - {id}
  {
    hide Enabled, Step, Runnable, RunAll, MeetsAll, Others;
    FollowsPath(s, ls, Deletes(id), 0);
    var t := RunAll(s, ls);
    forall l | HolderSteps(ls) == 1 && Enabled(t, l) && !Others(l)
      ensures Step(t, l).op == Free && Step(t, l).stats == t.stats - {id}
    {
      DropsStats(t, l, id);
    }
  }

  /** When the row cannot be deleted, but can be read, is not paused, and the manager is not shut
      down: Delete does not return before it has started a runner again, in its fourth step. */
  lemma FailedDeleteRestarts(s: Sys, id: int, row: TargetRow, ls: seq<Label>)
    requires s.op == Stopped(Deleting, id) && !row.paused
    requires Runnable(s, ls) && MeetsAll(s, ls, CannotDelete(id, row)) && HolderSteps(ls) <= 3
    ensures RunAll(s, ls).op != Free
    ensures forall l :: HolderSteps(ls) == 3 && Enabled(RunAll(s, ls), l) && !Others(l) ==>
              Step(RunAll(s, ls), l).op == Free && HasRunner(Step(RunAll(s, ls), l), id, row.threshold)
  {
    hide Enabled, Step, Runnable, RunAll, MeetsAll, HasRunner, Others;
    FollowsPath(s, ls, CannotDelete(id, row), 0);
    var t := RunAll(s, ls);
    forall l | HolderSteps(ls) == 3 && Enabled(t, l) && !Others(l)
      ensures Step(t, l).op == Free && HasRunner(Step(t, l), id, row.threshold)
    {
      SpawnStarts(t, l, id, row.threshold);
    }
  }

  /** A Reload or a failed Delete that cannot read the row, or finds none, or comes after the shutdown,
      returns and changes nothing; so do a failed Delete of a paused target and one of no target. */
  lemma ReloadGivesUp(s: Sys, l: Label)
    requires Enabled(s, l)
    requires || (l.ReadTarget? && (l.fail || s.op.id !in s.targets))
             || (l == TestShutdown && s.shutdown)
             || (l.DeleteRow? && !l.fail && s.op.id !in s.targets)
             || (l.Reread? && (l.fail || s.op.id !in s.targets || s.targets[s.op.id].paused))
    ensures Step(s, l) == s.(op := Free)
  {
  }

  /** When nobody holds ops, any call gets in; Wait returns exactly when every runner is done. */
  lemma CallersGetIn(s: Sys, kind: Kind, id: int)
    requires s.op == Free
    ensures Enabled(s, BeginStop(kind, id)) && Enabled(s, BeginWait) && Step(s, BeginWait) == s.(op := Draining)
    ensures Enabled(Step(s, BeginWait), EndWait) <==> forall r :: 0 <= r < |s.all| ==> s.all[r].pc == Done
    ensures Enabled(Step(s, BeginWait), EndWait) ==> Step(Step(s, BeginWait), EndWait) == s
  {
  }

  // ----- Start -----

  /** t has the runner that Start made for it; it ends only with the manager. */
  ghost predicate Under(s: Sys, t: Target) {
    && t.id in s.runners && s.runners[t.id] < |s.all|
    && s.all[s.runners[t.id]].target == t && (s.all[s.runners[t.id]].pc == Done ==> s.shutdown)
  }

  /** Start has made runners for the first n targets and has the others to do. */
  ghost predicate StartedTo(s: Sys, todo: seq<Target>, n: nat) {
    && n <= |todo| && (s.op == Starting(todo[n..]) || (s.op == Free && n == |todo|))
    && forall i :: 0 <= i < n ==> Under(s, todo[i])
  }

  lemma OthersKeepUnder(s: Sys, l: Label, t: Target)
    requires Inv(s) && Enabled(s, l) && Others(l) && Under(s, t)
    ensures Under(Step(s, l), t)
  {
    if l.Work? {
      hide RunnerAfter, IncidentsAfter, CanAct;
      RunnerAfterFrame(s, s.all[l.runner], l.act);
      if l.runner == s.runners[t.id] && !s.shutdown {
        OnlyEndedExit(s, s.all[l.runner], l.act);
      }
    }
  }

  lemma OnlyEndedExit(s: Sys, x: Runner, a: Act)
    requires CanAct(s, x, a) && !Ended(s, x)
    ensures RunnerAfter(s, x, a).pc != Done
  {
  }

  lemma StartNextStarts(s: Sys, todo: seq<Target>, n: nat)
    requires Inv(s) && StartedTo(s, todo, n) && s.op.Starting?
    requires forall i, j :: 0 <= i < j < |todo| ==> todo[i].id != todo[j].id
    ensures StartedTo(Step(s, StartNext), todo, if n < |todo| then n + 1 else n)
    ensures Step(s, StartNext).op == Free <==> n == |todo|
  {
    var t := Step(s, StartNext);
    if n < |todo| {
      assert todo[n..][1..] == todo[n + 1..];
      forall i | 0 <= i < n + 1 ensures Under(t, todo[i]) {
        assert i < n ==> Under(s, todo[i]);
      }
    }
  }

  lemma {:induction false} StartFollows(s: Sys, todo: seq<Target>, n: nat, ls: seq<Label>)
    requires Inv(s) && Runnable(s, ls) && StartedTo(s, todo, n)
    requires forall i, j :: 0 <= i < j < |todo| ==> todo[i].id != todo[j].id
    requires forall i :: 0 <= i < |ls| ==> Others(ls[i]) || ls[i] == StartNext
    ensures var steps := n + HolderSteps(ls);
            && StartedTo(RunAll(s, ls), todo, if steps < |todo| then steps else |todo|)
            && (RunAll(s, ls).op == Free <==> s.op == Free || steps > |todo|)
    decreases |ls|
  {
    hide Inv, StartedTo, Others, Step, Enabled;
    StartedOp(s, todo, n);
    if ls != [] {
      var t := Step(s, ls[0]);
      StepKeepsInv(s, ls[0]);
      if Others(ls[0]) {
        OthersKeepOp(s, ls[0]);
        OthersKeepStarted(s, ls[0], todo, n);
        StartFollows(t, todo, n, ls[1..]);
      } else {
        NextIsHolder(s);
        StartNextStarts(s, todo, n);
        StartedOp(t, todo, if n < |todo| then n + 1 else n);
        StartFollows(t, todo, if n < |todo| then n + 1 else n, ls[1..]);
      }
    }
  }

  lemma StartedOp(s: Sys, todo: seq<Target>, n: nat)
    requires StartedTo(s, todo, n)
    ensures n <= |todo| && (s.op.Starting? || (s.op == Free && n == |todo|))
  {
  }

  lemma OthersKeepStarted(s: Sys, l: Label, todo: seq<Target>, n: nat)
    requires Inv(s) && Enabled(s, l) && Others(l) && StartedTo(s, todo, n)
    ensures StartedTo(Step(s, l), todo, n)
  {
    hide Inv, Under, Others, Step, Enabled;
    OthersKeepOp(s, l);
    forall i | 0 <= i < n ensures Under(Step(s, l), todo[i]) {
      OthersKeepUnder(s, l, todo[i]);
    }
  }

  lemma NextIsHolder(s: Sys)
    ensures !Others(StartNext) && (Enabled(s, StartNext) ==> s.op.Starting?)
  {
  }

  /** Start returns after one step for each target it has read and one more, and then each of them
      has a runner in runners, with its threshold, that ends only if the manager is shut down.
      Others take any steps meanwhile. */
  lemma StartStartsAll(s0: Sys, ls: seq<Label>)
    requires Init(s0) && Runnable(s0, ls)
    requires forall i :: 0 <= i < |ls| ==> Others(ls[i]) || ls[i] == StartNext
    ensures RunAll(s0, ls).op == Free <==> HolderSteps(ls) > |s0.op.todo|
    ensures RunAll(s0, ls).op == Free ==> forall i :: 0 <= i < |s0.op.todo| ==> Under(RunAll(s0, ls), s0.op.todo[i])
  {
    hide Inv, Under, Others, Step;
    RunnerTheorems.InvReached(s0, []);
    hide Runnable, RunAll;
    assert s0.op.todo[0..] == s0.op.todo;
    StartFollows(s0, s0.op.todo, 0, ls);
  }

  // ----- a runner that is called goes on to a check -----

  /** CheckNow on an idle runner: the nudge is taken, the timer no longer matters. */
  lemma NudgeCalls(s: Sys, id: int)
    requires Enabled(s, Nudge(id))
    ensures var r, t := s.runners[id], Step(s, Nudge(id));
            && t.all[r].pc == WantSlot && t.all[r].st == s.all[r].st && t.all[r].target == s.all[r].target
            && !t.all[r].armed && !t.all[r].fired
  {
  }

  lemma TickCalls(s: Sys, x: Runner)
    requires CanAct(s, x, Tick)
    ensures RunnerAfter(s, x, Tick) == x.(pc := WantSlot, armed := false, fired := false)
  {
  }

  /** Until it takes a step itself, a runner that wants a slot goes on wanting it. */
  lemma OthersLetItWait(s: Sys, l: Label, r: nat)
    requires r < |s.all| && s.all[r].pc == WantSlot && Enabled(s, l) && !(l.Work? && l.runner == r)
    ensures var t := Step(s, l); r < |t.all| && t.all[r].pc == WantSlot && t.all[r].st == s.all[r].st && t.all[r].target == s.all[r].target
  {
    hide RunnerAfter, IncidentsAfter;
  }

  lemma WaitsForSlot(s: Sys, r: nat, a: Act)
    requires r < |s.all| && s.all[r].pc == WantSlot && CanAct(s, s.all[r], a)
    ensures a == Acquire || (a == GiveUp && Ended(s, s.all[r]))
    ensures a == Acquire ==> RunnerAfter(s, s.all[r], a) == s.all[r].(pc := Checking)
  {
  }

  /** A runner that wants a slot takes no step but the one into the check, unless its context has
      ended; that step is possible whenever a slot is free. */
  lemma {:induction false} CalledRunnerChecks(s: Sys, ls: seq<Label>, r: nat)
    requires Runnable(s, ls) && r < |s.all| && s.all[r].pc == WantSlot
    requires forall i :: 0 <= i < |ls| ==> !(ls[i].Work? && ls[i].runner == r)
    ensures var t := RunAll(s, ls);
            && r < |t.all| && t.all[r].pc == WantSlot && t.all[r].st == s.all[r].st && t.all[r].target == s.all[r].target
            && (forall a :: Enabled(t, Work(r, a)) ==>
                  || (a == Acquire && Step(t, Work(r, a)).all[r] == t.all[r].(pc := Checking))
                  || (a == GiveUp && Ended(t, t.all[r])))
            && (t.sem < 8 ==> Enabled(t, Work(r, Acquire)))
    decreases |ls|
  {
    if ls != [] {
      hide Step, Enabled;
      OthersLetItWait(s, ls[0], r);
      CalledRunnerChecks(Step(s, ls[0]), ls[1..], r);
    } else {
      hide RunnerAfter, IncidentsAfter;
      forall a | CanAct(s, s.all[r], a)
        ensures a == Acquire || (a == GiveUp && Ended(s, s.all[r]))
        ensures a == Acquire ==> RunnerAfter(s, s.all[r], a) == s.all[r].(pc := Checking)
      {
        WaitsForSlot(s, r, a);
      }
    }
  }

  // ----- stop -----

  /** The holder of ops stops runner r of a target: before cancel, waiting for done, or finished. */
  ghost predicate StopAt(s: Sys, kind: Kind, id: int, r: nat, k: nat) {
    && r < |s.all|
    && match k
       case 0 => s.op == Cancelling(kind, id, r)
       case 1 => s.op == Awaiting(kind, id, r) && s.all[r].cancelled
       case 2 => s.op == Stopped(kind, id) && s.all[r].cancelled && s.all[r].pc == Done
       case _ => false
  }

  lemma StopStep(s: Sys, l: Label, kind: Kind, id: int, r: nat, k: nat)
    requires StopAt(s, kind, id, r, k) && Enabled(s, l) && !Others(l) && k < 2
    ensures StopAt(Step(s, l), kind, id, r, k + 1)
  {
  }

  lemma StopWaits(s: Sys, l: Label, kind: Kind, id: int, r: nat, k: nat)
    requires StopAt(s, kind, id, r, k) && Enabled(s, l) && Others(l)
    ensures StopAt(Step(s, l), kind, id, r, k)
  {
    OthersKeepOp(s, l);
    OthersKeepDone(s, l, r);
    hide Step, Enabled, Others;
  }

  /** Nobody else takes back a cancel, and who is done stays done. */
  lemma OthersKeepDone(s: Sys, l: Label, r: nat)
    requires r < |s.all| && Enabled(s, l) && Others(l)
    ensures var t := Step(s, l);
            && r < |t.all| && (s.all[r].cancelled ==> t.all[r].cancelled)
            && (s.all[r].pc == Done ==> t.all[r].pc == Done || (l.Work? && l.runner == r))
    ensures l.Work? && l.runner == r ==> s.all[r].pc != Done
  {
    if l.Work? {
      hide RunnerAfter, IncidentsAfter, CanAct;
      RunnerAfterFrame(s, s.all[l.runner], l.act);
      DoneIsDone(s, s.all[l.runner], l.act);
    }
  }

  lemma DoneIsDone(s: Sys, x: Runner, a: Act)
    ensures x.pc == Done ==> !CanAct(s, x, a)
  {
  }

  lemma {:induction false} StopGoesOn(s: Sys, ls: seq<Label>, kind: Kind, id: int, r: nat, k: nat)
    requires Runnable(s, ls) && StopAt(s, kind, id, r, k) && k + HolderSteps(ls) <= 2
    ensures StopAt(RunAll(s, ls), kind, id, r, k + HolderSteps(ls))
    decreases |ls|
  {
    hide Step, Enabled, StopAt, Others;
    if ls != [] {
      if Others(ls[0]) {
        StopWaits(s, ls[0], kind, id, r, k);
      } else {
        StopStep(s, ls[0], kind, id, r, k);
      }
      StopGoesOn(Step(s, ls[0]), ls[1..], kind, id, r, if Others(ls[0]) then k else k + 1);
    }
  }

  /** Reload and Delete take the runner of their target out of runners. Two steps later, however
      long others keep them waiting, that runner is cancelled and done, and they go on; without a
      runner they go on at once. */
  lemma StopStops(s: Sys, kind: Kind, id: int, ls: seq<Label>)
    requires Enabled(s, BeginStop(kind, id)) && Runnable(Step(s, BeginStop(kind, id)), ls)
    requires id in s.runners ==> s.runners[id] < |s.all|
    requires HolderSteps(ls) <= if id in s.runners then 2 else 0
    ensures id !in Step(s, BeginStop(kind, id)).runners
    ensures var t := RunAll(Step(s, BeginStop(kind, id)), ls);
            if id in s.runners then StopAt(t, kind, id, s.runners[id], HolderSteps(ls)) else t.op == Stopped(kind, id)
  {
    hide StopAt, Others;
    var u := Step(s, BeginStop(kind, id));
    hide Step, Enabled, Runnable, RunAll;
    if id in s.runners {
      StopBegins(s, kind, id);
      StopGoesOn(u, ls, kind, id, s.runners[id], 0);
    } else {
      StaysPut(u, ls);
    }
  }

  lemma StopBegins(s: Sys, kind: Kind, id: int)
    requires Enabled(s, BeginStop(kind, id)) && id in s.runners && s.runners[id] < |s.all|
    ensures StopAt(Step(s, BeginStop(kind, id)), kind, id, s.runners[id], 0)
  {
  }

  lemma {:induction false} StaysPut(s: Sys, ls: seq<Label>)
    requires Runnable(s, ls) && HolderSteps(ls) == 0
    ensures RunAll(s, ls).op == s.op
    decreases |ls|
  {
    hide Step, Enabled, Others;
    if ls != [] {
      OthersKeepOp(s, ls[0]);
      StaysPut(Step(s, ls[0]), ls[1..]);
    }
  }

  // ----- nobody sleeps for ever -----

  /** An idle runner that is not to end has its timer running or its tick waiting. */
  ghost predicate Awake(s: Sys, r: nat) {
    r < |s.all| && s.all[r].pc == Idle ==> Ended(s, s.all[r]) || s.all[r].armed || s.all[r].fired
  }

  lemma StepKeepsAwake(s: Sys, l: Label, r: nat)
    requires Enabled(s, l) && Awake(s, r)
    ensures Awake(Step(s, l), r)
  {
    if l.Work? {
      hide IncidentsAfter, RunnerAfter, CanAct;
      ActKeepsAwake(s, s.all[l.runner], l.act);
    }
  }

  lemma ActKeepsAwake(s: Sys, x: Runner, a: Act)
    requires CanAct(s, x, a)
    ensures var y := RunnerAfter(s, x, a); y.pc == Idle ==> y.cancelled || s.shutdown || y.armed
  {
  }

  lemma {:induction false} RunKeepsAwake(s: Sys, ls: seq<Label>, r: nat)
    requires Runnable(s, ls) && Awake(s, r)
    ensures Awake(RunAll(s, ls), r)
    decreases |ls|
  {
    hide Step, Enabled, Awake;
    if ls != [] {
      StepKeepsAwake(s, ls[0], r);
      RunKeepsAwake(Step(s, ls[0]), ls[1..], r);
    }
  }

  /** In every reachable state an idle runner can exit, can take its tick, or gets one as soon as its
      timer fires; and CheckNow can reach it while it is the one in runners. */
  lemma NobodySleepsForever(s0: Sys, ls: seq<Label>, r: nat)
    requires Init(s0) && Runnable(s0, ls) && r < |RunAll(s0, ls).all| && RunAll(s0, ls).all[r].pc == Idle
    ensures var t := RunAll(s0, ls);
            || Enabled(t, Work(r, Exit))
            || Enabled(t, Work(r, Tick))
            || (Enabled(t, Fire(r)) && Enabled(Step(t, Fire(r)), Work(r, Tick)))
    ensures var t := RunAll(s0, ls); forall id :: id in t.runners && t.runners[id] == r ==> Enabled(t, Nudge(id))
  {
    hide Runnable, RunAll;
    RunKeepsAwake(s0, ls, r);
  }

  /** No timer runs outside the select. */
  ghost predicate Untimed(s: Sys, r: nat) {
    r < |s.all| && (s.all[r].armed || s.all[r].fired) ==> s.all[r].pc == Idle || s.all[r].pc == Done
  }

  lemma StepKeepsUntimed(s: Sys, l: Label, r: nat)
    requires Enabled(s, l) && Untimed(s, r)
    ensures Untimed(Step(s, l), r)
  {
    if l.Work? {
      hide IncidentsAfter, RunnerAfter, CanAct;
      if l.runner == r {
        ActKeepsUntimed(s, s.all[r], l.act);
      }
    }
  }

  lemma ActKeepsUntimed(s: Sys, x: Runner, a: Act)
    requires CanAct(s, x, a) && (x.armed || x.fired ==> x.pc == Idle || x.pc == Done)
    ensures var y := RunnerAfter(s, x, a); y.armed || y.fired ==> y.pc == Idle || y.pc == Done
  {
  }

  /** In every interleaving, from the start of a runner on, its timer is off while it restores, waits
      for a slot, checks or decides, and no tick comes late. */
  lemma {:induction false} TimersRunInSelect(s: Sys, ls: seq<Label>, r: nat)
    requires Runnable(s, ls) && Untimed(s, r)
    ensures Untimed(RunAll(s, ls), r)
    decreases |ls|
  {
    hide Step, Enabled, Untimed;
    if ls != [] {
      StepKeepsUntimed(s, ls[0], r);
      TimersRunInSelect(Step(s, ls[0]), ls[1..], r);
    }
  }

  // ----- what others do -----

  /** After a shutdown no runner is started but those whose start was under way, and every runner is
      to end. */
  lemma ShutdownStopsStarting(s: Sys, ls: seq<Label>)
    requires Runnable(s, [Shutdown] + ls)
    ensures var t := RunAll(s, [Shutdown] + ls);
            && |t.all| <= |s.all| + ToCome(s.op)
            && t.shutdown && forall r :: 0 <= r < |t.all| ==> Ended(t, t.all[r])
  {
    hide Runnable, RunAll;
    OneMore(s, Shutdown, ls);
    AfterShutdown(Step(s, Shutdown), ls);
  }

  lemma OneMore(s: Sys, l: Label, ls: seq<Label>)
    requires Runnable(s, [l] + ls)
    ensures Enabled(s, l) && Runnable(Step(s, l), ls) && RunAll(s, [l] + ls) == RunAll(Step(s, l), ls)
  {
    assert ([l] + ls)[1..] == ls;
    hide Step, Enabled;
  }

  function ToCome(op: Op): nat {
    match op
    case Starting(todo) => |todo|
    case Spawning(_) => 1
    case _ => 0
  }

  lemma StepAfterShutdown(s: Sys, l: Label)
    requires s.shutdown && Enabled(s, l)
    ensures var t := Step(s, l); t.shutdown && |t.all| + ToCome(t.op) <= |s.all| + ToCome(s.op)
  {
    if l.Work? {
      hide RunnerAfter, IncidentsAfter;
    }
  }

  lemma {:induction false} AfterShutdown(s: Sys, ls: seq<Label>)
    requires s.shutdown && Runnable(s, ls)
    ensures var t := RunAll(s, ls); t.shutdown && |t.all| + ToCome(t.op) <= |s.all| + ToCome(s.op)
    decreases |ls|
  {
    hide Step, Enabled, ToCome;
    if ls != [] {
      StepAfterShutdown(s, ls[0]);
      AfterShutdown(Step(s, ls[0]), ls[1..]);
    }
  }

  /** An admin can write a row at any time, and what is written is what Reload and Delete find,
      until it is written again or deleted. */
  lemma WrittenIsRead(s: Sys, id: int, row: TargetRow, ls: seq<Label>)
    requires Runnable(Step(s, WriteTarget(id, row)), ls)
    requires forall i :: 0 <= i < |ls| ==> !ls[i].DeleteRow? && !(ls[i].WriteTarget? && ls[i].id == id)
    ensures var t := RunAll(Step(s, WriteTarget(id, row)), ls); id in t.targets && t.targets[id] == row
  {
    hide Runnable, RunAll;
    StaysWritten(Step(s, WriteTarget(id, row)), id, row, ls);
  }

  lemma {:induction false} StaysWritten(s: Sys, id: int, row: TargetRow, ls: seq<Label>)
    requires id in s.targets && s.targets[id] == row && Runnable(s, ls)
    requires forall i :: 0 <= i < |ls| ==> !ls[i].DeleteRow? && !(ls[i].WriteTarget? && ls[i].id == id)
    ensures id in RunAll(s, ls).targets && RunAll(s, ls).targets[id] == row
    decreases |ls|
  {
    if ls != [] {
      StepKeepsTargets(s, id, ls[0]);
      hide Step, Enabled;
      StaysWritten(Step(s, ls[0]), id, row, ls[1..]);
    }
  }

  lemma StepKeepsTargets(s: Sys, id: int, l: Label)
    requires Enabled(s, l) && !l.DeleteRow? && !(l.WriteTarget? && l.id == id)
    ensures id in s.targets ==> id in Step(s, l).targets && Step(s, l).targets[id] == s.targets[id]
  {
    if l.Work? {
      hide RunnerAfter, IncidentsAfter;
    }
  }

  /** Pruning and the mail retry can come at any time: the first takes the incidents that ended before
      its cut, the second sets one mark, that of the end only if the incident has ended. */
  lemma MaintenanceTouches(s: Sys, before: int, incident: int, up: bool)
    ensures Enabled(s, Prune(before)) && Enabled(s, Remail(incident, up)) && Enabled(s, Shutdown)
    ensures var t := Step(s, Prune(before)).incidents;
            && (forall i :: i in t <==> i in s.incidents && !(s.incidents[i].endedAt.Some? && s.incidents[i].endedAt.value < before))
            && (forall i :: i in t ==> t[i] == s.incidents[i])
    ensures var t := Step(s, Remail(incident, up)).incidents;
            && t.Keys == s.incidents.Keys
            && (forall i :: i in t ==>
                  var row := s.incidents[i];
                  t[i] == if i != incident || (up && row.endedAt.None?) then row
                          else if up then row.(mailedUp := true) else row.(mailedDown := true))
  {
  }
}

/** What every interleaving of Manager's callers and runners keeps. */
module RunnerSafety {
  import opened Base
  import opened Lifecycle
  import opened Tables
  import opened Monitor
  import opened RunnerProtocol

  ghost predicate Live(s: Sys, r: nat) {
    r < |s.all| && s.all[r].pc != Done
  }

  /** The runner the holder of ops is stopping. */
  function OpRunner(op: Op): Option<nat> {
    if op.Cancelling? || op.Awaiting? then Some(op.runner) else None
  }

  /** The target the holder of ops works on. */
  function OpId(op: Op): Option<int> {
    match op
    case Cancelling(_, id, _) => Some(id)
    case Awaiting(_, id, _) => Some(id)
    case Stopped(_, id) => Some(id)
    case ClosingPaused(id) => Some(id)
    case Rereading(id) => Some(id)
    case Testing(t) => Some(t.id)
    case Spawning(t) => Some(t.id)
    case DroppingStats(id) => Some(id)
    case _ => None
  }

  // ----- the invariant -----

  /** m.runners points to runners of the right target that nobody has cancelled. */
  ghost predicate MapOk(s: Sys) {
    forall id :: id in s.runners ==>
      && s.runners[id] < |s.all|
      && s.all[s.runners[id]].target.id == id
      && !s.all[s.runners[id]].cancelled
  }

  ghost predicate OpOk(s: Sys) {
    && (OpId(s.op).Some? ==> OpId(s.op).value !in s.runners)
    && (OpRunner(s.op).Some? ==>
          var r := OpRunner(s.op).value;
          r < |s.all| && s.all[r].target.id == s.op.id && (s.op.Awaiting? ==> s.all[r].cancelled))
    && (s.op.Starting? ==>
          && (forall i :: 0 <= i < |s.op.todo| ==> s.op.todo[i].id !in s.runners)
          && (forall i, j :: 0 <= i < j < |s.op.todo| ==> s.op.todo[i].id != s.op.todo[j].id))
  }

  /** An unfinished runner is in m.runners, or it is the one the holder of ops stops. */
  ghost predicate Accounted(s: Sys, r: nat)
    requires r < |s.all|
  {
    var id := s.all[r].target.id;
    (id in s.runners && s.runners[id] == r) || OpRunner(s.op) == Some(r)
  }

  ghost predicate LiveOk(s: Sys) {
    forall r: nat :: Live(s, r) ==> Accounted(s, r)
  }

  /** How many checks are in flight. */
  function InFlight(all: seq<Runner>): nat {
    if all == [] then 0
    else InFlight(all[..|all| - 1]) + if all[|all| - 1].pc == Checking then 1 else 0
  }

  ghost predicate SlotsOk(s: Sys) {
    s.sem == InFlight(s.all) <= MAX_PARALLEL
  }

  /** What a runner remembers of its incident fits the table. While it adopts an open row it
      has not read it yet. */
  ghost predicate Fits(incidents: Incidents, x: Runner) {
    match x.pc
    case Restoring => true
    case Done => true
    case Adopting => x.st.open && !x.exact
    case _ =>
      && (x.st.open ==> Owns(x.st, incidents, x.target))
      && (x.exact && !x.st.open ==> !HasOpen(incidents, x.target.id))
  }

  ghost predicate TableOk(s: Sys) {
    && OneOpenEach(s.incidents)
    && forall r :: 0 <= r < |s.all| ==> Fits(s.incidents, s.all[r])
  }

  ghost predicate Inv(s: Sys) {
    MapOk(s) && OpOk(s) && LiveOk(s) && SlotsOk(s) && TableOk(s)
  }

  // ----- slots -----

  lemma {:induction false} InFlightUpdate(all: seq<Runner>, r: nat, x: Runner)
    requires r < |all|
    ensures InFlight(all[r := x]) ==
            InFlight(all) + (if x.pc == Checking then 1 else 0) - (if all[r].pc == Checking then 1 else 0)
  {
    var n := |all| - 1;
    if r < n {
      InFlightUpdate(all[..n], r, x);
      assert all[r := x][..n] == all[..n][r := x];
    } else {
      assert all[r := x][..n] == all[..n];
    }
  }

  lemma InFlightAppend(all: seq<Runner>, x: Runner)
    requires x.pc != Checking
    ensures InFlight(all + [x]) == InFlight(all)
  {
    assert (all + [x])[..|all|] == all;
  }

  /** A runner in its check is counted. */
  lemma {:induction false} InFlightPositive(all: seq<Runner>, r: nat)
    requires r < |all| && all[r].pc == Checking
    ensures InFlight(all) > 0
  {
    var n := |all| - 1;
    if r < n {
      InFlightPositive(all[..n], r);
    }
  }

  // ----- the table -----

  /** The open rows of a target are the same in both tables. */
  ghost predicate SameOpen(a: Incidents, b: Incidents, target: int) {
    forall i :: (OpenRow(a, i, target) <==> OpenRow(b, i, target))
                && (OpenRow(a, i, target) ==> a[i].startedAt == b[i].startedAt)
  }

  lemma FitsFrame(a: Incidents, b: Incidents, x: Runner)
    requires SameOpen(a, b, x.target.id) && Fits(a, x)
    ensures Fits(b, x)
  {
    if HasOpen(b, x.target.id) {
      assert OpenRow(a, OpenFor(b, x.target.id).value, x.target.id);
    }
  }

  /** The step that decides keeps the runner and its table fitting, and leaves the open rows
      of other targets alone. */
  lemma DecideFits(s: Sys, x: Runner, newId: int, fail: bool)
    requires CanAct(s, x, Decide(newId, fail)) && OneOpenEach(s.incidents) && Fits(s.incidents, x)
    ensures var a := Decide(newId, fail);
            && OneOpenEach(IncidentsAfter(s, x, a))
            && Fits(IncidentsAfter(s, x, a), RunnerAfter(s, x, a))
            && forall t :: t != x.target.id ==> SameOpen(s.incidents, IncidentsAfter(s, x, a), t)
  {
    var (nst, event) := Next(x.st, x.seen, x.target.threshold);
    match event
    case Quiet =>
    case Down =>
      if !fail && x.target.id in s.targets && !HasOpen(s.incidents, x.target.id) {
        OpenedRows(s.incidents, newId, x.target.id, nst.startedAt, nst.cause);
      }
    case Up => ClosedRows(s.incidents, x.st.incident, x.seen.at);
  }

  lemma ActFits(s: Sys, x: Runner, a: Act)
    requires CanAct(s, x, a) && OneOpenEach(s.incidents) && Fits(s.incidents, x)
    ensures OneOpenEach(IncidentsAfter(s, x, a))
    ensures Fits(IncidentsAfter(s, x, a), RunnerAfter(s, x, a))
    ensures forall t :: t != x.target.id ==> SameOpen(s.incidents, IncidentsAfter(s, x, a), t)
  {
    match a {
      case Decide(newId, fail) => DecideFits(s, x, newId, fail);
      case Mail(mark) =>
        MarkedRows(s.incidents, x.st.incident, !x.st.open);
        assert SameOpen(s.incidents, IncidentsAfter(s, x, a), x.target.id);
        FitsFrame(s.incidents, IncidentsAfter(s, x, a), Rest(s, x));
      case _ =>
    }
  }

  /** No two unfinished runners share a target. */
  lemma OneRunnerPerTarget(s: Sys, a: nat, b: nat)
    requires MapOk(s) && OpOk(s) && LiveOk(s)
    requires Live(s, a) && Live(s, b) && s.all[a].target.id == s.all[b].target.id
    ensures a == b
  {
    assert Accounted(s, a) && Accounted(s, b);
  }

  // ----- every step keeps the invariant -----

  lemma ActKeepsTable(s: Sys, r: nat, a: Act)
    requires Inv(s) && r < |s.all| && CanAct(s, s.all[r], a)
    ensures TableOk(AfterAct(s, r, a))
  {
    hide RunnerAfter, IncidentsAfter, Fits, InFlight;
    var x, s' := s.all[r], AfterAct(s, r, a);
    ActFits(s, x, a);
    forall q | 0 <= q < |s.all| ensures Fits(s'.incidents, s'.all[q]) {
      if q != r {
        assert x.pc != Done;
        if s.all[q].pc == Done {
          DoneFits(s'.incidents, s'.all[q]);
        } else {
          if s.all[q].target.id == x.target.id {
            OneRunnerPerTarget(s, q, r);
          }
          FitsFrame(s.incidents, s'.incidents, s.all[q]);
        }
      }
    }
  }

  lemma DoneFits(incidents: Incidents, x: Runner)
    requires x.pc == Done
    ensures Fits(incidents, x)
  {
  }

  /** What a step changes of its runner besides state and timer. */
  lemma RunnerAfterFrame(s: Sys, x: Runner, a: Act)
    requires CanAct(s, x, a)
    ensures var x' := RunnerAfter(s, x, a);
            && x'.target == x.target && x'.cancelled == x.cancelled
            && x.pc != Done
            && (x'.pc == Checking <==> a == Acquire)
            && (x.pc == Checking <==> a.EndCheck?)
  {
  }

  lemma ActKeepsInv(s: Sys, r: nat, a: Act)
    requires Inv(s) && r < |s.all| && CanAct(s, s.all[r], a)
    ensures Inv(AfterAct(s, r, a))
  {
    hide RunnerAfter, IncidentsAfter, Fits, InFlight, CanAct;
    ActKeepsTable(s, r, a);
    hide TableOk;
    var x, s' := s.all[r], AfterAct(s, r, a);
    RunnerAfterFrame(s, x, a);
    InFlightUpdate(s.all, r, RunnerAfter(s, x, a));
    if a.EndCheck? {
      InFlightPositive(s.all, r);
    }
    if a == Acquire {
      AcquireHasSlot(s, x);
    }
    forall q: nat | Live(s', q) ensures Accounted(s', q) {
      assert Live(s, q);
    }
  }

  lemma AcquireHasSlot(s: Sys, x: Runner)
    requires CanAct(s, x, Acquire)
    ensures s.sem < MAX_PARALLEL
  {
  }

  /** Tables whose open rows differ at most for a target without runners. */
  lemma TableFrame(s: Sys, s': Sys, id: int)
    requires Inv(s) && s'.all == s.all && OneOpenEach(s'.incidents)
    requires forall r: nat :: Live(s, r) ==> s.all[r].target.id != id
    requires forall t :: t != id ==> SameOpen(s.incidents, s'.incidents, t)
    ensures TableOk(s')
  {
    hide Fits;
    forall r | 0 <= r < |s.all| ensures Fits(s'.incidents, s.all[r]) {
      if s.all[r].pc == Done {
        DoneFits(s'.incidents, s.all[r]);
      } else {
        assert Live(s, r);
        FitsFrame(s.incidents, s'.incidents, s.all[r]);
      }
    }
  }

  /** A target that is neither in m.runners nor being stopped has no unfinished runner. */
  lemma NoRunner(s: Sys, id: int)
    requires Inv(s) && id !in s.runners && (OpRunner(s.op).Some? ==> s.op.id != id)
    ensures forall r: nat :: Live(s, r) ==> s.all[r].target.id != id
  {
    forall r: nat | Live(s, r) ensures s.all[r].target.id != id {
      assert Accounted(s, r);
    }
  }

  lemma ClosePausedKeepsTable(s: Sys, now: int, fail: bool)
    requires Inv(s) && s.op.ClosingPaused?
    ensures TableOk(Step(s, ClosePaused(now, fail)))
    ensures !fail ==> !HasOpen(Step(s, ClosePaused(now, fail)).incidents, s.op.id)
  {
    var s' := Step(s, ClosePaused(now, fail));
    NoRunner(s, s.op.id);
    assert forall i, t :: OpenRow(s'.incidents, i, t) ==> OpenRow(s.incidents, i, t);
    TableFrame(s, s', s.op.id);
  }

  lemma DeleteRowKeepsTable(s: Sys, fail: bool)
    requires Inv(s) && s.op.Stopped? && s.op.kind == Deleting
    ensures TableOk(Step(s, DeleteRow(fail)))
  {
    var s' := Step(s, DeleteRow(fail));
    NoRunner(s, s.op.id);
    assert forall i, t :: OpenRow(s'.incidents, i, t) ==> OpenRow(s.incidents, i, t);
    TableFrame(s, s', s.op.id);
  }

  /** Starting a runner for a target that has none. */
  lemma StartedKeepsInv(s: Sys, t: Target, op: Op)
    requires Inv(s) && t.id !in s.runners && OpRunner(s.op).None? && OpRunner(op).None?
    requires OpOk(Started(s, t).(op := op))
    ensures Inv(Started(s, t).(op := op))
  {
    hide Fits, InFlight;
    var s' := Started(s, t).(op := op);
    InFlightAppend(s.all, NewRunner(t));
    forall q: nat | Live(s', q) ensures Accounted(s', q) {
      assert q < |s.all| ==> Live(s, q) && Accounted(s, q);
    }
    forall q | 0 <= q < |s'.all| ensures Fits(s'.incidents, s'.all[q]) {
      if q == |s.all| {
        NewFits(s.incidents, t);
      }
    }
  }

  lemma NewFits(incidents: Incidents, t: Target)
    ensures Fits(incidents, NewRunner(t))
  {
  }

  /** Changing one runner's timer, program counter inside its loop, or cancellation. */
  lemma RunnerChangeKeepsInv(s: Sys, r: nat, x: Runner, op: Op)
    requires Inv(s) && r < |s.all| && x.target == s.all[r].target && x.st == s.all[r].st && x.exact == s.all[r].exact
    requires (x.pc == s.all[r].pc && x.cancelled && op.Awaiting? && OpRunner(op) == OpRunner(s.op) == Some(r) && op.id == s.op.id)
             || (x.pc == s.all[r].pc && x.cancelled == s.all[r].cancelled && op == s.op)
             || (x.pc == WantSlot && s.all[r].pc == Idle && x.cancelled == s.all[r].cancelled && op == s.op)
    ensures Inv(s.(all := s.all[r := x], op := op))
  {
    hide InFlight;
    var s' := s.(all := s.all[r := x], op := op);
    InFlightUpdate(s.all, r, x);
    forall q: nat | Live(s', q) ensures Accounted(s', q) {
      assert Live(s, q) && Accounted(s, q);
    }
    assert Fits(s.incidents, s.all[r]);
    assert forall id :: id in s.runners && s.runners[id] == r ==> s.all[r].target.id == id;
  }

  /** Steps that are neither a runner's nor the holder's of ops. */
  predicate Outside(l: Label) {
    l.Shutdown? || l.WriteTarget? || l.Nudge? || l.Fire? || l.Prune? || l.Remail?
  }

  lemma OutsideKeepsInv(s: Sys, l: Label)
    requires Inv(s) && Enabled(s, l) && Outside(l)
    ensures Inv(Step(s, l))
  {
    hide Fits, InFlight;
    var s' := Step(s, l);
    match l {
      case Nudge(id) =>
        var r := s.runners[id];
        RunnerChangeKeepsInv(s, r, s'.all[r], s.op);
      case Fire(r) => RunnerChangeKeepsInv(s, r, s'.all[r], s.op);
      case Prune(before) =>
        assert forall i, t :: OpenRow(s'.incidents, i, t) <==> OpenRow(s.incidents, i, t);
        forall r | 0 <= r < |s.all| ensures Fits(s'.incidents, s.all[r]) {
          FitsFrame(s.incidents, s'.incidents, s.all[r]);
        }
      case Remail(i, up) =>
        MarkedRows(s.incidents, i, up);
        forall r | 0 <= r < |s.all| ensures Fits(s'.incidents, s.all[r]) {
          FitsFrame(s.incidents, s'.incidents, s.all[r]);
        }
      case _ =>
    }
    assert SlotsOk(s');
    assert forall r: nat :: Live(s', r) ==> Live(s, r);
    forall r: nat | Live(s', r) ensures Accounted(s', r) {
      assert Accounted(s, r);
    }
  }

  /** The holder's steps that change no more than Op, targets, stats and m.runners. */
  lemma OpMoveKeepsInv(s: Sys, s': Sys)
    requires Inv(s) && OpOk(s')
    requires s'.all == s.all && s'.sem == s.sem && s'.incidents == s.incidents
    requires s'.runners == s.runners && (OpRunner(s'.op) == OpRunner(s.op) || (s.op.Awaiting? && s.all[s.op.runner].pc == Done))
    ensures Inv(s')
  {
    hide Fits, InFlight;
    forall r: nat | Live(s', r) ensures Accounted(s', r) {
      assert Live(s, r) && Accounted(s, r);
    }
  }

  /** The same for steps that also change incidents. */
  lemma OpTableMoveKeepsInv(s: Sys, s': Sys)
    requires Inv(s) && OpOk(s') && TableOk(s')
    requires s'.all == s.all && s'.sem == s.sem && s'.runners == s.runners && OpRunner(s'.op) == OpRunner(s.op)
    ensures Inv(s')
  {
    hide TableOk, InFlight;
    forall r: nat | Live(s', r) ensures Accounted(s', r) {
      assert Live(s, r) && Accounted(s, r);
    }
  }

  lemma BeginStopKeepsInv(s: Sys, kind: Kind, id: int)
    requires Inv(s) && s.op == Free
    ensures Inv(Step(s, BeginStop(kind, id)))
  {
    hide Fits, InFlight;
    var s' := Step(s, BeginStop(kind, id));
    forall r: nat | Live(s', r) ensures Accounted(s', r) {
      assert Live(s, r) && Accounted(s, r);
    }
  }

  /** A move stays with its target and lets go of a runner only when that one is done. */
  lemma MovesStay(s: Sys, l: Label)
    requires Enabled(s, l) && Moves(l)
    ensures var op := OpAfter(s, l);
            && (OpId(op) == None || OpId(op) == OpId(s.op))
            && OpRunner(op) == None && !op.Starting?
            && (OpRunner(s.op).Some? ==> s.op.Awaiting? && s.op.runner < |s.all| && s.all[s.op.runner].pc == Done)
  {
  }

  lemma MoveKeepsInv(s: Sys, l: Label)
    requires Inv(s) && Enabled(s, l) && Moves(l)
    ensures Inv(Step(s, l))
  {
    hide OpAfter, TableOk, SlotsOk, LiveOk;
    MovesStay(s, l);
    OpMoveKeepsInv(s, Step(s, l));
  }

  lemma OpKeepsInv(s: Sys, l: Label)
    requires Inv(s) && Enabled(s, l) && !Outside(l) && !l.Work? && !Moves(l)
    ensures Inv(Step(s, l))
  {
    hide TableOk, SlotsOk, LiveOk;
    var s' := Step(s, l);
    match l {
      case StartNext =>
        if s.op.todo != [] {
          StartedKeepsInv(s, s.op.todo[0], s'.op);
        } else {
          OpMoveKeepsInv(s, s');
        }
      case BeginStop(kind, id) => BeginStopKeepsInv(s, kind, id);
      case Cancel => RunnerChangeKeepsInv(s, s.op.runner, s'.all[s.op.runner], s'.op);
      case ClosePaused(now, fail) =>
        ClosePausedKeepsTable(s, now, fail);
        OpTableMoveKeepsInv(s, s');
      case DropStats => OpMoveKeepsInv(s, s');
      case Spawn => StartedKeepsInv(s, s.op.target, Free);
      case DeleteRow(fail) =>
        DeleteRowKeepsTable(s, fail);
        OpTableMoveKeepsInv(s, s');
    }
  }

  lemma StepKeepsInv(s: Sys, l: Label)
    requires Inv(s) && Enabled(s, l)
    ensures Inv(Step(s, l))
  {
    if l.Work? {
      ActKeepsInv(s, l.runner, l.act);
    } else if Outside(l) {
      OutsideKeepsInv(s, l);
    } else if Moves(l) {
      MoveKeepsInv(s, l);
    } else {
      OpKeepsInv(s, l);
    }
  }
}

/** The protocol between the callers of Manager and its runners
    (internal/monitor/scheduler.go) as a transition system: one label is one atomic step of
    one goroutine, and a run is any interleaving of them.

    What a caller does while it holds ops is the program counter Op; at most one caller holds
    it. A runner's program counter is Pc. Critical sections under mu are single steps. */
module RunnerProtocol {
  import opened Base
  import opened Lifecycle
  import opened Tables
  import opened Monitor

  const MAX_PARALLEL := 8

  datatype Pc =
    | Restoring  // run, before the first read of restore
    | Counting   // restore, before its other reads
    | Idle       // run, in its select
    | WantSlot   // round, in its select on sem
    | Checking   // round, holding a slot
    | Judging    // slot given back, before the test of ctx.Err
    | Recording  // before record
    | Inserting  // before InsertCheck
    | Deciding   // before next and the write it asks for
    | Adopting   // OpenIncident said that an incident is open already
    | Mailing    // in notify
    | Done       // done is closed

  /** armed: the timer runs; fired: its channel holds a tick. exact: what the runner knows
      about open rows is complete. */
  datatype Runner = Runner(
    target: Target, pc: Pc, cancelled: bool, armed: bool, fired: bool,
    st: State, seen: Obs, exact: bool)

  datatype Kind = Reloading | Deleting

  datatype Op =
    | Free
    | Starting(todo: seq<Target>)
    | Cancelling(kind: Kind, id: int, runner: nat)  // taken out of runners, before cancel
    | Awaiting(kind: Kind, id: int, runner: nat)    // waiting for done
    | Stopped(kind: Kind, id: int)                  // stop returned
    | ClosingPaused(id: int)                        // Reload read Paused
    | Rereading(id: int)                            // Delete could not delete the row
    | Testing(target: Target)                       // before the test of m.ctx.Err
    | Spawning(target: Target)                      // before start
    | DroppingStats(id: int)                        // Delete has deleted the row
    | Draining                                      // Wait

  datatype TargetRow = TargetRow(paused: bool, threshold: nat)

  datatype Sys = Sys(
    shutdown: bool,           // m.ctx is cancelled
    op: Op,
    runners: map<int, nat>,   // m.runners: target id to index in all
    all: seq<Runner>,         // every goroutine ever started
    sem: nat,                 // slots taken in m.sem
    stats: set<int>,          // target ids with an entry in m.stats
    targets: map<int, TargetRow>,
    checked: set<int>,        // target ids with rows in checks
    incidents: Incidents)

  datatype Act =
    | ReadOpen(fail: bool)
    | ReadChecks(fails: nat, firstFail: int, cause: string, stat: bool)
    | Exit
    | Tick
    | Acquire
    | GiveUp
    | EndCheck(obs: Obs)
    | Judge
    | Record
    | Insert(fail: bool)
    | Decide(newId: int, fail: bool)
    | Adopt(fail: bool)
    | Mail(mark: bool)

  datatype Label =
    | Shutdown
    | WriteTarget(id: int, row: TargetRow)  // an admin creates or changes a target
    | Nudge(id: int)                        // CheckNow hands over its signal
    | Fire(runner: nat)                     // a timer fires
    | Prune(before: int)
    | Remail(incident: int, up: bool)       // the mail retry marks a row
    | StartNext
    | BeginStop(kind: Kind, id: int)
    | Cancel
    | SeeDone
    | ReadTarget(fail: bool)
    | ClosePaused(now: int, fail: bool)
    | TestShutdown
    | Spawn
    | DeleteRow(fail: bool)
    | Reread(fail: bool)
    | DropStats
    | BeginWait
    | EndWait
    | Work(runner: nat, act: Act)

  /** ctx.Err() != nil for this runner. */
  predicate Ended(s: Sys, x: Runner) {
    x.cancelled || s.shutdown
  }

  predicate AllDone(s: Sys) {
    forall r :: 0 <= r < |s.all| ==> s.all[r].pc == Done
  }

  // ----- steps of a runner -----

  predicate CanAct(s: Sys, x: Runner, a: Act) {
    match a
    case ReadOpen(_) => x.pc == Restoring
    case ReadChecks(_, _, _, _) => x.pc == Counting
    case Exit => x.pc == Idle && Ended(s, x)
    case Tick => x.pc == Idle && x.fired
    case Acquire => x.pc == WantSlot && s.sem < MAX_PARALLEL
    case GiveUp => x.pc == WantSlot && Ended(s, x)
    case EndCheck(_) => x.pc == Checking
    case Judge => x.pc == Judging
    case Record => x.pc == Recording
    case Insert(_) => x.pc == Inserting
    case Decide(newId, _) => x.pc == Deciding && newId !in s.incidents
    case Adopt(_) => x.pc == Adopting
    case Mail(_) => x.pc == Mailing
  }

  /** Back to the select of run. The timer is set anew; one set by a runner whose context has
      ended does not fire before the select sees that. */
  function Rest(s: Sys, x: Runner): Runner {
    x.(pc := Idle, armed := !Ended(s, x), fired := false)
  }

  /** The runner after its step. */
  ghost function RunnerAfter(s: Sys, x: Runner, a: Act): Runner
    requires CanAct(s, x, a)
  {
    match a
    case ReadOpen(fail) =>
      var row := if fail then None else OpenFor(s.incidents, x.target.id);
      x.(pc := Counting, exact := !fail,
         st := if row.None? then FRESH
               else FRESH.(open := true, startedAt := s.incidents[row.value].startedAt, incident := row.value))
    case ReadChecks(fails, firstFail, cause, _) =>
      Rest(s, x).(st := x.st.(fails := fails, firstFail := firstFail, cause := cause))
    case Exit => x.(pc := Done)
    case Tick => x.(pc := WantSlot, fired := false, armed := false)
    case Acquire => x.(pc := Checking)
    case GiveUp => Rest(s, x)
    case EndCheck(obs) => x.(pc := Judging, seen := obs)
    case Judge => if Ended(s, x) then Rest(s, x) else x.(pc := Recording)
    case Record => x.(pc := Inserting)
    case Insert(_) => x.(pc := Deciding)
    case Decide(newId, fail) =>
      var (nst, event) := Next(x.st, x.seen, x.target.threshold);
      (match event
       case Quiet => Rest(s, x).(st := nst)
       case Down =>
         if fail || x.target.id !in s.targets then Rest(s, x).(st := nst.(open := false))
         else if HasOpen(s.incidents, x.target.id) then x.(pc := Adopting, st := nst, exact := false)
         else x.(pc := Mailing, st := nst.(incident := newId), exact := true)
       case Up =>
         if fail then Rest(s, x).(st := nst.(open := true))
         else x.(pc := Mailing, st := nst, exact := true))
    case Adopt(fail) =>
      var row := if fail then None else OpenFor(s.incidents, x.target.id);
      if row.None? then Rest(s, x).(st := x.st.(open := false))
      else Rest(s, x).(st := x.st.(startedAt := s.incidents[row.value].startedAt, incident := row.value), exact := true)
    case Mail(_) => Rest(s, x)
  }

  /** The incidents table after the step. */
  ghost function IncidentsAfter(s: Sys, x: Runner, a: Act): Incidents {
    match a
    case Decide(newId, fail) =>
      var (nst, event) := Next(x.st, x.seen, x.target.threshold);
      if event == Down && !fail && x.target.id in s.targets && !HasOpen(s.incidents, x.target.id)
      then Opened(s.incidents, newId, x.target.id, nst.startedAt, nst.cause)
      else if event == Up && !fail then Closed(s.incidents, x.st.incident, x.seen.at)
      else s.incidents
    case Mail(mark) =>
      if mark then Marked(s.incidents, x.st.incident, !x.st.open) else s.incidents
    case _ => s.incidents
  }

  ghost function AfterAct(s: Sys, r: nat, a: Act): Sys
    requires r < |s.all| && CanAct(s, s.all[r], a)
  {
    var x := s.all[r];
    s.(all := s.all[r := RunnerAfter(s, x, a)],
       sem := if a == Acquire then s.sem + 1 else if a.EndCheck? && s.sem > 0 then s.sem - 1 else s.sem,
       stats := if a == Record || (a.ReadChecks? && a.stat) then s.stats + {x.target.id} else s.stats,
       checked := if a == Insert(false) && x.target.id in s.targets then s.checked + {x.target.id} else s.checked,
       incidents := IncidentsAfter(s, x, a))
  }

  // ----- all steps -----

  ghost predicate Enabled(s: Sys, l: Label) {
    match l
    case Shutdown => true
    case WriteTarget(_, _) => true
    case Nudge(id) => id in s.runners && s.runners[id] < |s.all| && s.all[s.runners[id]].pc == Idle
    case Fire(r) => r < |s.all| && s.all[r].armed
    case Prune(_) => true
    case Remail(_, _) => true
    case StartNext => s.op.Starting?
    case BeginStop(_, _) => s.op == Free
    case Cancel => s.op.Cancelling? && s.op.runner < |s.all|
    case SeeDone => s.op.Awaiting? && s.op.runner < |s.all| && s.all[s.op.runner].pc == Done
    case ReadTarget(_) => s.op.Stopped? && s.op.kind == Reloading
    case ClosePaused(_, _) => s.op.ClosingPaused?
    case TestShutdown => s.op.Testing?
    case Spawn => s.op.Spawning?
    case DeleteRow(_) => s.op.Stopped? && s.op.kind == Deleting
    case Reread(_) => s.op.Rereading?
    case DropStats => s.op.DroppingStats?
    case BeginWait => s.op == Free
    case EndWait => s.op == Draining && AllDone(s)
    case Work(r, a) => r < |s.all| && CanAct(s, s.all[r], a)
  }

  function NewRunner(t: Target): Runner {
    Runner(t, Restoring, false, false, false, FRESH, Obs(true, "", ZERO_TIME), false)
  }

  function Started(s: Sys, t: Target): Sys {
    s.(runners := s.runners[t.id := |s.all|], all := s.all + [NewRunner(t)])
  }

  /** Steps of the holder of ops that move its program counter and nothing else. */
  predicate Moves(l: Label) {
    l.SeeDone? || l.ReadTarget? || l.TestShutdown? || l.Reread? || l.BeginWait? || l.EndWait?
  }

  /** Where the holder of ops goes on; Free when it returns. */
  ghost function OpAfter(s: Sys, l: Label): Op
    requires Enabled(s, l) && Moves(l)
  {
    match l
    case SeeDone => Stopped(s.op.kind, s.op.id)
    case ReadTarget(fail) =>
      var id := s.op.id;
      if fail || id !in s.targets then Free
      else if s.targets[id].paused then ClosingPaused(id)
      else Testing(Target(id, s.targets[id].threshold))
    case TestShutdown => if s.shutdown then Free else Spawning(s.op.target)
    case Reread(fail) =>
      var id := s.op.id;
      if fail || id !in s.targets || s.targets[id].paused then Free
      else Testing(Target(id, s.targets[id].threshold))
    case BeginWait => Draining
    case EndWait => Free
  }

  ghost function Step(s: Sys, l: Label): Sys
    requires Enabled(s, l)
  {
    match l
    case Shutdown => s.(shutdown := true)
    case WriteTarget(id, row) => s.(targets := s.targets[id := row])
    case Nudge(id) =>
      var r := s.runners[id];
      s.(all := s.all[r := s.all[r].(pc := WantSlot, armed := false, fired := false)])
    case Fire(r) => s.(all := s.all[r := s.all[r].(armed := false, fired := true)])
    case Prune(before) => s.(incidents := PrunedIncidents(s.incidents, before))
    case Remail(incident, up) => s.(incidents := Marked(s.incidents, incident, up))
    case StartNext =>
      if s.op.todo == [] then s.(op := Free)
      else Started(s, s.op.todo[0]).(op := Starting(s.op.todo[1..]))
    case BeginStop(kind, id) =>
      if id in s.runners
      then s.(op := Cancelling(kind, id, s.runners[id]), runners := s.runners - {id})
      else s.(op := Stopped(kind, id))
    case Cancel =>
      var r := s.op.runner;
      s.(op := Awaiting(s.op.kind, s.op.id, r), all := s.all[r := s.all[r].(cancelled := true)])
    case ClosePaused(now, fail) =>
      s.(op := Free, incidents := if fail then s.incidents else ClosedPaused(s.incidents, s.op.id, now))
    case Spawn => Started(s, s.op.target).(op := Free)
    case DeleteRow(fail) =>
      var id := s.op.id;
      if fail then s.(op := Rereading(id))
      else if id !in s.targets then s.(op := Free)
      else s.(op := DroppingStats(id), targets := s.targets - {id}, checked := s.checked - {id},
              incidents := map i | i in s.incidents && s.incidents[i].target != id :: s.incidents[i])
    case DropStats => s.(op := Free, stats := s.stats - {s.op.id})
    case Work(r, a) => AfterAct(s, r, a)
    case _ => s.(op := OpAfter(s, l))
  }

  /** The state before main calls Start: Start has read the targets todo. */
  ghost predicate Init(s: Sys) {
    && s.op.Starting? && (forall i, j :: 0 <= i < j < |s.op.todo| ==> s.op.todo[i].id != s.op.todo[j].id)
    && s.runners == map[] && s.all == [] && s.sem == 0 && OneOpenEach(s.incidents)
  }

  ghost predicate Runnable(s: Sys, ls: seq<Label>)
    decreases |ls|
  {
    ls == [] || (Enabled(s, ls[0]) && Runnable(Step(s, ls[0]), ls[1..]))
  }

  ghost function RunAll(s: Sys, ls: seq<Label>): Sys
    requires Runnable(s, ls)
    decreases |ls|
  {
    if ls == [] then s else RunAll(Step(s, ls[0]), ls[1..])
  }
}

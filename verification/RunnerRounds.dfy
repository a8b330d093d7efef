/** The steps of the runner protocol and the round as one function (internal/monitor/scheduler.go,
    round): they compute the same, also when runners of other targets work in between. */
module RunnerRounds {
  import opened Base
  import opened Lifecycle
  import opened Tables
  import opened Monitor
  import opened RunnerProtocol
  import opened RunnerSafety

  // ----- the steps of a round add up to the round -----

  /** The steps from Deciding to the end of the round, with no step of another in between, lead
      to the runner's state and the incidents table of the round. */
  ghost predicate Makes(s: Sys, x: Runner, input: Input, round: Outcome)
    requires x.pc == Deciding && input.newId !in s.incidents
  {
    var decide := Decide(input.newId, input.faults.write);
    var x1, s1 := RunnerAfter(s, x, decide), s.(incidents := IncidentsAfter(s, x, decide));
    if x1.pc == Idle then x1.st == round.st && s1.incidents == round.db.incidents
    else
      var a := if x1.pc == Adopting then Adopt(input.faults.reread) else Mail(input.mailed);
      && CanAct(s1, x1, a)
      && RunnerAfter(s1, x1, a).pc == Idle
      && RunnerAfter(s1, x1, a).st == round.st
      && IncidentsAfter(s1, x1, a) == round.db.incidents
  }

  lemma QuietStepsMakeTheRound(s: Sys, x: Runner, input: Input, db: Db)
    requires x.pc == Deciding && x.seen == input.Obs() && db.incidents == s.incidents
    requires input.newId !in s.incidents && Next(x.st, x.seen, x.target.threshold).1.Quiet?
    ensures Makes(s, x, input, Round(x.st, db, x.target, input))
  {
    hide Announce, Conclude;
  }

  lemma AdoptingMakesTheRound(s: Sys, x: Runner, input: Input, db: Db)
    requires x.pc == Deciding && x.seen == input.Obs() && db.incidents == s.incidents
    requires input.newId !in s.incidents && Next(x.st, x.seen, x.target.threshold).1.Down? && x.target.id in s.targets
    requires !input.faults.write && HasOpen(s.incidents, x.target.id)
    ensures Makes(s, x, input, Round(x.st, db, x.target, input))
  {
    hide Conclude, OpenFor, HasOpen;
  }

  lemma DownStepsMakeTheRound(s: Sys, x: Runner, input: Input, db: Db)
    requires x.pc == Deciding && x.seen == input.Obs() && db.incidents == s.incidents
    requires input.newId !in s.incidents && Next(x.st, x.seen, x.target.threshold).1.Down? && x.target.id in s.targets
    ensures Makes(s, x, input, Round(x.st, db, x.target, input))
  {
    hide Conclude, Opened, Marked, OpenFor, HasOpen;
    if !input.faults.write && HasOpen(s.incidents, x.target.id) {
      AdoptingMakesTheRound(s, x, input, db);
    }
  }

  lemma UpStepsMakeTheRound(s: Sys, x: Runner, input: Input, db: Db)
    requires x.pc == Deciding && x.seen == input.Obs() && db.incidents == s.incidents
    requires input.newId !in s.incidents && Next(x.st, x.seen, x.target.threshold).1.Up?
    ensures Makes(s, x, input, Round(x.st, db, x.target, input))
  {
    hide Announce, Closed, Marked, OpenFor;
  }

  /** Undisturbed, the steps of the protocol compute what Monitor.Round computes in one go. */
  lemma StepsMakeTheRound(s: Sys, x: Runner, input: Input, checks: seq<Tables.Check>)
    requires x.pc == Deciding && x.seen == input.Obs() && x.target.id in s.targets
    requires input.newId !in s.incidents
    ensures Makes(s, x, input, Round(x.st, Db(checks, s.incidents), x.target, input))
  {
    hide Makes, Round, Next;
    var db := Db(checks, s.incidents);
    match Next(x.st, x.seen, x.target.threshold).1
    case Quiet => QuietStepsMakeTheRound(s, x, input, db);
    case Down => DownStepsMakeTheRound(s, x, input, db);
    case Up => UpStepsMakeTheRound(s, x, input, db);
  }

  // ----- runners of other targets in between -----

  /** The rows of one target, without the marks of the mails. */
  function Own(tbl: Incidents, target: int): Incidents {
    map id | id in tbl && tbl[id].target == target :: tbl[id].(mailedDown := false, mailedUp := false)
  }

  /** A step of a runner leaves the rows of other targets as they are. */
  lemma ActKeepsOthers(s: Sys, x: Runner, a: Act, target: int)
    requires CanAct(s, x, a) && Fits(s.incidents, x) && x.target.id != target
    ensures Own(IncidentsAfter(s, x, a), target) == Own(s.incidents, target)
  {
    var after := IncidentsAfter(s, x, a);
    assert forall id :: id in after && after[id].target == target ==> id in s.incidents && s.incidents[id].target == target;
    assert forall id :: id in s.incidents && s.incidents[id].target == target ==>
        id in after && after[id].(mailedDown := false, mailedUp := false) == s.incidents[id].(mailedDown := false, mailedUp := false);
  }

  /** The labels are steps of runners of other targets than r's. */
  ghost predicate Elsewhere(s: Sys, ls: seq<Label>, r: nat)
    requires Runnable(s, ls) && r < |s.all|
    decreases |ls|
  {
    ls == [] ||
    (&& ls[0].Work? && ls[0].runner < |s.all| && s.all[ls[0].runner].target.id != s.all[r].target.id
     && |Step(s, ls[0]).all| == |s.all|
     && Elsewhere(Step(s, ls[0]), ls[1..], r))
  }

  lemma StepElsewhere(s: Sys, q: nat, a: Act, r: nat)
    requires Inv(s) && Enabled(s, Work(q, a)) && r < |s.all| && q != r && s.all[q].target.id != s.all[r].target.id
    ensures var t := Step(s, Work(q, a));
            && |t.all| == |s.all| && t.all[r] == s.all[r] && t.targets == s.targets
            && Own(t.incidents, s.all[r].target.id) == Own(s.incidents, s.all[r].target.id)
  {
    hide RunnerAfter, IncidentsAfter, Own, Fits, InFlight;
    assert Fits(s.incidents, s.all[q]);
    ActKeepsOthers(s, s.all[q], a, s.all[r].target.id);
  }

  lemma {:induction false} RunElsewhere(s: Sys, ls: seq<Label>, r: nat)
    requires Inv(s) && Runnable(s, ls) && r < |s.all| && Elsewhere(s, ls, r)
    ensures var t := RunAll(s, ls);
            && Inv(t) && r < |t.all| && t.all[r] == s.all[r] && t.targets == s.targets
            && Own(t.incidents, s.all[r].target.id) == Own(s.incidents, s.all[r].target.id)
    decreases |ls|
  {
    if ls != [] {
      hide Inv, Step, Own;
      var q := ls[0].runner;
      StepElsewhere(s, q, ls[0].act, r);
      StepKeepsInv(s, ls[0]);
      RunElsewhere(Step(s, ls[0]), ls[1..], r);
    }
  }

  lemma OwnRows(a: Incidents, b: Incidents, target: int)
    requires Own(a, target) == Own(b, target)
    ensures HasOpen(a, target) <==> HasOpen(b, target)
    ensures forall id :: OpenRow(a, id, target) ==> OpenRow(b, id, target) && a[id].startedAt == b[id].startedAt
  {
    assert forall id :: id in Own(a, target) <==> id in Own(b, target);
    forall id | OpenRow(a, id, target) ensures OpenRow(b, id, target) && a[id].startedAt == b[id].startedAt {
      assert id in Own(a, target) && Own(a, target)[id] == Own(b, target)[id];
    }
    forall id | OpenRow(b, id, target) ensures OpenRow(a, id, target) {
      assert id in Own(b, target) && Own(a, target)[id] == Own(b, target)[id];
    }
  }

  /** The open row a runner adopts is the same in tables that agree on its target's rows. */
  lemma AdoptsTheSame(s: Sys, t: Sys, x: Runner, fail: bool)
    requires OneOpenEach(s.incidents) && OneOpenEach(t.incidents) && x.pc == Adopting
    requires Own(s.incidents, x.target.id) == Own(t.incidents, x.target.id)
    ensures RunnerAfter(s, x, Adopt(fail)).st == RunnerAfter(t, x, Adopt(fail)).st
  {
    hide HasOpen, Own;
    OwnRows(s.incidents, t.incidents, x.target.id);
    OwnRows(t.incidents, s.incidents, x.target.id);
    var a, b := OpenFor(s.incidents, x.target.id), OpenFor(t.incidents, x.target.id);
    if a.Some? {
      assert OpenRow(t.incidents, a.value, x.target.id) && OpenRow(t.incidents, b.value, x.target.id);
    }
  }

  lemma MarksKeepOwn(tbl: Incidents, id: int, up: bool, target: int)
    ensures Own(Marked(tbl, id, up), target) == Own(tbl, target)
  {
    MarkedRows(tbl, id, up);
    var marked := Marked(tbl, id, up);
    assert forall i :: i in tbl ==> marked[i].target == tbl[i].target;
  }

  /** The last step of a round, whatever runners of other targets did since the one that decided. */
  lemma LastStep(s: Sys, t: Sys, x: Runner, mailed: bool, reread: bool, round: Outcome)
    requires (x.pc == Adopting || x.pc == Mailing) && OneOpenEach(s.incidents) && OneOpenEach(t.incidents)
    requires Own(s.incidents, x.target.id) == Own(t.incidents, x.target.id)
    requires var a := if x.pc == Adopting then Adopt(reread) else Mail(mailed);
             RunnerAfter(s, x, a).st == round.st && IncidentsAfter(s, x, a) == round.db.incidents
    ensures var a := if x.pc == Adopting then Adopt(reread) else Mail(mailed);
            && CanAct(t, x, a) && RunnerAfter(t, x, a).st == round.st && RunnerAfter(t, x, a).pc == Idle
            && Own(IncidentsAfter(t, x, a), x.target.id) == Own(round.db.incidents, x.target.id)
  {
    hide Own, OpenFor;
    if x.pc == Adopting {
      AdoptsTheSame(s, t, x, reread);
    } else {
      MarksKeepOwn(s.incidents, x.st.incident, !x.st.open, x.target.id);
      MarksKeepOwn(t.incidents, x.st.incident, !x.st.open, x.target.id);
    }
  }

  /** A runner decides, runners of other targets take any steps, and it takes its last step: its
      state, and the starts, ends and causes of its target's incidents, are those of the round. */
  lemma StepsMakeTheRoundAmongOthers(s: Sys, r: nat, input: Input, checks: seq<Tables.Check>, ls: seq<Label>)
    requires Inv(s) && Enabled(s, Work(r, Decide(input.newId, input.faults.write)))
    requires s.all[r].seen == input.Obs() && s.all[r].target.id in s.targets
    requires var s1 := Step(s, Work(r, Decide(input.newId, input.faults.write)));
             r < |s1.all| && Runnable(s1, ls) && Elsewhere(s1, ls, r)
    ensures var s1 := Step(s, Work(r, Decide(input.newId, input.faults.write)));
            var x, s2, target := s1.all[r], RunAll(s1, ls), s.all[r].target.id;
            var round := Round(s.all[r].st, Db(checks, s.incidents), s.all[r].target, input);
            var a := if x.pc == Adopting then Adopt(input.faults.reread) else Mail(input.mailed);
            if x.pc == Idle then
              r < |s2.all| && s2.all[r].st == round.st && Own(s2.incidents, target) == Own(round.db.incidents, target)
            else
              && Enabled(s2, Work(r, a))
              && var s3 := Step(s2, Work(r, a));
                 s3.all[r].pc == Idle && s3.all[r].st == round.st && Own(s3.incidents, target) == Own(round.db.incidents, target)
  {
    hide RunnerAfter, IncidentsAfter, Own, Round, RunAll, Runnable, Elsewhere, InFlight, Fits;
    var decide := Decide(input.newId, input.faults.write);
    var s1 := Step(s, Work(r, decide));
    var round := Round(s.all[r].st, Db(checks, s.incidents), s.all[r].target, input);
    StepsMakeTheRound(s, s.all[r], input, checks);
    StepKeepsInv(s, Work(r, decide));
    RunElsewhere(s1, ls, r);
    var x, s2 := s1.all[r], RunAll(s1, ls);
    DecideEnds(s, s.all[r], decide);
    if x.pc != Idle {
      SameTables(s, s1, x, input);
      LastStep(s1, s2, x, input.mailed, input.faults.reread, round);
    }
  }

  lemma DecideEnds(s: Sys, x: Runner, a: Act)
    requires CanAct(s, x, a) && a.Decide?
    ensures var x1 := RunnerAfter(s, x, a); x1.target == x.target && (x1.pc == Idle || x1.pc == Adopting || x1.pc == Mailing)
  {
  }

  /** The last step reads nothing but the incidents and whether the context has ended. */
  lemma SameTables(s: Sys, s1: Sys, x: Runner, input: Input)
    requires (x.pc == Adopting || x.pc == Mailing) && s1.shutdown == s.shutdown
    ensures var t, a := s.(incidents := s1.incidents), if x.pc == Adopting then Adopt(input.faults.reread) else Mail(input.mailed);
            RunnerAfter(t, x, a) == RunnerAfter(s1, x, a) && IncidentsAfter(t, x, a) == IncidentsAfter(s1, x, a)
  {
  }

  // ----- the steps before, and the steps of restore -----

  /** What a runner's step changes besides the runner. */
  ghost predicate Leaves(s: Sys, t: Sys, r: nat) {
    && r < |s.all| && |t.all| == |s.all| && (forall q :: 0 <= q < |s.all| && q != r ==> t.all[q] == s.all[q])
    && t.shutdown == s.shutdown && t.op == s.op && t.runners == s.runners && t.targets == s.targets
  }

  lemma TakesSlot(s: Sys, r: nat)
    requires r < |s.all| && s.all[r].pc == WantSlot && s.sem < MAX_PARALLEL
    ensures Enabled(s, Work(r, Acquire))
    ensures var t := Step(s, Work(r, Acquire));
            && Leaves(s, t, r) && t.all[r] == s.all[r].(pc := Checking) && t.sem == s.sem + 1
            && t.stats == s.stats && t.checked == s.checked && t.incidents == s.incidents
  {
  }

  lemma EndsCheck(s: Sys, r: nat, obs: Obs)
    requires r < |s.all| && s.all[r].pc == Checking && s.sem > 0
    ensures Enabled(s, Work(r, EndCheck(obs)))
    ensures var t := Step(s, Work(r, EndCheck(obs)));
            && Leaves(s, t, r) && t.all[r] == s.all[r].(pc := Judging, seen := obs) && t.sem == s.sem - 1
            && t.stats == s.stats && t.checked == s.checked && t.incidents == s.incidents
  {
  }

  lemma GoesOnToRecord(s: Sys, r: nat)
    requires r < |s.all| && s.all[r].pc == Judging && !Ended(s, s.all[r])
    ensures Enabled(s, Work(r, Judge))
    ensures Step(s, Work(r, Judge)) == s.(all := s.all[r := s.all[r].(pc := Recording)])
  {
  }

  lemma Records(s: Sys, r: nat)
    requires r < |s.all| && s.all[r].pc == Recording
    ensures Enabled(s, Work(r, Record))
    ensures var t := Step(s, Work(r, Record));
            && Leaves(s, t, r) && t.all[r] == s.all[r].(pc := Inserting) && t.sem == s.sem
            && t.stats == s.stats + {s.all[r].target.id} && t.checked == s.checked && t.incidents == s.incidents
  {
  }

  lemma InsertsRow(s: Sys, r: nat, fail: bool)
    requires r < |s.all| && s.all[r].pc == Inserting
    ensures Enabled(s, Work(r, Insert(fail)))
    ensures var t := Step(s, Work(r, Insert(fail)));
            && Leaves(s, t, r) && t.all[r] == s.all[r].(pc := Deciding) && t.sem == s.sem
            && t.stats == s.stats && t.checked == (if fail || s.all[r].target.id !in s.targets then s.checked else s.checked + {s.all[r].target.id})
            && t.incidents == s.incidents
  {
  }

  /** A called runner, undisturbed, takes a slot, checks, gives the slot back, records the result
      and stores it if the target is still there, and then decides on what it saw; StepsMakeTheRound goes on from there. */
  lemma StepsMakeTheCheck(s: Sys, r: nat, input: Input) returns (t: Sys)
    requires r < |s.all| && s.all[r].pc == WantSlot && s.sem < MAX_PARALLEL && !Ended(s, s.all[r])
    ensures var ls := [Work(r, Acquire), Work(r, EndCheck(input.Obs())), Work(r, Judge), Work(r, Record), Work(r, Insert(input.faults.insert))];
            Runnable(s, ls) && t == RunAll(s, ls)
    ensures Leaves(s, t, r) && t.all[r] == s.all[r].(pc := Deciding, seen := input.Obs()) && t.sem == s.sem
    ensures t.stats == s.stats + {s.all[r].target.id} && t.incidents == s.incidents
    ensures t.checked == if input.faults.insert || s.all[r].target.id !in s.targets then s.checked else s.checked + {s.all[r].target.id}
  {
    hide Step, Enabled;
    TakesSlot(s, r);
    var s1 := Step(s, Work(r, Acquire));
    EndsCheck(s1, r, input.Obs());
    var s2 := Step(s1, Work(r, EndCheck(input.Obs())));
    GoesOnToRecord(s2, r);
    var s3 := Step(s2, Work(r, Judge));
    Records(s3, r);
    var s4 := Step(s3, Work(r, Record));
    InsertsRow(s4, r, input.faults.insert);
    t := Step(s4, Work(r, Insert(input.faults.insert)));
    FiveSteps(s, s1, s2, s3, s4, t, Work(r, Acquire), Work(r, EndCheck(input.Obs())), Work(r, Judge), Work(r, Record),
              Work(r, Insert(input.faults.insert)));
  }

  lemma FiveSteps(s: Sys, s1: Sys, s2: Sys, s3: Sys, s4: Sys, t: Sys, a: Label, b: Label, c: Label, d: Label, e: Label)
    requires Enabled(s, a) && s1 == Step(s, a) && Enabled(s1, b) && s2 == Step(s1, b) && Enabled(s2, c) && s3 == Step(s2, c)
    requires Enabled(s3, d) && s4 == Step(s3, d) && Enabled(s4, e) && t == Step(s4, e)
    ensures Runnable(s, [a, b, c, d, e]) && RunAll(s, [a, b, c, d, e]) == t
  {
    hide Step, Enabled;
    var ls := [a, b, c, d, e];
    assert ls[1..] == [b, c, d, e] && [b, c, d, e][1..] == [c, d, e] && [c, d, e][1..] == [d, e] && [d, e][1..] == [e] && [e][1..] == [];
    assert Runnable(t, []) && RunAll(t, []) == t;
    assert Runnable(s4, [e]) && RunAll(s4, [e]) == t;
    assert Runnable(s3, [d, e]) && RunAll(s3, [d, e]) == t;
    assert Runnable(s2, [c, d, e]) && RunAll(s2, [c, d, e]) == t;
    assert Runnable(s1, [b, c, d, e]) && RunAll(s1, [b, c, d, e]) == t;
  }

  /** A check whose context ended meanwhile, and one that got no slot, leave the state as it was. */
  lemma EndedCheckIsDropped(s: Sys, x: Runner)
    requires Ended(s, x)
    ensures x.pc == Judging ==> RunnerAfter(s, x, Judge) == x.(pc := Idle, armed := false, fired := false)
    ensures x.pc == WantSlot ==> RunnerAfter(s, x, GiveUp) == x.(pc := Idle, armed := false, fired := false)
    ensures x.pc == Idle ==> RunnerAfter(s, x, Exit).pc == Done
  {
  }

  /** Whenever a runner comes back to its select, its timer is set anew, if its context has not
      ended. */
  lemma TimerIsSet(s: Sys, x: Runner, a: Act)
    requires CanAct(s, x, a) && RunnerAfter(s, x, a).pc == Idle
    ensures RunnerAfter(s, x, a).armed == !Ended(s, x) && !RunnerAfter(s, x, a).fired
  {
  }

  /** A new runner reads its open row and then the rest: the steps lead to the state that restore
      builds, and to the select. */
  lemma StepsMakeTheRestore(s: Sys, t: Target, checks: seq<Tables.Check>, f: ReadFaults, stat: bool)
    ensures var x0, built := NewRunner(t), Restored(Db(checks, s.incidents), t, f);
            && CanAct(s, x0, ReadOpen(f.open))
            && var x1 := RunnerAfter(s, x0, ReadOpen(f.open));
               var read := ReadChecks(built.fails, built.firstFail, built.cause, stat);
               && CanAct(s, x1, read) && x1.target == t
               && var x2 := RunnerAfter(s, x1, read);
                  x2.pc == Idle && x2.st == built && x2.target == t && (x2.exact <==> !f.open)
  {
    hide Newest, RunLength, FirstText, LastEnd;
  }

  /** restore makes a statistics entry for its target if it says so, and touches nothing else. */
  lemma RestoreTouches(s: Sys, r: nat, a: Act)
    requires r < |s.all| && CanAct(s, s.all[r], a) && (a.ReadOpen? || a.ReadChecks?)
    ensures var t := AfterAct(s, r, a);
            && t.stats == s.stats + (if a.ReadChecks? && a.stat then {s.all[r].target.id} else {})
            && t.incidents == s.incidents && t.sem == s.sem && t.checked == s.checked
  {
    hide RunnerAfter;
  }
}

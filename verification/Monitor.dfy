/** One round of a runner and the rebuilding of its state after a restart
    (internal/monitor/scheduler.go, round and restore), as functions of the runner's state
    and the tables, with every database write or read that may fail. */
module Monitor {
  import opened Base
  import opened Lifecycle
  import opened Tables

  /** What a runner needs of check.Target. */
  datatype Target = Target(id: int, threshold: nat)

  /** The tables a runner reads and writes. */
  datatype Db = Db(checks: seq<Check>, incidents: Incidents)

  /** Which database calls of a round fail; a failing write has no effect. */
  datatype Faults = Faults(insert: bool, write: bool, reread: bool)

  const NO_FAULT := Faults(false, false, false)

  /** Everything a round gets from outside: the clock, the check, the row id the database
      would assign, failures, and whether a mail would be sent and marked. */
  datatype Input = Input(
    at: int, ok: bool, latency: int, err: string, newId: int, faults: Faults, mailed: bool)
  {
    function Obs(): Obs { Lifecycle.Obs(ok, err, at) }

    function Row(target: int): Check { Check(target, at, ok, latency, err) }
  }

  /** The mail a round hands to the mailer. */
  datatype Alert = NoAlert
                 | DownAlert(id: int, startedAt: int, cause: string)
                 | UpAlert(id: int, startedAt: int, endedAt: int)

  datatype Outcome = Outcome(st: State, db: Db, alert: Alert)

  /** The part of a round after next said Down. */
  ghost function Announce(nst: State, db: Db, t: Target, x: Input): Outcome {
    if x.faults.write then
      Outcome(nst.(open := false), db, NoAlert)
    else if HasOpen(db.incidents, t.id) then
      if x.faults.reread then
        Outcome(nst.(open := false), db, NoAlert)
      else
        var id := OpenFor(db.incidents, t.id).value;
        Outcome(nst.(startedAt := db.incidents[id].startedAt, incident := id), db, NoAlert)
    else
      var added := Opened(db.incidents, x.newId, t.id, nst.startedAt, nst.cause);
      Outcome(nst.(incident := x.newId),
              db.(incidents := if x.mailed then Marked(added, x.newId, false) else added),
              DownAlert(x.newId, nst.startedAt, nst.cause))
  }

  /** The part of a round after next said Up. A row that is gone counts as closed. */
  ghost function Conclude(st: State, nst: State, db: Db, x: Input): Outcome {
    if x.faults.write then
      Outcome(nst.(open := true), db, NoAlert)
    else
      var closed := Closed(db.incidents, st.incident, x.at);
      Outcome(nst,
              db.(incidents := if x.mailed then Marked(closed, st.incident, true) else closed),
              UpAlert(st.incident, st.startedAt, x.at))
  }

  ghost function Round(st: State, db: Db, t: Target, x: Input): Outcome {
    var db' := if x.faults.insert then db else db.(checks := db.checks + [x.Row(t.id)]);
    var (nst, event) := Next(st, x.Obs(), t.threshold);
    match event
    case Quiet => Outcome(nst, db', NoAlert)
    case Down => Announce(nst, db', t, x)
    case Up => Conclude(st, nst, db', x)
  }

  // ----- state and table agree, whatever fails -----

  ghost predicate Owns(st: State, incidents: Incidents, t: Target) {
    && OpenRow(incidents, st.incident, t.id)
    && incidents[st.incident].startedAt == st.startedAt
  }

  /** The runner is open exactly when its target has an open row, and it is that row. */
  ghost predicate Coupled(st: State, incidents: Incidents, t: Target) {
    && OneOpenEach(incidents)
    && (st.open ==> Owns(st, incidents, t))
    && (!st.open ==> !HasOpen(incidents, t.id))
  }

  /** What is left when the first read of restore failed: the runner may have missed an
      open row, but never invents one. */
  ghost predicate Sound(st: State, incidents: Incidents, t: Target) {
    && OneOpenEach(incidents)
    && (st.open ==> Owns(st, incidents, t))
  }

  /** The database never hands out an id that is in use. */
  ghost predicate FreshId(x: Input, incidents: Incidents) {
    x.newId !in incidents
  }

  /** Open rows of targets other than t are the same in both tables. */
  ghost predicate OthersKept(before: Incidents, after: Incidents, t: Target) {
    forall id, other :: other != t.id ==> (OpenRow(after, id, other) <==> OpenRow(before, id, other))
  }

  lemma AnnounceKeepsCoupling(nst: State, db: Db, t: Target, x: Input)
    requires FreshId(x, db.incidents) && nst.open && OneOpenEach(db.incidents)
    ensures var r := Announce(nst, db, t, x);
            && Sound(r.st, r.db.incidents, t)
            && OthersKept(db.incidents, r.db.incidents, t)
            && (!HasOpen(db.incidents, t.id) || (!x.faults.write && !x.faults.reread) ==> Coupled(r.st, r.db.incidents, t))
  {
    if !x.faults.write && !HasOpen(db.incidents, t.id) {
      OpenedRows(db.incidents, x.newId, t.id, nst.startedAt, nst.cause);
      MarkedRows(Opened(db.incidents, x.newId, t.id, nst.startedAt, nst.cause), x.newId, false);
    }
  }

  lemma ConcludeKeepsCoupling(st: State, nst: State, db: Db, t: Target, x: Input)
    requires Sound(st, db.incidents, t) && st.open
    requires nst.startedAt == st.startedAt && nst.incident == st.incident && !nst.open
    ensures var r := Conclude(st, nst, db, x);
            && Coupled(r.st, r.db.incidents, t)
            && OthersKept(db.incidents, r.db.incidents, t)
  {
    ClosedRows(db.incidents, st.incident, x.at);
    MarkedRows(Closed(db.incidents, st.incident, x.at), st.incident, true);
  }

  /** Whatever the check says and whatever fails, a coupled runner stays coupled, and a
      merely sound one stays sound. Other targets' open rows are untouched. */
  lemma RoundKeepsCoupling(st: State, db: Db, t: Target, x: Input)
    requires FreshId(x, db.incidents) && Sound(st, db.incidents, t)
    ensures var r := Round(st, db, t, x);
            && Sound(r.st, r.db.incidents, t)
            && (Coupled(st, db.incidents, t) ==> Coupled(r.st, r.db.incidents, t))
            && OthersKept(db.incidents, r.db.incidents, t)
  {
    var db' := if x.faults.insert then db else db.(checks := db.checks + [x.Row(t.id)]);
    var (nst, event) := Next(st, x.Obs(), t.threshold);
    match event
    case Quiet =>
    case Down => AnnounceKeepsCoupling(nst, db', t, x);
    case Up => ConcludeKeepsCoupling(st, nst, db', t, x);
  }

  /** A sound runner that missed an open row is coupled again after the first round that
      announces an incident with working database calls: it adopts the open row. */
  lemma RoundHeals(st: State, db: Db, t: Target, x: Input)
    requires FreshId(x, db.incidents) && Sound(st, db.incidents, t)
    requires Next(st, x.Obs(), t.threshold).1 == Down && !x.faults.write && !x.faults.reread
    ensures var r := Round(st, db, t, x);
            && Coupled(r.st, r.db.incidents, t) && r.st.open
            && (HasOpen(db.incidents, t.id) ==>
                  && r.st.incident == OpenFor(db.incidents, t.id).value
                  && r.db.incidents == db.incidents
                  && r.alert == NoAlert)
  {
    var db' := if x.faults.insert then db else db.(checks := db.checks + [x.Row(t.id)]);
    AnnounceKeepsCoupling(Next(st, x.Obs(), t.threshold).0, db', t, x);
  }

  // ----- runs of rounds -----

  datatype Run = Run(st: State, db: Db, alerts: seq<Alert>)

  ghost function Play(st: State, db: Db, t: Target, xs: seq<Input>): (p: Run)
    ensures |p.alerts| == |xs|
    decreases |xs|
  {
    if xs == [] then Run(st, db, [])
    else
      var r := Round(st, db, t, xs[0]);
      var rest := Play(r.st, r.db, t, xs[1..]);
      rest.(alerts := [r.alert] + rest.alerts)
  }

  /** FreshId in every round of a run. */
  ghost predicate FreshIds(st: State, db: Db, t: Target, xs: seq<Input>)
    decreases |xs|
  {
    xs == [] || (FreshId(xs[0], db.incidents) && var r := Round(st, db, t, xs[0]); FreshIds(r.st, r.db, t, xs[1..]))
  }

  /** Over a whole run, with any results and any failing calls, the runner is open exactly
      when the table has an open row of its target, with the same id and start, and no
      target ever has two open rows. */
  lemma {:induction false} RunKeepsCoupling(st: State, db: Db, t: Target, xs: seq<Input>)
    requires FreshIds(st, db, t, xs) && Sound(st, db.incidents, t)
    ensures var p := Play(st, db, t, xs);
            && Sound(p.st, p.db.incidents, t)
            && (Coupled(st, db.incidents, t) ==> Coupled(p.st, p.db.incidents, t))
            && OthersKept(db.incidents, p.db.incidents, t)
    decreases |xs|
  {
    if xs != [] {
      RoundKeepsCoupling(st, db, t, xs[0]);
      var r := Round(st, db, t, xs[0]);
      RunKeepsCoupling(r.st, r.db, t, xs[1..]);
    }
  }

  /** An incident that could not be written is tried again on every later failure of the
      same run of failures: it is opened in the first round that reaches the threshold and
      can write, always with the first failure of the run as its start, and announced once. */
  lemma {:induction false} OpeningIsRetried(st: State, db: Db, t: Target, xs: seq<Input>, j: nat)
    requires FreshIds(st, db, t, xs) && Coupled(st, db.incidents, t) && !st.open
    requires j < |xs| && forall i :: 0 <= i < |xs| ==> !xs[i].ok
    requires forall i :: 0 <= i < j ==> xs[i].faults.write || st.fails + i + 1 < Needed(t.threshold)
    requires !xs[j].faults.write && st.fails + j + 1 >= Needed(t.threshold)
    ensures var alerts := Play(st, db, t, xs).alerts;
            var start := if st.fails == 0 then xs[0].at else st.firstFail;
            && alerts[j] == DownAlert(xs[j].newId, start, xs[j].err)
            && forall i :: 0 <= i < |xs| && i != j ==> alerts[i] == NoAlert
    decreases |xs|
  {
    var r := Round(st, db, t, xs[0]);
    RoundKeepsCoupling(st, db, t, xs[0]);
    if j > 0 {
      OpeningIsRetried(r.st, r.db, t, xs[1..], j - 1);
    } else {
      OpenStaysQuiet(r.st, r.db, t, xs[1..]);
    }
  }

  /** While an incident is open, further failures announce nothing. */
  lemma {:induction false} OpenStaysQuiet(st: State, db: Db, t: Target, xs: seq<Input>)
    requires st.open && forall i :: 0 <= i < |xs| ==> !xs[i].ok
    ensures forall i :: 0 <= i < |xs| ==> Play(st, db, t, xs).alerts[i] == NoAlert
    decreases |xs|
  {
    if xs != [] {
      OpenStaysQuiet(Round(st, db, t, xs[0]).st, Round(st, db, t, xs[0]).db, t, xs[1..]);
    }
  }

  /** The rows of a run whose insert worked, in order. */
  function Stored(t: Target, xs: seq<Input>): seq<Check>
    decreases |xs|
  {
    if xs == [] then []
    else (if xs[0].faults.insert then [] else [Check(t.id, xs[0].at, xs[0].ok, xs[0].latency, xs[0].err)]) + Stored(t, xs[1..])
  }

  /** Every check is stored exactly if its insert works, whatever else happens in its round. */
  lemma {:induction false} RunStoresChecks(st: State, db: Db, t: Target, xs: seq<Input>)
    ensures Play(st, db, t, xs).db.checks == db.checks + Stored(t, xs)
    decreases |xs|
  {
    if xs != [] {
      hide Next, Opened, Closed, Marked, HasOpen, OpenFor;
      var r := Round(st, db, t, xs[0]);
      RunStoresChecks(r.st, r.db, t, xs[1..]);
    }
  }

  /** While an incident is open and its end cannot be written, nothing is announced; the first
      success that can be written announces it with its id, its start and the time of that
      success, and the row ends then. */
  lemma {:induction false} OpenIsConcluded(st: State, db: Db, t: Target, xs: seq<Input>, m: nat)
    requires FreshIds(st, db, t, xs) && Coupled(st, db.incidents, t) && st.open && m < |xs|
    requires forall i :: 0 <= i < m && xs[i].ok ==> xs[i].faults.write
    requires xs[m].ok && !xs[m].faults.write
    ensures var alerts := Play(st, db, t, xs).alerts;
            && alerts[m] == UpAlert(st.incident, st.startedAt, xs[m].at)
            && forall i :: 0 <= i < m ==> alerts[i] == NoAlert
    ensures var after := Play(st, db, t, xs[..m + 1]).db.incidents;
            && st.incident in after
            && after[st.incident].target == t.id && after[st.incident].startedAt == st.startedAt
            && after[st.incident].endedAt == Some(xs[m].at) && after[st.incident].cause == db.incidents[st.incident].cause
    decreases |xs|
  {
    var r := Round(st, db, t, xs[0]);
    RoundKeepsCoupling(st, db, t, xs[0]);
    assert xs[..m + 1][0] == xs[0];
    if m > 0 {
      OpenRound(st, db, t, xs[0]);
      OpenIsConcluded(r.st, r.db, t, xs[1..], m - 1);
      assert xs[..m + 1][1..] == xs[1..][..m];
    } else {
      ClosingRound(st, db, t, xs[0]);
      assert xs[..1][1..] == [];
    }
  }

  lemma CoupledIsSound(st: State, incidents: Incidents, t: Target)
    requires Coupled(st, incidents, t)
    ensures Sound(st, incidents, t) && (!st.open ==> !HasOpen(incidents, t.id))
  {
  }

  lemma OpenRound(st: State, db: Db, t: Target, x: Input)
    requires Coupled(st, db.incidents, t) && st.open && (x.ok ==> x.faults.write)
    ensures var r := Round(st, db, t, x);
            && r.alert == NoAlert && r.db.incidents == db.incidents
            && r.st.open && r.st.incident == st.incident && r.st.startedAt == st.startedAt
  {
  }

  lemma ClosingRound(st: State, db: Db, t: Target, x: Input)
    requires Coupled(st, db.incidents, t) && st.open && x.ok && !x.faults.write
    ensures var r, id := Round(st, db, t, x), st.incident;
            && r.alert == UpAlert(id, st.startedAt, x.at)
            && id in r.db.incidents && r.db.incidents[id].target == t.id
            && r.db.incidents[id].startedAt == st.startedAt
            && r.db.incidents[id].endedAt == Some(x.at) && r.db.incidents[id].cause == db.incidents[id].cause
            && r.db.incidents[id].mailedUp == (x.mailed || db.incidents[id].mailedUp)
            && r.db.incidents[id].mailedDown == db.incidents[id].mailedDown
  {
  }

  lemma OpeningRound(st: State, db: Db, t: Target, x: Input)
    requires FreshId(x, db.incidents) && Coupled(st, db.incidents, t) && !st.open && !x.ok && !x.faults.write
    requires st.fails + 1 >= Needed(t.threshold)
    ensures var r := Round(st, db, t, x);
            var start := if st.fails == 0 then x.at else st.firstFail;
            && r.alert == DownAlert(x.newId, start, x.err)
            && r.st.open && r.st.incident == x.newId && r.st.startedAt == start
            && r.db.incidents == db.incidents[x.newId := Incident(t.id, start, None, x.err, x.mailed, false)]
  {
  }

  lemma WaitingRound(st: State, db: Db, t: Target, x: Input)
    requires !st.open && !HasOpen(db.incidents, t.id) && !x.ok && (x.faults.write || st.fails + 1 < Needed(t.threshold))
    ensures var r := Round(st, db, t, x);
            && r.alert == NoAlert && !r.st.open && r.db.incidents == db.incidents
            && r.st.fails == st.fails + 1 && r.st.firstFail == if st.fails == 0 then x.at else st.firstFail
  {
  }

  /** One outage from its first failure to its end: the incident is announced once, in the first
      round j that reaches the threshold and can write, and concluded once, in the first round m
      after it that succeeds and can write. Both mails and the row agree on its id, its start, the
      first failure, its cause, that of round j, and its end, the time of round m. */
  lemma {:induction false} OutageIsTold(st: State, db: Db, t: Target, xs: seq<Input>, j: nat, m: nat)
    requires FreshIds(st, db, t, xs) && Coupled(st, db.incidents, t) && !st.open && j < m < |xs|
    requires forall i :: 0 <= i <= j ==> !xs[i].ok
    requires forall i :: 0 <= i < j ==> xs[i].faults.write || st.fails + i + 1 < Needed(t.threshold)
    requires !xs[j].faults.write && st.fails + j + 1 >= Needed(t.threshold)
    requires forall i :: j < i < m && xs[i].ok ==> xs[i].faults.write
    requires xs[m].ok && !xs[m].faults.write
    ensures var alerts := Play(st, db, t, xs).alerts;
            var start := if st.fails == 0 then xs[0].at else st.firstFail;
            && alerts[j] == DownAlert(xs[j].newId, start, xs[j].err)
            && alerts[m] == UpAlert(xs[j].newId, start, xs[m].at)
            && forall i :: 0 <= i < m && i != j ==> alerts[i] == NoAlert
    ensures var after := Play(st, db, t, xs[..m + 1]).db.incidents;
            var start := if st.fails == 0 then xs[0].at else st.firstFail;
            && xs[j].newId in after && after[xs[j].newId].target == t.id && after[xs[j].newId].startedAt == start
            && after[xs[j].newId].endedAt == Some(xs[m].at) && after[xs[j].newId].cause == xs[j].err
    decreases |xs|
  {
    hide Round, Coupled, HasOpen, Sound, OthersKept, Needed;
    var r := Round(st, db, t, xs[0]);
    CoupledIsSound(st, db.incidents, t);
    RoundKeepsCoupling(st, db, t, xs[0]);
    assert xs[..m + 1][0] == xs[0] && xs[..m + 1][1..] == xs[1..][..m];
    if j > 0 {
      WaitingRound(st, db, t, xs[0]);
      OutageIsTold(r.st, r.db, t, xs[1..], j - 1, m - 1);
    } else {
      OpeningRound(st, db, t, xs[0]);
      OpenIsConcluded(r.st, r.db, t, xs[1..], m - 1);
    }
  }

  // ----- restore -----

  /** Which of the three reads of restore fail. */
  datatype ReadFaults = ReadFaults(open: bool, end: bool, last: bool)

  const READS_WORK := ReadFaults(false, false, false)

  /** How many of the newest checks restore counts: the failures at the front that came
      after the last incident's end. */
  function RunLength(last: seq<Check>, end: int): (n: nat)
    ensures n <= |last|
  {
    if last == [] || last[0].ok || last[0].at <= end then 0 else 1 + RunLength(last[1..], end)
  }

  /** The first error text that is not empty. */
  function FirstText(rows: seq<Check>): string {
    if rows == [] then "" else if rows[0].err != "" then rows[0].err else FirstText(rows[1..])
  }

  /** The state restore builds from the open row, the last end and the newest checks. */
  ghost function Rebuilt(incidents: Incidents, row: Option<int>, end: int, last: seq<Check>): State
    requires row.Some? ==> row.value in incidents
  {
    var n := RunLength(last, end);
    State(n, if n == 0 then ZERO_TIME else last[n - 1].at, FirstText(last[..n]),
          row.Some?,
          if row.Some? then incidents[row.value].startedAt else ZERO_TIME,
          if row.Some? then row.value else 0)
  }

  ghost function Restored(db: Db, t: Target, f: ReadFaults): State {
    Rebuilt(db.incidents,
            if f.open then None else OpenFor(db.incidents, t.id),
            if f.end then ZERO_TIME else LastEnd(db.incidents, t.id),
            if f.last then [] else Newest(db.checks, t.id, t.threshold))
  }

  /** After a restart the runner is coupled when the open incident could be read, and sound
      in any case. */
  lemma RestoredIsCoupled(db: Db, t: Target, f: ReadFaults)
    requires OneOpenEach(db.incidents)
    ensures Sound(Restored(db, t, f), db.incidents, t)
    ensures !f.open ==> Coupled(Restored(db, t, f), db.incidents, t)
  {
  }
}

/** The passes of retry over a table that statements change in between
    (internal/monitor/maintenance.go and internal/store/incidents.go): which incident a mail is
    about, when row ids are reused and when they are not. */
module MailTable {
  import opened Base
  import opened Tables
  import opened Retry

  /** Every statement that changes incidents; Insert is an OpenIncident that adds a row. */
  datatype Stmt =
    | Insert(id: int, target: int, at: int, cause: string)
    | Close(id: int, at: int)
    | ClosePaused(target: int, now: int)
    | Mark(id: int, up: bool)
    | Prune(before: int)
    | DeleteTarget(target: int)

  /** The table, and the serial number of the incident under each id: that of its insert. */
  datatype Tab = Tab(rows: Incidents, born: map<int, nat>, n: nat)

  function Exec(t: Tab, s: Stmt): Tab {
    match s
    case Insert(id, target, at, cause) => Tab(Opened(t.rows, id, target, at, cause), t.born[id := t.n], t.n + 1)
    case Close(id, at) => t.(rows := Closed(t.rows, id, at))
    case ClosePaused(target, now) => t.(rows := ClosedPaused(t.rows, target, now))
    case Mark(id, up) => t.(rows := Marked(t.rows, id, up))
    case Prune(before) => t.(rows := PrunedIncidents(t.rows, before))
    case DeleteTarget(target) => t.(rows := map i | i in t.rows && t.rows[i].target != target :: t.rows[i])
  }

  /** The database hands out an id that no row has, to a target without an open row. */
  predicate Can(t: Tab, s: Stmt) {
    s.Insert? ==> s.id !in t.rows && !HasOpen(t.rows, s.target)
  }

  function ExecAll(t: Tab, ss: seq<Stmt>): Tab {
    if ss == [] then t else Exec(ExecAll(t, ss[..|ss| - 1]), ss[|ss| - 1])
  }

  predicate CanAll(t: Tab, ss: seq<Stmt>) {
    ss == [] || (CanAll(t, ss[..|ss| - 1]) && Can(ExecAll(t, ss[..|ss| - 1]), ss[|ss| - 1]))
  }

  ghost predicate Numbered(t: Tab) {
    forall id :: id in t.rows ==> id in t.born && t.born[id] < t.n
  }

  predicate Inserts(ss: seq<Stmt>, id: int) {
    exists j :: 0 <= j < |ss| && ss[j].Insert? && ss[j].id == id
  }

  lemma InsertsMore(ss: seq<Stmt>, s: Stmt, id: int)
    ensures Inserts(ss + [s], id) <==> Inserts(ss, id) || (s.Insert? && s.id == id)
  {
    var all := ss + [s];
    assert all[|ss|] == s;
    assert forall j :: 0 <= j < |ss| ==> all[j] == ss[j];
  }

  /** A statement that does not insert id keeps the incident under id, or removes it. */
  lemma StatementKeeps(t: Tab, s: Stmt, id: int)
    requires Can(t, s) && id in Exec(t, s).rows && !(s.Insert? && s.id == id)
    ensures Grown(t.rows, Exec(t, s).rows, id)
    ensures id in t.born ==> id in Exec(t, s).born && Exec(t, s).born[id] == t.born[id]
  {
  }

  /** What each statement makes of the row under an id, column by column. */
  lemma StatementDoes(t: Tab, s: Stmt, id: int)
    ensures var rows, after := t.rows, Exec(t, s).rows;
            match s
            case Insert(i, target, at, cause) =>
              if id == i then id in after && after[id] == Incident(target, at, None, cause, false, false)
              else Same(rows, after, id)
            case Close(i, at) =>
              if id == i && id in rows && rows[id].endedAt.None? then id in after && after[id] == rows[id].(endedAt := Some(at))
              else Same(rows, after, id)
            case ClosePaused(target, now) =>
              if id in rows && rows[id].target == target && rows[id].endedAt.None?
              then id in after && after[id] == rows[id].(endedAt := Some(now), mailedDown := true, mailedUp := true)
              else Same(rows, after, id)
            case Mark(i, up) =>
              if id == i && id in rows && (up ==> rows[id].endedAt.Some?)
              then id in after && after[id] == (if up then rows[id].(mailedUp := true) else rows[id].(mailedDown := true))
              else Same(rows, after, id)
            case Prune(before) =>
              if id in rows && rows[id].endedAt.Some? && rows[id].endedAt.value < before then id !in after
              else Same(rows, after, id)
            case DeleteTarget(target) =>
              if id in rows && rows[id].target == target then id !in after else Same(rows, after, id)
  {
  }

  /** Both tables have the same row under this id, or none. */
  predicate Same(a: Incidents, b: Incidents, id: int) {
    (id in a <==> id in b) && (id in a ==> a[id] == b[id])
  }

  lemma StatementNumbers(t: Tab, s: Stmt)
    requires Numbered(t)
    ensures Numbered(Exec(t, s)) && t.n <= Exec(t, s).n
  {
  }

  lemma GrownIsSame(a: Incidents, b: Incidents, id: int)
    ensures Grown(a, b, id) ==> SameIncident(a, b, id)
  {
  }

  lemma GrownFurther(a: Incidents, b: Incidents, c: Incidents, id: int)
    requires Grown(a, b, id) && Grown(b, c, id)
    ensures Grown(a, c, id)
  {
  }

  lemma GrownSame(a: Incidents, id: int)
    requires id in a
    ensures Grown(a, a, id)
  {
  }

  /** What any statements leave under an id: an incident inserted by them, with a new serial number,
      or the one that was there before, grown. */
  lemma {:induction false} StatementsKeep(t: Tab, ss: seq<Stmt>, id: int)
    requires Numbered(t) && CanAll(t, ss)
    ensures var u := ExecAll(t, ss);
            && Numbered(u) && t.n <= u.n
            && (id in u.rows ==>
                  if Inserts(ss, id) then t.n <= u.born[id]
                  else Grown(t.rows, u.rows, id) && u.born[id] == t.born[id])
  {
    hide Exec, Can, Inserts, Grown;
    if ss == [] {
      if id in t.rows {
        GrownSame(t.rows, id);
      }
      NoInserts(id);
    } else {
      var front, s := ss[..|ss| - 1], ss[|ss| - 1];
      assert ss == front + [s];
      StatementsKeep(t, front, id);
      InsertsMore(front, s, id);
      var m := ExecAll(t, front);
      StatementNumbers(m, s);
      if id in Exec(m, s).rows {
        if s.Insert? && s.id == id {
          InsertNumbers(m, s);
        } else {
          StatementKeeps(m, s, id);
          GrownIsThere(m.rows, Exec(m, s).rows, id);
          if !Inserts(front, id) {
            GrownFurther(t.rows, m.rows, Exec(m, s).rows, id);
          }
        }
      }
    }
  }

  lemma NoInserts(id: int)
    ensures !Inserts([], id)
  {
  }

  lemma GrownIsThere(a: Incidents, b: Incidents, id: int)
    requires Grown(a, b, id)
    ensures id in a && id in b
  {
  }

  lemma InsertNumbers(t: Tab, s: Stmt)
    requires s.Insert?
    ensures s.id in Exec(t, s).born && Exec(t, s).born[s.id] == t.n
  {
  }

  // ----- runs -----

  /** The statements since the pass before, and what the pass itself sees and hears. Marks that a
      pass sets come after its list was read. */
  datatype Pass = Pass(before: seq<Stmt>, now: int, answers: map<MailKey, Answer>)

  /** The table that pass i reads; before the first pass it is start. */
  function TabAt(start: Tab, run: seq<Pass>, i: nat): Tab
    requires i <= |run|
  {
    if i == 0 then start else ExecAll(TabAt(start, run, i - 1), run[i - 1].before)
  }

  ghost predicate Legal(start: Tab, run: seq<Pass>) {
    && Numbered(start)
    && (forall i :: 0 <= i < |run| ==> CanAll(TabAt(start, run, i), run[i].before))
    && (forall i :: 0 < i < |run| ==> run[i - 1].now <= run[i].now)
  }

  function Rounds(start: Tab, run: seq<Pass>): seq<Round> {
    seq(|run|, i requires 0 <= i < |run| => Round(TabAt(start, run, i + 1).rows, run[i].now, run[i].answers))
  }

  /** The serial number of the incident that pass i finds under an id. */
  function Serial(start: Tab, run: seq<Pass>, i: nat, id: int): nat
    requires i < |run|
  {
    var t := TabAt(start, run, i + 1);
    if id in t.born then t.born[id] else 0
  }

  lemma {:induction false} LegalNumbers(start: Tab, run: seq<Pass>, i: nat)
    requires Legal(start, run) && i <= |run|
    ensures Numbered(TabAt(start, run, i))
  {
    if i > 0 {
      LegalNumbers(start, run, i - 1);
      StatementsKeep(TabAt(start, run, i - 1), run[i - 1].before, 0);
    }
  }

  /** From one pass to the next, what an id has is a new incident if it was inserted, or else the
      same one, grown. */
  lemma PassStep(start: Tab, run: seq<Pass>, i: nat, id: int)
    requires Legal(start, run) && i < |run|
    ensures var t, u := TabAt(start, run, i), TabAt(start, run, i + 1);
            && Numbered(t) && Numbered(u) && t.n <= u.n
            && (id in u.rows ==>
                  if Inserts(run[i].before, id) then id in u.born && t.n <= u.born[id]
                  else Grown(t.rows, u.rows, id) && id in t.rows && id in t.born && id in u.born && u.born[id] == t.born[id])
  {
    hide Inserts, Grown, ExecAll, CanAll;
    var t := TabAt(start, run, i);
    LegalNumbers(start, run, i);
    StatementsKeep(t, run[i].before, id);
    if id in TabAt(start, run, i + 1).rows && !Inserts(run[i].before, id) {
      GrownIsThere(t.rows, TabAt(start, run, i + 1).rows, id);
    }
  }

  // ----- the incident of an attempt -----

  /** Exactly when a mail is tried about an incident that the pass before did not see: its id was
      inserted in between. Otherwise it is the one of the same target and start. */
  lemma FirstSightIsReuse(start: Tab, run: seq<Pass>, pendings: seq<Pending>, i: nat, k: MailKey)
    requires Legal(start, run) && Run(Rounds(start, run), pendings) && i < |run|
    requires TriedIn(Rounds(start, run), pendings, i, k)
    ensures i > 0 && k.incident in TabAt(start, run, i).rows
    ensures Serial(start, run, i, k.incident) == Serial(start, run, i - 1, k.incident) <==> !Inserts(run[i].before, k.incident)
    ensures Serial(start, run, i, k.incident) == Serial(start, run, i - 1, k.incident) ==>
              SameIncident(TabAt(start, run, i).rows, TabAt(start, run, i + 1).rows, k.incident)
  {
    hide Run, Inserts, TabAt, Legal, Grown;
    var rounds := Rounds(start, run);
    NotOnFirstSight(rounds, pendings, i, k);
    PassStep(start, run, i, k.incident);
    PassStep(start, run, i - 1, k.incident);
    GrownIsSame(TabAt(start, run, i).rows, TabAt(start, run, i + 1).rows, k.incident);
  }

  /** Some attempt was spent on k before pass i, and every pass since has listed it. */
  ghost predicate SpentSince(rounds: seq<Round>, pendings: seq<Pending>, i: nat, k: MailKey)
    requires i <= |rounds| && |pendings| == |rounds| + 1
  {
    exists m: nat :: m < i && Spent(rounds, pendings, m, k) && forall q :: m <= q < i ==> ListedIn(rounds, q, k)
  }

  /** What pending remembers: the keys of the last pass, and whether an attempt was spent on one
      since it has been listed without a gap. */
  lemma {:induction false} PendingRemembers(rounds: seq<Round>, pendings: seq<Pending>, i: nat, k: MailKey)
    requires Run(rounds, pendings) && i <= |rounds|
    ensures k in pendings[i] <==> i > 0 && ListedIn(rounds, i - 1, k)
    ensures k in pendings[i] ==> (pendings[i][k] <==> SpentSince(rounds, pendings, i, k))
  {
    if i > 0 {
      hide Listed;
      PendingRemembers(rounds, pendings, i - 1, k);
      assert Passed(pendings[i - 1], pendings[i], rounds[i - 1].tbl, rounds[i - 1].Since(), rounds[i - 1].answers);
      if ListedIn(rounds, i - 1, k) {
        SpentStep(rounds, pendings, i, k);
      }
    }
  }

  lemma SpentStep(rounds: seq<Round>, pendings: seq<Pending>, i: nat, k: MailKey)
    requires 0 < i <= |rounds| && |pendings| == |rounds| + 1 && ListedIn(rounds, i - 1, k)
    ensures SpentSince(rounds, pendings, i, k) <==>
            Spent(rounds, pendings, i - 1, k) || SpentSince(rounds, pendings, i - 1, k)
  {
    hide Spent, ListedIn;
    if SpentSince(rounds, pendings, i - 1, k) {
      var m: nat :| m < i - 1 && Spent(rounds, pendings, m, k) && forall q :: m <= q < i - 1 ==> ListedIn(rounds, q, k);
      assert forall q :: m <= q < i ==> ListedIn(rounds, q, k);
    }
    if Spent(rounds, pendings, i - 1, k) {
      assert forall q :: i - 1 <= q < i ==> ListedIn(rounds, q, k);
    }
  }

  /** If pass i tries k, it is about the incident that the pass before saw. */
  ghost predicate Known(start: Tab, run: seq<Pass>, pendings: seq<Pending>, i: nat, k: MailKey)
    requires i < |run| && |pendings| == |run| + 1
  {
    TriedIn(Rounds(start, run), pendings, i, k) ==>
      i > 0 && Serial(start, run, i, k.incident) == Serial(start, run, i - 1, k.incident)
  }

  /** The passes i - 1 and i list the same mail, no attempt has been spent on it since it has been
      listed without a gap, and its id was inserted in between. */
  ghost predicate Mixed(start: Tab, run: seq<Pass>, pendings: seq<Pending>, i: nat, k: MailKey)
    requires i < |run| && |pendings| == |run| + 1
  {
    var rounds := Rounds(start, run);
    i > 0 && ListedIn(rounds, i - 1, k) && ListedIn(rounds, i, k) && Inserts(run[i].before, k.incident)
    && !SpentSince(rounds, pendings, i, k)
  }

  lemma KnownOrMixed(start: Tab, run: seq<Pass>, pendings: seq<Pending>, i: nat, k: MailKey)
    requires Legal(start, run) && Run(Rounds(start, run), pendings) && i < |run|
    ensures Known(start, run, pendings, i, k) <==> !Mixed(start, run, pendings, i, k)
  {
    hide Serial, SpentSince, Inserts, Listed, Passed, CanAll, TabAt;
    PendingRemembers(Rounds(start, run), pendings, i, k);
    if TriedIn(Rounds(start, run), pendings, i, k) {
      FirstSightIsReuse(start, run, pendings, i, k);
    }
  }

  /** Over a whole run every attempt is about the incident that the pass before saw, if and only if
      between two passes that list the same mail with no attempt spent on it, its id is never
      inserted. */
  lemma NeverOnFirstSight(start: Tab, run: seq<Pass>, pendings: seq<Pending>)
    requires Legal(start, run) && Run(Rounds(start, run), pendings)
    ensures (forall i: nat, k :: i < |run| ==> Known(start, run, pendings, i, k))
            <==> (forall i: nat, k :: i < |run| ==> !Mixed(start, run, pendings, i, k))
  {
    forall i: nat, k | i < |run| ensures Known(start, run, pendings, i, k) <==> !Mixed(start, run, pendings, i, k) {
      KnownOrMixed(start, run, pendings, i, k);
    }
  }

  // ----- a lost mail is tried again -----

  /** Exactly when pass i tries a mail: it and the pass before list it, and no attempt has been spent
      on it since it has been listed without a gap. */
  lemma TriedExactly(start: Tab, run: seq<Pass>, pendings: seq<Pending>, i: nat, k: MailKey)
    requires Run(Rounds(start, run), pendings) && i < |run|
    ensures var rounds := Rounds(start, run);
            TriedIn(rounds, pendings, i, k) <==>
            i > 0 && ListedIn(rounds, i - 1, k) && ListedIn(rounds, i, k) && !SpentSince(rounds, pendings, i, k)
  {
    hide Listed, Passed, TabAt, SpentSince;
    PendingRemembers(Rounds(start, run), pendings, i, k);
  }

  ghost predicate NeverSpent(start: Tab, run: seq<Pass>, pendings: seq<Pending>, i: nat, k: MailKey)
    requires i <= |run| && |pendings| == |run| + 1
  {
    forall m: nat :: m < i ==> !Spent(Rounds(start, run), pendings, m, k)
  }

  lemma NeverSpentSince(start: Tab, run: seq<Pass>, pendings: seq<Pending>, i: nat, k: MailKey)
    requires i <= |run| && |pendings| == |run| + 1 && NeverSpent(start, run, pendings, i, k)
    ensures !SpentSince(Rounds(start, run), pendings, i, k)
  {
    hide Rounds;
  }

  /** A lost mail about an end: if two passes in a row find the same incident, ended within the last
      day and not marked, and no attempt was spent on that mail, the second pass tries it. */
  lemma LostEndIsTold(start: Tab, run: seq<Pass>, pendings: seq<Pending>, i: nat, id: int)
    requires Legal(start, run) && Run(Rounds(start, run), pendings) && 0 < i < |run|
    requires id in TabAt(start, run, i + 1).rows && !Inserts(run[i].before, id)
    requires var row := TabAt(start, run, i + 1).rows[id];
             row.endedAt.Some? && !row.mailedUp && row.endedAt.value >= run[i].now - 86400
    requires id in TabAt(start, run, i).rows && TabAt(start, run, i).rows[id].endedAt.Some?
    requires NeverSpent(start, run, pendings, i, MailKey(id, true))
    ensures TriedIn(Rounds(start, run), pendings, i, MailKey(id, true))
  {
    hide Passed, TabAt, Listed, Inserts, NeverSpent, Legal, SpentSince;
    var k := MailKey(id, true);
    PassStep(start, run, i, id);
    ClockStep(start, run, i);
    ListedMeans(TabAt(start, run, i).rows, run[i - 1].now - RETRY_WINDOW, k);
    ListedMeans(TabAt(start, run, i + 1).rows, run[i].now - RETRY_WINDOW, k);
    NeverSpentSince(start, run, pendings, i, k);
    TriedExactly(start, run, pendings, i, k);
  }

  /** A lost mail about a start: the same for an incident that is open, started within the last day
      and is not marked. */
  lemma LostStartIsTold(start: Tab, run: seq<Pass>, pendings: seq<Pending>, i: nat, id: int)
    requires Legal(start, run) && Run(Rounds(start, run), pendings) && 0 < i < |run|
    requires id in TabAt(start, run, i + 1).rows && !Inserts(run[i].before, id)
    requires var row := TabAt(start, run, i + 1).rows[id];
             row.endedAt.None? && !row.mailedDown && row.startedAt >= run[i].now - 86400
    requires NeverSpent(start, run, pendings, i, MailKey(id, false))
    ensures TriedIn(Rounds(start, run), pendings, i, MailKey(id, false))
  {
    hide Passed, TabAt, Listed, Inserts, NeverSpent, Legal, SpentSince;
    var k := MailKey(id, false);
    PassStep(start, run, i, id);
    ClockStep(start, run, i);
    ListedMeans(TabAt(start, run, i).rows, run[i - 1].now - RETRY_WINDOW, k);
    ListedMeans(TabAt(start, run, i + 1).rows, run[i].now - RETRY_WINDOW, k);
    NeverSpentSince(start, run, pendings, i, k);
    TriedExactly(start, run, pendings, i, k);
  }

  /** And nothing else is tried: a mail about an end that is not marked, or about the start of an
      open incident that is not marked, with a start or end within the last day. */
  lemma OnlyLostIsTried(start: Tab, run: seq<Pass>, pendings: seq<Pending>, i: nat, k: MailKey)
    requires Run(Rounds(start, run), pendings) && i < |run| && TriedIn(Rounds(start, run), pendings, i, k)
    ensures k.incident in TabAt(start, run, i + 1).rows
    ensures var row, since := TabAt(start, run, i + 1).rows[k.incident], run[i].now - 86400;
            if k.up then row.endedAt.Some? && !row.mailedUp && (row.endedAt.value >= since || (!row.mailedDown && row.startedAt >= since))
            else row.endedAt.None? && !row.mailedDown && row.startedAt >= since
  {
    hide Run, TabAt, Listed;
    ListedMeans(TabAt(start, run, i + 1).rows, run[i].now - RETRY_WINDOW, k);
  }

  lemma ClockStep(start: Tab, run: seq<Pass>, i: nat)
    requires Legal(start, run) && 0 < i < |run|
    ensures run[i - 1].now <= run[i].now
  {
  }

  // ----- one attempt per incident, one attempt per id -----

  lemma {:induction false} CountsUp(start: Tab, run: seq<Pass>, i: nat, j: nat)
    requires Legal(start, run) && i <= j <= |run|
    ensures TabAt(start, run, i).n <= TabAt(start, run, j).n
  {
    hide TabAt, Legal;
    if i < j {
      CountsUp(start, run, i, j - 1);
      PassStep(start, run, j - 1, 0);
    }
  }

  /** From pass i on to pass j an id has one incident. */
  ghost predicate Stays(start: Tab, run: seq<Pass>, i: nat, j: nat, id: int)
    requires i <= j < |run|
  {
    forall m :: i < m <= j ==> Grown(TabAt(start, run, m).rows, TabAt(start, run, m + 1).rows, id)
  }

  /** An id has the same incident in two passes only if it was there all the time. */
  lemma {:induction false} SameSerial(start: Tab, run: seq<Pass>, i: nat, j: nat, id: int)
    requires Legal(start, run) && i <= j < |run| && id in TabAt(start, run, j + 1).rows
    requires Serial(start, run, j, id) < TabAt(start, run, i + 1).n
    ensures Stays(start, run, i, j, id)
  {
    hide TabAt, Legal, Inserts, Grown;
    if i < j {
      PassStep(start, run, j, id);
      CountsUp(start, run, i + 1, j);
      SameSerial(start, run, i, j - 1, id);
    }
  }

  /** Whether ids are reused or not: over all passes at most one attempt per incident and
      direction is not turned away by the limit. */
  lemma AtMostOneAttemptPerIncident(start: Tab, run: seq<Pass>, pendings: seq<Pending>, i: nat, j: nat, k: MailKey)
    requires Legal(start, run) && Run(Rounds(start, run), pendings) && i < |run| && j < |run|
    requires Spent(Rounds(start, run), pendings, i, k) && Spent(Rounds(start, run), pendings, j, k)
    requires Serial(start, run, i, k.incident) == Serial(start, run, j, k.incident)
    ensures i == j
  {
    if i < j {
      NotAgain(start, run, pendings, i, j, k);
    } else if j < i {
      NotAgain(start, run, pendings, j, i, k);
    }
  }

  lemma NotAgain(start: Tab, run: seq<Pass>, pendings: seq<Pending>, i: nat, j: nat, k: MailKey)
    requires Legal(start, run) && Run(Rounds(start, run), pendings) && i < j < |run|
    requires Spent(Rounds(start, run), pendings, i, k)
    requires Serial(start, run, i, k.incident) == Serial(start, run, j, k.incident)
    ensures !TriedIn(Rounds(start, run), pendings, j, k)
  {
    hide Legal, Passed, TabAt, Listed, Serial, TriedIn;
    TriedIsThere(Rounds(start, run), pendings, i, k);
    if TriedIn(Rounds(start, run), pendings, j, k) {
      TriedIsThere(Rounds(start, run), pendings, j, k);
      SerialIsOld(start, run, i, k.incident);
      SameSerial(start, run, i, j, k.incident);
      StaysInRounds(start, run, i, j, k.incident);
      OnceWhileGrown(Rounds(start, run), pendings, i, j, k);
    }
  }

  lemma TriedIsThere(rounds: seq<Round>, pendings: seq<Pending>, i: nat, k: MailKey)
    requires i < |rounds| && |pendings| == |rounds| + 1 && TriedIn(rounds, pendings, i, k)
    ensures k.incident in rounds[i].tbl
  {
  }

  lemma SerialIsOld(start: Tab, run: seq<Pass>, i: nat, id: int)
    requires Legal(start, run) && i < |run| && id in TabAt(start, run, i + 1).rows
    ensures Serial(start, run, i, id) < TabAt(start, run, i + 1).n
  {
    hide TabAt, Legal;
    PassStep(start, run, i, id);
  }

  lemma StaysInRounds(start: Tab, run: seq<Pass>, i: nat, j: nat, id: int)
    requires Legal(start, run) && i < j < |run| && Stays(start, run, i, j, id)
    ensures var rounds := Rounds(start, run);
            forall m :: i <= m < j ==> Grown(rounds[m].tbl, rounds[m + 1].tbl, id) && rounds[m].now <= rounds[m + 1].now
  {
    hide TabAt, Grown;
    var rounds := Rounds(start, run);
    ClockRuns(start, run, i, j);
    forall m | i <= m < j ensures Grown(rounds[m].tbl, rounds[m + 1].tbl, id) && rounds[m].now <= rounds[m + 1].now {
      assert Grown(TabAt(start, run, m + 1).rows, TabAt(start, run, m + 1 + 1).rows, id);
    }
  }

  lemma ClockRuns(start: Tab, run: seq<Pass>, i: nat, j: nat)
    requires Legal(start, run) && i <= j < |run|
    ensures forall m :: i <= m < j ==> run[m].now <= run[m + 1].now
  {
    forall m | i <= m < j ensures run[m].now <= run[m + 1].now {
      assert run[m + 1 - 1].now <= run[m + 1].now;
    }
  }

  /** Some row had the id before the statements of pass i. */
  ghost predicate WasHanded(start: Tab, run: seq<Pass>, i: nat, id: int)
    requires i <= |run|
  {
    id in start.rows || exists m :: 0 <= m < i && Inserts(run[m].before, id)
  }

  /** No id is inserted again once a pass could have seen it. */
  ghost predicate NeverReuses(start: Tab, run: seq<Pass>) {
    forall i: nat, id :: i < |run| && Inserts(run[i].before, id) ==> !WasHanded(start, run, i, id)
  }

  lemma {:induction false} RowsWereHanded(start: Tab, run: seq<Pass>, i: nat, id: int)
    requires Legal(start, run) && i <= |run| && id in TabAt(start, run, i).rows
    ensures WasHanded(start, run, i, id)
  {
    hide Inserts, Legal, Grown;
    if i > 0 {
      hide TabAt;
      PassStep(start, run, i - 1, id);
      if !Inserts(run[i - 1].before, id) {
        RowsWereHanded(start, run, i - 1, id);
      }
    }
  }

  /** When ids are not reused, every attempt is about the incident that the pass before saw. */
  lemma TriedIsKnown(start: Tab, run: seq<Pass>, pendings: seq<Pending>, i: nat, k: MailKey)
    requires Legal(start, run) && NeverReuses(start, run) && Run(Rounds(start, run), pendings) && i < |run|
    requires TriedIn(Rounds(start, run), pendings, i, k)
    ensures i > 0 && Serial(start, run, i, k.incident) == Serial(start, run, i - 1, k.incident)
    ensures SameIncident(TabAt(start, run, i).rows, TabAt(start, run, i + 1).rows, k.incident)
  {
    hide Legal, Rounds, TabAt, WasHanded, Inserts, Run, Serial;
    FirstSightIsReuse(start, run, pendings, i, k);
    RowsWereHanded(start, run, i, k.incident);
  }

  lemma {:induction false} UsedMeans(rounds: seq<Round>, id: int) returns (i: nat)
    requires id in Used(rounds)
    ensures i < |rounds| && id in rounds[i].tbl
  {
    var n := |rounds| - 1;
    if id in rounds[n].tbl {
      i := n;
    } else {
      i := UsedMeans(rounds[..n], id);
    }
  }

  lemma {:induction false} TabPrefix(start: Tab, run: seq<Pass>, n: nat, i: nat)
    requires i <= n <= |run|
    ensures TabAt(start, run[..n], i) == TabAt(start, run, i)
  {
    hide ExecAll;
    if i > 0 {
      TabPrefix(start, run, n, i - 1);
    }
  }

  lemma HandedStays(start: Tab, run: seq<Pass>, i: nat, j: nat, id: int)
    requires i <= j <= |run| && WasHanded(start, run, i, id)
    ensures WasHanded(start, run, j, id)
  {
  }

  /** Tables that these statements lead to change as Evolves says, when ids are not reused. */
  lemma StatementsEvolve(start: Tab, run: seq<Pass>, n: nat)
    requires Legal(start, run) && NeverReuses(start, run) && 0 < n < |run|
    ensures Evolves(TabAt(start, run, n).rows, TabAt(start, run, n + 1).rows, Used(Rounds(start, run)[..n]))
  {
    hide Grown, Inserts, WasHanded, TabAt, Legal, Used;
    var rounds := Rounds(start, run);
    var a, b, used := TabAt(start, run, n), TabAt(start, run, n + 1), Used(rounds[..n]);
    UsedContains(rounds[..n], n - 1);
    forall id | id in b.rows && (id in used || id in a.rows) ensures id in a.rows && Grown(a.rows, b.rows, id) {
      assert WasHanded(start, run, n, id) by {
        var i := UsedMeans(rounds[..n], id);
        RowsWereHanded(start, run, i + 1, id);
        HandedStays(start, run, i + 1, n, id);
      }
      PassStep(start, run, n, id);
    }
  }

  /** So all that Retry proves of orderly rounds holds of such runs. */
  lemma {:induction false} NoReuseIsOrderly(start: Tab, run: seq<Pass>, n: nat)
    requires Legal(start, run) && NeverReuses(start, run) && n <= |run|
    ensures Orderly(Rounds(start, run)[..n])
  {
    hide Evolves, NeverReuses, TabAt;
    var rounds := Rounds(start, run);
    if n >= 2 {
      NoReuseIsOrderly(start, run, n - 1);
      assert rounds[..n][..n - 1] == rounds[..n - 1];
      StatementsEvolve(start, run, n - 1);
    }
  }

  /** Without that promise a mail can be tried on the first sight of its incident: the target is
      deleted, and the next incident, of another target, gets the id of its incident. */
  lemma ReusedIdIsTriedAtOnce() returns (run: seq<Pass>, pendings: seq<Pending>, k: MailKey)
    ensures var start := Tab(map[], map[], 0);
            && Legal(start, run) && Run(Rounds(start, run), pendings) && |run| == 2
            && TriedIn(Rounds(start, run), pendings, 1, k) && !Known(start, run, pendings, 1, k)
  {
    hide Exec, Can, ExecAll, CanAll, Listed;
    var now, start := 10 * DAY, Tab(map[], map[], 0);
    k := MailKey(1, false);
    run := [Pass(First(now), now, map[]), Pass(Second(now), now + 300, map[k := Sent])];
    pendings := [map[], map[k := false], map[k := true]];
    FirstTable(now);
    SecondTable(now);
    assert TabAt(start, run, 1) == OneOpen(now);
    assert TabAt(start, run, 2) == NextOpen(now);
    var rounds := Rounds(start, run);
    LoneListed(OneOpen(now).rows, rounds[0].Since(), now);
    LoneListed(NextOpen(now).rows, rounds[1].Since(), now + 200);
    assert Passed(pendings[0], pendings[1], rounds[0].tbl, rounds[0].Since(), rounds[0].answers);
    assert Passed(pendings[1], pendings[2], rounds[1].tbl, rounds[1].Since(), rounds[1].answers);
  }

  function First(now: int): seq<Stmt> {
    [Insert(1, 1, now, "")]
  }

  function Second(now: int): seq<Stmt> {
    [DeleteTarget(1), Insert(1, 2, now + 200, "")]
  }

  function OneOpen(now: int): Tab {
    Tab(map[1 := Incident(1, now, None, "", false, false)], map[1 := 0], 1)
  }

  function NextOpen(now: int): Tab {
    Tab(map[1 := Incident(2, now + 200, None, "", false, false)], map[1 := 1], 2)
  }

  lemma FirstTable(now: int)
    ensures CanAll(Tab(map[], map[], 0), First(now)) && ExecAll(Tab(map[], map[], 0), First(now)) == OneOpen(now)
  {
    var t, ss := Tab(map[], map[], 0), First(now);
    assert ss[..0] == [];
    assert CanAll(t, ss[..0]) && ExecAll(t, ss[..0]) == t;
    assert Exec(t, ss[0]) == OneOpen(now);
  }

  lemma SecondTable(now: int)
    ensures CanAll(OneOpen(now), Second(now)) && ExecAll(OneOpen(now), Second(now)) == NextOpen(now)
  {
    var t, ss := OneOpen(now), Second(now);
    var one := ss[..|ss| - 1];
    assert one == [ss[0]] && one[..|one| - 1] == [];
    var u := Exec(t, ss[0]);
    assert u == Tab(map[], map[1 := 0], 1);
    assert CanAll(t, one[..|one| - 1]) && ExecAll(t, one[..|one| - 1]) == t;
    assert CanAll(t, one) && ExecAll(t, one) == u;
    assert Exec(u, ss[1]) == NextOpen(now);
  }

  lemma LoneListed(rows: Incidents, since: int, at: int)
    requires rows.Keys == {1} && rows[1].endedAt.None? && !rows[1].mailedDown && rows[1].startedAt == at >= since
    ensures forall q :: Listed(rows, since, q) <==> q == MailKey(1, false)
  {
  }
}

/** The tables checks and incidents (internal/store/migrations/0001_init.sql) as values,
    and the SQL statements on them as functions: one statement, one function. */
module Tables {
  import opened Base

  // ----- checks -----

  /** A row of checks. A table is the sequence of its rows in insertion (row id) order. */
  datatype Check = Check(target: int, at: int, ok: bool, latency: int, err: string)

  function Of(checks: seq<Check>, target: int): seq<Check> {
    Filter(checks, (c: Check) => c.target == target)
  }

  /** c goes behind every row that is not later. */
  function Place(s: seq<Check>, c: Check): (r: seq<Check>)
    ensures |r| == |s| + 1
    ensures multiset(r) == multiset(s) + multiset{c}
  {
    if s == [] || s[|s| - 1].at <= c.at then s + [c]
    else
      assert s == s[..|s| - 1] + [s[|s| - 1]];
      Place(s[..|s| - 1], c) + [s[|s| - 1]]
  }

  /** order by at, id */
  function ByTime(s: seq<Check>): (r: seq<Check>)
    ensures |r| == |s|
    ensures multiset(r) == multiset(s)
  {
    if s == [] then []
    else
      assert s == s[..|s| - 1] + [s[|s| - 1]];
      Place(ByTime(s[..|s| - 1]), s[|s| - 1])
  }

  function Reverse<T>(s: seq<T>): (r: seq<T>)
    ensures |r| == |s|
  {
    if s == [] then [] else [s[|s| - 1]] + Reverse(s[..|s| - 1])
  }

  function Take<T>(s: seq<T>, n: nat): seq<T> {
    if n <= |s| then s[..n] else s
  }

  /** LastChecks: order by at desc, id desc limit n. */
  function Newest(checks: seq<Check>, target: int, n: nat): seq<Check> {
    Take(Reverse(ByTime(Of(checks, target))), n)
  }

  lemma ByTimeAppend(s: seq<Check>, c: Check)
    requires forall d :: d in s ==> d.at <= c.at
    ensures ByTime(s + [c]) == ByTime(s) + [c]
  {
    assert (s + [c])[..|s|] == s;
    if ByTime(s) != [] {
      assert ByTime(s)[|ByTime(s)| - 1] in multiset(s);
    }
  }

  lemma ReverseAppend<T>(s: seq<T>, x: T)
    ensures Reverse(s + [x]) == [x] + Reverse(s)
  {
    assert (s + [x])[..|s|] == s;
  }

  lemma TakeCons<T>(x: T, s: seq<T>, n: nat)
    ensures Take([x] + s, n + 1) == [x] + Take(s, n)
  {
  }

  lemma OfAppend(checks: seq<Check>, c: Check, target: int)
    ensures Of(checks + [c], target) == Of(checks, target) + if c.target == target then [c] else []
  {
    assert (checks + [c])[..|checks|] == checks;
  }

  /** A row that is not earlier than the target's others becomes the newest one. */
  lemma NewestAfterInsert(checks: seq<Check>, c: Check, n: nat)
    requires forall d :: d in checks && d.target == c.target ==> d.at <= c.at
    ensures Newest(checks + [c], c.target, n + 1) == [c] + Newest(checks, c.target, n)
  {
    var own := Of(checks, c.target);
    OfAppend(checks, c, c.target);
    ByTimeAppend(own, c);
    ReverseAppend(ByTime(own), c);
    TakeCons(c, Reverse(ByTime(own)), n);
  }

  const DAY := 86400
  const HOURLY_KEEP := 400 * DAY

  /** The first statement of Prune keeps the rows from cut on. */
  function Kept(checks: seq<Check>, cut: int): seq<Check> {
    Filter(checks, (c: Check) => c.at >= cut)
  }

  // ----- incidents -----

  /** A row of incidents. The table maps row ids to rows. */
  datatype Incident = Incident(
    target: int, startedAt: int, endedAt: Option<int>, cause: string,
    mailedDown: bool, mailedUp: bool)

  type Incidents = map<int, Incident>

  predicate OpenRow(tbl: Incidents, id: int, target: int) {
    id in tbl && tbl[id].target == target && tbl[id].endedAt.None?
  }

  predicate HasOpen(tbl: Incidents, target: int) {
    exists id :: id in tbl && OpenRow(tbl, id, target)
  }

  /** No target has two open incidents. */
  ghost predicate OneOpenEach(tbl: Incidents) {
    forall a, b, t :: OpenRow(tbl, a, t) && OpenRow(tbl, b, t) ==> a == b
  }

  /** OpenIncidentFor */
  ghost function OpenFor(tbl: Incidents, target: int): (r: Option<int>)
    ensures r.Some? ==> OpenRow(tbl, r.value, target)
    ensures r.None? <==> !HasOpen(tbl, target)
  {
    if HasOpen(tbl, target) then
      var id :| id in tbl && OpenRow(tbl, id, target);
      Some(id)
    else None
  }

  /** The insert of OpenIncident, when no row of the target is open. */
  function Opened(tbl: Incidents, id: int, target: int, at: int, cause: string): Incidents {
    tbl[id := Incident(target, at, None, cause, false, false)]
  }

  /** CloseIncident; it finds no row when the incident is not there or not open. */
  function Closed(tbl: Incidents, id: int, at: int): Incidents {
    if id in tbl && tbl[id].endedAt.None? then tbl[id := tbl[id].(endedAt := Some(at))] else tbl
  }

  /** ClosePausedIncident */
  function ClosedPaused(tbl: Incidents, target: int, now: int): Incidents {
    map id | id in tbl ::
      if OpenRow(tbl, id, target)
      then tbl[id].(endedAt := Some(now), mailedDown := true, mailedUp := true)
      else tbl[id]
  }

  /** MarkMailed */
  function Marked(tbl: Incidents, id: int, up: bool): Incidents {
    if id !in tbl then tbl
    else if !up then tbl[id := tbl[id].(mailedDown := true)]
    else if tbl[id].endedAt.Some? then tbl[id := tbl[id].(mailedUp := true)]
    else tbl
  }

  /** The third statement of Prune. */
  function PrunedIncidents(tbl: Incidents, before: int): Incidents {
    map id | id in tbl && !(tbl[id].endedAt.Some? && tbl[id].endedAt.value < before) :: tbl[id]
  }

  ghost function Ends(tbl: Incidents, target: int): set<int> {
    set id | id in tbl && tbl[id].target == target && tbl[id].endedAt.Some? :: tbl[id].endedAt.value
  }

  /** LastIncidentEnd, with the zero time when no incident of the target has ended. */
  ghost function LastEnd(tbl: Incidents, target: int): (m: int)
    ensures Ends(tbl, target) == {} ==> m == ZERO_TIME
    ensures Ends(tbl, target) != {} ==> m in Ends(tbl, target)
    ensures forall e :: e in Ends(tbl, target) ==> e <= m
  {
    var ends := Ends(tbl, target);
    if |ends| == 0 then ZERO_TIME else MaxOf(ends)
  }

  /** LastEnd is the only number its postconditions allow. */
  lemma LastEndIs(tbl: Incidents, target: int, m: int)
    requires m in Ends(tbl, target) && forall e :: e in Ends(tbl, target) ==> e <= m
    ensures LastEnd(tbl, target) == m
  {
  }

  /** Opening an incident adds one open row, for a target that had none. */
  lemma OpenedRows(tbl: Incidents, id: int, target: int, at: int, cause: string)
    requires id !in tbl && OneOpenEach(tbl) && !HasOpen(tbl, target)
    ensures OneOpenEach(Opened(tbl, id, target, at, cause))
    ensures forall i, t :: OpenRow(Opened(tbl, id, target, at, cause), i, t) <==>
                             OpenRow(tbl, i, t) || (i == id && t == target)
  {
    var added := Opened(tbl, id, target, at, cause);
    forall a, b, t | OpenRow(added, a, t) && OpenRow(added, b, t) ensures a == b {
      if a != id && b != id {
        assert OpenRow(tbl, a, t) && OpenRow(tbl, b, t);
      } else if t == target {
        assert a != id ==> OpenRow(tbl, a, target);
        assert b != id ==> OpenRow(tbl, b, target);
      }
    }
  }

  /** Closing an incident removes one open row and touches no other. */
  lemma ClosedRows(tbl: Incidents, id: int, at: int)
    requires OneOpenEach(tbl)
    ensures OneOpenEach(Closed(tbl, id, at))
    ensures Closed(tbl, id, at).Keys == tbl.Keys
    ensures forall i, t :: OpenRow(Closed(tbl, id, at), i, t) <==> OpenRow(tbl, i, t) && i != id
    ensures forall i :: i in tbl && i != id ==> Closed(tbl, id, at)[i] == tbl[i]
    ensures forall t :: OpenRow(tbl, id, t) ==> !HasOpen(Closed(tbl, id, at), t)
  {
    var closed := Closed(tbl, id, at);
    assert forall i, t :: OpenRow(closed, i, t) ==> OpenRow(tbl, i, t);
  }

  lemma UnusedId(tbl: Incidents) returns (id: int)
    ensures id !in tbl
  {
    var used := tbl.Keys;
    id := if |used| == 0 then 0 else MaxOf(used) + 1;
    assert id !in used;
  }

  /** Marking changes no more than the two mail columns. */
  lemma MarkedRows(tbl: Incidents, id: int, up: bool)
    ensures Marked(tbl, id, up).Keys == tbl.Keys
    ensures forall i :: i in tbl ==>
              Marked(tbl, id, up)[i].(mailedDown := false, mailedUp := false) == tbl[i].(mailedDown := false, mailedUp := false)
    ensures forall i, t :: OpenRow(Marked(tbl, id, up), i, t) <==> OpenRow(tbl, i, t)
    ensures OneOpenEach(tbl) ==> OneOpenEach(Marked(tbl, id, up))
    ensures forall t :: HasOpen(Marked(tbl, id, up), t) <==> HasOpen(tbl, t)
  {
    var marked := Marked(tbl, id, up);
    assert forall i, t :: OpenRow(marked, i, t) <==> OpenRow(tbl, i, t);
  }
}

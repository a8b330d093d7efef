/** restore and round of internal/monitor/scheduler.go as they are written: over the store,
    statement by statement. Their contracts are the functions of Monitor. */
module Manager {
  import opened Base
  import opened Lifecycle
  import opened Tables
  import opened Monitor
  import Retry
  import Store

  /** What the metrics page shows of a target: its last check, and counts since the start. */
  datatype Stat = Stat(ok: bool, latency: int, at: int, checksOk: nat, checksFail: nat)

  type Stats = map<int, Stat>

  function Recorded(stats: Stats, id: int, c: Check): Stats {
    var s := if id in stats then stats[id] else Stat(c.ok, c.latency, c.at, 0, 0);
    stats[id := Stat(c.ok, c.latency, c.at,
                     s.checksOk + (if c.ok then 1 else 0), s.checksFail + (if c.ok then 0 else 1))]
  }

  class Manager {
    const store: Store.Store
    const mailer: bool  // whether mails are configured
    var stats: Stats

    constructor (store: Store.Store, mailer: bool)
      ensures this.store == store && this.mailer == mailer && stats == map[]
    {
      this.store, this.mailer, stats := store, mailer, map[];
    }

    ghost function Db(): Monitor.Db
      reads store
    {
      Monitor.Db(store.checks, store.incidents)
    }

    method Restore(t: Target, f: ReadFaults) returns (st: State)
      requires OneOpenEach(store.incidents)
      modifies this`stats
      ensures st == Restored(Db(), t, f)
      ensures var last := if f.last then [] else Newest(store.checks, t.id, t.threshold);
              stats == if last == [] || t.id in old(stats) then old(stats)
                       else old(stats)[t.id := Stat(last[0].ok, last[0].latency, last[0].at, 0, 0)]
    {
      hide Newest, LastEnd, OneOpenEach, RunLength, FirstText;
      st := FRESH;
      var row := None;
      if !f.open {
        row := store.OpenIncidentFor(t.id);
      }
      if row.Some? {
        st := st.(open := true, startedAt := store.incidents[row.value].startedAt, incident := row.value);
      }
      var end := ZERO_TIME;
      if !f.end {
        end := store.LastIncidentEnd(t.id);
      }
      var last := [];
      if !f.last {
        last := store.LastChecks(t.id, t.threshold);
      }
      var fails, firstFail, cause := Failing(last, end);
      st := st.(fails := fails, firstFail := firstFail, cause := cause);
      if |last| > 0 && t.id !in stats {
        stats := stats[t.id := Stat(last[0].ok, last[0].latency, last[0].at, 0, 0)];
      }
    }

    method Record(id: int, c: Check)
      modifies this`stats
      ensures stats == Recorded(old(stats), id, c)
    {
      var s := if id in stats then stats[id] else Stat(c.ok, c.latency, c.at, 0, 0);
      s := s.(ok := c.ok, latency := c.latency, at := c.at);
      if c.ok {
        s := s.(checksOk := s.checksOk + 1);
      } else {
        s := s.(checksFail := s.checksFail + 1);
      }
      stats := stats[id := s];
    }

    /** The context of the round has not ended; t's rows are only written by this runner. answer
        is what the mailer says if it is asked, marks whether the mark can be written. */
    method Round(t: Target, st: State, x: Input, answer: Retry.Answer, marks: bool) returns (nst: State, alert: Alert)
      requires OneOpenEach(store.incidents)
      requires x.mailed <==> mailer && answer == Retry.Sent && marks
      modifies this`stats, store`checks, store`incidents
      ensures Outcome(nst, Db(), alert) == Monitor.Round(st, old(Db()), t, x)
      ensures stats == Recorded(old(stats), t.id, x.Row(t.id))
    {
      Record(t.id, x.Row(t.id));
      var _ := store.InsertCheck(x.Row(t.id), x.faults.insert);
      var event;
      var step := Next(st, x.Obs(), t.threshold);
      nst, event := step.0, step.1;
      alert := NoAlert;
      match event {
        case Quiet =>
        case Down =>
          var r := store.OpenIncident(t.id, nst.startedAt, nst.cause, x.newId, x.faults.write);
          match r {
            case AlreadyOpen =>
              var row := None;
              if !x.faults.reread {
                row := store.OpenIncidentFor(t.id);
              }
              if row.Some? {
                nst := nst.(startedAt := store.incidents[row.value].startedAt, incident := row.value);
              } else {
                nst := nst.(open := false);
              }
            case OpenFailed =>
              nst := nst.(open := false);
            case Opened(id) =>
              nst := nst.(incident := id);
              alert := DownAlert(id, nst.startedAt, nst.cause);
              var _ := Notify(id, false, answer, marks);
          }
        case Up =>
          var err, found := store.CloseIncident(st.incident, x.at, x.faults.write);
          if err {
            nst := nst.(open := true);
          } else {
            alert := UpAlert(st.incident, st.startedAt, x.at);
            var _ := Notify(st.incident, true, answer, marks);
          }
      }
    }

    /** The answer of the mailer goes back to the caller; without one there is nothing to do, and
        that a mark could not be written is only logged. */
    method Notify(id: int, up: bool, answer: Retry.Answer, marks: bool) returns (r: Retry.Answer)
      modifies store`incidents
      ensures r == if mailer then answer else Retry.Sent
      ensures store.incidents == if mailer && answer == Retry.Sent && marks then Marked(old(store.incidents), id, up)
                                 else old(store.incidents)
    {
      if !mailer {
        return Retry.Sent;
      }
      if answer != Retry.Sent {
        return answer;
      }
      ghost var before := store.incidents;
      var _, _ := store.MarkMailed(id, up, !marks);
      ghost var after := if marks then Marked(before, id, up) else before;
      assert after.Keys == before.Keys;
      assert forall i :: i in before ==> store.incidents[i] == after[i];
      assert store.incidents == after;
      return Retry.Sent;
    }
  }

  /** The loop of restore over the newest checks. */
  method Failing(last: seq<Check>, end: int) returns (fails: nat, firstFail: int, cause: string)
    ensures fails == RunLength(last, end)
    ensures firstFail == if fails == 0 then ZERO_TIME else last[fails - 1].at
    ensures cause == FirstText(last[..fails])
  {
    fails, firstFail, cause := 0, ZERO_TIME, "";
    while fails < |last|
      invariant fails <= |last| && RunLength(last, end) == fails + RunLength(last[fails..], end)
      invariant firstFail == if fails == 0 then ZERO_TIME else last[fails - 1].at
      invariant cause == FirstText(last[..fails])
    {
      var c := last[fails];
      assert last[fails..][0] == c && last[fails..][1..] == last[fails + 1..];
      if c.ok || c.at <= end {
        break;
      }
      FirstTextAppend(last[..fails], c);
      assert last[..fails + 1] == last[..fails] + [c];
      firstFail := c.at;
      if cause == "" {
        cause := c.err;
      }
      fails := fails + 1;
    }
  }

  // ----- what the counters count -----

  function Recording(stats: Stats, id: int, rows: seq<Check>): Stats {
    if rows == [] then stats else Recorded(Recording(stats, id, rows[..|rows| - 1]), id, rows[|rows| - 1])
  }

  function Count(rows: seq<Check>, ok: bool): nat {
    if rows == [] then 0 else Count(rows[..|rows| - 1], ok) + if rows[|rows| - 1].ok == ok then 1 else 0
  }

  /** After any rounds the counters are up by the successes and failures among them, the rest is
      that of the last round, and other targets' entries are as before. */
  lemma {:induction false} CountersCountRounds(stats: Stats, id: int, rows: seq<Check>)
    requires rows != []
    ensures var after, last := Recording(stats, id, rows), rows[|rows| - 1];
            && id in after && after.Keys == stats.Keys + {id}
            && after[id] == Stat(last.ok, last.latency, last.at,
                                 (if id in stats then stats[id].checksOk else 0) + Count(rows, true),
                                 (if id in stats then stats[id].checksFail else 0) + Count(rows, false))
            && forall i :: i in stats && i != id ==> after[i] == stats[i]
  {
    var front := rows[..|rows| - 1];
    if front == [] {
      assert Recording(stats, id, front) == stats;
    } else {
      CountersCountRounds(stats, id, front);
    }
  }

  lemma {:induction false} FirstTextAppend(rows: seq<Check>, c: Check)
    ensures FirstText(rows + [c]) == if FirstText(rows) != "" then FirstText(rows) else c.err
  {
    if rows != [] {
      assert (rows + [c])[1..] == rows[1..] + [c];
      FirstTextAppend(rows[1..], c);
    } else {
      assert rows + [c] == [c];
    }
  }
}

/** The per-target incident state machine (internal/monitor/state.go), and what its
    events mean in terms of the whole history of checks. */
module Lifecycle {
  import opened Base

  datatype Event = Quiet | Down | Up

  datatype State = State(
    fails: nat, firstFail: int, cause: string,
    open: bool, startedAt: int, incident: int)

  const FRESH := State(0, ZERO_TIME, "", false, ZERO_TIME, 0)

  /** One check as the state machine sees it. */
  datatype Obs = Obs(ok: bool, cause: string, at: int)

  function Next(s: State, o: Obs, threshold: int): (State, Event) {
    if o.ok then
      var cleared := s.(fails := 0, firstFail := ZERO_TIME, cause := "");
      if s.open then (cleared.(open := false), Up) else (cleared, Quiet)
    else
      var counted := s.(
                     fails := s.fails + 1,
                     firstFail := if s.fails == 0 then o.at else s.firstFail,
                     cause := o.cause);
      if !s.open && counted.fails >= threshold then
        (counted.(open := true, startedAt := counted.firstFail), Down)
      else
        (counted, Quiet)
  }

  /** The state after the first n checks. */
  function After(obs: seq<Obs>, n: nat, threshold: int): State
    requires n <= |obs|
  {
    if n == 0 then FRESH else Next(After(obs, n - 1, threshold), obs[n - 1], threshold).0
  }

  function EventAt(obs: seq<Obs>, i: nat, threshold: int): Event
    requires i < |obs|
  {
    Next(After(obs, i, threshold), obs[i], threshold).1
  }

  /** How many of the first n checks, counted back from the n-th, failed in a row. */
  function FailRun(obs: seq<Obs>, n: nat): (r: nat)
    requires n <= |obs|
    ensures r <= n
  {
    if n == 0 || obs[n - 1].ok then 0 else 1 + FailRun(obs, n - 1)
  }

  /** The count stops at the last success, or at the start of the history. */
  lemma {:induction false} FailRunIsMaximal(obs: seq<Obs>, n: nat)
    requires n <= |obs|
    ensures var run := FailRun(obs, n);
            && (forall k :: n - run <= k < n ==> !obs[k].ok)
            && (run < n ==> obs[n - run - 1].ok)
  {
    if n > 0 && !obs[n - 1].ok {
      FailRunIsMaximal(obs, n - 1);
    }
  }

  /** Failures in a row that open an incident: a threshold below one acts like one. */
  function Needed(threshold: int): nat {
    if threshold < 1 then 1 else threshold
  }

  /** The machine remembers no more than the run of failures at the end of the history. */
  lemma {:induction false} StateIsFailRun(obs: seq<Obs>, n: nat, threshold: int)
    requires n <= |obs|
    ensures var s, run := After(obs, n, threshold), FailRun(obs, n);
            && s.fails == run
            && (s.open <==> run >= Needed(threshold))
            && (run > 0 ==> s.firstFail == obs[n - run].at && s.cause == obs[n - 1].cause)
            && (run == 0 ==> s.firstFail == ZERO_TIME && s.cause == "")
            && (s.open ==> s.startedAt == obs[n - run].at)
  {
    if n > 0 {
      StateIsFailRun(obs, n - 1, threshold);
    }
  }

  /** An incident is announced at the check where the current run of failures reaches the
      threshold, and nowhere else, with the first failure of that run as its start; its end
      is announced at the success that ends a run of at least that length, and nowhere else. */
  lemma EventsMeanRuns(obs: seq<Obs>, i: nat, threshold: int)
    requires i < |obs|
    ensures EventAt(obs, i, threshold) == Down <==> FailRun(obs, i + 1) == Needed(threshold)
    ensures EventAt(obs, i, threshold) == Up <==> obs[i].ok && FailRun(obs, i) >= Needed(threshold)
    ensures EventAt(obs, i, threshold) == Down ==>
              After(obs, i + 1, threshold).startedAt == obs[i + 1 - Needed(threshold)].at
    ensures EventAt(obs, i, threshold) == Up ==>
              After(obs, i, threshold).startedAt == obs[i - FailRun(obs, i)].at
  {
    StateIsFailRun(obs, i, threshold);
    StateIsFailRun(obs, i + 1, threshold);
  }

  /** The events other than Quiet of the first n checks. */
  function Alerts(obs: seq<Obs>, n: nat, threshold: int): seq<Event>
    requires n <= |obs|
  {
    if n == 0 then []
    else
      var e := EventAt(obs, n - 1, threshold);
      Alerts(obs, n - 1, threshold) + (if e == Quiet then [] else [e])
  }

  /** Announcements alternate, the first one is Down, and the machine is open exactly
      after a Down. */
  lemma {:induction false} AlertsAlternate(obs: seq<Obs>, n: nat, threshold: int)
    requires n <= |obs|
    ensures var alerts := Alerts(obs, n, threshold);
            && (forall k :: 0 <= k < |alerts| ==> alerts[k] == if k % 2 == 0 then Down else Up)
            && (After(obs, n, threshold).open <==> |alerts| % 2 == 1)
  {
    if n > 0 {
      AlertsAlternate(obs, n - 1, threshold);
    }
  }

  datatype Interval = Interval(from: int, to: int)

  /** Start and end of every incident that ended within the first n checks, as they are
      stored and mailed. */
  function Outages(obs: seq<Obs>, n: nat, threshold: int): seq<Interval>
    requires n <= |obs|
  {
    if n == 0 then []
    else
      var before := Outages(obs, n - 1, threshold);
      if EventAt(obs, n - 1, threshold) == Up
      then before + [Interval(After(obs, n - 1, threshold).startedAt, obs[n - 1].at)]
      else before
  }

  ghost predicate Increasing(obs: seq<Obs>) {
    forall i, j :: 0 <= i < j < |obs| ==> obs[i].at < obs[j].at
  }

  /** Every interval has a positive length and ends before any later one starts. */
  ghost predicate Ordered(out: seq<Interval>) {
    && (forall k :: 0 <= k < |out| ==> out[k].from < out[k].to)
    && (forall j, k :: 0 <= j < k < |out| ==> out[j].to < out[k].from)
  }

  ghost predicate EndBy(out: seq<Interval>, bound: int) {
    forall k :: 0 <= k < |out| ==> out[k].to <= bound
  }

  /** The same list, read off the checks alone: the maximal runs of enough failures. */
  ghost function LongRuns(obs: seq<Obs>, n: nat, threshold: int): seq<Interval>
    requires n <= |obs|
  {
    if n == 0 then []
    else
      var run := FailRun(obs, n - 1);
      var before := LongRuns(obs, n - 1, threshold);
      if obs[n - 1].ok && run >= Needed(threshold)
      then before + [Interval(obs[n - 1 - run].at, obs[n - 1].at)]
      else before
  }

  lemma {:induction false} OutagesAreLongRuns(obs: seq<Obs>, n: nat, threshold: int)
    requires n <= |obs|
    ensures Outages(obs, n, threshold) == LongRuns(obs, n, threshold)
  {
    if n > 0 {
      OutagesAreLongRuns(obs, n - 1, threshold);
      EventsMeanRuns(obs, n - 1, threshold);
    }
  }

  lemma OrderedAppend(out: seq<Interval>, bound: int, next: Interval)
    requires Ordered(out) && EndBy(out, bound) && bound < next.from < next.to
    ensures Ordered(out + [next]) && EndBy(out + [next], next.to)
  {
    var longer := out + [next];
    forall j, k | 0 <= j < k < |longer| ensures longer[j].to < longer[k].from {
      if k == |out| {
        assert longer[j] == out[j];
      } else {
        assert longer[j] == out[j] && longer[k] == out[k];
      }
    }
  }

  lemma {:induction false} LongRunsAreOrdered(obs: seq<Obs>, n: nat, threshold: int)
    requires n <= |obs| && Increasing(obs)
    ensures Ordered(LongRuns(obs, n, threshold))
    ensures var out, run := LongRuns(obs, n, threshold), FailRun(obs, n);
            out != [] ==> run < n && EndBy(out, obs[n - run - 1].at)
  {
    if n > 0 {
      LongRunsAreOrdered(obs, n - 1, threshold);
      if obs[n - 1].ok {
        var out, run := LongRuns(obs, n - 1, threshold), FailRun(obs, n - 1);
        var bound := if out == [] then obs[n - 1 - run].at - 1 else obs[n - 2 - run].at;
        assert EndBy(out, bound);
        if run >= Needed(threshold) {
          OrderedAppend(out, bound, Interval(obs[n - 1 - run].at, obs[n - 1].at));
        } else {
          assert LongRuns(obs, n, threshold) == out;
        }
      } else {
        assert LongRuns(obs, n, threshold) == LongRuns(obs, n - 1, threshold);
      }
    }
  }

  /** With increasing check times, incidents have a positive length, are disjoint and in
      order, and all of them ended no later than the last success before the current run
      of failures. */
  lemma OutagesAreOrdered(obs: seq<Obs>, n: nat, threshold: int)
    requires n <= |obs| && Increasing(obs)
    ensures Ordered(Outages(obs, n, threshold))
    ensures var out, run := Outages(obs, n, threshold), FailRun(obs, n);
            out != [] ==> run < n && EndBy(out, obs[n - run - 1].at)
  {
    OutagesAreLongRuns(obs, n, threshold);
    LongRunsAreOrdered(obs, n, threshold);
  }
}

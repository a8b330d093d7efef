/** What the counters of the login limit mean, what a refused attempt hears, and how many attempts
    get through (internal/web/limit.go, take). */
module LoginBounds {
  import opened Base
  import opened LoginLimiter

  // ----- what the counters mean -----

  predicate Admits(es: seq<Event>, e: Event) {
    e.Take? && Answer(es, e.ip, e.now, e.known).wait == 0
  }

  /** How many events of the run, from the given index on, are attempts of ip that were let through. */
  function Attempts(es: seq<Event>, ip: string, from: nat): nat {
    if |es| <= from then 0
    else
      var front, e := es[..|es| - 1], es[|es| - 1];
      Attempts(front, ip, from) + if Admits(front, e) && e.ip == ip then 1 else 0
  }

  predicate Opens(es: seq<Event>, ip: string, j: nat, start: int) {
    && j < |es| && es[j].Take? && es[j].ip == ip && es[j].now == start
    && Admits(es[..j], es[j])
    && (forall i :: j < i < |es| ==> es[i] != Forgive(ip))
  }

  ghost predicate Counted(es: seq<Event>, ip: string, w: Window) {
    1 <= w.n <= 5 && exists j: nat :: Opens(es, ip, j, w.start) && w.n == Attempts(es, ip, j)
  }

  lemma OpensLater(es: seq<Event>, e: Event, ip: string, j: nat, start: int)
    requires Opens(es, ip, j, start) && e != Forgive(ip)
    ensures Opens(es + [e], ip, j, start)
  {
    hide Answer, Admits;
    assert (es + [e])[..j] == es[..j];
  }

  lemma CountedLater(es: seq<Event>, e: Event, ip: string, w: Window, after: Window)
    requires Counted(es, ip, w) && e != Forgive(ip)
    requires after.start == w.start && after.n <= PER_IP
    requires after.n == w.n + if Admits(es, e) && e.ip == ip then 1 else 0
    ensures Counted(es + [e], ip, after)
  {
    hide Opens, Admits;
    var j: nat :| Opens(es, ip, j, w.start) && w.n == Attempts(es, ip, j);
    OpensLater(es, e, ip, j, w.start);
    assert (es + [e])[..|es|] == es;
    assert j < |es| by { OpensInside(es, ip, j, w.start); }
  }

  lemma OpensInside(es: seq<Event>, ip: string, j: nat, start: int)
    requires Opens(es, ip, j, start)
    ensures j < |es|
  {
  }

  lemma CountedFresh(es: seq<Event>, e: Event, warned: bool)
    requires Admits(es, e)
    ensures Counted(es + [e], e.ip, Window(e.now, 1, warned))
  {
    hide Answer;
    var now := es + [e];
    assert now[..|es|] == es;
    assert Attempts(es, e.ip, |es|) == 0;
    assert Opens(now, e.ip, |es|, e.now);
    assert Attempts(now, e.ip, |es|) == 1;
  }

  /** What a decision does to the window of one address. */
  lemma DecideWindow(ws: Windows, used: nat, global: Window, ip: string, now: int, known: bool, k: string)
    requires forall a :: a in ws ==> ws[a].n <= PER_IP && ws[a].start <= now
    requires global.start <= now
    ensures var d := Decide(ws, used, global, ip, now, known); var ok := d.verdict.wait == 0;
            && 0 <= d.verdict.wait <= WINDOW
            && (k in d.windows <==> k in ws || (ok && k == ip))
            && (k in ws && (k != ip || !ok || !Expired(ws[k], now)) ==>
                  && d.windows[k].start == ws[k].start
                  && d.windows[k].n == ws[k].n + (if ok && k == ip then 1 else 0)
                  && d.windows[k].n <= PER_IP)
            && (ok && k == ip && (k !in ws || Expired(ws[k], now)) ==> d.windows[k] == Window(now, 1, false))
  {
  }

  ghost predicate Bounded(m: Memory, t: int) {
    && (forall a :: a in m.ips ==> 1 <= m.ips[a].n <= PER_IP && m.ips[a].start <= t)
    && m.global.start <= t
  }

  lemma {:induction false} RunBounded(es: seq<Event>)
    requires Ordered(es)
    ensures Bounded(After(es), Clock(es))
  {
    hide Decide;
    if es != [] {
      var front, e := es[..|es| - 1], es[|es| - 1];
      RunBounded(front);
      if e.Take? {
        var s := Swept(After(front), e.now);
        forall a {
          DecideWindow(s.ips, |s.ips|, s.global, e.ip, e.now, e.known, a);
        }
        DecideGlobal(s.ips, |s.ips|, s.global, e.ip, e.now, e.known);
      }
    }
  }

  /** A wait of 0 means that the attempt was counted; any other attempt is not counted, and its
      wait is positive and at most a quarter of an hour. */
  lemma RefusalWaits(es: seq<Event>, ip: string, now: int, known: bool)
    requires Ordered(es) && Clock(es) <= now
    ensures var (after, verdict) := Taken(After(es), ip, now, known);
            var before, wait := After(es), verdict.wait;
            && 0 <= wait <= 900
            && after.global.n == Current(before.global, now).n + (if wait == 0 then 1 else 0)
            && (wait > 0 ==> forall k :: k in after.ips ==> k in before.ips && after.ips[k].n == before.ips[k].n)
  {
    hide Decide, Current, Ordered, Clock, After, Expired;
    RunBounded(es);
    var s := Swept(After(es), now);
    var d := Decide(s.ips, |s.ips|, s.global, ip, now, known);
    DecideGlobal(s.ips, |s.ips|, s.global, ip, now, known);
    DecideWindow(s.ips, |s.ips|, s.global, ip, now, known, ip);
    if d.verdict.wait > 0 {
      forall k | k in d.windows ensures k in s.ips && d.windows[k].n == s.ips[k].n {
        DecideWindow(s.ips, |s.ips|, s.global, ip, now, known, k);
      }
    }
  }

  // ----- refusals, in terms of the limiter that never sweeps -----

  predicate OwnFull(s: Ideal, ip: string, now: int) {
    ip in s.windows && !Expired(s.windows[ip], now) && s.windows[ip].n >= PER_IP
  }

  predicate AllFull(s: Ideal, now: int, known: bool) {
    !known && Current(s.global, now).n >= GLOBAL
  }

  predicate Crowded(s: Ideal, ip: string, now: int) {
    |Unexpired(s.windows, now)| >= MAX_IPS && !(ip in s.windows && !Expired(s.windows[ip], now))
  }

  function IdealNext(s: Ideal, ip: string, now: int, known: bool): Ideal {
    var d := IdealTaken(s, ip, now, known);
    Ideal(d.windows, d.global)
  }

  /** An attempt that a full window refuses is told the same end of the wait until then, and only
      the first refusal is reported as the first. */
  lemma IdealCountsDown(s: Ideal, ip: string, now: int, known: bool, t: int)
    requires OwnFull(s, ip, now) || AllFull(s, now, known)
    ensures var wait := IdealTaken(s, ip, now, known).verdict.wait;
            now <= t < now + wait ==> IdealTaken(IdealNext(s, ip, now, known), ip, t, known).verdict == Verdict(now + wait - t, false)
  {
    hide Unexpired;
  }

  /** When the wait of such an attempt is over, it is let through exactly if no other limit
      stands in its way. */
  lemma IdealAfterTheWait(s: Ideal, ip: string, now: int, known: bool)
    requires OwnFull(s, ip, now) || AllFull(s, now, known)
    ensures var next, end := IdealNext(s, ip, now, known), now + IdealTaken(s, ip, now, known).verdict.wait;
            IdealTaken(next, ip, end, known).verdict.wait == 0 <==>
            !Crowded(next, ip, end) && (OwnFull(s, ip, now) ==> !AllFull(next, end, known))
  {
    hide Unexpired;
  }

  /** The same for the limiter as it is, after any run. */
  lemma RefusalCountsDown(es: seq<Event>, ip: string, now: int, known: bool, t: int)
    requires Ordered(es) && Clock(es) <= now <= t
    requires OwnFull(IdealAfter(es), ip, now) || AllFull(IdealAfter(es), now, known)
    ensures var wait, later := Answer(es, ip, now, known).wait, Answer(es + [Take(ip, now, known)], ip, t, known);
            && (t < now + wait ==> later == Verdict(now + wait - t, false))
            && (t == now + wait ==>
                  var next := IdealAfter(es + [Take(ip, now, known)]);
                  later.wait == 0 <==>
                  !Crowded(next, ip, t) && (OwnFull(IdealAfter(es), ip, now) ==> !AllFull(next, t, known)))
  {
    hide Answer, IdealTaken, OwnFull, AllFull, Crowded;
    var s, e := IdealAfter(es), Take(ip, now, known);
    SweepingIsInvisible(es, ip, now, known);
    assert (es + [e])[..|es|] == es;
    SweepingIsInvisible(es + [e], ip, t, known);
    IdealCountsDown(s, ip, now, known, t);
    IdealAfterTheWait(s, ip, now, known);
  }

  /** The step of the memory for one address, sweeping included. */
  lemma StepWindow(es: seq<Event>, e: Event, k: string)
    requires Ordered(es + [e]) && e.Take?
    ensures var m, after, ok := After(es), After(es + [e]), Admits(es, e);
            && (k in after.ips ==> k in m.ips || (ok && k == e.ip))
            && (k in after.ips ==>
                  || (k in m.ips && after.ips[k].start == m.ips[k].start && after.ips[k].n <= PER_IP
                      && after.ips[k].n == m.ips[k].n + if ok && k == e.ip then 1 else 0)
                  || (ok && k == e.ip && (k in m.ips ==> Expired(m.ips[k], e.now)) && after.ips[k] == Window(e.now, 1, false)))
            && (k in m.ips && k !in after.ips ==> Expired(m.ips[k], e.now))
            && (ok && k == e.ip ==> k in after.ips)
  {
    hide Decide;
    assert (es + [e])[..|es|] == es;
    RunBounded(es);
    var s := Swept(After(es), e.now);
    DecideWindow(s.ips, |s.ips|, s.global, e.ip, e.now, e.known, k);
  }

  /** The counter of an address is the number of attempts let through since the one that opened
      its window, with no successful login in between; it stays within 1 and 5. */
  lemma {:induction false} CountersMeanAttempts(es: seq<Event>, ip: string)
    requires Ordered(es) && ip in After(es).ips
    ensures Counted(es, ip, After(es).ips[ip])
  {
    hide Counted, Taken, Admits, Expired;
    var front, e := es[..|es| - 1], es[|es| - 1];
    assert es == front + [e];
    var m, w := After(front), After(es).ips[ip];
    if e.Take? {
      StepWindow(front, e, ip);
      if ip in m.ips && w.start == m.ips[ip].start && w.n == m.ips[ip].n + (if Admits(front, e) && ip == e.ip then 1 else 0) {
        CountersMeanAttempts(front, ip);
        CountedLater(front, e, ip, m.ips[ip], w);
      } else {
        CountedFresh(front, e, false);
      }
    } else {
      CountersMeanAttempts(front, ip);
      RunBounded(front);
      NotAdmitted(front, e);
      CountedLater(front, e, ip, m.ips[ip], w);
    }
  }

  /** Every answer in numbers. The address's own window, if it is open, takes five attempts; the window
      of all, if it is open, thirty from unknown devices; ten thousand addresses can have an open
      window. Whoever refuses first tells when its window ends, and the first time it does so. */
  lemma AnswerIs(es: seq<Event>, ip: string, now: int, known: bool)
    requires Ordered(es) && Clock(es) <= now
    ensures var s, v := IdealAfter(es), Answer(es, ip, now, known);
            var own := ip in s.windows && now < s.windows[ip].start + 900;
            var all := now < s.global.start + 900;
            var places := set k | k in s.windows && now < s.windows[k].start + 900;
            v == if own && s.windows[ip].n >= 5 then Verdict(s.windows[ip].start + 900 - now, !s.windows[ip].warned)
                 else if !known && all && s.global.n >= 30 then Verdict(s.global.start + 900 - now, !s.global.warned)
                 else if !own && |places| >= 10000 then Verdict(900, !(all && s.global.warned))
                 else Verdict(0, false)
  {
    hide Answer, Ordered, Clock, IdealAfter;
    SweepingIsInvisible(es, ip, now, known);
    var s := IdealAfter(es);
    var places := set k | k in s.windows && now < s.windows[k].start + 900;
    assert Unexpired(s.windows, now).Keys == places;
    SizeOfMap(Unexpired(s.windows, now));
  }

  lemma SizeOfMap(m: Windows)
    ensures |m| == |m.Keys|
  {
  }

  lemma NotAdmitted(es: seq<Event>, e: Event)
    requires e.Forgive?
    ensures !Admits(es, e)
  {
  }

  // ----- how many attempts get through -----

  /** From index a on, every attempt lies in the quarter of an hour that begins at t0. */
  predicate Within(es: seq<Event>, a: nat, t0: int) {
    forall i :: a <= i < |es| && es[i].Take? ==> t0 <= es[i].now < t0 + 900
  }

  ghost predicate FewOf(es: seq<Event>, a: nat, ip: string, t0: int) {
    var m, count := After(es), Attempts(es, ip, a);
    if ip in m.ips then
      var w := m.ips[ip];
      w.n <= PER_IP && (count < w.n || (t0 <= w.start && count < w.n + PER_IP))
    else count < PER_IP
  }

  lemma {:induction false} FewOfHolds(es: seq<Event>, a: nat, ip: string, t0: int)
    requires Ordered(es) && Within(es, a, t0) && a <= |es|
    requires forall i :: a <= i < |es| ==> es[i] != Forgive(ip)
    ensures FewOf(es, a, ip, t0)
  {
    hide Taken, Ordered;
    RunBounded(es);
    if |es| > a {
      var front, e := es[..|es| - 1], es[|es| - 1];
      assert es == front + [e];
      assert Ordered(front) by { OrderedFront(es); }
      FewOfHolds(front, a, ip, t0);
      if e.Take? {
        StepWindow(front, e, ip);
      }
    }
  }

  lemma OrderedFront(es: seq<Event>)
    requires Ordered(es) && es != []
    ensures Ordered(es[..|es| - 1])
  {
  }

  /** Windows do not slide, so two of them can touch any quarter of an hour. Even so at most nine
      attempts of one address get through in it, as long as none of them succeeds. */
  lemma AttemptsAreFew(es: seq<Event>, a: nat, ip: string, t0: int)
    requires Ordered(es) && Within(es, a, t0)
    requires forall i :: a <= i < |es| ==> es[i] != Forgive(ip)
    ensures Attempts(es, ip, a) <= 9
  {
    if a <= |es| {
      FewOfHolds(es, a, ip, t0);
    }
  }

  lemma {:induction false} AttemptsSplit(es: seq<Event>, ip: string, a: nat, j: nat)
    requires a <= j <= |es|
    ensures Attempts(es, ip, a) == Attempts(es[..j], ip, a) + Attempts(es, ip, j)
  {
    hide Admits;
    if j == |es| {
      assert es[..j] == es;
    } else {
      var front := es[..|es| - 1];
      AttemptsSplit(front, ip, a, j);
      assert front[..j] == es[..j];
    }
  }

  /** The attempt that opens a window is counted. */
  lemma OpenerCounts(es: seq<Event>, ip: string, j: nat, start: int)
    requires Opens(es, ip, j, start)
    ensures Attempts(es[..j + 1], ip, j) == 1 && Attempts(es, ip, j) >= 1
  {
    hide Admits;
    assert es[..j + 1][..j] == es[..j];
    AttemptsSplit(es, ip, j, j + 1);
  }

  /** The current window of ip was opened by event j. */
  ghost predicate OpenedBy(es: seq<Event>, ip: string, j: nat) {
    ip in After(es).ips && Opens(es, ip, j, After(es).ips[ip].start) && After(es).ips[ip].n == Attempts(es, ip, j)
  }

  lemma OpenedBefore(es: seq<Event>, a: nat, ip: string, j: nat)
    requires OpenedBy(es, ip, j) && j < a <= |es|
    ensures Attempts(es, ip, a) < After(es).ips[ip].n
  {
    hide Attempts, After;
    var start := After(es).ips[ip].start;
    OpenerCounts(es, ip, j, start);
    AttemptsSplit(es, ip, j, a);
    AttemptsSplit(es[..a], ip, j, j + 1);
    assert es[..a][..j + 1] == es[..j + 1];
  }

  /** Exactly when more than five attempts of one address get through within a quarter of an
      hour: its window opened inside it, and what got through inside it before that and what the
      window has let through so far are more than five together. */
  lemma MoreThanFive(es: seq<Event>, a: nat, ip: string, t0: int)
    requires Ordered(es) && Within(es, a, t0) && a <= |es|
    requires forall i :: a <= i < |es| ==> es[i] != Forgive(ip)
    ensures Attempts(es, ip, a) > 5 <==>
            ip in After(es).ips
            && exists j :: a <= j < |es| && OpenedBy(es, ip, j) && Attempts(es[..j], ip, a) + After(es).ips[ip].n > 5
  {
    hide Attempts, After, Ordered, Opens;
    FewOfHolds(es, a, ip, t0);
    if ip in After(es).ips {
      CountersMeanAttempts(es, ip);
      var j: nat :| Opens(es, ip, j, After(es).ips[ip].start) && After(es).ips[ip].n == Attempts(es, ip, j);
      assert OpenedBy(es, ip, j);
      OpensInside(es, ip, j, After(es).ips[ip].start);
      if a <= j {
        AttemptsSplit(es, ip, a, j);
      } else {
        OpenedBefore(es, a, ip, j);
      }
      forall i | a <= i < |es| && OpenedBy(es, ip, i)
        ensures Attempts(es, ip, a) == Attempts(es[..i], ip, a) + After(es).ips[ip].n
      {
        AttemptsSplit(es, ip, a, i);
      }
    }
  }

  /** Attempts let through without a known device, of any address. */
  function Strangers(es: seq<Event>, from: nat): nat {
    if |es| <= from then 0
    else
      var front, e := es[..|es| - 1], es[|es| - 1];
      Strangers(front, from) + if Admits(front, e) && !e.known then 1 else 0
  }

  function Logins(es: seq<Event>, from: nat): nat {
    if |es| <= from then 0
    else Logins(es[..|es| - 1], from) + if es[|es| - 1].Forgive? then 1 else 0
  }

  ghost predicate FewInAll(es: seq<Event>, a: nat, t0: int) {
    var g, count, logins := After(es).global, Strangers(es, a), Logins(es, a);
    || (count <= g.n + logins && count <= GLOBAL + logins)
    || (t0 <= g.start && count <= g.n + logins + GLOBAL && count <= 2 * GLOBAL + logins)
  }

  lemma DecideGlobal(ws: Windows, used: nat, global: Window, ip: string, now: int, known: bool)
    requires forall a :: a in ws ==> ws[a].start <= now
    requires global.start <= now
    ensures var d, g := Decide(ws, used, global, ip, now, known), Current(global, now); var ok := d.verdict.wait == 0;
            && d.global.start == g.start <= now
            && d.global.n == g.n + (if ok then 1 else 0)
            && (ok && !known ==> g.n < GLOBAL)
  {
  }

  lemma {:induction false} FewInAllHolds(es: seq<Event>, a: nat, t0: int)
    requires Ordered(es) && Within(es, a, t0) && a <= |es|
    ensures FewInAll(es, a, t0)
  {
    hide Decide;
    if |es| > a {
      var front, e := es[..|es| - 1], es[|es| - 1];
      FewInAllHolds(front, a, t0);
      RunBounded(front);
      if e.Take? {
        var s := Swept(After(front), e.now);
        DecideGlobal(s.ips, |s.ips|, s.global, e.ip, e.now, e.known);
      }
    }
  }

  /** In any quarter of an hour at most sixty attempts from unknown devices get through, plus one
      for each successful login in it. */
  lemma StrangersAreFew(es: seq<Event>, a: nat, t0: int)
    requires Ordered(es) && Within(es, a, t0)
    ensures Strangers(es, a) <= 60 + Logins(es, a)
  {
    if a <= |es| {
      FewInAllHolds(es, a, t0);
    }
  }
}

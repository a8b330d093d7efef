/** The limit on login attempts (internal/web/limit.go). The map of addresses is swept only now
    and then; callers cannot tell. */
module LoginLimiter {
  import opened Base

  const WINDOW := 900
  const PER_IP := 5
  const GLOBAL := 30
  const MAX_IPS := 10000

  datatype Window = Window(start: int, n: nat, warned: bool)

  type Windows = map<string, Window>

  /** What take tells its caller: how long to wait, and whether this is the first refusal of the
      window that refuses. An attempt is let through if the wait is 0. */
  datatype Verdict = Verdict(wait: int, first: bool)

  datatype Decision = Decision(windows: Windows, global: Window, verdict: Verdict)

  predicate Expired(w: Window, now: int) {
    now - w.start >= WINDOW
  }

  function Unexpired(ws: Windows, now: int): Windows {
    map k | k in ws && !Expired(ws[k], now) :: ws[k]
  }

  function Current(global: Window, now: int): Window {
    if Expired(global, now) then Window(now, 0, false) else global
  }

  /** One attempt, when the addresses take up `used` places. An expired window of the address
      itself does not matter. */
  function Decide(ws: Windows, used: nat, global: Window, ip: string, now: int, known: bool): Decision {
    var g := Current(global, now);
    var open := ip in ws && !Expired(ws[ip], now);
    if open && ws[ip].n >= PER_IP then
      Decision(ws[ip := ws[ip].(warned := true)], g, Verdict(ws[ip].start + WINDOW - now, !ws[ip].warned))
    else if !known && g.n >= GLOBAL then
      Decision(ws, g.(warned := true), Verdict(g.start + WINDOW - now, !g.warned))
    else if !open && used >= MAX_IPS then
      Decision(ws, g.(warned := true), Verdict(WINDOW, !g.warned))
    else
      var w := if open then ws[ip] else Window(now, 0, false);
      Decision(ws[ip := w.(n := w.n + 1)], g.(n := g.n + 1), Verdict(0, false))
  }

  function Forgiven(global: Window): Window {
    if global.n > 0 then global.(n := global.n - 1) else global
  }

  datatype Memory = Memory(ips: Windows, global: Window, swept: int)

  function MustSweep(m: Memory, now: int): bool {
    now - m.swept >= WINDOW || |m.ips| >= MAX_IPS
  }

  function Swept(m: Memory, now: int): Memory {
    if MustSweep(m, now) then Memory(Unexpired(m.ips, now), m.global, now) else m
  }

  /** The limiter as it is: it counts every address it still stores. */
  function Taken(m: Memory, ip: string, now: int, known: bool): (Memory, Verdict) {
    var s := Swept(m, now);
    var d := Decide(s.ips, |s.ips|, s.global, ip, now, known);
    (Memory(d.windows, d.global, s.swept), d.verdict)
  }

  class Limiter {
    var ips: Windows
    var global: Window
    var swept: int

    function State(): Memory
      reads this
    {
      Memory(ips, global, swept)
    }

    constructor ()
      ensures State() == Fresh()
    {
      ips, global, swept := map[], Window(ZERO_TIME, 0, false), ZERO_TIME;
    }

    /** The loop of take that deletes expired windows. */
    method Sweep(now: int)
      modifies this`ips
      ensures ips == Unexpired(old(ips), now)
    {
      var rest := ips.Keys;
      while |rest| > 0
        invariant rest <= ips.Keys <= old(ips).Keys
        invariant forall k :: k in ips ==> ips[k] == old(ips)[k]
        invariant forall k :: k in old(ips) && k !in rest ==> (k in ips <==> !Expired(old(ips)[k], now))
        decreases |rest|
      {
        HasAddress(rest);
        var k :| k in rest;
        if now - ips[k].start >= WINDOW {
          ips := ips - {k};
        }
        rest := rest - {k};
      }
      assert forall k :: k !in rest;
    }

    method Take(ip: string, now: int, known: bool) returns (wait: int, first: bool)
      modifies this
      ensures (State(), Verdict(wait, first)) == Taken(old(State()), ip, now, known)
    {
      hide Unexpired;
      if now - swept >= WINDOW || |ips| >= MAX_IPS {
        Sweep(now);
        swept := now;
      }
      ghost var s := State();
      assert s == Swept(old(State()), now);
      ghost var d := Decide(s.ips, |s.ips|, s.global, ip, now, known);
      assert Taken(old(State()), ip, now, known) == (Memory(d.windows, d.global, s.swept), d.verdict);
      hide Taken, Swept;
      if now - global.start >= WINDOW {
        global := Window(now, 0, false);
      }
      var open := ip in ips && now - ips[ip].start < WINDOW;
      if open && ips[ip].n >= PER_IP {
        wait, first := ips[ip].start + WINDOW - now, !ips[ip].warned;
        ips := ips[ip := ips[ip].(warned := true)];
      } else if !known && global.n >= GLOBAL {
        wait, first := global.start + WINDOW - now, !global.warned;
        global := global.(warned := true);
      } else if !open && |ips| >= MAX_IPS {
        wait, first := WINDOW, !global.warned;
        global := global.(warned := true);
      } else {
        var w := if open then ips[ip] else Window(now, 0, false);
        ips := ips[ip := w.(n := w.n + 1)];
        global := global.(n := global.n + 1);
        wait, first := 0, false;
      }
    }

    method Forgive(ip: string)
      modifies this
      ensures State() == Memory(old(ips) - {ip}, Forgiven(old(global)), old(swept))
    {
      ips := ips - {ip};
      if global.n > 0 {
        global := global.(n := global.n - 1);
      }
    }
  }

  // ----- runs, and the limiter that never sweeps -----

  datatype Event = Take(ip: string, now: int, known: bool) | Forgive(ip: string)

  function Fresh(): Memory {
    Memory(map[], Window(ZERO_TIME, 0, false), ZERO_TIME)
  }

  /** The limiter after a run. */
  function After(es: seq<Event>): Memory {
    if es == [] then Fresh()
    else
      var m, e := After(es[..|es| - 1]), es[|es| - 1];
      match e
      case Take(ip, now, known) => Taken(m, ip, now, known).0
      case Forgive(ip) => Memory(m.ips - {ip}, Forgiven(m.global), m.swept)
  }

  /** What an attempt hears after a run. */
  function Answer(es: seq<Event>, ip: string, now: int, known: bool): Verdict {
    Taken(After(es), ip, now, known).1
  }

  /** The reference: nothing is ever swept, and an attempt counts the addresses that have an
      unexpired window. */
  datatype Ideal = Ideal(windows: Windows, global: Window)

  function IdealTaken(s: Ideal, ip: string, now: int, known: bool): Decision {
    Decide(s.windows, |Unexpired(s.windows, now)|, s.global, ip, now, known)
  }

  function IdealAfter(es: seq<Event>): Ideal {
    if es == [] then Ideal(map[], Fresh().global)
    else
      var s, e := IdealAfter(es[..|es| - 1]), es[|es| - 1];
      match e
      case Take(ip, now, known) => var d := IdealTaken(s, ip, now, known); Ideal(d.windows, d.global)
      case Forgive(ip) => Ideal(s.windows - {ip}, Forgiven(s.global))
  }

  /** The latest clock reading of a run. */
  function Clock(es: seq<Event>): int {
    if es == [] then ZERO_TIME
    else if es[|es| - 1].Take? then es[|es| - 1].now
    else Clock(es[..|es| - 1])
  }

  /** The clock does not go back. */
  predicate Ordered(es: seq<Event>) {
    es != [] ==>
      && Ordered(es[..|es| - 1])
      && (es[|es| - 1].Take? ==> Clock(es[..|es| - 1]) <= es[|es| - 1].now)
  }

  ghost predicate Agree(m: Memory, s: Ideal, t: int) {
    && m.global == s.global
    && (forall k :: k in m.ips ==> k in s.windows && m.ips[k] == s.windows[k])
    && (forall k :: k in s.windows && !Expired(s.windows[k], t) ==> k in m.ips)
  }

  lemma HasAddress(s: set<string>)
    requires |s| > 0
    ensures exists k :: k in s
  {
    if forall k :: k !in s {
      assert false;
    }
  }

  lemma KeepsFewer(a: Windows, b: Windows)
    requires a.Keys <= b.Keys
    ensures |a| <= |b|
  {
    SmallerSet(a.Keys, b.Keys);
  }

  lemma SmallerSet(a: set<string>, b: set<string>)
    requires a <= b
    ensures |a| <= |b|
  {
    assert b == a + (b - a);
  }

  /** Sweeping loses no unexpired window, and the map is full only if unexpired windows fill it. */
  lemma AgreeSweep(m: Memory, s: Ideal, t: int, now: int)
    requires Agree(m, s, t) && t <= now
    ensures Agree(Swept(m, now), s, now)
    ensures |Swept(m, now).ips| >= MAX_IPS <==> |Unexpired(s.windows, now)| >= MAX_IPS
  {
    var ips, live := Swept(m, now).ips, Unexpired(s.windows, now);
    KeepsFewer(live, ips);
    KeepsFewer(ips, m.ips);
    if MustSweep(m, now) {
      assert ips == live;
    }
  }

  lemma SweptIsPart(m: Memory, now: int)
    ensures Swept(m, now).ips.Keys <= m.ips.Keys
  {
  }

  /** The map is swept when a quarter of an hour has passed since the last time, or when it is full;
      otherwise no address goes. */
  lemma SweepsNowAndThen(m: Memory, ip: string, now: int, known: bool)
    ensures var after := Taken(m, ip, now, known).0;
            if now - m.swept >= 900 || |m.ips| >= 10000
            then after.swept == now && (forall k :: k in after.ips && k != ip ==> k in m.ips && now - m.ips[k].start < 900)
            else after.swept == m.swept && m.ips.Keys <= after.ips.Keys
  {
  }

  lemma AgreeDecide(m: Memory, s: Ideal, used: nat, ip: string, now: int, known: bool)
    requires Agree(m, s, now)
    requires |m.ips| >= MAX_IPS <==> used >= MAX_IPS
    ensures var d, e := Decide(m.ips, |m.ips|, m.global, ip, now, known), Decide(s.windows, used, s.global, ip, now, known);
            && d.verdict == e.verdict
            && Agree(Memory(d.windows, d.global, m.swept), Ideal(e.windows, e.global), now)
  {
    if ip in s.windows && !Expired(s.windows[ip], now) {
      assert ip in m.ips;
    }
  }

  lemma DecideKeepsCap(ws: Windows, global: Window, ip: string, now: int, known: bool)
    requires |ws| <= MAX_IPS
    ensures |Decide(ws, |ws|, global, ip, now, known).windows| <= MAX_IPS
  {
    var after := Decide(ws, |ws|, global, ip, now, known).windows;
    assert after.Keys <= ws.Keys + {ip};
    if ip in ws {
      assert after.Keys <= ws.Keys;
      KeepsFewer(after, ws);
    } else {
      SmallerSet(after.Keys, ws.Keys + {ip});
      if |ws| >= MAX_IPS {
        assert after == ws;
      }
    }
  }

  lemma AgreeTake(m: Memory, s: Ideal, t: int, ip: string, now: int, known: bool)
    requires Agree(m, s, t) && t <= now
    ensures Taken(m, ip, now, known).1 == IdealTaken(s, ip, now, known).verdict
    ensures var d := IdealTaken(s, ip, now, known); Agree(Taken(m, ip, now, known).0, Ideal(d.windows, d.global), now)
  {
    hide Agree, Decide, Swept, Unexpired;
    AgreeSweep(m, s, t, now);
    AgreeDecide(Swept(m, now), s, |Unexpired(s.windows, now)|, ip, now, known);
  }

  lemma {:induction false} RunsAgree(es: seq<Event>)
    requires Ordered(es)
    ensures Agree(After(es), IdealAfter(es), Clock(es))
  {
    if es != [] {
      var front, e := es[..|es| - 1], es[|es| - 1];
      RunsAgree(front);
      var m, s := After(front), IdealAfter(front);
      if e.Take? {
        AgreeTake(m, s, Clock(front), e.ip, e.now, e.known);
      }
    }
  }

  /** The map never outgrows its cap. */
  lemma {:induction false} CapHolds(es: seq<Event>)
    ensures |After(es).ips| <= 10000
  {
    hide Decide, Unexpired;
    if es != [] {
      var front, e := es[..|es| - 1], es[|es| - 1];
      CapHolds(front);
      var m := After(front);
      if e.Take? {
        var s := Swept(m, e.now);
        assert s.ips.Keys <= m.ips.Keys by {
          SweptIsPart(m, e.now);
        }
        KeepsFewer(s.ips, m.ips);
        DecideKeepsCap(s.ips, s.global, e.ip, e.now, e.known);
      } else {
        KeepsFewer(m.ips - {e.ip}, m.ips);
      }
    }
  }

  /** Whatever happened before, an attempt hears exactly what the limiter without any sweeping
      would tell it. */
  lemma SweepingIsInvisible(es: seq<Event>, ip: string, now: int, known: bool)
    requires Ordered(es) && Clock(es) <= now
    ensures Answer(es, ip, now, known) == IdealTaken(IdealAfter(es), ip, now, known).verdict
  {
    hide Agree, Taken, IdealTaken;
    RunsAgree(es);
    AgreeTake(After(es), IdealAfter(es), Clock(es), ip, now, known);
  }
}

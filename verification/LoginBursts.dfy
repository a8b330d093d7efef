/** Runs of attempts that reach the bounds of the login limit (internal/web/limit.go, take). */
module LoginBursts {
  import opened Base
  import opened LoginLimiter
  import opened LoginBounds

  // ----- nine attempts of one address -----

  /** Only ip has a window, with room for more attempts; all readings are at or before now. */
  ghost predicate Room(es: seq<Event>, ip: string, now: int, start: int, more: nat) {
    var m := After(es);
    && Ordered(es) && Clock(es) <= now && ip in m.ips && m.ips.Keys <= {ip}
    && m.ips[ip].start == start && m.ips[ip].n + more <= PER_IP
    && now - start < WINDOW && m.global.start == start && m.global.n == m.ips[ip].n
  }

  /** An attempt that opens the only window. */
  lemma First(es: seq<Event>, ip: string, now: int)
    requires Ordered(es) && Clock(es) <= now && After(es).ips.Keys <= {ip}
    requires Expired(After(es).global, now) && (ip in After(es).ips ==> Expired(After(es).ips[ip], now))
    ensures Admits(es, Take(ip, now, false)) && Room(es + [Take(ip, now, false)], ip, now, now, PER_IP - 1)
  {
    var e := Take(ip, now, false);
    assert (es + [e])[..|es|] == es;
    var ips := Swept(After(es), now).ips;
    assert ips.Keys <= {ip};
    SmallerSet(ips.Keys, {ip});
    assert |ips| == |ips.Keys|;
  }

  /** One more attempt in the same window. */
  lemma Again(es: seq<Event>, ip: string, now: int, start: int, more: nat)
    requires Room(es, ip, now, start, more + 1)
    ensures Admits(es, Take(ip, now, false)) && Room(es + [Take(ip, now, false)], ip, now, start, more)
  {
    var e := Take(ip, now, false);
    assert (es + [e])[..|es|] == es;
    var s := Swept(After(es), now);
    assert s.ips == After(es).ips;
  }

  lemma {:induction false} Repeated(es: seq<Event>, ip: string, now: int, start: int, k: nat, from: nat) returns (more: seq<Event>)
    requires Room(es, ip, now, start, k) && from <= |es|
    ensures Room(es + more, ip, now, start, 0)
    ensures Attempts(es + more, ip, from) == Attempts(es, ip, from) + k
    ensures forall e :: e in more ==> e == Take(ip, now, false)
    decreases k
  {
    hide Room, Admits;
    if k == 0 {
      more := [];
      assert es + more == es;
      LessRoom(es, ip, now, start, k);
    } else {
      var e := Take(ip, now, false);
      Again(es, ip, now, start, k - 1);
      var rest := Repeated(es + [e], ip, now, start, k - 1, from);
      more := [e] + rest;
      assert es + more == es + [e] + rest;
      assert (es + [e])[..|es|] == es;
    }
  }

  lemma LessRoom(es: seq<Event>, ip: string, now: int, start: int, k: nat)
    requires Room(es, ip, now, start, k)
    ensures Room(es, ip, now, start, 0)
  {
  }

  lemma RoomLater(es: seq<Event>, ip: string, now: int, later: int, start: int, more: nat)
    requires Room(es, ip, now, start, more) && now <= later < start + WINDOW
    ensures Room(es, ip, later, start, more)
  {
  }

  lemma RoomEnds(es: seq<Event>, ip: string, now: int, start: int)
    requires Room(es, ip, now, start, 0)
    ensures Ordered(es) && Clock(es) <= now && After(es).ips.Keys <= {ip}
    ensures Expired(After(es).global, start + WINDOW)
    ensures ip in After(es).ips ==> Expired(After(es).ips[ip], start + WINDOW)
  {
  }

  lemma RoomIsOrdered(es: seq<Event>, ip: string, now: int, start: int, more: nat)
    requires Room(es, ip, now, start, more)
    ensures Ordered(es)
  {
  }

  lemma OneMore(es: seq<Event>, e: Event, from: nat)
    requires Admits(es, e) && from <= |es|
    ensures Attempts(es + [e], e.ip, from) == Attempts(es, e.ip, from) + 1
  {
    hide Admits;
    assert (es + [e])[..|es|] == es;
  }

  lemma Opened(ip: string)
    ensures var one := [Take(ip, 0, false)]; Room(one, ip, WINDOW - 1, 0, PER_IP - 1) && Attempts(one, ip, 1) == 0
  {
    hide Room, Admits;
    First([], ip, 0);
    assert [] + [Take(ip, 0, false)] == [Take(ip, 0, false)];
    RoomLater([Take(ip, 0, false)], ip, 0, WINDOW - 1, 0, PER_IP - 1);
  }

  /** A window filled up to the last second of it. */
  lemma Filled(ip: string) returns (es: seq<Event>)
    ensures |es| > 0 && es[0] == Take(ip, 0, false)
    ensures forall i :: 1 <= i < |es| ==> es[i] == Take(ip, WINDOW - 1, false)
    ensures Room(es, ip, WINDOW - 1, 0, 0) && Attempts(es, ip, 1) == PER_IP - 1
  {
    hide Admits, Room, Attempts, After, Ordered, Clock;
    var one := Take(ip, 0, false);
    Opened(ip);
    var four := Repeated([one], ip, WINDOW - 1, 0, PER_IP - 1, 1);
    es := [one] + four;
    assert forall i :: 1 <= i < |es| ==> es[i] in four;
  }

  /** The bound of AttemptsAreFew is reached: one attempt, four more a second before its window
      ends, five as soon as it has ended. */
  lemma NineGetThrough(ip: string) returns (es: seq<Event>)
    ensures Ordered(es) && Within(es, 1, 899)
    ensures forall e :: e in es ==> e.Take? && e.ip == ip
    ensures Attempts(es, ip, 1) == 9
  {
    hide Admits, Expired, Room, Attempts, After, Ordered, Clock;
    var first := Filled(ip);
    RoomEnds(first, ip, WINDOW - 1, 0);
    var next := Take(ip, WINDOW, false);
    First(first, ip, WINDOW);
    OneMore(first, next, 1);
    var rest := Repeated(first + [next], ip, WINDOW, WINDOW, PER_IP - 1, 1);
    es := first + [next] + rest;
    RoomIsOrdered(es, ip, WINDOW, WINDOW, 0);
    forall i | 0 <= i < |es| ensures es[i].Take? && es[i].ip == ip && (1 <= i ==> WINDOW - 1 <= es[i].now <= WINDOW) {
      if i > |first| {
        assert es[i] in rest;
      }
    }
  }

  // ----- the bound on unknown devices is reached -----

  /** Addresses that are all different. */
  function Name(i: nat): string {
    seq(i, _ => 'x')
  }

  lemma NamesDiffer(i: nat, j: nat)
    requires Name(i) == Name(j)
    ensures i == j
  {
    assert |Name(i)| == i && |Name(j)| == j;
  }

  /** n attempts at now, of the addresses from number k on. */
  function Crowd(k: nat, n: nat, now: int): seq<Event>
    decreases n
  {
    if n == 0 then [] else [Take(Name(k), now, false)] + Crowd(k + 1, n - 1, now)
  }

  /** Only addresses below number k have a window, and the attempts of n more fit in. */
  ghost predicate Spare(es: seq<Event>, k: nat, n: nat, now: int) {
    && Ordered(es) && Clock(es) <= now
    && (forall a :: a in After(es).ips ==> exists i: nat :: i < k && a == Name(i))
    && |After(es).ips| <= k && k + n <= MAX_IPS && Current(After(es).global, now).n + n <= GLOBAL
  }

  lemma NewAddress(es: seq<Event>, k: nat, n: nat, now: int)
    requires Spare(es, k, n, now) && n > 0
    ensures var e := Take(Name(k), now, false); Admits(es, e) && Spare(es + [e], k + 1, n - 1, now)
    ensures var e := Take(Name(k), now, false);
            After(es + [e]).global == Current(After(es).global, now).(n := Current(After(es).global, now).n + 1)
  {
    hide Name;
    var e := Take(Name(k), now, false);
    assert (es + [e])[..|es|] == es;
    var m := After(es);
    var s := Swept(m, now);
    SweptIsPart(m, now);
    KeepsFewer(s.ips, m.ips);
    if Name(k) in m.ips {
      var i: nat :| i < k && Name(k) == Name(i);
      NamesDiffer(i, k);
      assert false;
    }
    var after := After(es + [e]);
    assert after.ips == s.ips[Name(k) := Window(now, 1, false)];
    assert after.ips.Keys == s.ips.Keys + {Name(k)};
    assert |after.ips| == |after.ips.Keys| && |s.ips| == |s.ips.Keys|;
    forall a | a in after.ips ensures exists i: nat :: i < k + 1 && a == Name(i) {
      if a in m.ips {
        var i: nat :| i < k && a == Name(i);
        assert i < k + 1;
      } else {
        assert k < k + 1;
      }
    }
  }

  lemma OneStranger(es: seq<Event>, e: Event, from: nat)
    requires Admits(es, e) && !e.known && from <= |es|
    ensures Strangers(es + [e], from) == Strangers(es, from) + 1
  {
    hide Admits;
    assert (es + [e])[..|es|] == es;
  }

  lemma {:induction false} CrowdGetsIn(es: seq<Event>, k: nat, n: nat, now: int, from: nat)
    requires Spare(es, k, n, now) && from <= |es|
    ensures var all := es + Crowd(k, n, now);
            && Strangers(all, from) == Strangers(es, from) + n
            && Spare(all, k + n, 0, now)
            && (n > 0 ==> After(all).global.start == Current(After(es).global, now).start)
    ensures forall e :: e in Crowd(k, n, now) ==> e.Take? && e.now == now && !e.known
    decreases n
  {
    hide Spare, Admits, After, Strangers, Name;
    if n == 0 {
      assert es + Crowd(k, n, now) == es;
    } else {
      var e := Take(Name(k), now, false);
      NewAddress(es, k, n, now);
      OneStranger(es, e, from);
      SpareIsCurrent(es + [e], k + 1, n - 1, now, After(es).global);
      CrowdGetsIn(es + [e], k + 1, n - 1, now, from);
      assert es + Crowd(k, n, now) == (es + [e]) + Crowd(k + 1, n - 1, now);
      assert n == 1 ==> es + Crowd(k, n, now) == es + [e];
    }
  }

  lemma SpareIsCurrent(es: seq<Event>, k: nat, n: nat, now: int, global: Window)
    requires After(es).global == Current(global, now).(n := Current(global, now).n + 1)
    ensures Current(After(es).global, now).start == After(es).global.start == Current(global, now).start
  {
    hide After;
  }

  /** A window that is open but empty: an attempt opened it, and its login succeeded. */
  lemma OpenAndEmpty() returns (es: seq<Event>)
    ensures es == [Take(Name(0), 0, false), Forgive(Name(0))]
    ensures Ordered(es) && Clock(es) == 0
    ensures After(es).ips == map[] && After(es).global == Window(0, 0, false)
  {
    hide Name;
    var one := Take(Name(0), 0, false);
    es := [one] + [Forgive(Name(0))];
    assert es[..1] == [one] && [one][..0] == [];
    assert After([one]).global == Window(0, 1, false);
    assert After([one]).ips == map[Name(0) := Window(0, 1, false)];
    assert Ordered([one]) && Clock([one]) == 0;
  }

  lemma SpareAfterEmpty(es: seq<Event>, now: int)
    requires Ordered(es) && Clock(es) <= now && After(es).ips == map[] && After(es).global.n == 0
    ensures Spare(es, 0, GLOBAL, now)
  {
  }

  lemma SpareAgain(es: seq<Event>, k: nat, n: nat, now: int, later: int)
    requires Spare(es, k, 0, now) && now <= later && Expired(After(es).global, later) && n <= GLOBAL && k + n <= MAX_IPS
    ensures Spare(es, k, n, later)
  {
  }

  /** The bound of StrangersAreFew is reached: thirty attempts a second before the window ends,
      thirty more as soon as it has ended, and no login among them. */
  lemma SixtyGetThrough() returns (es: seq<Event>)
    ensures Ordered(es) && Within(es, 2, 899)
    ensures forall i :: 2 <= i < |es| ==> es[i].Take? && !es[i].known
    ensures Strangers(es, 2) == 60
  {
    hide Spare, After, Ordered, Clock, Crowd, Strangers, Name;
    var start := OpenAndEmpty();
    SpareAfterEmpty(start, WINDOW - 1);
    CrowdGetsIn(start, 0, GLOBAL, WINDOW - 1, 2);
    var full := start + Crowd(0, GLOBAL, WINDOW - 1);
    SpareAgain(full, GLOBAL, GLOBAL, WINDOW - 1, WINDOW);
    CrowdGetsIn(full, GLOBAL, GLOBAL, WINDOW, 2);
    es := full + Crowd(GLOBAL, GLOBAL, WINDOW);
    NoStrangers(start);
    SpareIsOrdered(es, 2 * GLOBAL, 0, WINDOW);
    forall i | 2 <= i < |es| ensures es[i].Take? && !es[i].known && WINDOW - 1 <= es[i].now <= WINDOW {
      if i < |full| {
        assert es[i] in Crowd(0, GLOBAL, WINDOW - 1);
      } else {
        assert es[i] in Crowd(GLOBAL, GLOBAL, WINDOW);
      }
    }
  }

  lemma NoStrangers(es: seq<Event>)
    requires |es| == 2
    ensures Strangers(es, 2) == 0
  {
  }

  lemma SpareIsOrdered(es: seq<Event>, k: nat, n: nat, now: int)
    requires Spare(es, k, n, now)
    ensures Ordered(es)
  {
  }
}

/** The limit on mails per hour (internal/alert/smtp.go, reserve). */
module MailLimit {
  import opened Base

  const HOUR := 3600
  const PER_HOUR := 20
  const PER_HOUR_TEST := 3

  function Limit(test: bool): nat {
    if test then PER_HOUR_TEST else PER_HOUR
  }

  /** What the leading loop of reserve leaves: it stops at the first reservation of the last hour. */
  function Cut(sent: seq<int>, now: int): (r: seq<int>)
    ensures |r| <= |sent| && r == sent[|sent| - |r|..]
    ensures forall i :: 0 <= i < |sent| - |r| ==> sent[i] <= now - HOUR
    ensures r != [] ==> r[0] > now - HOUR
  {
    if sent == [] || sent[0] > now - HOUR then sent else Cut(sent[1..], now)
  }

  lemma CutAt(sent: seq<int>, now: int, cut: nat)
    requires cut <= |sent|
    requires forall i :: 0 <= i < cut ==> sent[i] <= now - HOUR
    requires cut < |sent| ==> sent[cut] > now - HOUR
    ensures Cut(sent, now) == sent[cut..]
  {
    var k := |sent| - |Cut(sent, now)|;
    assert k < |sent| ==> Cut(sent, now)[0] == sent[k];
  }

  function Reserved(sent: seq<int>, limit: nat, now: int): seq<int> {
    if |Cut(sent, now)| >= limit then Cut(sent, now) else Cut(sent, now) + [now]
  }

  class Mailer {
    var sent: seq<int>
    var sentTest: seq<int>

    function Queue(test: bool): seq<int>
      reads this
    {
      if test then sentTest else sent
    }

    constructor ()
      ensures sent == [] && sentTest == []
    {
      sent, sentTest := [], [];
    }

    /** ok is false for ErrLimit. */
    method Reserve(test: bool, now: int) returns (ok: bool)
      modifies this
      ensures ok == (|Cut(old(Queue(test)), now)| < Limit(test))
      ensures Queue(test) == Reserved(old(Queue(test)), Limit(test), now)
      ensures Queue(!test) == old(Queue(!test))
    {
      var queue := if test then sentTest else sent;
      var cut := 0;
      while cut < |queue| && !(queue[cut] > now - HOUR)
        invariant 0 <= cut <= |queue|
        invariant forall i :: 0 <= i < cut ==> queue[i] <= now - HOUR
      {
        cut := cut + 1;
      }
      CutAt(queue, now, cut);
      queue := queue[cut..];
      ok := |queue| < Limit(test);
      if ok {
        queue := queue + [now];
      }
      if test {
        sentTest := queue;
      } else {
        sent := queue;
      }
    }
  }

  // ----- runs -----

  datatype Call = Call(test: bool, now: int)

  /** The queue after a run of calls. */
  function QueueAfter(calls: seq<Call>, test: bool): seq<int> {
    if calls == [] then []
    else
      var queue, c := QueueAfter(calls[..|calls| - 1], test), calls[|calls| - 1];
      if c.test == test then Reserved(queue, Limit(test), c.now) else queue
  }

  predicate Admits(calls: seq<Call>, c: Call) {
    |Cut(QueueAfter(calls, c.test), c.now)| < Limit(c.test)
  }

  /** All reservations of one kind that a run was granted. */
  function Granted(calls: seq<Call>, test: bool): seq<int> {
    if calls == [] then []
    else
      var front, c := calls[..|calls| - 1], calls[|calls| - 1];
      Granted(front, test) + if c.test == test && Admits(front, c) then [c.now] else []
  }

  /** Those of the hour that ends with now. */
  function LastHour(times: seq<int>, now: int): seq<int> {
    if times == [] then []
    else
      var n := |times| - 1;
      LastHour(times[..n], now) + if now - 3600 < times[n] then [times[n]] else []
  }

  /** How many lie in the hour that begins just after w. */
  function HourFrom(times: seq<int>, w: int): nat {
    if times == [] then 0
    else
      var n := |times| - 1;
      HourFrom(times[..n], w) + if w < times[n] <= w + 3600 then 1 else 0
  }

  predicate Ordered(calls: seq<Call>) {
    forall i, j :: 0 <= i < j < |calls| && calls[i].test == calls[j].test ==> calls[i].now <= calls[j].now
  }

  predicate Ascending(times: seq<int>) {
    forall i, j :: 0 <= i < j < |times| ==> times[i] <= times[j]
  }

  lemma LastHourOfNone(now: int)
    ensures LastHour([], now) == []
  {
  }

  lemma LastHourAppend(times: seq<int>, x: int, now: int)
    ensures LastHour(times + [x], now) == LastHour(times, now) + if now - HOUR < x then [x] else []
  {
    assert (times + [x])[..|times|] == times;
  }

  /** On ascending times, cutting the front is the same as selecting the last hour. */
  lemma CutSelects(times: seq<int>, now: int)
    requires Ascending(times)
    ensures Cut(times, now) == LastHour(times, now)
  {
    hide LastHour, Cut;
    var k := |times| - |Cut(times, now)|;
    assert k < |times| ==> Cut(times, now)[0] == times[k];
    LastHourIsSuffix(times, now, k);
  }

  lemma {:induction false} LastHourIsSuffix(times: seq<int>, now: int, k: nat)
    requires k <= |times|
    requires forall i :: 0 <= i < k ==> times[i] <= now - HOUR
    requires forall i :: k <= i < |times| ==> times[i] > now - HOUR
    ensures LastHour(times, now) == times[k..]
  {
    if times != [] {
      var n := |times| - 1;
      LastHourIsSuffix(times[..n], now, if k > n then n else k);
      if k <= n {
        assert times[k..] == times[..n][k..] + [times[n]];
      }
    }
  }

  lemma {:induction false} HourFitsLast(times: seq<int>, w: int, now: int)
    requires now - HOUR <= w
    ensures HourFrom(times, w) <= |LastHour(times, now)|
  {
    if times != [] {
      HourFitsLast(times[..|times| - 1], w, now);
    }
  }

  lemma {:induction false} NarrowsLater(times: seq<int>, t: int, now: int)
    requires t <= now
    ensures LastHour(LastHour(times, t), now) == LastHour(times, now)
  {
    hide LastHour;
    if times == [] {
      LastHourOfNone(t);
      LastHourOfNone(now);
    } else {
      var n := |times| - 1;
      var front := LastHour(times[..n], t);
      NarrowsLater(times[..n], t, now);
      assert times == times[..n] + [times[n]];
      LastHourAppend(times[..n], times[n], t);
      LastHourAppend(times[..n], times[n], now);
      if t - HOUR < times[n] {
        LastHourAppend(front, times[n], now);
      } else {
        assert LastHour(times, t) == front;
        assert LastHour(times, now) == LastHour(times[..n], now);
      }
    }
  }

  lemma AscendingAppend(s: seq<int>, x: int)
    requires Ascending(s) && forall y :: y in s ==> y <= x
    ensures Ascending(s + [x]) && forall y :: y in s + [x] ==> y <= x
  {
    assert forall i :: 0 <= i < |s| ==> s[i] in s;
  }

  lemma {:induction false} LastHourInside(times: seq<int>, t: int)
    requires Ascending(times)
    ensures Ascending(LastHour(times, t)) && forall x :: x in LastHour(times, t) ==> x in times
  {
    if times != [] {
      var front, last := times[..|times| - 1], times[|times| - 1];
      LastHourInside(front, t);
      assert forall x :: x in front ==> x in times && x <= last;
      AscendingAppend(LastHour(front, t), last);
      assert LastHour(front, t) + [] == LastHour(front, t);
    }
  }

  /** What is kept of one queue: the latest reading it saw is t, the reservations granted so far
      ascend up to it, and the stored ones are those of the hour before it. */
  ghost predicate Fits(queue: seq<int>, granted: seq<int>, t: int) {
    Ascending(granted) && (forall x :: x in granted ==> x <= t) && queue == LastHour(granted, t)
  }

  lemma ReserveFits(queue: seq<int>, granted: seq<int>, t: int, now: int, limit: nat)
    requires Fits(queue, granted, t) && t <= now
    ensures Cut(queue, now) == LastHour(granted, now)
    ensures Fits(Reserved(queue, limit, now), granted + if |Cut(queue, now)| < limit then [now] else [], now)
  {
    hide Cut, LastHour;
    LastHourInside(granted, t);
    CutSelects(queue, now);
    NarrowsLater(granted, t, now);
    LastHourAppend(granted, now, now);
    AscendingAppend(granted, now);
    assert granted + [] == granted;
  }

  /** The last reading of one kind. */
  function Latest(calls: seq<Call>, test: bool): Option<int> {
    if calls == [] then None
    else if calls[|calls| - 1].test == test then Some(calls[|calls| - 1].now)
    else Latest(calls[..|calls| - 1], test)
  }

  lemma {:induction false} RunFits(calls: seq<Call>, test: bool, now: int) returns (t: int)
    requires Ordered(calls + [Call(test, now)])
    ensures t <= now && Fits(QueueAfter(calls, test), Granted(calls, test), t)
    ensures Latest(calls, test).Some? ==> t == Latest(calls, test).value
  {
    hide Fits, Reserved, Cut;
    t := now;
    if calls == [] {
      NothingFits(t);
    } else {
      var front, c := calls[..|calls| - 1], calls[|calls| - 1];
      var whole := calls + [Call(test, now)];
      assert whole[|calls|] == Call(test, now) && whole[|calls| - 1] == c;
      if c.test == test {
        assert Ordered(front + [c]) by { assert front + [c] == whole[..|calls|]; }
        var s := RunFits(front, test, c.now);
        ReserveFits(QueueAfter(front, test), Granted(front, test), s, c.now, Limit(test));
        t := c.now;
      } else {
        assert Ordered(front + [Call(test, now)]) by { DropOne(whole, |calls| - 1); }
        t := RunFits(front, test, now);
        assert Granted(calls, test) == Granted(front, test);
      }
    }
  }

  lemma NothingFits(t: int)
    ensures Fits([], [], t)
  {
  }

  lemma DropOne(calls: seq<Call>, k: nat)
    requires Ordered(calls) && k < |calls|
    ensures Ordered(calls[..k] + calls[k + 1..])
  {
    var s := calls[..k] + calls[k + 1..];
    forall i, j | 0 <= i < j < |s| && s[i].test == s[j].test ensures s[i].now <= s[j].now {
      assert s[i] == calls[if i < k then i else i + 1] && s[j] == calls[if j < k then j else j + 1];
    }
  }

  /** A call is refused exactly if the last hour is full, whatever happened before and however
      little of it is still stored. */
  lemma RefusedIfFull(calls: seq<Call>, c: Call)
    requires Ordered(calls + [c])
    ensures Admits(calls, c) <==> |LastHour(Granted(calls, c.test), c.now)| < if c.test then 3 else 20
  {
    hide LastHour, Cut;
    var t := RunFits(calls, c.test, c.now);
    ReserveFits(QueueAfter(calls, c.test), Granted(calls, c.test), t, c.now, Limit(c.test));
  }

  lemma Twice(calls: seq<Call>)
    requires Ordered(calls) && calls != []
    ensures Ordered(calls + [calls[|calls| - 1]])
  {
  }

  /** After a call its queue holds exactly the reservations of the last hour. */
  lemma StoredIsLastHour(calls: seq<Call>)
    requires Ordered(calls) && calls != []
    ensures var c := calls[|calls| - 1]; QueueAfter(calls, c.test) == LastHour(Granted(calls, c.test), c.now)
  {
    hide Cut, LastHour, Reserved, Ordered;
    var c := calls[|calls| - 1];
    assert Ordered(calls + [c]) by { Twice(calls); }
    var t := RunFits(calls, c.test, c.now);
  }

  /** No hour, wherever it begins, holds more mails than the limit. */
  lemma {:induction false} NoHourIsOverfull(calls: seq<Call>, test: bool, w: int)
    requires Ordered(calls)
    ensures HourFrom(Granted(calls, test), w) <= if test then 3 else 20
  {
    hide Cut, Admits;
    if calls != [] {
      var front, c := calls[..|calls| - 1], calls[|calls| - 1];
      assert calls == front + [c];
      NoHourIsOverfull(front, test, w);
      var g := Granted(front, test);
      assert g + [] == g;
      if c.test == test && Admits(front, c) {
        assert (g + [c.now])[..|g|] == g;
        if w < c.now <= w + HOUR {
          RefusedIfFull(front, c);
          HourFitsLast(g, w, c.now);
        }
      }
    }
  }

  // ----- readings that come late -----

  lemma {:induction false} LatestIsLatest(calls: seq<Call>, test: bool)
    requires Ordered(calls) && Latest(calls, test).Some?
    ensures Ordered(calls + [Call(test, Latest(calls, test).value)])
  {
    var n := |calls| - 1;
    if calls[n].test != test {
      assert Ordered(calls[..n]);
      LatestIsLatest(calls[..n], test);
      var shorter := calls[..n] + [Call(test, Latest(calls, test).value)];
      assert forall i :: 0 <= i < n ==> shorter[i] == calls[i];
      assert shorter[n] == Call(test, Latest(calls, test).value);
    }
  }

  /** The clock is read before the lock is taken, so a call may come with a reading older than one
      already used. It is judged by the hour before the newer reading, not by its own. */
  lemma LateReading(calls: seq<Call>, c: Call)
    requires Ordered(calls) && Latest(calls, c.test).Some? && c.now <= Latest(calls, c.test).value
    ensures Admits(calls, c) <==> |LastHour(Granted(calls, c.test), Latest(calls, c.test).value)| < Limit(c.test)
  {
    hide Granted, Ordered, QueueAfter, Cut, LastHour;
    var latest := Latest(calls, c.test).value;
    LatestIsLatest(calls, c.test);
    var t := RunFits(calls, c.test, latest);
    var queue := QueueAfter(calls, c.test);
    if queue != [] {
      InLastHour(Granted(calls, c.test), latest, queue[0]);
    }
    CutAt(queue, c.now, 0);
  }

  /** Some hour holds more than the limit. */
  ghost predicate Overfull(times: seq<int>, limit: nat) {
    exists w :: HourFrom(times, w) > limit
  }

  lemma HourAppend(times: seq<int>, x: int, w: int)
    ensures HourFrom(times + [x], w) == HourFrom(times, w) + if w < x <= w + HOUR then 1 else 0
  {
    assert (times + [x])[..|times|] == times;
  }

  /** An hour that begins later loses nothing if nothing lies in between. */
  lemma {:induction false} HourShift(times: seq<int>, w: int, v: int)
    requires w <= v && forall x :: x in times ==> !(w < x <= v)
    ensures HourFrom(times, w) <= HourFrom(times, v)
  {
    if times != [] {
      var front, last := times[..|times| - 1], times[|times| - 1];
      assert last in times && forall x :: x in front ==> x in times;
      HourShift(front, w, v);
    }
  }

  lemma {:induction false} FirstAfter(times: seq<int>, w: int) returns (y: int)
    requires HourFrom(times, w) > 0
    ensures y in times && w < y && forall x :: x in times ==> !(w < x < y)
  {
    var n := |times| - 1;
    var front := times[..n];
    assert forall x :: x in times ==> x in front || x == times[n];
    if HourFrom(front, w) > 0 {
      y := FirstAfter(front, w);
      if w < times[n] < y {
        y := times[n];
      }
    } else {
      y := times[n];
      assert w < y <= w + HOUR;
      forall x | x in front ensures !(w < x < y) {
        if w < x < y {
          InHour(front, w, x);
        }
      }
    }
  }

  lemma {:induction false} InHour(times: seq<int>, w: int, x: int)
    requires x in times && w < x <= w + HOUR
    ensures HourFrom(times, w) > 0
  {
    if x != times[|times| - 1] {
      InHour(times[..|times| - 1], w, x);
    }
  }

  /** The hour that begins with y is full. */
  predicate FullFrom(times: seq<int>, y: int, limit: nat) {
    HourFrom(times, y - 1) >= limit
  }

  /** An hour that x falls into is full already: the one that begins with x, or one that begins
      with a reservation y. */
  ghost predicate FullAround(times: seq<int>, x: int, limit: nat) {
    exists y :: FullFrom(times, y, limit) && (y in times || y == x) && x - HOUR < y <= x
  }

  /** One more reservation overfills an hour exactly if one it falls into is full. */
  lemma GrantOverfills(times: seq<int>, x: int, limit: nat)
    requires limit >= 1 && !Overfull(times, limit)
    ensures Overfull(times + [x], limit) <==> FullAround(times, x, limit)
  {
    hide HourFrom;
    if Overfull(times + [x], limit) {
      var w :| HourFrom(times + [x], w) > limit;
      HourAppend(times, x, w);
      assert HourFrom(times, w) <= limit;
      var y := FirstAfter(times, w);
      var z := if y <= x then y else x;
      HourShift(times, w, z - 1);
      assert FullFrom(times, z, limit);
    }
    if FullAround(times, x, limit) {
      var y :| FullFrom(times, y, limit) && (y in times || y == x) && x - HOUR < y <= x;
      HourAppend(times, x, y - 1);
    }
  }

  lemma OverfullStays(times: seq<int>, x: int, limit: nat)
    requires Overfull(times, limit)
    ensures Overfull(times + [x], limit)
  {
    hide HourFrom;
    var w :| HourFrom(times, w) > limit;
    HourAppend(times, x, w);
  }

  lemma NoneIsOverfull(limit: nat)
    ensures !Overfull([], limit)
  {
  }

  /** The newest reading of one kind, wherever it came in the run. */
  function Newest(calls: seq<Call>, test: bool): Option<int> {
    if calls == [] then None
    else
      var front, c := Newest(calls[..|calls| - 1], test), calls[|calls| - 1];
      if c.test != test || (front.Some? && c.now <= front.value) then front else Some(c.now)
  }

  /** An hour that the call falls into is full, the one that begins with y, a reservation or the
      call itself, and the newest reading has made the limiter forget y. */
  ghost predicate DroppedTooSoon(granted: seq<int>, now: int, newest: Option<int>, limit: nat) {
    newest.Some? && exists y :: FullFrom(granted, y, limit) && (y in granted || y == now)
                                && now - HOUR < y <= now && y <= newest.value - HOUR
  }

  /** Cutting the queue loses nothing of an hour that begins after the cut. */
  lemma {:induction false} HourOfCut(sent: seq<int>, now: int, v: int)
    requires now - HOUR <= v
    ensures HourFrom(Cut(sent, now), v) == HourFrom(sent, v)
  {
    hide Cut;
    HourOfSuffix(sent, |sent| - |Cut(sent, now)|, v);
  }

  lemma {:induction false} HourOfSuffix(sent: seq<int>, k: nat, v: int)
    requires k <= |sent| && forall i :: 0 <= i < k ==> sent[i] <= v
    ensures HourFrom(sent[k..], v) == HourFrom(sent, v)
  {
    var n := |sent| - 1;
    if k <= n {
      HourOfSuffix(sent[..n], k, v);
      assert sent[k..] == sent[..n][k..] + [sent[n]];
      HourAppend(sent[..n][k..], sent[n], v);
    } else if sent != [] {
      HourOfSuffix(sent[..n], n, v);
      assert sent[..n][n..] == [] && sent[k..] == [];
    }
  }

  lemma {:induction false} HourIsPart(times: seq<int>, v: int)
    ensures HourFrom(times, v) <= |times|
  {
    if times != [] {
      HourIsPart(times[..|times| - 1], v);
    }
  }

  /** For hours that begin within the last one before the newest reading, the queue holds all that
      was granted, whatever the order of the readings. */
  lemma {:induction false} QueueCounts(calls: seq<Call>, test: bool, v: int)
    requires Newest(calls, test).Some? ==> Newest(calls, test).value - HOUR <= v
    ensures HourFrom(QueueAfter(calls, test), v) == HourFrom(Granted(calls, test), v)
  {
    if calls != [] {
      hide Cut, HourFrom;
      var front, c := calls[..|calls| - 1], calls[|calls| - 1];
      QueueCounts(front, test, v);
      var queue, granted := QueueAfter(front, test), Granted(front, test);
      assert granted + [] == granted;
      if c.test == test {
        HourOfCut(queue, c.now, v);
        HourAppend(Cut(queue, c.now), c.now, v);
        HourAppend(granted, c.now, v);
      }
    }
  }

  /** A granted call falls into a full hour only if the newest reading made the limiter forget the
      reservation that begins it; and then the call is late. */
  lemma FullIsDropped(calls: seq<Call>, c: Call)
    requires Admits(calls, c)
    ensures var granted, newest := Granted(calls, c.test), Newest(calls, c.test);
            && (FullAround(granted, c.now, Limit(c.test)) <==> DroppedTooSoon(granted, c.now, newest, Limit(c.test)))
            && (DroppedTooSoon(granted, c.now, newest, Limit(c.test)) ==> c.now < newest.value)
  {
    hide Granted, QueueAfter, Cut, HourFrom, Newest;
    var queue, granted, newest := QueueAfter(calls, c.test), Granted(calls, c.test), Newest(calls, c.test);
    forall v | c.now - HOUR <= v && (newest.Some? ==> newest.value - HOUR <= v) ensures HourFrom(granted, v) < Limit(c.test) {
      QueueCounts(calls, c.test, v);
      HourOfCut(queue, c.now, v);
      HourIsPart(Cut(queue, c.now), v);
    }
    forall y | FullFrom(granted, y, Limit(c.test)) && c.now - HOUR < y <= c.now
      ensures newest.Some? && y <= newest.value - HOUR
    {
    }
  }

  /** Exactly when granting a call puts more than the limit into some hour, after any calls with
      readings in any order: the newest reading has dropped a reservation too soon. */
  lemma LateOverfills(calls: seq<Call>, c: Call)
    requires Admits(calls, c) && !Overfull(Granted(calls, c.test), Limit(c.test))
    ensures var granted, newest := Granted(calls, c.test), Newest(calls, c.test);
            && Granted(calls + [c], c.test) == granted + [c.now]
            && (Overfull(granted + [c.now], Limit(c.test)) <==> DroppedTooSoon(granted, c.now, newest, Limit(c.test)))
  {
    hide Granted, Admits, HourFrom;
    GrantedMore(calls, c);
    FullIsDropped(calls, c);
    GrantOverfills(Granted(calls, c.test), c.now, Limit(c.test));
  }

  ghost predicate Overfills(calls: seq<Call>, c: Call) {
    Admits(calls, c) && DroppedTooSoon(Granted(calls, c.test), c.now, Newest(calls, c.test), Limit(c.test))
  }

  /** Exactly when some hour gets more than the limit, for any order of readings: when the newest
      reading before some granted call had dropped a reservation too soon. */
  lemma {:induction false} RunOverfills(calls: seq<Call>, test: bool)
    ensures Overfull(Granted(calls, test), Limit(test)) <==>
            exists i :: 0 <= i < |calls| && calls[i].test == test && Overfills(calls[..i], calls[i])
  {
    hide Admits, DroppedTooSoon, Newest;
    if calls == [] {
      assert Granted(calls, test) == [];
      NoneIsOverfull(Limit(test));
    } else {
      var n := |calls| - 1;
      var front, c := calls[..n], calls[n];
      RunOverfills(front, test);
      assert forall i :: 0 <= i < n ==> front[i] == calls[i] && front[..i] == calls[..i];
      var granted := Granted(front, test);
      assert granted + [] == granted;
      if c.test == test && Admits(front, c) {
        if Overfull(granted, Limit(test)) {
          OverfullStays(granted, c.now, Limit(test));
        } else {
          LateOverfills(front, c);
        }
      }
    }
  }

  lemma GrantedMore(calls: seq<Call>, c: Call)
    requires Admits(calls, c)
    ensures Granted(calls + [c], c.test) == Granted(calls, c.test) + [c.now]
  {
    hide Admits;
    assert (calls + [c])[..|calls|] == calls;
  }

  lemma {:induction false} InLastHour(times: seq<int>, now: int, x: int)
    requires x in LastHour(times, now)
    ensures x > now - HOUR
  {
    if times != [] && x in LastHour(times[..|times| - 1], now) {
      InLastHour(times[..|times| - 1], now, x);
    }
  }

  /** So readings out of order can put a fourth test mail into one hour: 5, 6 and 7 are granted,
      the reading 3606 drops the first two, and 3604 is granted although all three are within
      its hour. */
  lemma LateReadingOverfills() returns (calls: seq<Call>)
    ensures calls == [Call(true, 5), Call(true, 6), Call(true, 7), Call(true, 3606), Call(true, 3604)]
    ensures Granted(calls, true) == [5, 6, 7, 3606, 3604]
    ensures HourFrom(Granted(calls, true), 4) == 4
  {
    hide QueueAfter, Granted, Cut, HourFrom;
    NoCalls();
    calls := Grant([], [], [], 5, 0);
    calls := Grant(calls, [5], [5], 6, 0);
    calls := Grant(calls, [5, 6], [5, 6], 7, 0);
    calls := Grant(calls, [5, 6, 7], [5, 6, 7], 3606, 2);
    calls := Grant(calls, [7, 3606], [5, 6, 7, 3606], 3604, 0);
    FiveCounted();
  }

  lemma FiveCounted()
    ensures HourFrom([5, 6, 7, 3606, 3604], 4) == 4
  {
    var all := [5, 6, 7, 3606, 3604];
    assert all[..4][..3] == all[..3] && all[..3][..2] == all[..2] && all[..2][..1] == all[..1] && all[..1][..0] == [];
    assert HourFrom(all[..1], 4) == 1;
    assert HourFrom(all[..2], 4) == 2;
    assert HourFrom(all[..3], 4) == 3;
    assert HourFrom(all[..4], 4) == 3;
  }

  lemma Grant(calls: seq<Call>, queue: seq<int>, granted: seq<int>, now: int, cut: nat) returns (next: seq<Call>)
    requires QueueAfter(calls, true) == queue && Granted(calls, true) == granted
    requires cut <= |queue| && |queue| - cut < PER_HOUR_TEST
    requires forall i :: 0 <= i < cut ==> queue[i] <= now - HOUR
    requires cut < |queue| ==> queue[cut] > now - HOUR
    ensures next == calls + [Call(true, now)]
    ensures QueueAfter(next, true) == queue[cut..] + [now] && Granted(next, true) == granted + [now]
  {
    hide Cut;
    next := calls + [Call(true, now)];
    assert next[..|calls|] == calls;
    CutAt(queue, now, cut);
    assert Admits(calls, Call(true, now));
  }

  lemma NoCalls()
    ensures QueueAfter([], true) == [] && Granted([], true) == []
  {
  }
}

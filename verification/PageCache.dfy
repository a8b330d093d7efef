/** The page cache (internal/web/public.go: get, fromCache, clearCache) as a transition system.
    Requests, admin writes and clears interleave step by step. */
module PageCache {
  import opened Base

  const TTL := 5

  /** A finished page. at is the clock reading of the get that built it, began the number of the
      step that started the build, basis how many admin writes were committed by then. saw
      tells of each of its queries how many writes it could see. */
  datatype Page = Page(at: int, began: nat, basis: nat, saw: seq<nat>)

  predicate Usable(page: Option<Page>, now: int) {
    page.Some? && now - page.value.at < TTL
  }

  // ----- one caller at a time -----

  class Cached {
    var page: Option<Page>

    constructor ()
      ensures page == None
    {
      page := None;
    }

    /** built is what build returns if it is called, None for an error. */
    method Get(now: int, built: Option<Page>) returns (answer: Option<Page>)
      requires built.Some? ==> built.value.at == now
      modifies this
      ensures answer == if Usable(old(page), now) then old(page) else built
      ensures page == if Usable(old(page), now) || built.None? then old(page) else built
      ensures answer.Some? ==> answer.value.at == now || now - answer.value.at < TTL
      ensures old(page).Some? && now < old(page).value.at + 5 ==> answer == old(page) == page
      ensures old(page).Some? && now >= old(page).value.at + 5 ==> answer == built
    {
      if page.None? || now - page.value.at >= TTL {
        if built.None? {
          return None;
        }
        page := built;
      }
      return page;
    }
  }

  /** The page stored under each key, and what one request makes of it: the answer, and what is
      stored afterwards. */
  type Pages = map<string, Option<Page>>

  function Fetched(pages: Pages, key: string, now: int, built: Option<Page>): (Pages, Option<Page>) {
    var page := if key in pages then pages[key] else None;
    if Usable(page, now) then (pages, page)
    else (pages[key := if built.Some? then built else page], built)
  }

  lemma FetchedStored(pages: Pages, key: string, now: int, built: Option<Page>, page: Option<Page>)
    requires page == if key in pages then pages[key] else None
    ensures var kept := if Usable(page, now) || built.None? then page else built;
            Fetched(pages, key, now, built) == (pages[key := page][key := kept], if Usable(page, now) then page else built)
  {
    var kept := if Usable(page, now) || built.None? then page else built;
    assert pages[key := page][key := kept] == pages[key := kept];
    assert key in pages ==> pages[key := page] == pages;
  }

  /** A page that is not five seconds old is the answer, and nothing changes. */
  lemma FetchedFresh(pages: Pages, key: string, now: int, built: Option<Page>)
    ensures key in pages && pages[key].Some? && now < pages[key].value.at + 5 ==>
              Fetched(pages, key, now, built) == (pages, pages[key])
  {
  }

  class Server {
    var cache: map<string, Cached>

    constructor ()
      ensures cache == map[] && Valid()
    {
      cache := map[];
    }

    /** No object serves two keys. */
    ghost predicate Valid()
      reads this
    {
      forall k, l :: k in cache && l in cache && k != l ==> cache[k] != cache[l]
    }

    function Stored(): Pages
      reads this, cache.Values
    {
      map k | k in cache :: cache[k].page
    }

    method Find(key: string) returns (c: Cached)
      requires Valid()
      modifies this
      ensures Valid() && key in cache && cache[key] == c
      ensures key in old(cache) ==> cache == old(cache)
      ensures key !in old(cache) ==> fresh(c) && c.page == None && cache == old(cache)[key := c]
      ensures c.page == (if key in old(Stored()) then old(Stored())[key] else None) && Stored() == old(Stored())[key := c.page]
    {
      if key !in cache {
        var entry := new Cached();
        cache := cache[key := entry];
      }
      c := cache[key];
    }

    method FromCache(key: string, now: int, built: Option<Page>) returns (answer: Option<Page>)
      requires Valid() && (built.Some? ==> built.value.at == now)
      modifies this, cache.Values
      ensures Valid() && Stored() == Fetched(old(Stored()), key, now, built).0
      ensures answer == Fetched(old(Stored()), key, now, built).1
      ensures key in old(Stored()) ==>
                var page := old(Stored())[key];
                page.Some? && now < page.value.at + 5 ==> answer == page && Stored() == old(Stored())
    {
      hide Fetched, Usable, Stored;
      ghost var before := Stored();
      var c := Find(key);
      FetchedStored(before, key, now, built, c.page);
      FetchedFresh(before, key, now, built);
      answer := GetFor(key, c, now, built);
    }

    method GetFor(key: string, c: Cached, now: int, built: Option<Page>) returns (answer: Option<Page>)
      requires Valid() && key in cache && cache[key] == c && (built.Some? ==> built.value.at == now)
      modifies c
      ensures answer == if Usable(old(c.page), now) then old(c.page) else built
      ensures Stored() == old(Stored())[key := if Usable(old(c.page), now) || built.None? then old(c.page) else built]
    {
      hide Usable;
      ghost var before := Stored();
      answer := c.Get(now, built);
      forall k | k in cache && k != key ensures cache[k].page == before[k] {
        assert cache[k] != c;
      }
    }

    method Clear()
      modifies this
      ensures cache == map[] && Valid()
    {
      cache := map[];
    }
  }

  // ----- the transition system -----

  /** A `cached` object, with the number of the step that created it. */
  datatype Entry = Entry(born: nat, holder: Option<nat>, page: Option<Page>)

  datatype Pc =
    | Waiting                           // has the object, waits for its lock
    | Holding                           // has the lock
    | Building(draft: Page)             // inside build
    | Served(page: Page, reading: int)  // answered; reading is what now() returned
    | Failed                            // build returned an error

  datatype Request = Request(entry: nat, pc: Pc)

  /** writes holds the clock at each committed admin write. */
  datatype State = State(
    cache: map<string, nat>, entries: seq<Entry>, requests: map<nat, Request>,
    writes: seq<int>, clock: int, steps: nat)

  datatype Label =
    | Tick(clock: int)
    | Write
    | Clear
    | Lookup(r: nat, key: string)
    | Lock(r: nat)
    | Look(r: nat)
    | Query(r: nat)
    | Finish(r: nat)
    | Fail(r: nat)

  function Init(clock: int): State {
    State(map[], [], map[], [], clock, 0)
  }

  predicate At(s: State, r: nat) {
    r in s.requests && s.requests[r].entry < |s.entries|
  }

  function EntryOf(s: State, r: nat): Entry
    requires At(s, r)
  {
    s.entries[s.requests[r].entry]
  }

  predicate Enabled(s: State, l: Label) {
    match l
    case Tick(clock) => s.clock <= clock
    case Write => true
    case Clear => true
    case Lookup(r, key) => r !in s.requests
    case Lock(r) => At(s, r) && s.requests[r].pc.Waiting? && EntryOf(s, r).holder.None?
    case Look(r) => At(s, r) && s.requests[r].pc.Holding?
    case Query(r) => At(s, r) && s.requests[r].pc.Building?
    case Finish(r) => At(s, r) && s.requests[r].pc.Building?
    case Fail(r) => At(s, r) && s.requests[r].pc.Building?
  }

  /** A request moves on, and its object changes with it. */
  function Moved(s: State, r: nat, pc: Pc, e: Entry): State
    requires At(s, r)
  {
    var k := s.requests[r].entry;
    s.(requests := s.requests[r := Request(k, pc)], entries := s.entries[k := e], steps := s.steps + 1)
  }

  /** fromCache under cacheMu: the object for the key, a new one if there is none. */
  function LookedUp(s: State, r: nat, key: string): State {
    if key in s.cache then
      s.(requests := s.requests[r := Request(s.cache[key], Waiting)], steps := s.steps + 1)
    else
      s.(cache := s.cache[key := |s.entries|],
         entries := s.entries + [Entry(s.steps, None, None)],
         requests := s.requests[r := Request(|s.entries|, Waiting)],
         steps := s.steps + 1)
  }

  function Step(s: State, l: Label): State
    requires Enabled(s, l)
  {
    match l
    case Tick(clock) => s.(clock := clock, steps := s.steps + 1)
    case Write => s.(writes := s.writes + [s.clock], steps := s.steps + 1)
    case Clear => s.(cache := map[], steps := s.steps + 1)
    case Lookup(r, key) => LookedUp(s, r, key)
    case Lock(r) => Moved(s, r, Holding, EntryOf(s, r).(holder := Some(r)))
    case Look(r) =>
      var e := EntryOf(s, r);
      if Usable(e.page, s.clock) then Moved(s, r, Served(e.page.value, s.clock), e.(holder := None))
      else Moved(s, r, Building(Page(s.clock, s.steps, |s.writes|, [])), e)
    case Query(r) =>
      var draft := s.requests[r].pc.draft;
      Moved(s, r, Building(draft.(saw := draft.saw + [|s.writes|])), EntryOf(s, r))
    case Finish(r) =>
      var page := s.requests[r].pc.draft;
      Moved(s, r, Served(page, page.at), EntryOf(s, r).(page := Some(page), holder := None))
    case Fail(r) =>
      Moved(s, r, Failed, EntryOf(s, r).(holder := None))
  }

  predicate Runnable(s: State, ls: seq<Label>)
    decreases |ls|
  {
    ls == [] || (Enabled(s, ls[0]) && Runnable(Step(s, ls[0]), ls[1..]))
  }

  function RunAll(s: State, ls: seq<Label>): State
    requires Runnable(s, ls)
    decreases |ls|
  {
    if ls == [] then s else RunAll(Step(s, ls[0]), ls[1..])
  }

  // ----- what every step keeps -----

  /** A page as old as its reading says: every query saw the writes of its basis, and a write that
      is not among those came no earlier than the reading. */
  ghost predicate Honest(s: State, p: Page) {
    && p.at <= s.clock && p.basis <= |s.writes|
    && (forall n :: n in p.saw ==> p.basis <= n)
    && (forall i :: p.basis <= i < |s.writes| ==> p.at <= s.writes[i])
  }

  predicate Inside(pc: Pc) {
    pc.Holding? || pc.Building?
  }

  ghost predicate FitsRequest(s: State, r: nat) {
    && At(s, r)
    && (Inside(s.requests[r].pc) ==> EntryOf(s, r).holder == Some(r))
    && (s.requests[r].pc.Building? ==> Honest(s, s.requests[r].pc.draft) && s.requests[r].pc.draft.began < s.steps)
    && (s.requests[r].pc.Building? && EntryOf(s, r).page.Some? ==> EntryOf(s, r).page.value.at + TTL <= s.requests[r].pc.draft.at)
    && (s.requests[r].pc.Served? ==>
          && Honest(s, s.requests[r].pc.page)
          && s.requests[r].pc.page.at <= s.requests[r].pc.reading < s.requests[r].pc.page.at + TTL)
  }

  ghost predicate FitsEntry(s: State, k: nat) {
    k < |s.entries| ==>
      && s.entries[k].born < s.steps
      && (s.entries[k].page.Some? ==> Honest(s, s.entries[k].page.value))
      && (s.entries[k].holder.Some? ==>
            var r := s.entries[k].holder.value;
            r in s.requests && s.requests[r].entry == k && Inside(s.requests[r].pc))
  }

  ghost predicate Inv(s: State) {
    && (forall key :: key in s.cache ==> s.cache[key] < |s.entries|)
    && (forall k, l :: k in s.cache && l in s.cache && k != l ==> s.cache[k] != s.cache[l])
    && (forall r :: r in s.requests ==> FitsRequest(s, r))
    && (forall k: nat :: FitsEntry(s, k))
  }

  lemma HonestLater(s: State, t: State, p: Page)
    requires Honest(s, p) && s.clock <= t.clock
    requires t.writes == s.writes || t.writes == s.writes + [s.clock]
    ensures Honest(t, p)
  {
  }

  lemma DraftIsHonest(s: State, r: nat)
    requires At(s, r) && s.requests[r].pc.Building? && Honest(s, s.requests[r].pc.draft)
    ensures var draft := s.requests[r].pc.draft; Honest(s, draft.(saw := draft.saw + [|s.writes|]))
  {
  }

  lemma StepKeepsInv(s: State, l: Label)
    requires Inv(s) && Enabled(s, l)
    ensures Inv(Step(s, l))
  {
    hide Honest;
    var t := Step(s, l);
    forall p | Honest(s, p) ensures Honest(t, p) {
      HonestLater(s, t, p);
    }
    if l.Look? {
      FreshIsHonest(s);
      assert FitsEntry(s, s.requests[l.r].entry);
      var page := EntryOf(s, l.r).page;
      if page.Some? {
        HonestAt(s, page.value);
      }
    }
    if l.Query? {
      DraftIsHonest(s, l.r);
    }
    forall r | r in t.requests ensures FitsRequest(t, r) {
      assert r in s.requests ==> FitsRequest(s, r);
    }
    forall k: nat ensures FitsEntry(t, k) {
      assert FitsEntry(s, k);
    }
  }

  lemma HonestAt(s: State, p: Page)
    requires Honest(s, p)
    ensures p.at <= s.clock
  {
  }

  lemma FreshIsHonest(s: State)
    ensures Honest(s, Page(s.clock, s.steps, |s.writes|, []))
  {
  }

  lemma {:induction false} RunKeepsInv(s: State, ls: seq<Label>)
    requires Inv(s) && Runnable(s, ls)
    ensures Inv(RunAll(s, ls))
    ensures RunAll(s, ls).steps == s.steps + |ls|
    decreases |ls|
  {
    hide Inv, Enabled;
    if ls != [] {
      StepKeepsInv(s, ls[0]);
      RunKeepsInv(Step(s, ls[0]), ls[1..]);
    }
  }

  lemma {:induction false} RunConcat(s: State, a: seq<Label>, b: seq<Label>)
    requires Runnable(s, a + b)
    ensures Runnable(s, a) && Runnable(RunAll(s, a), b)
    ensures RunAll(s, a + b) == RunAll(RunAll(s, a), b)
    decreases |a|
  {
    hide Enabled, Step;
    if a == [] {
      assert a + b == b;
    } else {
      assert (a + b)[0] == a[0] && (a + b)[1..] == a[1..] + b;
      RunConcat(Step(s, a[0]), a[1..], b);
    }
  }

  // ----- main results -----

  /** In every interleaving: an answer is less than five seconds old at the clock reading that get
      takes, and it shows every write that was committed five seconds before that reading or
      earlier. A build may take longer than the reading knows. */
  lemma NeverStale(clock: int, ls: seq<Label>, r: nat)
    requires Runnable(Init(clock), ls)
    requires var s := RunAll(Init(clock), ls); r in s.requests && s.requests[r].pc.Served?
    ensures var s := RunAll(Init(clock), ls); var page, reading := s.requests[r].pc.page, s.requests[r].pc.reading;
            && page.at <= reading < page.at + 5
            && (forall i :: 0 <= i < |s.writes| && s.writes[i] <= reading - 5 ==>
                  i < page.basis && forall n :: n in page.saw ==> i < n)
  {
    hide Step, Runnable, RunAll;
    RunKeepsInv(Init(clock), ls);
    var s := RunAll(Init(clock), ls);
    assert FitsRequest(s, r);
  }

  /** At most one request builds for an object, and whoever waits for one can go on or waits for
      somebody who can. */
  lemma OneBuilderAtATime(clock: int, ls: seq<Label>, q: nat, r: nat)
    requires Runnable(Init(clock), ls)
    requires var s := RunAll(Init(clock), ls); q in s.requests && r in s.requests && s.requests[q].entry == s.requests[r].entry
    ensures var s := RunAll(Init(clock), ls);
            && (Inside(s.requests[q].pc) && Inside(s.requests[r].pc) ==> q == r)
            && (s.requests[r].pc.Waiting? ==>
                  || Enabled(s, Lock(r))
                  || exists h :: h in s.requests && s.requests[h].entry == s.requests[r].entry && (Enabled(s, Look(h)) || Enabled(s, Fail(h))))
  {
    hide Step, Runnable, RunAll, Honest;
    RunKeepsInv(Init(clock), ls);
    var s := RunAll(Init(clock), ls);
    assert FitsRequest(s, q) && FitsRequest(s, r) && FitsEntry(s, s.requests[r].entry);
    var holder := EntryOf(s, r).holder;
    if holder.Some? {
      assert FitsRequest(s, holder.value);
    }
  }

  predicate Newer(p: Page, c: nat, v: nat) {
    c <= p.began && v <= p.basis
  }

  /** What holds from a clear on, if it ended at step c with v writes committed; earlier are the
      requests that had looked up their object by then. */
  ghost predicate Since(s: State, c: nat, v: nat, earlier: set<nat>) {
    && c <= s.steps && v <= |s.writes| && earlier <= s.requests.Keys
    && (forall key :: key in s.cache ==> s.cache[key] < |s.entries| && c <= s.entries[s.cache[key]].born)
    && (forall k: nat :: SinceIn(s, k, c, v))
    && (forall r :: r in s.requests ==> SinceFor(s, r, c, v, r in earlier))
  }

  ghost predicate SinceIn(s: State, k: nat, c: nat, v: nat) {
    k < |s.entries| && c <= s.entries[k].born && s.entries[k].page.Some? ==> Newer(s.entries[k].page.value, c, v)
  }

  ghost predicate SinceFor(s: State, r: nat, c: nat, v: nat, earlier: bool) {
    && At(s, r)
    && (!earlier ==> c <= EntryOf(s, r).born)
    && (c <= EntryOf(s, r).born && s.requests[r].pc.Building? ==> Newer(s.requests[r].pc.draft, c, v))
    && (c <= EntryOf(s, r).born && s.requests[r].pc.Served? ==> Newer(s.requests[r].pc.page, c, v))
  }

  lemma ClearStarts(s: State)
    requires Inv(s)
    ensures Since(Step(s, Clear), s.steps + 1, |s.writes|, s.requests.Keys)
  {
    hide Honest;
    var t := Step(s, Clear);
    var c, v := t.steps, |s.writes|;
    forall k: nat ensures SinceIn(t, k, c, v) {
      assert FitsEntry(s, k);
    }
    forall r | r in t.requests ensures SinceFor(t, r, c, v, true) {
      assert FitsRequest(s, r) && FitsEntry(s, s.requests[r].entry);
    }
  }

  lemma StepIn(s: State, l: Label, c: nat, v: nat, earlier: set<nat>, k: nat)
    requires Since(s, c, v, earlier) && Enabled(s, l)
    ensures SinceIn(Step(s, l), k, c, v)
  {
    hide Newer;
    assert SinceIn(s, k, c, v);
    if l.Finish? {
      assert SinceFor(s, l.r, c, v, l.r in earlier);
    }
  }

  lemma StepFor(s: State, l: Label, c: nat, v: nat, earlier: set<nat>, r: nat)
    requires Since(s, c, v, earlier) && Enabled(s, l) && r in Step(s, l).requests
    ensures SinceFor(Step(s, l), r, c, v, r in earlier)
  {
    hide Newer;
    assert r in s.requests ==> SinceFor(s, r, c, v, r in earlier);
    if l.Look? && l.r == r {
      NewBuild(s, c, v);
      assert SinceIn(s, s.requests[r].entry, c, v);
    }
    if l.Query? && l.r == r {
      NewQuery(s.requests[r].pc.draft, |s.writes|, c, v);
    }
  }

  lemma StepCache(s: State, l: Label, c: nat, v: nat, earlier: set<nat>)
    requires Since(s, c, v, earlier) && Enabled(s, l)
    ensures var t := Step(s, l);
            && c <= t.steps && v <= |t.writes| && earlier <= t.requests.Keys
            && (forall key :: key in t.cache ==> t.cache[key] < |t.entries| && c <= t.entries[t.cache[key]].born)
  {
    hide Newer, SinceFor, SinceIn;
  }

  lemma StepKeepsSince(s: State, l: Label, c: nat, v: nat, earlier: set<nat>)
    requires Since(s, c, v, earlier) && Enabled(s, l)
    ensures Since(Step(s, l), c, v, earlier)
  {
    hide Step, SinceFor, SinceIn;
    var t := Step(s, l);
    StepCache(s, l, c, v, earlier);
    forall r | r in t.requests ensures SinceFor(t, r, c, v, r in earlier) {
      StepFor(s, l, c, v, earlier, r);
    }
    forall k: nat ensures SinceIn(t, k, c, v) {
      StepIn(s, l, c, v, earlier, k);
    }
  }

  lemma NewBuild(s: State, c: nat, v: nat)
    requires c <= s.steps && v <= |s.writes|
    ensures Newer(Page(s.clock, s.steps, |s.writes|, []), c, v)
  {
  }

  lemma NewQuery(p: Page, n: nat, c: nat, v: nat)
    ensures Newer(p.(saw := p.saw + [n]), c, v) == Newer(p, c, v)
  {
  }

  lemma {:induction false} RunKeepsSince(s: State, ls: seq<Label>, c: nat, v: nat, earlier: set<nat>, i: nat)
    requires Since(s, c, v, earlier) && Runnable(s, ls)
    requires i < |ls| && ls[i].Lookup?
    ensures Since(RunAll(s, ls), c, v, earlier) && ls[i].r in RunAll(s, ls).requests && ls[i].r !in earlier
    decreases |ls|
  {
    hide Since, SinceFor;
    var t := Step(s, ls[0]);
    StepKeepsSince(s, ls[0], c, v, earlier);
    if i > 0 {
      RunKeepsSince(t, ls[1..], c, v, earlier, i - 1);
    } else {
      OldAreThere(s, c, v, earlier);
      RequestsStay(t, ls[1..], c, v, earlier, ls[0].r);
    }
  }

  lemma OldAreThere(s: State, c: nat, v: nat, earlier: set<nat>)
    requires Since(s, c, v, earlier)
    ensures earlier <= s.requests.Keys
  {
  }

  lemma {:induction false} RequestsStay(s: State, ls: seq<Label>, c: nat, v: nat, earlier: set<nat>, r: nat)
    requires Since(s, c, v, earlier) && Runnable(s, ls) && r in s.requests
    ensures Since(RunAll(s, ls), c, v, earlier) && r in RunAll(s, ls).requests
    decreases |ls|
  {
    hide Since, SinceFor;
    if ls != [] {
      StepKeepsSince(s, ls[0], c, v, earlier);
      RequestsStay(Step(s, ls[0]), ls[1..], c, v, earlier, r);
    }
  }

  /** A request that looks up its object after a clear gets an answer whose build began after that
      clear and shows every write committed before it. Builds that were under way at the clear are
      never served to it. */
  lemma ClearIsSeen(clock: int, before: seq<Label>, rest: seq<Label>, i: nat)
    requires Runnable(Init(clock), before + ([Clear] + rest))
    requires i < |rest| && rest[i].Lookup?
    ensures Runnable(Init(clock), before)
    ensures var s, t, r := RunAll(Init(clock), before), RunAll(Init(clock), before + ([Clear] + rest)), rest[i].r;
            && r in t.requests
            && (t.requests[r].pc.Served? ==>
                  var page := t.requests[r].pc.page;
                  && |before| < page.began
                  && |s.writes| <= page.basis
                  && (forall n :: n in page.saw ==> |s.writes| <= n)
                  && (forall q :: q in s.requests && s.requests[q].pc.Building? ==> s.requests[q].pc.draft.began < page.began))
  {
    hide Step, Inv, Runnable, RunAll;
    var start, tail := Init(clock), [Clear] + rest;
    InitHolds(clock);
    RunConcat(start, before, tail);
    RunKeepsInv(start, before);
    ClearFromHere(RunAll(start, before), rest, i);
  }

  /** The same from any state that keeps the invariant. */
  lemma ClearFromHere(s: State, rest: seq<Label>, i: nat)
    requires Inv(s) && Runnable(s, [Clear] + rest)
    requires i < |rest| && rest[i].Lookup?
    ensures var t, r := RunAll(s, [Clear] + rest), rest[i].r;
            && r in t.requests
            && (t.requests[r].pc.Served? ==>
                  var page := t.requests[r].pc.page;
                  && s.steps < page.began
                  && |s.writes| <= page.basis
                  && (forall n :: n in page.saw ==> |s.writes| <= n)
                  && (forall q :: q in s.requests && s.requests[q].pc.Building? ==> s.requests[q].pc.draft.began < page.began))
  {
    hide Step, Since, Inv;
    assert ([Clear] + rest)[1..] == rest;
    RunKeepsInv(s, [Clear] + rest);
    ClearStarts(s);
    RunKeepsSince(Step(s, Clear), rest, s.steps + 1, |s.writes|, s.requests.Keys, i);
    SinceServes(s, RunAll(s, [Clear] + rest), rest[i].r, s.steps + 1, |s.writes|);
  }

  lemma InitHolds(clock: int)
    ensures Inv(Init(clock)) && Init(clock).steps == 0
  {
  }

  lemma SinceServes(s: State, t: State, r: nat, c: nat, v: nat)
    requires Inv(s) && Inv(t) && Since(t, c, v, s.requests.Keys)
    requires r in t.requests && r !in s.requests && s.steps < c
    ensures t.requests[r].pc.Served? ==>
              var page := t.requests[r].pc.page;
              && c <= page.began && v <= page.basis && (forall n :: n in page.saw ==> v <= n)
              && (forall q :: q in s.requests && s.requests[q].pc.Building? ==> s.requests[q].pc.draft.began < page.began)
  {
    assert SinceFor(t, r, c, v, false) && FitsRequest(t, r);
    forall q | q in s.requests && s.requests[q].pc.Building? ensures s.requests[q].pc.draft.began < s.steps {
      assert FitsRequest(s, q);
    }
  }
}

/** The transition system of the page cache and its methods agree: a request by itself takes the
    steps of FromCache (internal/web/public.go, get and fromCache). */
module PageSteps {
  import opened Base
  import opened PageCache

  function PageFor(s: State, key: string): Option<Page> {
    if key in s.cache && s.cache[key] < |s.entries| then s.entries[s.cache[key]].page else None
  }

  /** The page stored under each key of a state. */
  function StoredIn(s: State): Pages {
    map k | k in s.cache :: PageFor(s, k)
  }

  function PageOf(pages: Pages, key: string): Option<Page> {
    if key in pages then pages[key] else None
  }

  /** The object of each key exists and is its own. */
  ghost predicate Sane(s: State) {
    && (forall k :: k in s.cache ==> s.cache[k] < |s.entries|)
    && (forall k, l :: k in s.cache && l in s.cache && k != l ==> s.cache[k] != s.cache[l])
  }

  /** Request r has the object of key and is at pc; what is stored, when and after which writes. */
  ghost predicate Alone(t: State, r: nat, key: string, pc: Pc, pages: Pages, clock: int, writes: nat) {
    && Sane(t) && t.clock == clock && |t.writes| == writes && StoredIn(t) == pages
    && key in t.cache && r in t.requests && t.requests[r] == Request(t.cache[key], pc)
  }

  /** Request r has its answer. */
  ghost predicate Answered(t: State, r: nat, pages: Pages, answer: Option<Page>) {
    && Sane(t) && StoredIn(t) == pages && r in t.requests
    && match t.requests[r].pc
       case Served(page, _) => answer == Some(page)
       case Failed => answer == None
       case _ => false
  }

  /** A step of r changes what is stored under its key and nothing else. */
  lemma MovedStores(t: State, r: nat, key: string, pc: Pc, e: Entry)
    requires Sane(t) && key in t.cache && r in t.requests && t.requests[r].entry == t.cache[key]
    ensures var u := Moved(t, r, pc, e);
            && Sane(u) && StoredIn(u) == StoredIn(t)[key := e.page] && u.requests[r] == Request(t.cache[key], pc)
            && u.cache == t.cache && u.clock == t.clock && u.writes == t.writes
  {
    var u := Moved(t, r, pc, e);
    forall k | k in t.cache ensures PageFor(u, k) == if k == key then e.page else PageFor(t, k) {
    }
    assert StoredIn(u).Keys == StoredIn(t)[key := e.page].Keys;
  }

  lemma Stored(t: State, key: string, page: Option<Page>)
    requires key in t.cache && PageFor(t, key) == page
    ensures StoredIn(t)[key := page] == StoredIn(t)
  {
  }

  lemma Finds(s: State, r: nat, key: string)
    requires Sane(s) && r !in s.requests && key in s.cache
    ensures Alone(LookedUp(s, r, key), r, key, Waiting, StoredIn(s), s.clock, |s.writes|)
    ensures StoredIn(s)[key := PageFor(s, key)] == StoredIn(s)
  {
    var t := LookedUp(s, r, key);
    assert t.cache == s.cache && t.entries == s.entries;
    assert forall k :: k in t.cache ==> PageFor(t, k) == PageFor(s, k);
  }

  lemma Creates(s: State, r: nat, key: string)
    requires Sane(s) && r !in s.requests && key !in s.cache
    ensures PageFor(s, key) == None
    ensures Alone(LookedUp(s, r, key), r, key, Waiting, StoredIn(s)[key := None], s.clock, |s.writes|)
  {
    var t := LookedUp(s, r, key);
    assert t.cache[key] == |s.entries| && t.entries[|s.entries|].page == None;
    forall k | k in s.cache ensures t.cache[k] == s.cache[k] && PageFor(t, k) == PageFor(s, k) {
    }
    assert StoredIn(t).Keys == StoredIn(s)[key := None].Keys;
    assert StoredIn(t) == StoredIn(s)[key := None];
  }

  lemma Comes(s: State, r: nat, key: string)
    requires Sane(s) && r !in s.requests
    ensures var pages := StoredIn(s)[key := PageFor(s, key)];
            Enabled(s, Lookup(r, key)) && Alone(Step(s, Lookup(r, key)), r, key, Waiting, pages, s.clock, |s.writes|)
  {
    hide Alone, StoredIn, PageFor, LookedUp, Sane;
    if key in s.cache {
      Finds(s, r, key);
    } else {
      Creates(s, r, key);
    }
  }

  lemma Locks(t: State, r: nat, key: string, pages: Pages, clock: int, writes: nat)
    requires Alone(t, r, key, Waiting, pages, clock, writes) && t.entries[t.cache[key]].holder.None?
    ensures Enabled(t, Lock(r)) && Alone(Step(t, Lock(r)), r, key, Holding, pages, clock, writes)
  {
    hide StoredIn;
    MovedStores(t, r, key, Holding, EntryOf(t, r).(holder := Some(r)));
    Stored(t, key, EntryOf(t, r).page);
  }

  lemma LooksAndServes(t: State, r: nat, key: string, pages: Pages, clock: int, writes: nat)
    requires Alone(t, r, key, Holding, pages, clock, writes) && Usable(PageOf(pages, key), clock)
    ensures Enabled(t, Look(r)) && Answered(Step(t, Look(r)), r, pages, PageOf(pages, key))
  {
    var e := EntryOf(t, r);
    assert PageOf(pages, key) == e.page;
    hide StoredIn;
    MovedStores(t, r, key, Served(e.page.value, t.clock), e.(holder := None));
    Stored(t, key, e.page);
  }

  lemma LooksAndBuilds(t: State, r: nat, key: string, pages: Pages, clock: int, writes: nat)
    requires Alone(t, r, key, Holding, pages, clock, writes) && !Usable(PageOf(pages, key), clock)
    ensures Enabled(t, Look(r))
    ensures Alone(Step(t, Look(r)), r, key, Building(Page(clock, t.steps, writes, [])), pages, clock, writes)
  {
    var e := EntryOf(t, r);
    assert PageOf(pages, key) == e.page;
    hide StoredIn;
    MovedStores(t, r, key, Building(Page(t.clock, t.steps, |t.writes|, [])), e);
    Stored(t, key, e.page);
  }

  lemma Queries(t: State, r: nat, key: string, draft: Page, pages: Pages, clock: int, writes: nat)
    requires Alone(t, r, key, Building(draft), pages, clock, writes)
    ensures Enabled(t, Query(r))
    ensures Alone(Step(t, Query(r)), r, key, Building(draft.(saw := draft.saw + [writes])), pages, clock, writes)
  {
    hide StoredIn;
    MovedStores(t, r, key, Building(draft.(saw := draft.saw + [|t.writes|])), EntryOf(t, r));
    Stored(t, key, EntryOf(t, r).page);
  }

  lemma BuildWorks(t: State, r: nat, key: string, draft: Page, pages: Pages, clock: int, writes: nat)
    requires Alone(t, r, key, Building(draft), pages, clock, writes)
    ensures Enabled(t, Finish(r)) && Answered(Step(t, Finish(r)), r, pages[key := Some(draft)], Some(draft))
  {
    hide StoredIn;
    MovedStores(t, r, key, Served(draft, draft.at), EntryOf(t, r).(page := Some(draft), holder := None));
  }

  lemma BuildFails(t: State, r: nat, key: string, draft: Page, pages: Pages, clock: int, writes: nat)
    requires Alone(t, r, key, Building(draft), pages, clock, writes)
    ensures Enabled(t, Fail(r)) && Answered(Step(t, Fail(r)), r, pages, None)
  {
    hide StoredIn;
    MovedStores(t, r, key, Failed, EntryOf(t, r).(holder := None));
    Stored(t, key, EntryOf(t, r).page);
  }

  /** The queries of a build one after another. */
  lemma {:induction false} AllQueries(t: State, r: nat, key: string, draft: Page, n: nat, pages: Pages, clock: int, writes: nat)
      returns (u: State)
    requires Alone(t, r, key, Building(draft), pages, clock, writes)
    ensures Alone(u, r, key, Building(draft.(saw := draft.saw + seq(n, _ => writes))), pages, clock, writes)
    ensures Runnable(t, seq(n, _ => Query(r))) && u == RunAll(t, seq(n, _ => Query(r)))
    decreases n
  {
    hide Alone, Enabled, Step;
    if n == 0 {
      u := t;
      assert draft.saw + [] == draft.saw;
      assert seq(0, _ => Query(r)) == [] && seq(0, _ => writes) == [];
    } else {
      Queries(t, r, key, draft, pages, clock, writes);
      var more := draft.(saw := draft.saw + [writes]);
      u := AllQueries(Step(t, Query(r)), r, key, more, n - 1, pages, clock, writes);
      var ls := seq(n, _ => Query(r));
      assert ls[0] == Query(r) && ls[1..] == seq(n - 1, _ => Query(r));
      assert more.saw + seq(n - 1, _ => writes) == draft.saw + seq(n, _ => writes);
    }
  }

  /** The labels of a request by itself, whose build makes n queries. */
  function Labels(r: nat, key: string, usable: bool, n: nat, fails: bool): seq<Label> {
    [Lookup(r, key)] + ([Lock(r)] + ([Look(r)] +
      if usable then [] else seq(n, _ => Query(r)) + [if fails then Fail(r) else Finish(r)]))
  }

  lemma GetAnswers(s: State, r: nat, key: string, t: State, n: nat, fails: bool) returns (built: Option<Page>)
    requires Alone(t, r, key, Holding, StoredIn(s)[key := PageFor(s, key)], s.clock, |s.writes|)
    ensures var ls := [Look(r)] + if Usable(PageFor(s, key), s.clock) then [] else seq(n, _ => Query(r)) + [if fails then Fail(r) else Finish(r)];
            && Runnable(t, ls)
            && var (pages, answer) := Fetched(StoredIn(s), key, s.clock, built);
               Answered(RunAll(t, ls), r, pages, answer)
    ensures !Usable(PageFor(s, key), s.clock) ==>
              built == if fails then None else Some(Page(s.clock, t.steps, |s.writes|, seq(n, _ => |s.writes|)))
  {
    hide Alone, Answered, Enabled, Step, PageFor;
    var pages := StoredIn(s)[key := PageFor(s, key)];
    var clock, writes := s.clock, |s.writes|;
    if Usable(PageFor(s, key), clock) {
      built := None;
      LooksAndServes(t, r, key, pages, clock, writes);
      RunOne(t, Look(r));
      UsableIsStored(s, key);
      assert [Look(r)] + [] == [Look(r)];
    } else {
      var draft := Page(clock, t.steps, writes, []);
      LooksAndBuilds(t, r, key, pages, clock, writes);
      RunOne(t, Look(r));
      var u := AllQueries(Step(t, Look(r)), r, key, draft, n, pages, clock, writes);
      var page := Page(clock, t.steps, writes, seq(n, _ => writes));
      assert draft.(saw := draft.saw + seq(n, _ => writes)) == page by { assert page.saw == [] + page.saw; }
      var last := if fails then Fail(r) else Finish(r);
      if fails {
        BuildFails(u, r, key, page, pages, clock, writes);
        built := None;
      } else {
        BuildWorks(u, r, key, page, pages, clock, writes);
        built := Some(page);
      }
      RunOne(u, last);
      RunBoth(Step(t, Look(r)), seq(n, _ => Query(r)), [last]);
      RunBoth(t, [Look(r)], seq(n, _ => Query(r)) + [last]);
      NotUsable(s, key, built);
    }
  }

  lemma UsableIsStored(s: State, key: string)
    requires Usable(PageFor(s, key), s.clock)
    ensures key in s.cache && StoredIn(s)[key := PageFor(s, key)] == StoredIn(s)
    ensures forall built :: Fetched(StoredIn(s), key, s.clock, built) == (StoredIn(s), PageFor(s, key))
  {
  }

  lemma NotUsable(s: State, key: string, built: Option<Page>)
    requires !Usable(PageFor(s, key), s.clock)
    ensures var pages := StoredIn(s)[key := PageFor(s, key)];
            Fetched(StoredIn(s), key, s.clock, built) == (if built.Some? then pages[key := built] else pages, built)
  {
    var all := StoredIn(s);
    assert PageOf(all, key) == PageFor(s, key);
    if built.Some? {
      assert all[key := built] == all[key := PageFor(s, key)][key := built];
    }
  }

  /** A request that nobody disturbs and whose object nobody holds takes the steps of the
      transition system to exactly the answer and the stored pages that FromCache says, with any
      number of queries, whether build works or not. */
  lemma StepsMakeTheAnswer(s: State, r: nat, key: string, n: nat, fails: bool) returns (built: Option<Page>)
    requires Inv(s) && r !in s.requests && (key in s.cache ==> s.entries[s.cache[key]].holder.None?)
    ensures var ls := Labels(r, key, Usable(PageFor(s, key), s.clock), n, fails);
            && Runnable(s, ls)
            && var (pages, answer) := Fetched(StoredIn(s), key, s.clock, built);
               Answered(RunAll(s, ls), r, pages, answer)
    ensures !Usable(PageFor(s, key), s.clock) ==>
              built == if fails then None else Some(Page(s.clock, s.steps + 2, |s.writes|, seq(n, _ => |s.writes|)))
  {
    hide Alone, Answered, StoredIn, PageFor, FitsRequest, FitsEntry, Usable, Fetched;
    var pages := StoredIn(s)[key := PageFor(s, key)];
    Comes(s, r, key);
    var t := Step(s, Lookup(r, key));
    LookupIsFree(s, r, key);
    Locks(t, r, key, pages, s.clock, |s.writes|);
    var u := Step(t, Lock(r));
    built := GetAnswers(s, r, key, u, n, fails);
    hide Step, Enabled;
    var rest := [Look(r)] + if Usable(PageFor(s, key), s.clock) then [] else seq(n, _ => Query(r)) + [if fails then Fail(r) else Finish(r)];
    RunOne(t, Lock(r));
    RunBoth(t, [Lock(r)], rest);
    RunOne(s, Lookup(r, key));
    RunBoth(s, [Lookup(r, key)], [Lock(r)] + rest);
  }

  lemma LookupIsFree(s: State, r: nat, key: string)
    requires Sane(s) && r !in s.requests && (key in s.cache ==> s.entries[s.cache[key]].holder.None?)
    ensures var t := Step(s, Lookup(r, key));
            key in t.cache && t.cache[key] < |t.entries| && t.entries[t.cache[key]].holder.None?
  {
  }

  lemma RunOne(s: State, l: Label)
    requires Enabled(s, l)
    ensures Runnable(s, [l]) && RunAll(s, [l]) == Step(s, l)
  {
    hide Step, Enabled;
    assert [l][1..] == [];
  }

  lemma {:induction false} RunSteps(s: State, ls: seq<Label>)
    requires Runnable(s, ls)
    ensures RunAll(s, ls).steps == s.steps + |ls|
    decreases |ls|
  {
    hide Enabled;
    if ls != [] {
      RunSteps(Step(s, ls[0]), ls[1..]);
    }
  }

  lemma {:induction false} RunBoth(s: State, a: seq<Label>, b: seq<Label>)
    requires Runnable(s, a) && Runnable(RunAll(s, a), b)
    ensures Runnable(s, a + b) && RunAll(s, a + b) == RunAll(RunAll(s, a), b)
    decreases |a|
  {
    hide Enabled, Step;
    if a == [] {
      assert a + b == b;
    } else {
      assert (a + b)[0] == a[0] && (a + b)[1..] == a[1..] + b;
      RunBoth(Step(s, a[0]), a[1..], b);
    }
  }
}

/** What the page cache is for (internal/web/public.go, get and fromCache): whoever asks for a page
    while the stored one is fresh gets that one, and nobody builds it again. */
module PageShare {
  import opened Base
  import opened PageCache

  /** Object k holds p. Its requests wait, have the lock or were answered with p, but for those in
      done, which were answered before. */
  ghost predicate Shared(s: State, k: nat, p: Page, done: set<nat>) {
    && k < |s.entries| && s.entries[k].page == Some(p)
    && forall r :: r in s.requests && s.requests[r].entry == k && r !in done ==>
         var pc := s.requests[r].pc; pc.Waiting? || pc.Holding? || (pc.Served? && pc.page == p)
  }

  ghost predicate AnsweredIn(s: State, done: set<nat>) {
    forall r :: r in done ==> r in s.requests && (s.requests[r].pc.Served? || s.requests[r].pc.Failed?)
  }

  lemma StepShares(s: State, l: Label, k: nat, p: Page, done: set<nat>)
    requires Shared(s, k, p, done) && AnsweredIn(s, done) && Enabled(s, l) && s.clock < p.at + 5
    ensures Shared(Step(s, l), k, p, done) && AnsweredIn(Step(s, l), done)
  {
  }

  lemma {:induction false} ClockGoesOn(s: State, ls: seq<Label>)
    requires Runnable(s, ls)
    ensures s.clock <= RunAll(s, ls).clock
    decreases |ls|
  {
    if ls != [] {
      ClockGoesOn(Step(s, ls[0]), ls[1..]);
    }
  }

  lemma {:induction false} RunShares(s: State, ls: seq<Label>, k: nat, p: Page, done: set<nat>)
    requires Shared(s, k, p, done) && AnsweredIn(s, done) && Runnable(s, ls) && RunAll(s, ls).clock < p.at + 5
    ensures Shared(RunAll(s, ls), k, p, done)
    decreases |ls|
  {
    hide Shared, AnsweredIn, Step, Enabled;
    if ls != [] {
      ClockGoesOn(s, ls);
      StepShares(s, ls[0], k, p, done);
      RunShares(Step(s, ls[0]), ls[1..], k, p, done);
    }
  }

  /** In every interleaving: as long as a stored page is not five seconds old, it stays, nobody
      builds for its object, and every request that is answered in that time is answered with it. */
  lemma FreshIsShared(clock: int, before: seq<Label>, ls: seq<Label>, k: nat, p: Page)
    requires Runnable(Init(clock), before) && Runnable(RunAll(Init(clock), before), ls)
    requires var s := RunAll(Init(clock), before); k < |s.entries| && s.entries[k].page == Some(p)
    requires RunAll(RunAll(Init(clock), before), ls).clock < p.at + 5
    ensures var s := RunAll(Init(clock), before); var t := RunAll(s, ls);
            && k < |t.entries| && t.entries[k].page == Some(p)
            && forall r :: r in t.requests && t.requests[r].entry == k ==>
                 var pc := t.requests[r].pc;
                 || pc.Waiting? || pc.Holding? || (pc.Served? && pc.page == p)
                 || (r in s.requests && (s.requests[r].pc.Served? || s.requests[r].pc.Failed?))
  {
    hide Inv, Step, Enabled, Runnable, RunAll, Honest;
    InitHolds(clock);
    RunKeepsInv(Init(clock), before);
    var s := RunAll(Init(clock), before);
    var done := set r | r in s.requests && (s.requests[r].pc.Served? || s.requests[r].pc.Failed?);
    ClockGoesOn(s, ls);
    FreshStarts(s, k, p, done);
    RunShares(s, ls, k, p, done);
  }

  lemma FreshStarts(s: State, k: nat, p: Page, done: set<nat>)
    requires Inv(s) && k < |s.entries| && s.entries[k].page == Some(p) && s.clock < p.at + 5
    requires done == set r | r in s.requests && (s.requests[r].pc.Served? || s.requests[r].pc.Failed?)
    ensures Shared(s, k, p, done) && AnsweredIn(s, done)
  {
    hide Honest;
    forall r | r in s.requests && s.requests[r].entry == k && r !in done
      ensures var pc := s.requests[r].pc; pc.Waiting? || pc.Holding?
    {
      assert FitsRequest(s, r);
      if s.requests[r].pc.Building? {
        HonestAt(s, s.requests[r].pc.draft);
      }
    }
  }

  // ----- which object a request gets -----

  /** Once looked up, a request keeps its object. */
  lemma {:induction false} RunKeepsObject(s: State, ls: seq<Label>, r: nat)
    requires Runnable(s, ls) && r in s.requests
    ensures r in RunAll(s, ls).requests && RunAll(s, ls).requests[r].entry == s.requests[r].entry
    decreases |ls|
  {
    if ls != [] {
      RunKeepsObject(Step(s, ls[0]), ls[1..], r);
    }
  }

  ghost predicate NoClear(ls: seq<Label>) {
    forall i :: 0 <= i < |ls| ==> !ls[i].Clear?
  }

  /** Without a clear a key keeps its object. */
  lemma {:induction false} RunKeepsKey(s: State, ls: seq<Label>, key: string)
    requires Runnable(s, ls) && NoClear(ls) && key in s.cache
    ensures key in RunAll(s, ls).cache && RunAll(s, ls).cache[key] == s.cache[key]
    decreases |ls|
  {
    if ls != [] {
      RunKeepsKey(Step(s, ls[0]), ls[1..], key);
    }
  }

  /** Two requests share an object exactly if they ask for the same key, when no clear came between
      their lookups. */
  lemma OneObjectEach(clock: int, before: seq<Label>, q: nat, k: string, between: seq<Label>, r: nat, l: string)
    requires Runnable(Init(clock), before + ([Lookup(q, k)] + (between + [Lookup(r, l)]))) && NoClear(between)
    ensures var t := RunAll(Init(clock), before + ([Lookup(q, k)] + (between + [Lookup(r, l)])));
            q in t.requests && r in t.requests && (t.requests[q].entry == t.requests[r].entry <==> k == l)
  {
    hide Runnable, RunAll, Inv, Enabled;
    var first, rest := [Lookup(q, k)], between + [Lookup(r, l)];
    RunConcat(Init(clock), before, first + rest);
    var s := RunAll(Init(clock), before);
    RunConcat(s, first, rest);
    OneStep(s, Lookup(q, k));
    var u := RunAll(s, first);
    RunConcat(u, between, [Lookup(r, l)]);
    var v := RunAll(u, between);
    OneStep(v, Lookup(r, l));
    RunKeepsObject(u, between, q);
    RunKeepsKey(u, between, k);
    InitHolds(clock);
    RunKeepsInv(Init(clock), before);
    RunKeepsInv(s, first);
    RunKeepsInv(u, between);
    TwoKeys(v, k, r, l);
  }

  lemma OneStep(s: State, l: Label)
    requires Runnable(s, [l])
    ensures Enabled(s, l) && RunAll(s, [l]) == Step(s, l)
  {
    assert [l][1..] == [];
  }

  lemma TwoKeys(s: State, k: string, r: nat, l: string)
    requires Inv(s) && k in s.cache && Enabled(s, Lookup(r, l))
    ensures Step(s, Lookup(r, l)).requests[r].entry == s.cache[k] <==> k == l
  {
    hide FitsRequest, FitsEntry;
  }
}

/** What `order by at desc, id desc limit n` selects (internal/store/checks.go, LastChecks), in
    terms of the positions of the rows in the table. */
module TimeOrder {
  import opened Base
  import opened Tables

  /** Row p comes before row q by time, and by insertion among rows of the same second. */
  predicate Before(checks: seq<Check>, p: nat, q: nat)
    requires p < |checks| && q < |checks|
  {
    checks[p].at < checks[q].at || (checks[p].at == checks[q].at && p < q)
  }

  /** out lists the rows at the positions pos. */
  ghost predicate At(checks: seq<Check>, pos: seq<nat>, out: seq<Check>) {
    && |pos| == |out|
    && forall i :: 0 <= i < |pos| ==> pos[i] < |checks| && out[i] == checks[pos[i]]
  }

  /** pos are exactly the positions of the target's rows. */
  ghost predicate Complete(checks: seq<Check>, target: int, pos: seq<nat>) {
    forall p: nat :: p in pos <==> p < |checks| && checks[p].target == target
  }

  ghost predicate Rising(checks: seq<Check>, pos: seq<nat>)
    requires forall i :: 0 <= i < |pos| ==> pos[i] < |checks|
  {
    forall i, j :: 0 <= i < j < |pos| ==> Before(checks, pos[i], pos[j])
  }

  /** out is a newest-first list of n rows of the target, or of all of them if there are fewer:
      times fall, among equal times the later insertion comes first, and every row that is left
      out comes before all of out. */
  ghost predicate NewestFirst(checks: seq<Check>, target: int, n: nat, out: seq<Check>, pos: seq<nat>) {
    && At(checks, pos, out)
    && |out| <= n
    && (forall i :: 0 <= i < |pos| ==> checks[pos[i]].target == target)
    && (forall i, j :: 0 <= i < j < |pos| ==> Before(checks, pos[j], pos[i]))
    && (forall p: nat :: p < |checks| && checks[p].target == target && p !in pos ==>
          |out| == n && forall i :: 0 <= i < |pos| ==> Before(checks, p, pos[i]))
  }

  lemma {:induction false} ReverseAt<T>(s: seq<T>, i: nat)
    requires i < |s|
    ensures Reverse(s)[i] == s[|s| - 1 - i]
  {
    if i > 0 {
      ReverseAt(s[..|s| - 1], i - 1);
    }
  }

  ghost predicate Sorted(s: seq<Check>) {
    forall i, j :: 0 <= i < j < |s| ==> s[i].at <= s[j].at
  }

  ghost predicate AllFrom(s: seq<Check>, at: int) {
    forall c :: c in s ==> at <= c.at
  }

  ghost predicate AllBefore(s: seq<Check>, at: int) {
    forall c :: c in s ==> c.at < at
  }

  /** Rows that are not later than c stay in front of it. */
  lemma {:induction false} PlaceBehind(a: seq<Check>, b: seq<Check>, c: Check)
    requires AllBefore(a, c.at + 1)
    ensures Place(a + b, c) == a + Place(b, c)
  {
    var n := |b| - 1;
    if b == [] {
      assert a + b == a;
    } else if c.at < b[n].at {
      assert (a + b)[..|a + b| - 1] == a + b[..n];
      PlaceBehind(a, b[..n], c);
    }
  }

  /** Rows that are later than c stay behind it. */
  lemma {:induction false} PlaceBefore(a: seq<Check>, b: seq<Check>, c: Check)
    requires AllFrom(b, c.at + 1)
    ensures Place(a + b, c) == Place(a, c) + b
  {
    var n := |b| - 1;
    if b == [] {
      assert a + b == a;
    } else {
      assert (a + b)[..|a + b| - 1] == a + b[..n];
      PlaceBefore(a, b[..n], c);
      assert b == b[..n] + [b[n]];
    }
  }

  /** Where c goes: behind every row that is not later. */
  lemma Split(s: seq<Check>, c: Check) returns (k: nat)
    requires Sorted(s)
    ensures k <= |s| && AllBefore(s[..k], c.at + 1) && AllFrom(s[k..], c.at + 1)
  {
    k := |s|;
    while k > 0 && c.at < s[k - 1].at
      invariant 0 <= k <= |s|
      invariant AllFrom(s[k..], c.at + 1)
    {
      k := k - 1;
      assert s[k..] == [s[k]] + s[k + 1..];
    }
    forall r | r in s[..k] ensures r.at < c.at + 1 {
      var i :| 0 <= i < k && s[i] == r;
    }
  }

  lemma PlaceAt(a: seq<Check>, b: seq<Check>, c: Check)
    requires AllBefore(a, c.at + 1) && AllFrom(b, c.at + 1)
    ensures Place(a + b, c) == a + [c] + b
  {
    PlaceBefore(a, b, c);
    assert a != [] ==> a[|a| - 1] in a;
  }

  lemma InsertedAt(checks: seq<Check>, c: Check, a: seq<Check>, b: seq<Check>, pa: seq<nat>, pb: seq<nat>)
    requires At(checks, pa, a) && At(checks, pb, b)
    ensures At(checks + [c], pa + [|checks|] + pb, a + [c] + b)
  {
  }

  lemma InsertedRising(checks: seq<Check>, c: Check, pa: seq<nat>, pb: seq<nat>)
    requires forall i :: 0 <= i < |pa| ==> pa[i] < |checks| && checks[pa[i]].at <= c.at
    requires forall i :: 0 <= i < |pb| ==> pb[i] < |checks| && c.at < checks[pb[i]].at
    requires forall i :: 0 <= i < |pa + pb| ==> (pa + pb)[i] < |checks|
    requires Rising(checks, pa + pb)
    ensures forall i :: 0 <= i < |pa + [|checks|] + pb| ==> (pa + [|checks|] + pb)[i] <= |checks|
    ensures Rising(checks + [c], pa + [|checks|] + pb)
  {
    var all, next, pos := checks + [c], pa + [|checks|] + pb, pa + pb;
    forall i | 0 <= i < |next|
      ensures next[i] <= |checks| && next[i] == if i < |pa| then pos[i] else if i == |pa| then |checks| else pos[i - 1]
    {
      if i > |pa| {
        assert next[i] == pb[i - 1 - |pa|] == pos[i - 1];
      }
    }
    forall i, j | 0 <= i < j < |next| ensures Before(all, next[i], next[j]) {
      var m, n := if i < |pa| then i else i - 1, if j < |pa| then j else j - 1;
      if i == |pa| {
        assert next[j] == pb[j - 1 - |pa|];
      } else if j == |pa| {
        assert next[i] == pa[i];
      } else {
        assert Before(checks, pos[m], pos[n]);
      }
    }
  }

  lemma InsertedComplete(checks: seq<Check>, c: Check, pa: seq<nat>, pb: seq<nat>)
    requires Complete(checks, c.target, pa + pb)
    ensures Complete(checks + [c], c.target, pa + [|checks|] + pb)
  {
    forall p: nat ensures p in pa + [|checks|] + pb <==> p in pa + pb || p == |checks| {
    }
  }

  lemma Inserted(checks: seq<Check>, c: Check, s: seq<Check>, pos: seq<nat>) returns (next: seq<nat>)
    requires At(checks, pos, s) && Complete(checks, c.target, pos) && Rising(checks, pos)
    ensures At(checks + [c], next, Place(s, c))
    ensures Complete(checks + [c], c.target, next) && Rising(checks + [c], next)
  {
    hide Place, Complete;
    assert Sorted(s);
    var k := Split(s, c);
    var a, b, pa, pb := s[..k], s[k..], pos[..k], pos[k..];
    assert s == a + b && pos == pa + pb;
    PlaceAt(a, b, c);
    InsertedAt(checks, c, a, b, pa, pb);
    InsertedComplete(checks, c, pa, pb);
    assert forall i :: 0 <= i < |pa| ==> a[i] in a;
    assert forall i :: 0 <= i < |pb| ==> b[i] in b;
    InsertedRising(checks, c, pa, pb);
    next := pa + [|checks|] + pb;
  }

  lemma SkippedAt(checks: seq<Check>, c: Check, target: int, pos: seq<nat>, s: seq<Check>)
    requires At(checks, pos, s) && Complete(checks, target, pos) && Rising(checks, pos) && c.target != target
    ensures At(checks + [c], pos, s) && Complete(checks + [c], target, pos) && Rising(checks + [c], pos)
  {
  }

  /** In time order the target's rows appear each once, rising. */
  lemma {:induction false} Positions(checks: seq<Check>, target: int) returns (pos: seq<nat>)
    ensures At(checks, pos, ByTime(Of(checks, target)))
    ensures Complete(checks, target, pos) && Rising(checks, pos)
  {
    if checks == [] {
      pos := [];
    } else {
      hide ByTime, Place, Of, At, Complete, Before;
      var front, c := checks[..|checks| - 1], checks[|checks| - 1];
      assert checks == front + [c];
      pos := Positions(front, target);
      OfAppend(front, c, target);
      if c.target == target {
        ByTimeLast(Of(front, target), c);
        pos := Inserted(front, c, ByTime(Of(front, target)), pos);
      } else {
        assert Of(checks, target) == Of(front, target);
        SkippedAt(front, c, target, pos, ByTime(Of(front, target)));
      }
    }
  }

  lemma ByTimeLast(s: seq<Check>, c: Check)
    ensures ByTime(s + [c]) == Place(ByTime(s), c)
  {
    assert (s + [c])[..|s|] == s;
  }

  /** The last len of rising positions, backwards. */
  lemma Backwards(checks: seq<Check>, target: int, rising: seq<nat>, len: nat, pos: seq<nat>)
    requires forall i :: 0 <= i < |rising| ==> rising[i] < |checks|
    requires Rising(checks, rising) && Complete(checks, target, rising) && len <= |rising|
    requires |pos| == len && forall i :: 0 <= i < len ==> pos[i] == rising[|rising| - 1 - i]
    ensures forall i :: 0 <= i < len ==> pos[i] < |checks| && checks[pos[i]].target == target
    ensures forall i, j :: 0 <= i < j < len ==> Before(checks, pos[j], pos[i])
    ensures forall p: nat :: p < |checks| && checks[p].target == target && p !in pos ==>
              len < |rising| && forall i :: 0 <= i < len ==> Before(checks, p, pos[i])
  {
    var m := |rising|;
    forall i | 0 <= i < len ensures checks[pos[i]].target == target {
      assert rising[m - 1 - i] in rising;
    }
    forall k | m - len <= k < m ensures rising[k] in pos {
      assert pos[m - 1 - k] == rising[k];
    }
    forall p: nat | p < |checks| && checks[p].target == target && p !in pos
      ensures len < m && forall i :: 0 <= i < len ==> Before(checks, p, pos[i])
    {
      var k: nat :| k < m && rising[k] == p;
    }
  }

  /** LastChecks answers with the newest rows, newest first. */
  lemma NewestIsNewest(checks: seq<Check>, target: int, n: nat) returns (pos: seq<nat>)
    ensures NewestFirst(checks, target, n, Newest(checks, target, n), pos)
  {
    hide ByTime, Of, Reverse, Complete, Rising;
    var rising := Positions(checks, target);
    var s := ByTime(Of(checks, target));
    var m := |s|;
    var len := if n <= m then n else m;
    pos := seq(len, i requires 0 <= i < len => rising[m - 1 - i]);
    forall i | 0 <= i < len ensures Newest(checks, target, n)[i] == s[m - 1 - i] {
      ReverseAt(s, i);
    }
    Backwards(checks, target, rising, len, pos);
  }
}

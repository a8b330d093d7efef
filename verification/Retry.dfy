/** The second chance for mails (internal/monitor/maintenance.go, retry): over all passes of one
    process together, each mail is tried at most once more. pending starts empty with the process. */
module Retry {
  import opened Base
  import opened Tables

  const RETRY_WINDOW := DAY

  /** A mail: the incident it is about, and whether it says that the incident ended. */
  datatype MailKey = MailKey(incident: int, up: bool)

  datatype Answer = Sent | Limited | Failed

  type Pending = map<MailKey, bool>

  /** The condition of UnmailedIncidents. */
  predicate Unmailed(i: Incident, since: int) {
    || (!i.mailedDown && i.startedAt >= since)
    || (!i.mailedUp && i.endedAt.Some? && i.endedAt.value >= since)
  }

  function KeyOf(tbl: Incidents, id: int): MailKey
    requires id in tbl
  {
    MailKey(id, tbl[id].endedAt.Some?)
  }

  /** The rows of the list that the loop of retry does not skip. */
  predicate Candidate(tbl: Incidents, since: int, id: int) {
    id in tbl && Unmailed(tbl[id], since) && !(tbl[id].endedAt.Some? && tbl[id].mailedUp)
  }

  /** The keys a pass writes to pending. */
  ghost predicate Listed(tbl: Incidents, since: int, k: MailKey) {
    Candidate(tbl, since, k.incident) && KeyOf(tbl, k.incident) == k
  }

  /** The keys of the mails a pass tries. */
  ghost predicate Tries(pending: Pending, tbl: Incidents, since: int, k: MailKey) {
    Listed(tbl, since, k) && k in pending && !pending[k]
  }

  /** pending after a pass; answers says what the mailer answers to each attempt. */
  ghost predicate Passed(before: Pending, after: Pending, tbl: Incidents, since: int, answers: map<MailKey, Answer>) {
    && (forall k :: k in after <==> Listed(tbl, since, k))
    && (forall k :: k in after ==>
          after[k] == if Tries(before, tbl, since, k) then k in answers && answers[k] != Limited
                      else k in before && before[k])
  }

  class Retrier {
    var pending: Pending

    constructor ()
      ensures pending == map[]
    {
      pending := map[];
    }

    /** list is the answer of UnmailedIncidents for tbl; answers holds what the mailer answers
        when it is asked. tried are the mails handed to the mailer, in order. */
    method Pass(tbl: Incidents, since: int, list: seq<int>, answers: map<MailKey, Answer>) returns (tried: seq<MailKey>)
      requires forall id :: id in list <==> id in tbl && Unmailed(tbl[id], since)
      requires forall i, j :: 0 <= i < j < |list| ==> list[i] != list[j]
      requires forall id, up :: id in list ==> MailKey(id, up) in answers
      modifies this
      ensures Passed(old(pending), pending, tbl, since, answers)
      ensures forall k :: k in tried <==> Tries(old(pending), tbl, since, k)
      ensures forall i, j :: 0 <= i < j < |tried| ==> tried[i] != tried[j]
    {
      tried := [];
      var next: Pending := map[];
      for n := 0 to |list|
        invariant pending == old(pending)
        invariant forall k :: k in next <==> k.incident in list[..n] && Listed(tbl, since, k)
        invariant forall k :: k in next ==>
                    next[k] == if Tries(pending, tbl, since, k) then k in answers && answers[k] != Limited
                               else k in pending && pending[k]
        invariant forall k :: k in tried <==> k.incident in list[..n] && Tries(pending, tbl, since, k)
        invariant forall i, j :: 0 <= i < j < |tried| ==> tried[i] != tried[j]
      {
        var id := list[n];
        assert list[..n + 1] == list[..n] + [id];
        assert id in list && id !in list[..n];
        var inc := tbl[id];
        if !(inc.endedAt.Some? && inc.mailedUp) {
          var k := KeyOf(tbl, id);
          var seen := k in pending;
          var retried := seen && pending[k];
          if seen && !retried {
            retried := answers[k] != Limited;
            tried := tried + [k];
          }
          next := next[k := retried];
        }
      }
      assert list[..|list|] == list;
      pending := next;
    }
  }

  /** What it takes for a pass to look after a mail, in the columns of its row: the mail about the
      end needs an incident that has ended within the day, or started within it with its first mail
      missing as well, and is not marked; the mail about the start needs an open one that started
      within the day and is not marked. */
  lemma ListedMeans(tbl: Incidents, since: int, k: MailKey)
    ensures Listed(tbl, since, k) <==>
            k.incident in tbl
            && var row := tbl[k.incident];
               if k.up then
                 row.endedAt.Some? && !row.mailedUp && (row.endedAt.value >= since || (!row.mailedDown && row.startedAt >= since))
               else
                 row.endedAt.None? && !row.mailedDown && row.startedAt >= since
  {
  }

  // ----- whole runs -----

  /** What one pass sees and hears. */
  datatype Round = Round(tbl: Incidents, now: int, answers: map<MailKey, Answer>)
  {
    function Since(): int { now - RETRY_WINDOW }
  }

  /** Both tables hold the same incident under this id. */
  predicate SameIncident(a: Incidents, b: Incidents, id: int) {
    id in a && id in b && a[id].target == b[id].target && a[id].startedAt == b[id].startedAt
  }

  /** The incident is the same, it ends once, and marks are not taken back. */
  predicate Grown(a: Incidents, b: Incidents, id: int) {
    && SameIncident(a, b, id)
    && (a[id].endedAt.Some? ==> a[id].endedAt == b[id].endedAt)
    && (a[id].mailedDown ==> b[id].mailedDown)
    && (a[id].mailedUp ==> b[id].mailedUp)
  }

  /** How the table changes between two passes when ids are not reused: rows come
      and go, but an id that is gone does not come back; target and start stay, an incident ends
      once, and marks are not taken back. used are the ids handed out so far. */
  ghost predicate Evolves(a: Incidents, b: Incidents, used: set<int>) {
    && a.Keys <= used
    && (forall id :: id in b && id in used ==> id in a)
    && (forall id :: id in a && id in b ==> Grown(a, b, id))
  }

  ghost function Used(rounds: seq<Round>): set<int> {
    if rounds == [] then {} else Used(rounds[..|rounds| - 1]) + rounds[|rounds| - 1].tbl.Keys
  }

  /** The clock does not go back and ids are not reused. */
  ghost predicate Orderly(rounds: seq<Round>) {
    |rounds| < 2 ||
    var n := |rounds| - 1;
    && Orderly(rounds[..n])
    && rounds[n - 1].now <= rounds[n].now
    && Evolves(rounds[n - 1].tbl, rounds[n].tbl, Used(rounds[..n]))
  }

  /** pending after the passes, from an empty one. */
  ghost predicate Run(rounds: seq<Round>, pendings: seq<Pending>) {
    && |pendings| == |rounds| + 1 && pendings[0] == map[]
    && forall i :: 0 <= i < |rounds| ==>
         Passed(pendings[i], pendings[i + 1], rounds[i].tbl, rounds[i].Since(), rounds[i].answers)
  }

  ghost predicate TriedIn(rounds: seq<Round>, pendings: seq<Pending>, i: nat, k: MailKey)
    requires i < |rounds| && |pendings| == |rounds| + 1
  {
    Tries(pendings[i], rounds[i].tbl, rounds[i].Since(), k)
  }

  /** An attempt that the mail limit did not turn away. */
  ghost predicate Spent(rounds: seq<Round>, pendings: seq<Pending>, i: nat, k: MailKey)
    requires i < |rounds| && |pendings| == |rounds| + 1
  {
    TriedIn(rounds, pendings, i, k) && k in rounds[i].answers && rounds[i].answers[k] != Limited
  }

  lemma {:induction false} PrefixIsOrderly(rounds: seq<Round>, n: nat)
    requires Orderly(rounds) && n <= |rounds|
    ensures Orderly(rounds[..n])
  {
    if n < |rounds| {
      var m := |rounds| - 1;
      if |rounds| >= 2 {
        PrefixIsOrderly(rounds[..m], n);
        assert rounds[..m][..n] == rounds[..n];
      }
    } else {
      assert rounds[..n] == rounds;
    }
  }

  lemma {:induction false} UsedContains(rounds: seq<Round>, i: nat)
    requires i < |rounds|
    ensures rounds[i].tbl.Keys <= Used(rounds)
  {
    if i < |rounds| - 1 {
      UsedContains(rounds[..|rounds| - 1], i);
    }
  }

  /** From pass to pass: a key that was listed before, or could have been, and is not listed
      now, will not be listed next. */
  ghost predicate OutOfReach(r: Round, used: set<int>, k: MailKey) {
    k.incident in used && !Listed(r.tbl, r.Since(), k) &&
    (k.incident in r.tbl ==>
       || (!k.up && r.tbl[k.incident].endedAt.Some?)
       || !Candidate(r.tbl, r.Since(), k.incident))
  }

  lemma StaysOutOfReach(a: Round, b: Round, used: set<int>, k: MailKey)
    requires Evolves(a.tbl, b.tbl, used) && a.now <= b.now && OutOfReach(a, used, k)
    requires k.up && k.incident in a.tbl ==> a.tbl[k.incident].endedAt.Some?
    ensures OutOfReach(b, used + b.tbl.Keys, k) && (k.up && k.incident in b.tbl ==> b.tbl[k.incident].endedAt.Some?)
  {
  }

  /** The key step: a key that leaves the list never returns. */
  lemma {:induction false} LeavesForGood(rounds: seq<Round>, i: nat, j: nat, k: MailKey)
    requires Orderly(rounds) && i < j < |rounds|
    requires Listed(rounds[i].tbl, rounds[i].Since(), k) && !Listed(rounds[i + 1].tbl, rounds[i + 1].Since(), k)
    ensures OutOfReach(rounds[j], Used(rounds[..j + 1]), k)
    ensures k.up && k.incident in rounds[j].tbl ==> rounds[j].tbl[k.incident].endedAt.Some?
  {
    PrefixIsOrderly(rounds, j + 1);
    var front := rounds[..j + 1];
    assert front[..j] == rounds[..j];
    assert Used(front) == Used(rounds[..j]) + rounds[j].tbl.Keys;
    UsedContains(rounds[..j], i);
    if j == i + 1 {
    } else {
      LeavesForGood(rounds, i, j - 1, k);
      assert rounds[..j - 1 + 1] == rounds[..j];
      StaysOutOfReach(rounds[j - 1], rounds[j], Used(rounds[..j]), k);
    }
  }

  ghost predicate ListedIn(rounds: seq<Round>, i: nat, k: MailKey)
    requires i < |rounds|
  {
    Listed(rounds[i].tbl, rounds[i].Since(), k)
  }

  /** A key that was listed in pass i and not in a later pass j is not listed after j. */
  lemma {:induction false} NeverBack(rounds: seq<Round>, i: nat, j: nat, m: nat, k: MailKey)
    requires Orderly(rounds) && i < j < m < |rounds| && ListedIn(rounds, i, k) && !ListedIn(rounds, j, k)
    ensures !ListedIn(rounds, m, k)
    decreases j
  {
    hide Orderly, Listed;
    if ListedIn(rounds, j - 1, k) {
      LeavesForGood(rounds, j - 1, m, k);
    } else {
      NeverBack(rounds, i, j - 1, m, k);
    }
  }

  /** Once an attempt has been spent on a key, pending says so for as long as it is listed. */
  lemma {:induction false} SpentStays(rounds: seq<Round>, pendings: seq<Pending>, i: nat, m: nat, k: MailKey)
    requires Orderly(rounds) && Run(rounds, pendings) && i < m <= |rounds| && Spent(rounds, pendings, i, k)
    ensures k in pendings[m] ==> pendings[m][k]
  {
    hide Orderly, Listed;
    assert Passed(pendings[m - 1], pendings[m], rounds[m - 1].tbl, rounds[m - 1].Since(), rounds[m - 1].answers);
    if m > i + 1 {
      SpentStays(rounds, pendings, i, m - 1, k);
      if k !in pendings[m - 1] {
        assert Passed(pendings[m - 2], pendings[m - 1], rounds[m - 2].tbl, rounds[m - 2].Since(), rounds[m - 2].answers);
        assert ListedIn(rounds, i, k) && !ListedIn(rounds, m - 2, k);
        NeverBack(rounds, i, m - 2, m - 1, k);
      }
    }
  }

  /** When ids are not reused: over all passes of a process together, at most one attempt per mail
      is not turned away by the limit. */
  lemma AtMostOneAttempt(rounds: seq<Round>, pendings: seq<Pending>, i: nat, j: nat, k: MailKey)
    requires Orderly(rounds) && Run(rounds, pendings) && i < |rounds| && j < |rounds|
    requires Spent(rounds, pendings, i, k) && Spent(rounds, pendings, j, k)
    ensures i == j
  {
    hide Orderly, Listed, Run;
    if i < j {
      SpentStays(rounds, pendings, i, j, k);
    } else if j < i {
      SpentStays(rounds, pendings, j, i, k);
    }
  }

  /** A mail is only tried if the pass before has seen it too, so never on first sight. */
  lemma NotOnFirstSight(rounds: seq<Round>, pendings: seq<Pending>, i: nat, k: MailKey)
    requires Run(rounds, pendings) && i < |rounds| && TriedIn(rounds, pendings, i, k)
    ensures i > 0 && ListedIn(rounds, i - 1, k)
  {
    if i > 0 {
      assert Passed(pendings[i - 1], pendings[i], rounds[i - 1].tbl, rounds[i - 1].Since(), rounds[i - 1].answers);
    }
  }

  // ----- one incident -----

  /** The incident is there, not listed under k, and never will be: it has ended and k is about
      its start, or both marks that matter are set, or it is too old. */
  ghost predicate Out(r: Round, k: MailKey) {
    && k.incident in r.tbl && !Listed(r.tbl, r.Since(), k)
    && (k.up ==> r.tbl[k.incident].endedAt.Some?)
    && ((!k.up && r.tbl[k.incident].endedAt.Some?) || !Candidate(r.tbl, r.Since(), k.incident))
  }

  lemma LeavesOrStays(a: Round, b: Round, k: MailKey)
    requires Grown(a.tbl, b.tbl, k.incident) && a.now <= b.now
    ensures Out(a, k) ==> Out(b, k)
    ensures Listed(a.tbl, a.Since(), k) && !Listed(b.tbl, b.Since(), k) ==> Out(b, k)
  {
  }

  /** While the same incident stays in the table, an attempt that was not turned away is the last
      one about it, whatever happens to other ids. */
  lemma {:induction false} OnceWhileGrown(rounds: seq<Round>, pendings: seq<Pending>, i: nat, j: nat, k: MailKey)
    requires Run(rounds, pendings) && i < j < |rounds| && Spent(rounds, pendings, i, k)
    requires forall m :: i <= m < j ==> Grown(rounds[m].tbl, rounds[m + 1].tbl, k.incident) && rounds[m].now <= rounds[m + 1].now
    ensures Out(rounds[j], k) || (k in pendings[j] && pendings[j][k])
    ensures !TriedIn(rounds, pendings, j, k)
  {
    hide Listed, Grown, Out;
    var m := j - 1;
    assert Passed(pendings[m], pendings[j], rounds[m].tbl, rounds[m].Since(), rounds[m].answers);
    LeavesOrStays(rounds[m], rounds[j], k);
    if m > i {
      OnceWhileGrown(rounds, pendings, i, m, k);
      assert Passed(pendings[m - 1], pendings[m], rounds[m - 1].tbl, rounds[m - 1].Since(), rounds[m - 1].answers);
      LeavesOrStays(rounds[m - 1], rounds[m], k);
    }
    OutIsNotListed(rounds[j], k);
  }

  lemma OutIsNotListed(r: Round, k: MailKey)
    ensures Out(r, k) ==> !Listed(r.tbl, r.Since(), k)
  {
  }

  /** The mail about k is marked as sent. */
  ghost predicate IsMarked(tbl: Incidents, k: MailKey) {
    k.incident in tbl && if k.up then tbl[k.incident].mailedUp else tbl[k.incident].mailedDown
  }

  /** A row that a later table still has stays marked. */
  lemma {:induction false} MarkStays(rounds: seq<Round>, i: nat, j: nat, k: MailKey)
    requires Orderly(rounds) && i <= j < |rounds| && IsMarked(rounds[i].tbl, k)
    ensures k.incident in rounds[j].tbl ==> IsMarked(rounds[j].tbl, k)
  {
    if i < j {
      PrefixIsOrderly(rounds, j + 1);
      var front := rounds[..j + 1];
      assert front[..j] == rounds[..j];
      UsedContains(rounds[..j], i);
      MarkStays(rounds, i, j - 1, k);
    }
  }

  /** No pass that reads the list after a mail was marked tries it. */
  lemma MarkedIsNotTried(rounds: seq<Round>, pendings: seq<Pending>, i: nat, j: nat, k: MailKey)
    requires Orderly(rounds) && Run(rounds, pendings) && i <= j < |rounds| && IsMarked(rounds[i].tbl, k)
    ensures !TriedIn(rounds, pendings, j, k)
  {
    hide Orderly, Run;
    MarkStays(rounds, i, j, k);
  }
}

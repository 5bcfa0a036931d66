/**
 What one run of the merge train guarantees about its queue, whatever GitHub answers, when the
 clock does not go back (scripts/merge_train.py:183-210, 318-353).
 */
module MergeRun {
  import opened Text
  import opened MergeJudge
  import opened StableSort
  import opened MergeTrain

  ghost predicate Monotone(env: nat -> Input) {
    forall i: nat, j: nat :: i <= j ==> env(i).now <= env(j).now
  }

  predicate Failed(failed: seq<Attempt>, number: int) {
    exists a :: a in failed && a.number == number
  }

  function NotIn(failed: seq<Attempt>): PR -> bool {
    (pr: PR) => !Failed(failed, pr.number)
  }

  /** The update-branch attempts of the run in order; the last one may have succeeded. */
  function Attempts(run: Run): seq<Attempt> {
    run.failed + if run.updated.Some? then [run.updated.value] else []
  }

  /** Out of the queue's way at the given time: attempted before in this run, or judged skip. */
  predicate Cleared(pr: PR, earlier: seq<Attempt>, behind: Distances, now: Time) {
    Failed(earlier, pr.number) || VerdictOn(pr, behind, now).Skip?
  }

  ghost predicate AttemptAt(queue: seq<PR>, behind: Distances, attempts: seq<Attempt>, i: nat, p: nat)
    requires i < |attempts|
  {
    && p < |queue|
    && queue[p].number == attempts[i].number
    && VerdictOn(queue[p], behind, attempts[i].at).Update?
    && forall k :: 0 <= k < p ==> Cleared(queue[k], attempts[..i], behind, attempts[i].at)
  }

  /** Every attempt was made on the first pull request that was not out of the way at that moment. */
  ghost predicate Orderly(queue: seq<PR>, behind: Distances, attempts: seq<Attempt>) {
    forall i :: 0 <= i < |attempts| ==> HasPlace(queue, behind, attempts, i)
  }

  ghost predicate HasPlace(queue: seq<PR>, behind: Distances, attempts: seq<Attempt>, i: nat)
    requires i < |attempts|
  {
    exists p: nat :: AttemptAt(queue, behind, attempts, i, p)
  }

  ghost predicate Invariant(run: Run, prs0: seq<PR>) {
    var attempts := Attempts(run);
    && run.prs == Select(prs0, NotIn(run.failed))
    && Orderly(Queue(prs0), run.behind, attempts)
    && (forall i, j :: 0 <= i < j < |attempts| ==> attempts[i].at <= attempts[j].at)
    && (forall a :: a in attempts ==> a.at <= run.now)
    && (forall i, j :: 0 <= i < j < |attempts| ==> attempts[i].number != attempts[j].number)
  }

  ghost predicate AllCleared(queue: seq<PR>, run: Run) {
    forall pr :: pr in queue ==> Cleared(pr, run.failed, run.behind, run.now)
  }

  /** The first pull request in the queue that is not out of the way at the time of the last decision. */
  ghost predicate HoldsAt(queue: seq<PR>, run: Run, p: nat)
    requires p < |queue|
  {
    && !Cleared(queue[p], run.failed, run.behind, run.now)
    && forall k :: 0 <= k < p ==> Cleared(queue[k], run.failed, run.behind, run.now)
  }

  datatype Kind = Updates | Waits | Crashes

  predicate IsKind(v: Verdict, kind: Kind) {
    match kind
    case Updates => v.Update?
    case Waits => v.Wait?
    case Crashes => v.Raises?
  }

  ghost predicate FirstIs(queue: seq<PR>, run: Run, kind: Kind) {
    exists p :: 0 <= p < |queue| && HoldsAt(queue, run, p) && IsKind(VerdictOn(queue[p], run.behind, run.now), kind)
  }

  /** How the run ended, exactly, in terms of the whole queue at the time of the last decision. */
  ghost predicate Ended(run: Run, prs0: seq<PR>) {
    var queue := Queue(prs0);
    && (run.phase == Finished(0) || run.phase == Finished(1) || run.phase.Crashed?)
    && (run.phase == Finished(1) <==> queue != [] && AllCleared(queue, run))
    && (run.phase.Crashed? <==> FirstIs(queue, run, Crashes))
    && (run.updated.Some? <==> FirstIs(queue, run, Updates))
    && (run.phase == Finished(0) <==> queue == [] || FirstIs(queue, run, Updates) || FirstIs(queue, run, Waits))
  }

  // ----- lemmas on the shrinking list

  lemma {:induction false} DropFailed(prs: seq<PR>, failed: seq<Attempt>, a: Attempt)
    ensures Select(Select(prs, NotIn(failed)), NotNumbered(a.number)) == Select(prs, NotIn(failed + [a]))
  {
    if prs != [] {
      var h, t := prs[0], prs[1..];
      assert prs == [h] + t;
      assert Failed(failed + [a], h.number) <==> Failed(failed, h.number) || h.number == a.number by {
        assert forall b :: b in failed + [a] <==> b in failed || b == a;
      }
      DropFailed(t, failed, a);
      SelectCons(h, t, NotIn(failed));
      SelectCons(h, t, NotIn(failed + [a]));
      SelectCons(h, Select(t, NotIn(failed)), NotNumbered(a.number));
    }
  }

  lemma {:induction false} SelectAll(prs: seq<PR>, failed: seq<Attempt>)
    requires failed == []
    ensures Select(prs, NotIn(failed)) == prs
  {
    if prs != [] {
      SelectAll(prs[1..], failed);
    }
  }

  /** Where a kept element stood, and that only dropped elements and kept predecessors stood before it. */
  lemma {:induction false} SelectPosition<T(!new)>(s: seq<T>, p: T -> bool, h: nat) returns (i: nat)
    requires h < |Select(s, p)|
    ensures i < |s| && s[i] == Select(s, p)[h]
    ensures forall k :: 0 <= k < i ==> !p(s[k]) || s[k] in Select(s, p)[..h]
  {
    assert s != [];
    var rest := Select(s[1..], p);
    if !p(s[0]) {
      var j := SelectPosition(s[1..], p, h);
      i := j + 1;
      assert forall k :: 0 < k < i ==> s[k] == s[1..][k - 1];
    } else if h == 0 {
      i := 0;
    } else {
      var j := SelectPosition(s[1..], p, h - 1);
      i := j + 1;
      assert Select(s, p)[..h] == [s[0]] + rest[..h - 1];
      assert forall k :: 0 < k < i ==> s[k] == s[1..][k - 1];
    }
  }

  lemma {:induction false} QueueOfRest(prs0: seq<PR>, failed: seq<Attempt>)
    ensures Queue(Select(prs0, NotIn(failed))) == Select(Queue(prs0), NotIn(failed))
  {
    SelectCommutes(prs0, InQueue, NotIn(failed));
    SelectSort(Select(prs0, InQueue), NotIn(failed), EnabledAt);
  }

  lemma {:induction false} SelectCommutes<T(!new)>(s: seq<T>, p: T -> bool, q: T -> bool)
    ensures Select(Select(s, q), p) == Select(Select(s, p), q)
  {
    if s != [] {
      hide Select;
      var h, t := s[0], s[1..];
      assert s == [h] + t;
      SelectCommutes(t, p, q);
      SelectCons(h, t, p);
      SelectCons(h, t, q);
      SelectCons(h, Select(t, p), q);
      SelectCons(h, Select(t, q), p);
    } else {
      assert Select(s, p) == s && Select(s, q) == s;
    }
  }

  /** Where the chosen pull request stands in the whole queue. */
  lemma HolderPosition(prs0: seq<PR>, failed: seq<Attempt>, behind: Distances, now: Time) returns (p: nat)
    requires var rest := Queue(Select(prs0, NotIn(failed))); FirstHolder(rest, behind, now) < |rest|
    ensures var rest := Queue(Select(prs0, NotIn(failed)));
      && p < |Queue(prs0)|
      && Queue(prs0)[p] == rest[FirstHolder(rest, behind, now)]
    ensures forall k :: 0 <= k < p ==> Cleared(Queue(prs0)[k], failed, behind, now)
  {
    var queue, rest := Queue(prs0), Queue(Select(prs0, NotIn(failed)));
    var h := FirstHolder(rest, behind, now);
    QueueOfRest(prs0, failed);
    p := SelectPosition(queue, NotIn(failed), h);
    forall k | 0 <= k < p ensures Cleared(queue[k], failed, behind, now) {
      if !Failed(failed, queue[k].number) {
        assert queue[k] in rest[..h];
      }
    }
  }

  /** When nobody holds the queue, everybody in it is out of the way. */
  lemma NobodyHolds(prs0: seq<PR>, failed: seq<Attempt>, behind: Distances, now: Time)
    requires var rest := Queue(Select(prs0, NotIn(failed))); FirstHolder(rest, behind, now) == |rest|
    ensures forall pr :: pr in Queue(prs0) ==> Cleared(pr, failed, behind, now)
  {
    var queue, rest := Queue(prs0), Queue(Select(prs0, NotIn(failed)));
    QueueOfRest(prs0, failed);
    forall pr | pr in queue ensures Cleared(pr, failed, behind, now) {
      if !Failed(failed, pr.number) {
        assert pr in rest;
        var k :| 0 <= k < |rest| && rest[k] == pr;
      }
    }
  }

  // ----- one pass

  /** An attempt on the chosen pull request keeps the attempts orderly. */
  lemma AttemptKeepsPlaces(run: Run, prs0: seq<PR>, now: Time, a: Attempt)
    requires run.prs == Select(prs0, NotIn(run.failed)) && Orderly(Queue(prs0), run.behind, run.failed)
    requires Choice(run.prs, run.behind, now) == UpdateBranch(a.number) && a.at == now
    ensures Orderly(Queue(prs0), run.behind, run.failed + [a])
  {
    var queue, attempts := Queue(prs0), run.failed + [a];
    var p := HolderPosition(prs0, run.failed, run.behind, now);
    assert attempts[..|run.failed|] == run.failed;
    assert AttemptAt(queue, run.behind, attempts, |run.failed|, p);
    hide Choice, Queue;
    forall i | 0 <= i < |attempts| ensures HasPlace(queue, run.behind, attempts, i) {
      if i < |run.failed| {
        assert HasPlace(queue, run.behind, run.failed, i);
        var pi: nat :| AttemptAt(queue, run.behind, run.failed, i, pi);
        assert attempts[..i] == run.failed[..i];
        assert AttemptAt(queue, run.behind, attempts, i, pi);
      }
    }
  }

  lemma AttemptKeepsOrder(run: Run, prs0: seq<PR>, now: Time, a: Attempt)
    requires Invariant(run, prs0) && run.updated.None? && run.now <= now
    requires Choice(run.prs, run.behind, now) == UpdateBranch(a.number) && a.at == now
    ensures var attempts := run.failed + [a];
      && Orderly(Queue(prs0), run.behind, attempts)
      && (forall i, j :: 0 <= i < j < |attempts| ==> attempts[i].at <= attempts[j].at)
      && (forall i, j :: 0 <= i < j < |attempts| ==> attempts[i].number != attempts[j].number)
  {
    hide Queue, Choice, Orderly;
    assert Attempts(run) == run.failed;
    AttemptKeepsPlaces(run, prs0, now, a);
    ChosenIsListed(run.prs, run.behind, now);
    assert !Failed(run.failed, a.number);
  }

  /** There is one first pull request, so its verdict excludes the others, and not everything is out of the way. */
  lemma FirstDecides(queue: seq<PR>, run: Run, p: nat, kind: Kind)
    requires p < |queue| && HoldsAt(queue, run, p) && IsKind(VerdictOn(queue[p], run.behind, run.now), kind)
    ensures !AllCleared(queue, run)
    ensures forall other: Kind :: FirstIs(queue, run, other) <==> other == kind
  {
    hide VerdictOn, Cleared;
    assert queue[p] in queue;
    forall other: Kind | FirstIs(queue, run, other) ensures other == kind {
      var q :| 0 <= q < |queue| && HoldsAt(queue, run, q) && IsKind(VerdictOn(queue[q], run.behind, run.now), other);
      assert q == p;
    }
  }

  lemma NobodyIsFirst(queue: seq<PR>, run: Run)
    requires AllCleared(queue, run)
    ensures forall kind: Kind :: !FirstIs(queue, run, kind)
  {
    hide Cleared, IsKind;
    forall p | 0 <= p < |queue| ensures !HoldsAt(queue, run, p) {
      assert queue[p] in queue;
    }
  }

  /** The run as a pass leaves it when it ends there. */
  function EndOf(run: Run, now: Time): Run {
    var at := run.(now := now);
    match Choice(run.prs, run.behind, now)
    case Aborted => at.(phase := Crashed)
    case Idle => at.(phase := Finished(if run.failed != [] then 1 else 0))
    case Stuck => at.(phase := Finished(1))
    case InFlight(_) => at.(phase := Finished(0))
    case UpdateBranch(number) => at.(updated := Some(Attempt(number, now)), phase := Finished(0))
  }

  lemma HolderIsFirst(run: Run, prs0: seq<PR>, now: Time, end: Run)
    requires run.prs == Select(prs0, NotIn(run.failed))
    requires end.failed == run.failed && end.behind == run.behind && end.now == now
    requires FirstHolder(Queue(run.prs), run.behind, now) < |Queue(run.prs)|
    ensures var queue, rest := Queue(prs0), Queue(run.prs);
      exists p :: 0 <= p < |queue| && HoldsAt(queue, end, p) && queue[p] == rest[FirstHolder(rest, run.behind, now)]
  {
    var queue, rest := Queue(prs0), Queue(run.prs);
    QueueOfRest(prs0, run.failed);
    var p := HolderPosition(prs0, run.failed, run.behind, now);
    hide Queue;
    assert queue[p] in rest;
    assert HoldsAt(queue, end, p);
  }

  /**
   When nobody holds the rest of the queue, everybody is out of the way; an empty rest means that all were attempted.
   */
  lemma RestIsEmptyIff(run: Run, prs0: seq<PR>)
    requires run.prs == Select(prs0, NotIn(run.failed))
    requires forall a :: a in run.failed ==> exists pr :: pr in Queue(prs0) && pr.number == a.number
    ensures Queue(run.prs) == [] && run.failed == [] <==> Queue(prs0) == []
  {
    var queue, rest := Queue(prs0), Queue(run.prs);
    QueueOfRest(prs0, run.failed);
    hide Queue;
    assert run.failed != [] ==> run.failed[0] in run.failed;
    if queue != [] && run.failed == [] {
      assert queue[0] in rest;
    }
  }

  lemma NobodyEnds(run: Run, prs0: seq<PR>, now: Time)
    requires run.prs == Select(prs0, NotIn(run.failed)) && run.updated.None?
    requires forall a :: a in run.failed ==> exists pr :: pr in Queue(prs0) && pr.number == a.number
    requires FirstHolder(Queue(run.prs), run.behind, now) == |Queue(run.prs)|
    ensures Ended(EndOf(run, now), prs0)
  {
    var end := EndOf(run, now);
    NobodyHolds(prs0, run.failed, run.behind, now);
    RestIsEmptyIff(run, prs0);
    hide Queue, VerdictOn, FirstHolder, FirstIs;
    NobodyIsFirst(Queue(prs0), end);
  }

  function KindOf(v: Verdict): Kind {
    if v.Update? then Updates else if v.Wait? then Waits else Crashes
  }

  lemma EndOfHolder(run: Run, now: Time)
    requires run.updated.None? && FirstHolder(Queue(run.prs), run.behind, now) < |Queue(run.prs)|
    ensures var rest := Queue(run.prs);
      var kind := KindOf(VerdictOn(rest[FirstHolder(rest, run.behind, now)], run.behind, now));
      && EndOf(run, now).phase == (if kind.Crashes? then Crashed else Finished(0))
      && (EndOf(run, now).updated.Some? <==> kind.Updates?)
      && IsKind(VerdictOn(rest[FirstHolder(rest, run.behind, now)], run.behind, now), kind)
  {
    hide Queue, VerdictOn;
  }

  /** Ending a run changes neither what was attempted nor what is known. */
  lemma EndOfKeeps(run: Run, now: Time)
    ensures var end, choice := EndOf(run, now), Choice(run.prs, run.behind, now);
      && end.failed == run.failed && end.behind == run.behind && end.prs == run.prs && end.now == now
      && end.updated == (if choice.UpdateBranch? then Some(Attempt(choice.number, now)) else run.updated)
      && !end.phase.Deciding?
  {
    hide Choice;
  }

  lemma HolderEnds(run: Run, prs0: seq<PR>, now: Time)
    requires run.prs == Select(prs0, NotIn(run.failed)) && run.updated.None?
    requires FirstHolder(Queue(run.prs), run.behind, now) < |Queue(run.prs)|
    ensures Ended(EndOf(run, now), prs0)
  {
    var queue, rest, end := Queue(prs0), Queue(run.prs), EndOf(run, now);
    hide Queue, AllCleared, FirstIs, HoldsAt, VerdictOn, EndOf, IsKind;
    EndOfKeeps(run, now);
    EndOfHolder(run, now);
    HolderIsFirst(run, prs0, now, end);
    var p :| 0 <= p < |queue| && HoldsAt(queue, end, p) && queue[p] == rest[FirstHolder(rest, run.behind, now)];
    FirstDecides(queue, end, p, KindOf(VerdictOn(queue[p], run.behind, now)));
  }

  lemma DecisionEnds(run: Run, prs0: seq<PR>, now: Time)
    requires run.prs == Select(prs0, NotIn(run.failed)) && run.updated.None?
    requires forall a :: a in run.failed ==> exists pr :: pr in Queue(prs0) && pr.number == a.number
    ensures Ended(EndOf(run, now), prs0)
  {
    hide Ended, EndOf, Queue;
    if FirstHolder(Queue(run.prs), run.behind, now) == |Queue(run.prs)| {
      NobodyEnds(run, prs0, now);
    } else {
      HolderEnds(run, prs0, now);
    }
  }

  /** What one pass does to the run: end it, or drop the attempted pull request. */
  lemma IterateCases(run: Run, remote: Remote, input: Input)
    requires run.updated.None?
    ensures var next := Iterate(run, remote, false, input).0;
      var choice := Choice(run.prs, run.behind, input.now);
      next == EndOf(run, input.now) || (choice.UpdateBranch? && next == Drop(run.(now := input.now), choice.number))
  {
  }

  lemma IterateKeeps(run: Run, remote: Remote, prs0: seq<PR>, input: Input)
    requires Invariant(run, prs0) && run.phase.Deciding? && run.updated.None? && run.now <= input.now
    ensures var next := Iterate(run, remote, false, input).0;
      && Invariant(next, prs0)
      && next.now == input.now && next.behind == run.behind
      && (next.phase.Deciding? ==> next.updated.None?)
      && (!next.phase.Deciding? ==> Ended(next, prs0))
  {
    hide Iterate, Choice, Ended, EndOf, Orderly, Queue;
    IterateCases(run, remote, input);
    EndOfKeeps(run, input.now);
    var next := Iterate(run, remote, false, input).0;
    assert Attempts(run) == run.failed;
    FailedAreQueued(run, prs0);
    DecisionEnds(run, prs0, input.now);
    var choice := Choice(run.prs, run.behind, input.now);
    if choice.UpdateBranch? {
      var a := Attempt(choice.number, input.now);
      AttemptKeepsOrder(run, prs0, input.now, a);
      DropFailed(prs0, run.failed, a);
      assert Attempts(next) == run.failed + [a];
    } else {
      assert Attempts(next) == run.failed;
    }
  }

  lemma FailedAreQueued(run: Run, prs0: seq<PR>)
    requires Invariant(run, prs0)
    ensures forall a :: a in run.failed ==> exists pr :: pr in Queue(prs0) && pr.number == a.number
  {
    var queue := Queue(prs0);
    forall a | a in run.failed ensures exists pr :: pr in queue && pr.number == a.number {
      var i :| 0 <= i < |run.failed| && run.failed[i] == a;
      assert Attempts(run)[i] == a;
      assert HasPlace(queue, run.behind, Attempts(run), i);
      var p: nat :| AttemptAt(queue, run.behind, Attempts(run), i, p);
      assert queue[p] in queue;
    }
  }

  // ----- whole runs

  lemma {:induction false} LoopKeeps(run: Run, remote: Remote, prs0: seq<PR>, env: nat -> Input, i: nat)
    requires Invariant(run, prs0) && run.phase.Deciding? && run.updated.None?
    requires Monotone(env) && run.now <= env(i).now
    ensures var end := Loop(run, remote, false, env, i).0;
      Invariant(end, prs0) && end.behind == run.behind && Ended(end, prs0)
    decreases |run.prs|
  {
    var next := Iterate(run, remote, false, env(i));
    IterateKeeps(run, remote, prs0, env(i));
    if next.0.phase.Deciding? {
      assert env(i).now <= env(i + 1).now;
      LoopKeeps(next.0, next.1, prs0, env, i + 1);
    }
  }

  // ----- the calls of a run

  /** An update-branch call and whether GitHub accepted it. */
  datatype Sent = Sent(call: Call, accepted: bool)

  function PassSent(run: Run, remote: Remote, input: Input): seq<Sent> {
    var decided := Decide(run, remote, false, input.now, input.patch).0;
    if decided.phase.Pushing? then
      var pr := Find(decided.prs, decided.phase.number);
      [Sent(Call(pr.number, pr.latestOid, decided.phase.retrying), input.updated)]
    else []
  }

  function SentBy(run: Run, remote: Remote, env: nat -> Input, i: nat): seq<Sent>
    decreases |run.prs|
  {
    var next := Iterate(run, remote, false, env(i));
    PassSent(run, remote, env(i)) + if next.0.phase.Deciding? then SentBy(next.0, next.1, env, i + 1) else []
  }

  function CallsIn(sent: seq<Sent>): seq<Call> {
    seq(|sent|, k requires 0 <= k < |sent| => sent[k].call)
  }

  /** The calls went to some of the attempted pull requests, in the order of the attempts. */
  predicate Within(sent: seq<Sent>, attempts: seq<Attempt>)
    decreases |attempts|
  {
    sent == []
    || (attempts != []
        && ((sent[0].call.number == attempts[0].number && Within(sent[1..], attempts[1..]))
            || Within(sent, attempts[1..])))
  }

  /** No call before the last one was accepted. */
  predicate OnlyLastAccepted(sent: seq<Sent>) {
    forall k :: 0 <= k < |sent| - 1 ==> !sent[k].accepted
  }

  predicate LastAccepted(sent: seq<Sent>) {
    sent != [] && sent[|sent| - 1].accepted
  }

  ghost predicate OneMore(before: seq<Attempt>, sent: seq<Sent>, all: seq<Attempt>) {
    (all == before && sent == []) || exists a :: all == before + [a] && Within(sent, [a])
  }

  lemma PassCalls(run: Run, remote: Remote, input: Input)
    requires run.updated.None?
    ensures var next, sent := Iterate(run, remote, false, input), PassSent(run, remote, input);
      && next.1.calls == remote.calls + CallsIn(sent)
      && |sent| <= 1 && (LastAccepted(sent) <==> next.0.updated.Some?)
      && (next.0.updated.Some? ==> !next.0.phase.Deciding?)
  {
    hide Choice, OldNonMigrationFailure, PatchBody;
  }

  lemma PassNumber(run: Run, remote: Remote, input: Input)
    ensures var sent, choice := PassSent(run, remote, input), Choice(run.prs, run.behind, input.now);
      sent != [] ==> choice.UpdateBranch? && sent[0].call.number == choice.number
  {
    hide Choice, OldNonMigrationFailure, PatchBody;
  }

  /** What one pass adds: at most one attempt, and at most one call, to the pull request of that attempt. */
  lemma PassSends(run: Run, remote: Remote, input: Input)
    requires run.updated.None?
    ensures var next, sent := Iterate(run, remote, false, input), PassSent(run, remote, input);
      && next.1.calls == remote.calls + CallsIn(sent)
      && |sent| <= 1 && (LastAccepted(sent) <==> next.0.updated.Some?)
      && (next.0.updated.Some? ==> !next.0.phase.Deciding?)
      && OneMore(run.failed, sent, Attempts(next.0))
  {
    PassCalls(run, remote, input);
    PassNumber(run, remote, input);
    IterateCases(run, remote, input);
    EndOfKeeps(run, input.now);
    hide Choice, PassSent, Iterate, EndOf, Within, LastAccepted;
    var next, sent := Iterate(run, remote, false, input).0, PassSent(run, remote, input);
    var choice := Choice(run.prs, run.behind, input.now);
    if choice.UpdateBranch? {
      var a := Attempt(choice.number, input.now);
      assert Attempts(next) == run.failed + [a];
      OneWithin(sent, a);
    } else {
      assert Attempts(next) == run.failed;
    }
  }

  lemma OneWithin(sent: seq<Sent>, a: Attempt)
    ensures sent == [] || (|sent| == 1 && sent[0].call.number == a.number) ==> Within(sent, [a])
  {
    assert [a][1..] == [];
    if |sent| == 1 {
      assert sent[1..] == [];
    }
  }

  lemma {:induction false} WithinJoins(sent: seq<Sent>, a: seq<Attempt>, more: seq<Sent>, b: seq<Attempt>)
    requires Within(sent, a) && Within(more, b)
    ensures Within(sent + more, a + b)
    decreases |a|
  {
    if a == [] {
      assert sent + more == more && a + b == b;
    } else {
      assert (a + b)[1..] == a[1..] + b;
      if sent != [] && sent[0].call.number == a[0].number && Within(sent[1..], a[1..]) {
        WithinJoins(sent[1..], a[1..], more, b);
        assert (sent + more)[1..] == sent[1..] + more;
      } else {
        WithinJoins(sent, a[1..], more, b);
      }
    }
  }

  lemma {:induction false} WithinMembers(sent: seq<Sent>, attempts: seq<Attempt>)
    requires Within(sent, attempts)
    ensures forall s :: s in sent ==> Failed(attempts, s.call.number)
    decreases |attempts|
  {
    if sent != [] {
      if sent[0].call.number == attempts[0].number && Within(sent[1..], attempts[1..]) {
        WithinMembers(sent[1..], attempts[1..]);
        assert attempts[0] in attempts;
        assert sent == [sent[0]] + sent[1..];
      } else {
        WithinMembers(sent, attempts[1..]);
      }
    }
  }

  lemma {:induction false} WithinDistinct(sent: seq<Sent>, attempts: seq<Attempt>)
    requires Within(sent, attempts)
    requires forall i, j :: 0 <= i < j < |attempts| ==> attempts[i].number != attempts[j].number
    ensures forall i, j :: 0 <= i < j < |sent| ==> sent[i].call.number != sent[j].call.number
    decreases |attempts|
  {
    if sent != [] {
      if sent[0].call.number == attempts[0].number && Within(sent[1..], attempts[1..]) {
        WithinDistinct(sent[1..], attempts[1..]);
        WithinMembers(sent[1..], attempts[1..]);
        forall j | 0 < j < |sent| ensures sent[0].call.number != sent[j].call.number {
          assert sent[j] in sent[1..];
        }
      } else {
        WithinDistinct(sent, attempts[1..]);
      }
    }
  }

  ghost predicate SentOk(sent: seq<Sent>, before: seq<Attempt>, end: Run) {
    && OnlyLastAccepted(sent) && (LastAccepted(sent) <==> end.updated.Some?)
    && before <= Attempts(end) && Within(sent, Attempts(end)[|before|..])
  }

  lemma LoopStep(run: Run, remote: Remote, env: nat -> Input, i: nat)
    ensures var next, sent := Iterate(run, remote, false, env(i)), PassSent(run, remote, env(i));
      if next.0.phase.Deciding? then
        && Loop(run, remote, false, env, i) == Loop(next.0, next.1, false, env, i + 1)
        && SentBy(run, remote, env, i) == sent + SentBy(next.0, next.1, env, i + 1)
      else
        Loop(run, remote, false, env, i) == next && SentBy(run, remote, env, i) == sent
  {
    hide Iterate, PassSent;
  }

  lemma {:induction false} LoopSends(run: Run, remote: Remote, env: nat -> Input, i: nat)
    requires run.updated.None?
    ensures var end, sent := Loop(run, remote, false, env, i), SentBy(run, remote, env, i);
      end.1.calls == remote.calls + CallsIn(sent) && SentOk(sent, run.failed, end.0)
    decreases |run.prs|
  {
    var next, sent := Iterate(run, remote, false, env(i)), PassSent(run, remote, env(i));
    PassSends(run, remote, env(i));
    LoopStep(run, remote, env, i);
    hide *;
    if next.0.phase.Deciding? {
      LoopSends(next.0, next.1, env, i + 1);
      var end, rest := Loop(next.0, next.1, false, env, i + 1), SentBy(next.0, next.1, env, i + 1);
      CallsJoin(remote.calls, sent, rest);
      AttemptsOf(next.0);
      SentJoins(sent, rest, run.failed, next.0, end.0);
    } else {
      SentLast(sent, run.failed, next.0);
    }
  }

  lemma AttemptsOf(run: Run)
    ensures run.updated.None? ==> Attempts(run) == run.failed
  {
  }

  lemma CallsJoin(calls: seq<Call>, sent: seq<Sent>, rest: seq<Sent>)
    ensures calls + CallsIn(sent + rest) == (calls + CallsIn(sent)) + CallsIn(rest)
  {
    assert CallsIn(sent + rest) == CallsIn(sent) + CallsIn(rest);
  }

  lemma SentLast(sent: seq<Sent>, before: seq<Attempt>, end: Run)
    requires |sent| <= 1 && (LastAccepted(sent) <==> end.updated.Some?) && OneMore(before, sent, Attempts(end))
    ensures SentOk(sent, before, end)
  {
    hide Within, Attempts;
    PassWithin(sent, before, Attempts(end));
  }

  lemma PassWithin(sent: seq<Sent>, before: seq<Attempt>, all: seq<Attempt>)
    requires OneMore(before, sent, all)
    ensures before <= all && Within(sent, all[|before|..])
  {
    hide Within;
    if all == before && sent == [] {
      assert Within([], all[|before|..]) by { NothingWithin(all[|before|..]); }
    } else {
      var a :| all == before + [a] && Within(sent, [a]);
      assert all[|before|..] == [a];
    }
  }

  lemma NothingWithin(attempts: seq<Attempt>)
    ensures Within([], attempts)
  {
  }

  lemma SentJoins(sent: seq<Sent>, rest: seq<Sent>, before: seq<Attempt>, middle: Run, end: Run)
    requires |sent| <= 1 && !LastAccepted(sent) && middle.updated.None?
    requires OneMore(before, sent, middle.failed)
    requires SentOk(rest, middle.failed, end)
    ensures SentOk(sent + rest, before, end)
  {
    hide Within, Attempts;
    PassWithin(sent, before, middle.failed);
    var all := Attempts(end);
    assert all[|before|..] == middle.failed[|before|..] + all[|middle.failed|..];
    WithinJoins(sent, middle.failed[|before|..], rest, all[|middle.failed|..]);
    assert rest != [] ==> (sent + rest)[|sent + rest| - 1] == rest[|rest| - 1];
  }

  /**
   A run attempts pull requests one after the other, each the first in auto-merge order that is not judged skip or
   refused before, so it never passes one that is in flight. It ends with status 0 iff the queue is empty or the
   first pull request in it that is not out of the way was updated or is in flight; with status 1 iff all are out of
   the way, or that first one makes it crash. Its calls go to different attempted pull requests, in order, and none
   but the last one was accepted.
   */
  lemma RunReport(prs: seq<PR>, behind: Distances, remote: Remote, env: nat -> Input)
    requires Monotone(env)
    ensures var run := Start(prs, behind, env(0).now);
      var (end, after), sent := Loop(run, remote, false, env, 0), SentBy(run, remote, env, 0);
      && end.behind == behind
      && Orderly(Queue(prs), behind, Attempts(end))
      && Ended(end, prs)
      && (Status(ExitOf(end.phase)) == 1
          <==> (Queue(prs) != [] && AllCleared(Queue(prs), end)) || FirstIs(Queue(prs), end, Crashes))
      && after.calls == remote.calls + CallsIn(sent)
      && Within(sent, Attempts(end))
      && (forall i, j :: 0 <= i < j < |sent| ==> sent[i].call.number != sent[j].call.number)
      && OnlyLastAccepted(sent) && (LastAccepted(sent) <==> end.updated.Some?)
  {
    var run := Start(prs, behind, env(0).now);
    SelectAll(prs, []);
    assert Attempts(run) == [];
    LoopKeeps(run, remote, prs, env, 0);
    LoopSends(run, remote, env, 0);
    var end := Loop(run, remote, false, env, 0).0;
    hide Loop, SentBy, Queue, Orderly, AllCleared, FirstIs, Within, OnlyLastAccepted, LastAccepted;
    assert Attempts(end)[0..] == Attempts(end);
    WithinDistinct(SentBy(run, remote, env, 0), Attempts(end));
  }

  lemma PlacesGoDown(queue: seq<PR>, behind: Distances, attempts: seq<Attempt>, i: nat, j: nat, pi: nat, pj: nat)
    requires i < j < |attempts| && attempts[i].at <= attempts[j].at && attempts[i].number != attempts[j].number
    requires forall k :: 0 <= k < i ==> attempts[k].number != attempts[j].number
    requires AttemptAt(queue, behind, attempts, i, pi) && AttemptAt(queue, behind, attempts, j, pj)
    ensures pi < pj
  {
    hide Judge;
    if pj < pi {
      assert Cleared(queue[pj], attempts[..i], behind, attempts[i].at);
      SkipIsStable(queue[pj], DistanceOf(behind, queue[pj].number), attempts[i].at, attempts[j].at);
    }
  }

  /** Attempts go down the queue: a later attempt is at a later position. */
  lemma AttemptsGoDown(prs: seq<PR>, behind: Distances, remote: Remote, env: nat -> Input, i: nat, j: nat,
          pi: nat, pj: nat)
    requires Monotone(env)
    requires var attempts := Attempts(Loop(Start(prs, behind, env(0).now), remote, false, env, 0).0);
      && i < j < |attempts|
      && AttemptAt(Queue(prs), behind, attempts, i, pi)
      && AttemptAt(Queue(prs), behind, attempts, j, pj)
    ensures pi < pj
  {
    var run := Start(prs, behind, env(0).now);
    SelectAll(prs, []);
    assert Attempts(run) == [];
    LoopKeeps(run, remote, prs, env, 0);
    hide Loop, Queue, AttemptAt, Orderly;
    PlacesGoDown(Queue(prs), behind, Attempts(Loop(run, remote, false, env, 0).0), i, j, pi, pj);
  }

  /** A dry run sends nothing. */
  lemma DryRunSendsNothing(run: Run, remote: Remote, env: nat -> Input, i: nat)
    ensures Loop(run, remote, true, env, i).1 == remote
  {
    var next := Iterate(run, remote, true, env(i));
    assert next.1 == remote && !next.0.phase.Deciding?;
  }
}

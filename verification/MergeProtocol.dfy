/**
 The merge train over any number of serial runs (scripts/merge_train.py:158-168, 252-260, 329-351;
 the runs are serial by the concurrency group of .github/workflows/merge-train.yml:56-58). Between
 any two calls of a run, latest may advance, authors may edit their descriptions, calls may fail with
 or without effect, and the run may be killed.
 */
module MergeProtocol {
  import opened Text
  import opened AttemptMarker
  import opened MergeJudge
  import opened MergeTrain

  /** `snapshot` is the latest commit as the current run fetched it; `used` are all that ever were latest. */
  datatype World = World(remote: Remote, latest: string, used: set<string>, run: Run, snapshot: string)

  datatype Action =
    | Advance(oid: string)
    | Edit(number: int, body: string)
    | Fetch(prs: seq<PR>, behind: Distances)
    | DecideStep(dryRun: bool, now: Time, patch: Reply)
    | CallStep(updated: bool)
    | RefusalStep(refusal: Reply)
    | Kill

  predicate Marked(body: string, oid: string) {
    Search(body).Some? && Search(body).value.oid == oid
  }

  ghost predicate Distinct(prs: seq<PR>) {
    forall p, q :: p in prs && q in prs && p.number == q.number ==> p == q
  }

  predicate Active(run: Run) {
    run.phase.Deciding? || run.phase.Pushing? || run.phase.Refusing?
  }

  ghost predicate Initial(w: World) {
    && w.remote.calls == []
    && (forall n :: n in w.remote.bodies ==> Clean(w.remote.bodies[n]))
    && IsOid(w.latest)
    && w.used == {w.latest}
    && !Active(w.run)
  }

  ghost predicate Enabled(w: World, a: Action) {
    match a
    case Advance(oid) => IsOid(oid) && oid !in w.used
    case Edit(number, body) =>
      && Clean(body)
      && (number in w.remote.bodies ==> Search(body) == Search(w.remote.bodies[number]))
    case Fetch(prs, _) =>
      && !Active(w.run)
      && Distinct(prs)
      && forall pr :: pr in prs ==>
           pr.number in w.remote.bodies && pr.body == w.remote.bodies[pr.number] && pr.latestOid == w.latest
    case DecideStep(_, _, _) => w.run.phase.Deciding?
    case CallStep(_) => w.run.phase.Pushing? && exists p :: p in w.run.prs && p.number == w.run.phase.number
    case RefusalStep(_) => w.run.phase.Refusing? && exists p :: p in w.run.prs && p.number == w.run.phase.number
    case Kill => true
  }

  ghost function Apply(w: World, a: Action): World
    requires Enabled(w, a)
  {
    match a
    case Advance(oid) => w.(latest := oid, used := w.used + {oid})
    case Edit(number, body) => w.(remote := w.remote.(bodies := w.remote.bodies[number := body]))
    case Fetch(prs, behind) => w.(run := Start(prs, behind, 0), snapshot := w.latest)
    case DecideStep(dryRun, now, patch) =>
      var r := Decide(w.run, w.remote, dryRun, now, patch);
      w.(run := r.0, remote := r.1)
    case CallStep(updated) =>
      var r := CallBranch(w.run, w.remote, updated);
      w.(run := r.0, remote := r.1)
    case RefusalStep(refusal) =>
      var r := NoteRefusal(w.run, w.remote, refusal);
      w.(run := r.0, remote := r.1)
    case Kill => w.(run := w.run.(phase := Crashed))
  }

  ghost predicate Feasible(w: World, actions: seq<Action>)
    decreases |actions|
  {
    actions == [] || (Enabled(w, actions[0]) && Feasible(Apply(w, actions[0]), actions[1..]))
  }

  ghost function Execute(w: World, actions: seq<Action>): World
    requires Feasible(w, actions)
    decreases |actions|
  {
    if actions == [] then w else Execute(Apply(w, actions[0]), actions[1..])
  }

  /** An update-branch call on the failed-check path was made for this pull request and latest commit. */
  predicate Retried(calls: seq<Call>, number: int, oid: string) {
    Call(number, oid, true) in calls
  }

  ghost predicate AtMostOnce(calls: seq<Call>) {
    forall i, j :: 0 <= i < j < |calls| && calls[i].retry && calls[j].retry ==> calls[i] != calls[j]
  }

  ghost predicate RunInvariant(w: World) {
    && IsOid(w.snapshot)
    && w.snapshot in w.used
    && Distinct(w.run.prs)
    && (forall pr :: pr in w.run.prs ==>
          && Clean(pr.body)
          && pr.latestOid == w.snapshot
          && (Retried(w.remote.calls, pr.number, w.snapshot) && w.run.phase != Refusing(pr.number)
              ==> Marked(pr.body, w.snapshot)))
    && (w.snapshot != w.latest ==> forall n :: !Retried(w.remote.calls, n, w.latest))
    && (w.run.phase.Pushing? || w.run.phase.Refusing? ==> exists p :: p in w.run.prs && p.number == w.run.phase.number)
    && (w.run.phase.Pushing? && w.run.phase.retrying ==>
          && !Retried(w.remote.calls, w.run.phase.number, w.snapshot)
          && RetryRemembered(w, w.run.phase.number, w.snapshot))
  }

  predicate RetryRemembered(w: World, number: int, oid: string) {
    oid == w.latest ==> number in w.remote.bodies && Marked(w.remote.bodies[number], oid)
  }

  ghost predicate Invariant(w: World) {
    && IsOid(w.latest) && w.latest in w.used
    && (forall n :: n in w.remote.bodies ==> Clean(w.remote.bodies[n]))
    && (forall c :: c in w.remote.calls && c.retry ==> c.oid in w.used)
    && (forall n, oid :: Retried(w.remote.calls, n, oid) ==> RetryRemembered(w, n, oid))
    && AtMostOnce(w.remote.calls)
    && (Active(w.run) ==> RunInvariant(w))
  }

  // ----- every step keeps the invariant

  lemma AdvanceKeeps(w: World, oid: string)
    requires Invariant(w) && Enabled(w, Advance(oid))
    ensures Invariant(Apply(w, Advance(oid)))
  {
    forall n ensures !Retried(w.remote.calls, n, oid) {
      assert Call(n, oid, true) in w.remote.calls ==> oid in w.used;
    }
  }

  lemma EditKeeps(w: World, number: int, body: string)
    requires Invariant(w) && Enabled(w, Edit(number, body))
    ensures Invariant(Apply(w, Edit(number, body)))
  {
    hide Search, Clean;
  }

  lemma FetchKeeps(w: World, prs: seq<PR>, behind: Distances)
    requires Invariant(w) && Enabled(w, Fetch(prs, behind))
    ensures Invariant(Apply(w, Fetch(prs, behind)))
  {
    hide Search, Clean;
    var next := Apply(w, Fetch(prs, behind));
    forall pr | pr in prs && Retried(w.remote.calls, pr.number, w.latest) ensures Marked(pr.body, w.latest) {
      assert RetryRemembered(w, pr.number, w.latest);
    }
  }

  lemma RecordedBody(pr: PR, refused: bool)
    requires Clean(pr.body) && IsOid(pr.latestOid)
    ensures Clean(Record(pr.body, pr.latestOid, refused))
    ensures Marked(Record(pr.body, pr.latestOid, refused), pr.latestOid)
  {
    hide Record;
    ReadBack(pr.body, pr.latestOid, refused);
    RecordIsClean(pr.body, pr.latestOid, refused);
  }

  /** Writing a marker for the run's commit forgets no attempt on the current latest commit. */
  lemma PatchKeeps(w: World, pr: PR, refused: bool, reply: Reply)
    requires Invariant(w) && Active(w.run) && pr in w.run.prs
    ensures var remote := PatchBody(w.remote, pr, refused, reply);
      && remote.calls == w.remote.calls
      && Invariant(w.(remote := remote))
      && (reply.TookEffect() ==> RetryRemembered(w.(remote := remote), pr.number, w.snapshot))
  {
    hide Search, Clean, Record, Marked;
    var remote := PatchBody(w.remote, pr, refused, reply);
    var next := w.(remote := remote);
    RecordedBody(pr, refused);
    forall n, oid | Retried(remote.calls, n, oid) ensures RetryRemembered(next, n, oid) {
      assert RetryRemembered(w, n, oid);
    }
  }

  lemma DropKeeps(w: World, number: int)
    requires Invariant(w) && Active(w.run) && (w.run.phase.Refusing? ==> w.run.phase.number == number)
    ensures Invariant(w.(run := Drop(w.run, number)))
  {
    hide Search, Clean;
  }

  /** The chosen pull request, when it takes the failed-check path, was not retried for this commit. */
  lemma RetryIsNew(w: World, now: Time)
    requires Invariant(w) && w.run.phase.Deciding?
    requires Choice(w.run.prs, w.run.behind, now).UpdateBranch?
    requires exists p :: p in w.run.prs && p.number == Choice(w.run.prs, w.run.behind, now).number
    ensures var pr := Find(w.run.prs, Choice(w.run.prs, w.run.behind, now).number);
      OldNonMigrationFailure(pr) ==> !Retried(w.remote.calls, pr.number, w.snapshot)
  {
    ChosenIsListed(w.run.prs, w.run.behind, now);
    var number := Choice(w.run.prs, w.run.behind, now).number;
    var p :| p in w.run.prs && p.number == number && VerdictOn(p, w.run.behind, now).Update?;
    assert Find(w.run.prs, number) == p;
    UpdateIsSafe(p, DistanceOf(w.run.behind, p.number), now);
  }

  lemma DecideCases(w: World, now: Time, patch: Reply)
    requires w.run.phase.Deciding? && Choice(w.run.prs, w.run.behind, now).UpdateBranch?
    requires exists p :: p in w.run.prs && p.number == Choice(w.run.prs, w.run.behind, now).number
    ensures var number := Choice(w.run.prs, w.run.behind, now).number;
      var pr := Find(w.run.prs, number);
      var at := w.run.(now := now);
      Decide(w.run, w.remote, false, now, patch)
        == if !OldNonMigrationFailure(pr) then (at.(phase := Pushing(number, false)), w.remote)
           else if patch.accepted then (at.(phase := Pushing(number, true)), PatchBody(w.remote, pr, false, patch))
           else (Drop(at, number), PatchBody(w.remote, pr, false, patch))
  {
    hide Choice, PatchBody, OldNonMigrationFailure;
  }

  lemma DecideKeeps(w: World, dryRun: bool, now: Time, patch: Reply)
    requires Invariant(w) && w.run.phase.Deciding?
    ensures Invariant(Apply(w, DecideStep(dryRun, now, patch)))
  {
    hide Search, Clean, Choice;
    var at := w.(run := w.run.(now := now));
    assert Invariant(at);
    if Choice(w.run.prs, w.run.behind, now).UpdateBranch? && !dryRun {
      ChosenIsListed(w.run.prs, w.run.behind, now);
      UpdateKeeps(w, now, patch);
    }
  }

  lemma UpdateKeeps(w: World, now: Time, patch: Reply)
    requires Invariant(w) && w.run.phase.Deciding? && Choice(w.run.prs, w.run.behind, now).UpdateBranch?
    requires exists p :: p in w.run.prs && p.number == Choice(w.run.prs, w.run.behind, now).number
    ensures Invariant(Apply(w, DecideStep(false, now, patch)))
  {
    hide Search, Clean, Choice, Decide, PatchBody, OldNonMigrationFailure, Record;
    var at := w.(run := w.run.(now := now));
    assert Invariant(at);
    var number := Choice(w.run.prs, w.run.behind, now).number;
    var pr := Find(w.run.prs, number);
    DecideCases(w, now, patch);
    RetryIsNew(w, now);
    PatchKeeps(at, pr, false, patch);
    DropKeeps(at.(remote := PatchBody(w.remote, pr, false, patch)), number);
  }

  /** What becomes of the run when the update-branch call returns. */
  function AfterCall(run: Run, updated: bool): Run
    requires run.phase.Pushing?
  {
    if updated then run.(updated := Some(Attempt(run.phase.number, run.now)), phase := Finished(0))
    else if run.phase.retrying then run.(phase := Refusing(run.phase.number))
    else Drop(run, run.phase.number)
  }

  lemma CallKeeps(w: World, pr: PR, updated: bool)
    requires Invariant(w) && w.run.phase.Pushing? && pr in w.run.prs && pr.number == w.run.phase.number
    ensures var called := w.remote.(calls := w.remote.calls + [Call(pr.number, pr.latestOid, w.run.phase.retrying)]);
      Invariant(w.(remote := called, run := AfterCall(w.run, updated)))
  {
    hide Search, Clean;
    var call := Call(pr.number, pr.latestOid, w.run.phase.retrying);
    var calls := w.remote.calls + [call];
    forall n, oid ensures Retried(calls, n, oid) <==> Retried(w.remote.calls, n, oid) || Call(n, oid, true) == call {
    }
    if call.retry {
      assert call !in w.remote.calls;
    }
    assert AtMostOnce(calls);
  }

  lemma CallStepKeeps(w: World, updated: bool)
    requires Invariant(w) && Enabled(w, CallStep(updated))
    ensures Invariant(Apply(w, CallStep(updated)))
  {
    var pr := Find(w.run.prs, w.run.phase.number);
    hide Search, Clean;
    assert Apply(w, CallStep(updated)).run == AfterCall(w.run, updated);
    CallKeeps(w, pr, updated);
  }

  lemma RefusalKeeps(w: World, refusal: Reply)
    requires Invariant(w) && Enabled(w, RefusalStep(refusal))
    ensures Invariant(Apply(w, RefusalStep(refusal)))
  {
    hide Search, Clean, Record, Marked, PatchBody;
    var pr := Find(w.run.prs, w.run.phase.number);
    PatchKeeps(w, pr, true, refusal);
    DropKeeps(w.(remote := PatchBody(w.remote, pr, true, refusal)), pr.number);
  }

  lemma StepKeeps(w: World, a: Action)
    requires Invariant(w) && Enabled(w, a)
    ensures Invariant(Apply(w, a))
  {
    match a
    case Advance(oid) => AdvanceKeeps(w, oid);
    case Edit(number, body) => EditKeeps(w, number, body);
    case Fetch(prs, behind) => FetchKeeps(w, prs, behind);
    case DecideStep(dryRun, now, patch) => DecideKeeps(w, dryRun, now, patch);
    case CallStep(updated) => CallStepKeeps(w, updated);
    case RefusalStep(refusal) => RefusalKeeps(w, refusal);
    case Kill =>
  }

  lemma {:induction false} ExecuteKeeps(w: World, actions: seq<Action>)
    requires Invariant(w) && Feasible(w, actions)
    ensures Invariant(Execute(w, actions))
    decreases |actions|
  {
    if actions != [] {
      StepKeeps(w, actions[0]);
      ExecuteKeeps(Apply(w, actions[0]), actions[1..]);
    }
  }

  /**
   Whatever happens over any number of runs, a pull request with a failed check gets at most one
   update-branch call for each latest commit.
   */
  lemma OneRetryPerLatestCommit(w: World, actions: seq<Action>)
    requires Initial(w) && Feasible(w, actions)
    ensures AtMostOnce(Execute(w, actions).remote.calls)
  {
    ExecuteKeeps(w, actions);
  }

  lemma DecidedRetry(w: World, prs: seq<PR>, behind: Distances, now: Time, pr: PR)
    requires Enabled(w, Fetch(prs, behind)) && pr in prs && OldNonMigrationFailure(pr)
    requires Choice(prs, behind, now) == UpdateBranch(pr.number)
    ensures var fetched := Apply(w, Fetch(prs, behind));
      var reply := Reply(true, true);
      && Enabled(fetched, DecideStep(false, now, reply))
      && var decided := Apply(fetched, DecideStep(false, now, reply));
         && decided.run == fetched.run.(now := now, phase := Pushing(pr.number, true))
         && decided.remote == PatchBody(w.remote, pr, false, reply)
  {
    hide Choice, OldNonMigrationFailure, PatchBody;
    assert Find(prs, pr.number) == pr;
  }

  lemma CalledRetry(w: World, pr: PR)
    requires Distinct(w.run.prs) && pr in w.run.prs && w.run.phase == Pushing(pr.number, true)
    ensures Enabled(w, CallStep(true))
    ensures var end := Apply(w, CallStep(true));
      && end.remote == w.remote.(calls := w.remote.calls + [Call(pr.number, pr.latestOid, true)])
      && end.run.phase == Finished(0) && end.run.updated == Some(Attempt(pr.number, w.run.now))
  {
    assert Find(w.run.prs, pr.number) == pr;
  }

  lemma ThreeSteps(w: World, a: Action, b: Action, c: Action)
    requires Enabled(w, a) && Enabled(Apply(w, a), b) && Enabled(Apply(Apply(w, a), b), c)
    ensures Feasible(w, [a, b, c]) && Execute(w, [a, b, c]) == Apply(Apply(Apply(w, a), b), c)
  {
    hide Enabled, Apply;
    assert [a, b, c][1..] == [b, c] && [b, c][1..] == [c] && [c][1..] == [];
    var first, second := Apply(w, a), Apply(Apply(w, a), b);
    assert Feasible(Apply(second, c), []);
    assert Feasible(second, [c]) && Execute(second, [c]) == Apply(second, c);
    assert Feasible(first, [b, c]) && Execute(first, [b, c]) == Execute(second, [c]);
  }

  /** And it gets one: when a run chooses it and nothing fails, its one call for this commit is made and remembered. */
  lemma DueRetryIsMade(w: World, prs: seq<PR>, behind: Distances, now: Time, pr: PR)
    requires Enabled(w, Fetch(prs, behind)) && pr in prs && OldNonMigrationFailure(pr)
    requires Choice(prs, behind, now) == UpdateBranch(pr.number)
    ensures var actions := [Fetch(prs, behind), DecideStep(false, now, Reply(true, true)), CallStep(true)];
      && Feasible(w, actions)
      && var end := Execute(w, actions);
         && end.remote.calls == w.remote.calls + [Call(pr.number, w.latest, true)]
         && end.remote.bodies == w.remote.bodies[pr.number := Record(pr.body, w.latest, false)]
         && end.run.phase == Finished(0) && end.run.updated == Some(Attempt(pr.number, now))
  {
    var fetch, decide := Fetch(prs, behind), DecideStep(false, now, Reply(true, true));
    DecidedRetry(w, prs, behind, now, pr);
    assert Apply(w, fetch).run.prs == prs && Distinct(prs) && pr.latestOid == w.latest;
    var decided := Apply(Apply(w, fetch), decide);
    hide Choice, OldNonMigrationFailure, Record, Enabled, Apply, Feasible, Execute;
    CalledRetry(decided, pr);
    ThreeSteps(w, fetch, decide, CallStep(true));
  }

  /** What the next run fetches for a pull request whose data did not change, except that its body is the stored one. */
  ghost predicate Refetched(w: World, pr: PR, again: PR) {
    pr.number in w.remote.bodies && again == pr.(body := w.remote.bodies[pr.number])
  }

  lemma RecordedIsUnresolved(pr: PR, behind: Option<int>, now: Time)
    requires Judge(pr, behind, now) == Update(OldFailure) && IsOid(pr.latestOid) && Clean(pr.body)
    ensures AttemptUnresolved(pr.(body := Record(pr.body, pr.latestOid, false)), behind)
  {
    hide Search, RemoveAll, Record, Clean;
    UpdateIsSafe(pr, behind, now);
    ReadBack(pr.body, pr.latestOid, false);
  }

  /** The verdict on the pull request that is chosen for a retry. */
  lemma ChosenForRetry(w: World, now: Time)
    requires Invariant(w) && w.run.phase.Deciding? && Choice(w.run.prs, w.run.behind, now).UpdateBranch?
    requires exists p :: p in w.run.prs && p.number == Choice(w.run.prs, w.run.behind, now).number
    ensures var pr := Find(w.run.prs, Choice(w.run.prs, w.run.behind, now).number);
      OldNonMigrationFailure(pr) ==> VerdictOn(pr, w.run.behind, now) == Update(OldFailure)
  {
    hide OldNonMigrationFailure, Judge;
    ChosenIsListed(w.run.prs, w.run.behind, now);
    var number := Choice(w.run.prs, w.run.behind, now).number;
    var p :| p in w.run.prs && p.number == number && VerdictOn(p, w.run.behind, now).Update?;
    assert Find(w.run.prs, number) == p;
    UpdateIsSafe(p, DistanceOf(w.run.behind, p.number), now);
    UpdateReason(p, DistanceOf(w.run.behind, p.number), now);
  }

  lemma UpdateReason(pr: PR, behind: Option<int>, now: Time)
    requires Judge(pr, behind, now).Update?
    ensures Judge(pr, behind, now).reason.OldFailure? || Judge(pr, behind, now).reason.BehindLatest?
  {
    hide OldNonMigrationFailure, FailureReason;
  }

  ghost function DecidedThenKilled(w: World, now: Time, patch: Reply): World
    requires w.run.phase.Deciding?
  {
    Apply(Apply(w, DecideStep(false, now, patch)), Kill)
  }

  /**
   The price of one attempt per commit. When a run is killed after it recorded an attempt and before it made the
   call, no call was made, and yet the pull request waits for fresh checks at every later time, holding the queue
   as long as latest stays.
   */
  lemma KilledRunHoldsTheQueue(w: World, now: Time, patch: Reply, again: PR)
    requires Invariant(w) && w.run.phase.Deciding? && patch.accepted
    requires Choice(w.run.prs, w.run.behind, now).UpdateBranch?
    requires exists p :: p in w.run.prs && p.number == Choice(w.run.prs, w.run.behind, now).number
    requires OldNonMigrationFailure(Find(w.run.prs, Choice(w.run.prs, w.run.behind, now).number))
    ensures var pr := Find(w.run.prs, Choice(w.run.prs, w.run.behind, now).number);
      var killed := DecidedThenKilled(w, now, patch);
      && killed.remote.calls == w.remote.calls && !Active(killed.run)
      && (Refetched(killed, pr, again) ==> AttemptUnresolved(again, DistanceOf(w.run.behind, pr.number)))
  {
    hide Choice, OldNonMigrationFailure, Invariant, Record, Clean;
    var pr := Find(w.run.prs, Choice(w.run.prs, w.run.behind, now).number);
    assert IsOid(pr.latestOid) && Clean(pr.body) by {
      ChosenIsClean(w, pr);
    }
    ChosenForRetry(w, now);
    DecideCases(w, now, patch);
    RecordedIsUnresolved(pr, DistanceOf(w.run.behind, pr.number), now);
  }

  /**
   No kill is needed: when writing the marker is reported as failed although it took effect, the pull request is passed
   over without a call, and waits just the same.
   */
  lemma UnreportedWriteHoldsTheQueue(w: World, now: Time, again: PR)
    requires Invariant(w) && w.run.phase.Deciding?
    requires Choice(w.run.prs, w.run.behind, now).UpdateBranch?
    requires exists p :: p in w.run.prs && p.number == Choice(w.run.prs, w.run.behind, now).number
    requires OldNonMigrationFailure(Find(w.run.prs, Choice(w.run.prs, w.run.behind, now).number))
    ensures var pr := Find(w.run.prs, Choice(w.run.prs, w.run.behind, now).number);
      var passed := Apply(w, DecideStep(false, now, Reply(false, true)));
      && passed.remote.calls == w.remote.calls && passed.run == Drop(w.run.(now := now), pr.number)
      && (Refetched(passed, pr, again) ==> AttemptUnresolved(again, DistanceOf(w.run.behind, pr.number)))
  {
    hide Choice, OldNonMigrationFailure, Invariant, Record, Clean;
    var pr := Find(w.run.prs, Choice(w.run.prs, w.run.behind, now).number);
    assert IsOid(pr.latestOid) && Clean(pr.body) by {
      ChosenIsClean(w, pr);
    }
    ChosenForRetry(w, now);
    DecideCases(w, now, Reply(false, true));
    RecordedIsUnresolved(pr, DistanceOf(w.run.behind, pr.number), now);
  }

  lemma ChosenIsClean(w: World, pr: PR)
    requires Invariant(w) && Active(w.run) && pr in w.run.prs
    ensures IsOid(pr.latestOid) && Clean(pr.body)
  {
    hide Clean, Search;
  }

  ghost function Refused(w: World, reply: Reply): World
    requires w.run.phase.Pushing? && w.run.phase.retrying
    requires exists p :: p in w.run.prs && p.number == w.run.phase.number
  {
    Apply(Apply(w, CallStep(false)), RefusalStep(reply))
  }

  lemma RefusedBody(w: World, pr: PR, reply: Reply)
    requires w.run.phase == Pushing(pr.number, true) && pr in w.run.prs && Find(w.run.prs, pr.number) == pr
    ensures Refused(w, reply).remote.bodies
         == if reply.TookEffect() then w.remote.bodies[pr.number := Record(pr.body, pr.latestOid, true)]
            else w.remote.bodies
  {
    hide Record;
  }

  /**
   What a refused call leaves behind. If the note in the body took effect, the pull request is out of the way as
   refused at every later time; otherwise it waits and holds the queue, exactly as long as latest stays.
   */
  lemma RefusalHoldsTheQueueIff(w: World, pr: PR, again: PR, behind: Option<int>, now: Time, reply: Reply, later: Time)
    requires w.run.phase == Pushing(pr.number, true) && pr in w.run.prs && Find(w.run.prs, pr.number) == pr
    requires Judge(pr, behind, now) == Update(OldFailure) && IsOid(pr.latestOid) && Clean(pr.body)
    requires pr.number in w.remote.bodies && w.remote.bodies[pr.number] == Record(pr.body, pr.latestOid, false)
    requires Refetched(Refused(w, reply), pr, again)
    ensures AttemptUnresolved(again, behind) <==> !reply.TookEffect()
    ensures reply.TookEffect() ==> Search(again.body) == Some(Marker(pr.latestOid, true))
    ensures Judge(again, behind, later) == if reply.TookEffect() then Skip(UpdateRefused) else Wait(AttemptPending)
  {
    hide Record, Clean, Refused, RemoveAll, Search;
    RefusedBody(w, pr, reply);
    RecordedIsUnresolved(pr, behind, now);
    UpdateIsSafe(pr, behind, now);
    ReadBack(pr.body, pr.latestOid, true);
  }

  /**
   Exactly when the body fails to remember: after an attempt was judged due and recorded, the same pull
   request is judged due again for the same latest commit iff removing its old markers had left one that
   names another commit.
   */
  lemma RetriedAgainIff(pr: PR, behind: Option<int>, now: Time, later: Time)
    requires Judge(pr, behind, now) == Update(OldFailure) && IsOid(pr.latestOid)
    ensures var recorded := pr.(body := Record(pr.body, pr.latestOid, false));
      Judge(recorded, behind, later) == Update(OldFailure)
      <==> !Clean(pr.body) && !Marked(RemoveAll(pr.body), pr.latestOid)
  {
    hide Search, RemoveAll, Record, Clean;
    UpdateIsSafe(pr, behind, now);
    ReadBack(pr.body, pr.latestOid, false);
    assert Clean(pr.body) <==> Search(RemoveAll(pr.body)).None? by {
      CleanMeans(pr.body);
    }
  }

  lemma CleanMeans(body: string)
    ensures Clean(body) <==> Search(RemoveAll(body)).None?
  {
  }
}

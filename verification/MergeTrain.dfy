/**
 One run of the merge train (scripts/merge_train.py:183-210, 252-260, 303-353): which pull request is
 chosen, what is sent to GitHub, and how the run ends. GitHub's answers and the clock are inputs.
 */
module MergeTrain {
  import opened Text
  import opened AttemptMarker
  import opened MergeJudge
  import opened StableSort

  type Distances = map<int, Option<int>>

  function DistanceOf(behind: Distances, number: int): Option<int> {
    if number in behind then behind[number] else None
  }

  predicate InQueue(pr: PR) {
    !pr.isDraft && pr.enabledAt.Some?
  }

  function EnabledAt(pr: PR): int {
    if pr.enabledAt.Some? then pr.enabledAt.value else 0
  }

  /** The pull requests with auto-merge on, in the order it was enabled. */
  function Queue(prs: seq<PR>): seq<PR> {
    Sort(Select(prs, InQueue), EnabledAt)
  }

  function VerdictOn(pr: PR, behind: Distances, now: Time): Verdict {
    Judge(pr, DistanceOf(behind, pr.number), now)
  }

  // ----- choose

  datatype Action = UpdateBranch(number: int) | InFlight(number: int) | Stuck | Idle | Aborted

  datatype Note =
    | PassedOver(number: int, reason: Reason)
    | Decided(number: int, verdict: Verdict)
    | QueuedBehind(number: int, ahead: int)

  /** The position of the first pull request that is not skipped. */
  function FirstHolder(queue: seq<PR>, behind: Distances, now: Time): (h: nat)
    ensures h <= |queue|
    ensures forall k :: 0 <= k < h ==> VerdictOn(queue[k], behind, now).Skip?
    ensures h < |queue| ==> !VerdictOn(queue[h], behind, now).Skip?
  {
    if queue == [] || !VerdictOn(queue[0], behind, now).Skip? then 0
    else 1 + FirstHolder(queue[1..], behind, now)
  }

  function ActionAt(queue: seq<PR>, h: nat, behind: Distances, now: Time): Action
    requires h <= |queue|
  {
    if h == |queue| then (if queue == [] then Idle else Stuck)
    else
      match VerdictOn(queue[h], behind, now)
      case Update(_) => UpdateBranch(queue[h].number)
      case Wait(_) => InFlight(queue[h].number)
      case Raises => Aborted
      case Skip(_) => Stuck
  }

  function Choice(prs: seq<PR>, behind: Distances, now: Time): Action {
    var queue := Queue(prs);
    ActionAt(queue, FirstHolder(queue, behind, now), behind, now)
  }

  /** The note that `choose` writes for the pull request at position `k` when `h` is the holder. */
  function NoteFor(queue: seq<PR>, h: nat, k: nat, behind: Distances, now: Time): Note
    requires k < |queue| && h <= |queue|
    requires k < h ==> VerdictOn(queue[k], behind, now).Skip?
  {
    var number := queue[k].number;
    if k < h then PassedOver(number, VerdictOn(queue[k], behind, now).reason)
    else if k == h then Decided(number, VerdictOn(queue[k], behind, now))
    else QueuedBehind(number, queue[h].number)
  }

  method Choose(prs: seq<PR>, behind: Distances, now: Time) returns (action: Action, notes: seq<Note>)
    ensures action == Choice(prs, behind, now)
    ensures !action.Aborted? ==>
              var queue := Queue(prs);
              var h := FirstHolder(queue, behind, now);
              |notes| == |queue| && forall k :: 0 <= k < |queue| ==> notes[k] == NoteFor(queue, h, k, behind, now)
  {
    var queue := Queue(prs);
    ghost var h := FirstHolder(queue, behind, now);
    notes := [];
    var chosen := None;
    for k := 0 to |queue|
      invariant |notes| == k
      invariant chosen.None? <==> k <= h
      invariant chosen.Some? ==> chosen.value == (VerdictOn(queue[h], behind, now), queue[h].number)
      invariant chosen.Some? ==> !chosen.value.0.Raises?
      invariant forall j :: 0 <= j < k ==> notes[j] == NoteFor(queue, h, j, behind, now)
    {
      var number := queue[k].number;
      if chosen.Some? {
        notes := notes + [QueuedBehind(number, chosen.value.1)];
      } else {
        var verdict := Judge(queue[k], DistanceOf(behind, number), now);
        if verdict.Raises? {
          assert k == h;
          return Aborted, notes;
        } else if verdict.Skip? {
          notes := notes + [PassedOver(number, verdict.reason)];
        } else {
          notes := notes + [Decided(number, verdict)];
          chosen := Some((verdict, number));
        }
      }
    }
    if chosen.Some? {
      action := if chosen.value.0.Update? then UpdateBranch(chosen.value.1) else InFlight(chosen.value.1);
    } else {
      action := if queue != [] then Stuck else Idle;
    }
  }

  // ----- what a run finds when nothing changes

  predicate PassedOverForEver(pr: PR, behind: Distances) {
    WillBeSkipped(pr, DistanceOf(behind, pr.number))
  }

  /** The position of the first pull request that is not skipped for ever. */
  function FirstLasting(queue: seq<PR>, behind: Distances): (p: nat)
    ensures p <= |queue|
    ensures forall k :: 0 <= k < p ==> PassedOverForEver(queue[k], behind)
    ensures p < |queue| ==> !PassedOverForEver(queue[p], behind)
  {
    if queue == [] || !PassedOverForEver(queue[0], behind) then 0 else 1 + FirstLasting(queue[1..], behind)
  }

  /** That pull request holds the queue. */
  predicate IsBlocked(queue: seq<PR>, behind: Distances) {
    var p := FirstLasting(queue, behind);
    p < |queue| && HoldsForEver(queue[p], DistanceOf(behind, queue[p].number))
  }

  predicate Waiting(action: Action) {
    action.InFlight? || action.Aborted?
  }

  ghost predicate FreeAfter(prs: seq<PR>, behind: Distances, deadline: Time) {
    forall now :: now > deadline ==> !Waiting(Choice(prs, behind, now))
  }

  /** A moment after which the pull requests before the lasting one are all skipped. */
  lemma {:induction false} AllSkippedAfter(queue: seq<PR>, behind: Distances) returns (deadline: Time)
    requires forall k :: 0 <= k < |queue| ==> PassedOverForEver(queue[k], behind)
    ensures forall k, now :: 0 <= k < |queue| && now > deadline ==> VerdictOn(queue[k], behind, now).Skip?
  {
    hide Judge, WillBeSkipped;
    if queue == [] {
      deadline := 0;
    } else {
      var rest := AllSkippedAfter(queue[1..], behind);
      EventuallySkippedIff(queue[0], DistanceOf(behind, queue[0].number));
      assert PassedOverForEver(queue[0], behind);
      var mine :| SkippedAfter(queue[0], DistanceOf(behind, queue[0].number), mine);
      deadline := if mine > rest then mine else rest;
      forall k, now | 0 <= k < |queue| && now > deadline ensures VerdictOn(queue[k], behind, now).Skip? {
        if k > 0 {
          assert queue[k] == queue[1..][k - 1];
        }
      }
    }
  }

  lemma LastingIsHolder(queue: seq<PR>, behind: Distances, now: Time)
    requires forall k :: 0 <= k < FirstLasting(queue, behind) ==> VerdictOn(queue[k], behind, now).Skip?
    ensures FirstHolder(queue, behind, now) == FirstLasting(queue, behind)
  {
    hide Judge, WillBeSkipped;
    var p := FirstLasting(queue, behind);
    if p < |queue| {
      EventuallySkippedIff(queue[p], DistanceOf(behind, queue[p].number));
    }
  }

  /**
   With frozen data the train stops waiting at some moment, whatever the queue, iff the first pull request in
   auto-merge order that is not skipped for ever does not hold the queue for ever.
   */
  lemma QueueIsFreedIff(prs: seq<PR>, behind: Distances)
    ensures (exists deadline :: FreeAfter(prs, behind, deadline)) <==> !IsBlocked(Queue(prs), behind)
  {
    var queue := Queue(prs);
    var p := FirstLasting(queue, behind);
    var deadline := AllSkippedAfter(queue[..p], behind);
    forall now | now > deadline ensures Waiting(Choice(prs, behind, now)) <==> IsBlocked(queue, behind) {
      forall k | 0 <= k < p ensures VerdictOn(queue[k], behind, now).Skip? {
        assert queue[k] == queue[..p][k];
      }
      LastingIsHolder(queue, behind, now);
      LastingVerdict(queue, behind, now);
    }
    if !IsBlocked(queue, behind) {
      assert FreeAfter(prs, behind, deadline);
    }
    forall other | FreeAfter(prs, behind, other) ensures !IsBlocked(queue, behind) {
      var now := if other > deadline then other + 1 else deadline + 1;
      assert !Waiting(Choice(prs, behind, now));
    }
  }

  lemma LastingVerdict(queue: seq<PR>, behind: Distances, now: Time)
    ensures var p := FirstLasting(queue, behind);
      p < |queue| ==>
        var v := VerdictOn(queue[p], behind, now);
        if IsBlocked(queue, behind) then Holds(v) else v.Update?
  {
    hide Judge, WillBeSkipped, HoldsForEver;
    var p := FirstLasting(queue, behind);
    if p < |queue| {
      EventuallySkippedIff(queue[p], DistanceOf(behind, queue[p].number));
    }
  }

  // ----- GitHub

  /** A call that reports an error may still have taken effect. */
  datatype Reply = Reply(accepted: bool, applied: bool) {
    predicate TookEffect() { accepted || applied }
  }

  datatype Call = Call(number: int, oid: string, retry: bool)

  /** The bodies GitHub stores, and every update-branch call it received. */
  datatype Remote = Remote(bodies: map<int, string>, calls: seq<Call>)

  function PatchBody(remote: Remote, pr: PR, refused: bool, reply: Reply): Remote {
    if reply.TookEffect() then remote.(bodies := remote.bodies[pr.number := Record(pr.body, pr.latestOid, refused)])
    else remote
  }

  // ----- the run as a transition system

  /** What the world answers during one pass of the loop. */
  datatype Input = Input(now: Time, patch: Reply, updated: bool, refusal: Reply)

  datatype Attempt = Attempt(number: int, at: Time)

  datatype Phase =
    | Deciding | Pushing(number: int, retrying: bool) | Refusing(number: int)
    | Finished(code: int) | Crashed

  datatype Run = Run(prs: seq<PR>, behind: Distances, failed: seq<Attempt>, updated: Option<Attempt>, now: Time,
          phase: Phase)

  function Start(prs: seq<PR>, behind: Distances, now: Time): Run {
    Run(prs, behind, [], None, now, Deciding)
  }

  function NotNumbered(number: int): PR -> bool {
    (pr: PR) => pr.number != number
  }

  /** The first pull request with the number. */
  function Find(prs: seq<PR>, number: int): (pr: PR)
    requires exists p :: p in prs && p.number == number
    ensures pr in prs && pr.number == number
  {
    if prs[0].number == number then prs[0] else Find(prs[1..], number)
  }

  function Drop(run: Run, number: int): Run {
    run.(prs := Select(run.prs, NotNumbered(number)), failed := run.failed + [Attempt(number, run.now)],
        phase := Deciding)
  }

  lemma ChosenIsListed(prs: seq<PR>, behind: Distances, now: Time)
    requires Choice(prs, behind, now).UpdateBranch?
    ensures exists p :: p in prs && p.number == Choice(prs, behind, now).number && VerdictOn(p, behind, now).Update?
  {
    var queue := Queue(prs);
    var h := FirstHolder(queue, behind, now);
    SortMembers(Select(prs, InQueue), EnabledAt);
    assert queue[h] in queue;
  }

  /** From the top of the loop to the update-branch call. */
  function Decide(run: Run, remote: Remote, dryRun: bool, now: Time, patch: Reply): (r: (Run, Remote))
    ensures r.1.calls == remote.calls
    ensures r.0.phase.Deciding? ==> |r.0.prs| < |run.prs|
    ensures r.0.phase.Pushing? ==> r.0.prs == run.prs && exists p :: p in r.0.prs && p.number == r.0.phase.number
  {
    var at := run.(now := now);
    match Choice(run.prs, run.behind, now)
    case Aborted => (at.(phase := Crashed), remote)
    case Idle => (at.(phase := Finished(if run.failed != [] then 1 else 0)), remote)
    case Stuck => (at.(phase := Finished(1)), remote)
    case InFlight(_) => (at.(phase := Finished(0)), remote)
    case UpdateBranch(number) =>
      ChosenIsListed(run.prs, run.behind, now);
      if dryRun then (at.(phase := Finished(0)), remote)
      else
        var pr := Find(run.prs, number);
        if !OldNonMigrationFailure(pr) then (at.(phase := Pushing(number, false)), remote)
        else if patch.accepted then (at.(phase := Pushing(number, true)), PatchBody(remote, pr, false, patch))
        else DropShrinks(run.prs, pr); (Drop(at, number), PatchBody(remote, pr, false, patch))
  }

  /** The update-branch call. */
  function CallBranch(run: Run, remote: Remote, updated: bool): (r: (Run, Remote))
    requires run.phase.Pushing?
    requires exists p :: p in run.prs && p.number == run.phase.number
    ensures r.0.phase.Deciding? ==> |r.0.prs| < |run.prs|
    ensures r.0.phase.Refusing? ==> r.0 == run.(phase := Refusing(run.phase.number))
    ensures !r.0.phase.Pushing?
  {
    var pr := Find(run.prs, run.phase.number);
    var called := remote.(calls := remote.calls + [Call(pr.number, pr.latestOid, run.phase.retrying)]);
    if updated then (run.(updated := Some(Attempt(pr.number, run.now)), phase := Finished(0)), called)
    else if run.phase.retrying then (run.(phase := Refusing(pr.number)), called)
    else DropShrinks(run.prs, pr); (Drop(run, pr.number), called)
  }

  /** Writing the marker of a refused attempt, whether or not that succeeds. */
  function NoteRefusal(run: Run, remote: Remote, refusal: Reply): (r: (Run, Remote))
    requires run.phase.Refusing?
    requires exists p :: p in run.prs && p.number == run.phase.number
    ensures r.0.phase.Deciding? && |r.0.prs| < |run.prs|
    ensures r.1.calls == remote.calls
  {
    var pr := Find(run.prs, run.phase.number);
    DropShrinks(run.prs, pr);
    (Drop(run, pr.number), PatchBody(remote, pr, true, refusal))
  }

  /** The update-branch call and what follows a refusal. */
  function Push(run: Run, remote: Remote, updated: bool, refusal: Reply): (r: (Run, Remote))
    requires run.phase.Pushing?
    requires exists p :: p in run.prs && p.number == run.phase.number
    ensures r.0.phase.Deciding? ==> |r.0.prs| < |run.prs|
    ensures !r.0.phase.Pushing? && !r.0.phase.Refusing?
  {
    var called := CallBranch(run, remote, updated);
    if called.0.phase.Refusing? then NoteRefusal(called.0, called.1, refusal) else called
  }

  /** One pass of the loop. */
  function Iterate(run: Run, remote: Remote, dryRun: bool, input: Input): (r: (Run, Remote))
    ensures r.0.phase.Deciding? ==> |r.0.prs| < |run.prs|
  {
    var decided := Decide(run, remote, dryRun, input.now, input.patch);
    if decided.0.phase.Pushing? then Push(decided.0, decided.1, input.updated, input.refusal) else decided
  }

  function Loop(run: Run, remote: Remote, dryRun: bool, env: nat -> Input, i: nat): (Run, Remote)
    decreases |run.prs|
  {
    var next := Iterate(run, remote, dryRun, env(i));
    if next.0.phase.Deciding? then Loop(next.0, next.1, dryRun, env, i + 1) else next
  }

  lemma {:induction false} DropShrinks(prs: seq<PR>, pr: PR)
    requires pr in prs
    ensures |Select(prs, NotNumbered(pr.number))| < |prs|
  {
    SelectLength(prs[1..], NotNumbered(pr.number));
    if prs[0].number != pr.number {
      DropShrinks(prs[1..], pr);
    }
  }

  lemma SelectLength(prs: seq<PR>, p: PR -> bool)
    ensures |Select(prs, p)| <= |prs|
  {
  }

  // ----- the run as the source writes it

  class GitHub {
    var bodies: map<int, string>
    var calls: seq<Call>

    ghost function State(): Remote
      reads this
    {
      Remote(bodies, calls)
    }

    constructor (bodies: map<int, string>)
      ensures State() == Remote(bodies, [])
    {
      this.bodies := bodies;
      this.calls := [];
    }

    /** `_record_attempt`; false stands for the CalledProcessError. */
    method RecordAttempt(pr: PR, refused: bool, reply: Reply) returns (ok: bool)
      modifies this
      ensures State() == PatchBody(old(State()), pr, refused, reply)
      ensures ok == reply.accepted
    {
      var body := RStrip(RemoveAll(pr.body));
      var marker := MarkerText(Marker(pr.latestOid, refused));
      var updated := if body != "" then body + "\n\n" + marker else marker;
      if reply.TookEffect() {
        bodies := bodies[pr.number := updated];
      }
      ok := reply.accepted;
    }

    method UpdateBranch(pr: PR, retrying: bool, accepted: bool) returns (ok: bool)
      modifies this
      ensures State() == old(State()).(calls := old(calls) + [Call(pr.number, pr.latestOid, retrying)])
      ensures ok == accepted
    {
      calls := calls + [Call(pr.number, pr.latestOid, retrying)];
      ok := accepted;
    }
  }

  datatype Exit = Code(code: int) | Uncaught

  function ExitOf(phase: Phase): Exit {
    if phase.Finished? then Code(phase.code) else Uncaught
  }

  /** What the process reports: Python ends with status 1 after an exception that nobody catches. */
  function Status(exit: Exit): int {
    if exit.Code? then exit.code else 1
  }

  /** The loop of `main` on fetched pull requests. */
  method RunTrain(github: GitHub, prs0: seq<PR>, behind: Distances, dryRun: bool, env: nat -> Input)
    returns (exit: Exit, ghost run: Run)
    modifies github
    ensures (run, github.State()) == Loop(Start(prs0, behind, env(0).now), old(github.State()), dryRun, env, 0)
    ensures exit == ExitOf(run.phase)
  {
    hide Choice, OldNonMigrationFailure, PatchBody, Select;
    var prs := prs0;
    var failed := [];
    ghost var final := Loop(Start(prs0, behind, env(0).now), github.State(), dryRun, env, 0);
    run := Start(prs0, behind, env(0).now);
    var i := 0;
    while true
      invariant run.prs == prs && run.behind == behind && run.failed == failed
      invariant Loop(run, github.State(), dryRun, env, i) == final
      decreases |prs|
    {
      var input := env(i);
      i := i + 1;
      ghost var next := Iterate(run, github.State(), dryRun, input);
      var action, _ := Choose(prs, behind, input.now);
      if action.Aborted? {
        run := next.0;
        return Uncaught, run;
      }
      if !action.UpdateBranch? {
        var problem := action.Stuck? || (action.Idle? && failed != []);
        run := next.0;
        return Code(if problem then 1 else 0), run;
      }
      if dryRun {
        run := next.0;
        return Code(0), run;
      }
      ChosenIsListed(prs, behind, input.now);
      var number := action.number;
      var pr := Find(prs, number);
      var retrying := OldNonMigrationFailure(pr);
      var recorded := true;
      if retrying {
        recorded := github.RecordAttempt(pr, false, input.patch);
      }
      if recorded {
        var updated := github.UpdateBranch(pr, retrying, input.updated);
        if updated {
          run := next.0;
          return Code(0), run;
        }
        if retrying {
          var _ := github.RecordAttempt(pr, true, input.refusal);
        }
      }
      failed := failed + [Attempt(number, input.now)];
      DropShrinks(prs, pr);
      prs := Select(prs, NotNumbered(number));
      run := next.0;
    }
  }
}

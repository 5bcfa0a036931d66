/**
 The verdict of the merge train on one queued pull request (scripts/merge_train.py:41-49, 84-180).
 Times are seconds on one clock. The reasons are the branches of the source, without their wording.
 */
module MergeJudge {
  import opened Text
  import opened AttemptMarker

  type Time = int

  const HUNG_AFTER: int := 2 * 60 * 60
  const STALLED_AFTER: int := 30 * 60

  datatype CheckName = Lint | Test | MigrationOrder | OtherCheck

  datatype Conclusion =
    | Success | Skipped | Neutral
    | Failure | TimedOut | Cancelled | ActionRequired | StartupFailure
    | OtherConclusion | NoConclusion
  {
    predicate IsFailed() { Failure? || TimedOut? || Cancelled? || ActionRequired? || StartupFailure? }
    predicate IsPassed() { Success? || Skipped? || Neutral? }
  }

  datatype Check = Check(name: CheckName, completed: bool, conclusion: Conclusion,
                         startedAt: Option<Time>, completedAt: Option<Time>)

  datatype MergeState = Dirty | Unblocked | Blocked | Behind | Unknown
  datatype Mergeable = Mergeable | Conflicting | Undecided

  datatype PR = PR(number: int, body: string, isDraft: bool, crossRepository: bool, maintainerCanModify: bool,
                   mergeable: Mergeable, mergeState: MergeState, enabledAt: Option<Time>,
                   committedAt: Time, checks: seq<Check>, latestOid: string, latestDate: Option<Time>)

  datatype Reason =
    | MergeConflict | MigrationOrderFailed | BehindUnknown | UpdateRefused | CheckFailed(name: CheckName)
    | CheckHung(name: CheckName) | ChecksNeverStarted | PassedButOpen | ForkNotEditable
    | AttemptPending | ChecksQueued | ChecksPassed | ChecksRunning
    | OldFailure | BehindLatest

  /** `Raises`: the TypeError of parsing a missing completion time, which ends the run. */
  datatype Verdict = Update(reason: Reason) | Wait(reason: Reason) | Skip(reason: Reason) | Raises

  predicate IsRequired(name: CheckName) { !name.OtherCheck? }

  /** The checks that are required, in their order. */
  function Required(checks: seq<Check>): (r: seq<Check>)
    ensures forall c :: c in r <==> c in checks && IsRequired(c.name)
  {
    if checks == [] then []
    else if IsRequired(checks[0].name) then [checks[0]] + Required(checks[1..])
    else Required(checks[1..])
  }

  predicate InConflict(pr: PR) {
    pr.mergeState.Dirty? || pr.mergeable.Conflicting?
  }

  predicate Hung(c: Check, now: Time) {
    !c.completed && c.startedAt.Some? && now - c.startedAt.value > HUNG_AFTER
  }

  function FirstFailed(checks: seq<Check>): (r: Option<CheckName>)
    ensures r.Some? <==> exists c :: c in checks && c.conclusion.IsFailed()
  {
    if checks == [] then None
    else if checks[0].conclusion.IsFailed() then Some(checks[0].name)
    else FirstFailed(checks[1..])
  }

  function FirstHung(checks: seq<Check>, now: Time): (r: Option<CheckName>)
    ensures r.Some? <==> exists c :: c in checks && Hung(c, now)
  {
    if checks == [] then None
    else if Hung(checks[0], now) then Some(checks[0].name)
    else FirstHung(checks[1..], now)
  }

  function FailureReason(pr: PR, now: Time): Option<Reason> {
    var checks := Required(pr.checks);
    if InConflict(pr) then Some(MergeConflict)
    else if FirstFailed(checks).Some? then Some(CheckFailed(FirstFailed(checks).value))
    else if FirstHung(checks, now).Some? then Some(CheckHung(FirstHung(checks, now).value))
    else None
  }

  predicate OldNonMigrationFailure(pr: PR) {
    && pr.latestDate.Some?
    && (exists c :: c in pr.checks && OtherThanMigrationFailed(c))
    && (forall c :: c in pr.checks && OtherThanMigrationFailed(c) ==>
          c.completedAt.Some? && c.completedAt.value < pr.latestDate.value)
  }

  predicate OtherThanMigrationFailed(c: Check) {
    (c.name.Lint? || c.name.Test?) && c.conclusion.IsFailed()
  }

  predicate AllNamesPresent(checks: seq<Check>) {
    && (exists c :: c in checks && c.name.Lint?)
    && (exists c :: c in checks && c.name.Test?)
    && (exists c :: c in checks && c.name.MigrationOrder?)
  }

  predicate AllPassed(checks: seq<Check>) {
    forall c :: c in checks ==> c.completed && c.conclusion.IsPassed()
  }

  predicate AllDated(checks: seq<Check>) {
    forall c :: c in checks ==> c.completedAt.Some?
  }

  function LastCompletion(checks: seq<Check>): (r: Time)
    requires checks != [] && AllDated(checks)
    ensures exists c :: c in checks && c.completedAt == Some(r)
    ensures forall c :: c in checks ==> c.completedAt.value <= r
  {
    assert checks[0] in checks;
    var first := checks[0].completedAt.value;
    if |checks| == 1 then first
    else
      var rest := LastCompletion(checks[1..]);
      if first > rest then first else rest
  }

  function UpToDateVerdict(pr: PR, now: Time): Verdict {
    var checks := Required(pr.checks);
    if !AllNamesPresent(checks) then
      if checks == [] && now - pr.committedAt > STALLED_AFTER then Skip(ChecksNeverStarted)
      else Wait(ChecksQueued)
    else if AllPassed(checks) then
      if !AllDated(checks) then Raises
      else if now - LastCompletion(checks) > STALLED_AFTER then Skip(PassedButOpen)
      else Wait(ChecksPassed)
    else Wait(ChecksRunning)
  }

  predicate MigrationFailed(pr: PR) {
    exists c :: c in pr.checks && c.name.MigrationOrder? && c.conclusion.IsFailed()
  }

  /** The branch that repeats CI for a failure older than latest, at most once per latest commit. */
  function RetryVerdict(pr: PR): Verdict {
    var marker := Search(pr.body);
    if marker.Some? && marker.value.oid == pr.latestOid then
      if marker.value.refused then Skip(UpdateRefused) else Wait(AttemptPending)
    else Update(OldFailure)
  }

  function Judge(pr: PR, behind: Option<int>, now: Time): Verdict {
    if InConflict(pr) then Skip(MergeConflict)
    else if MigrationFailed(pr) then Skip(MigrationOrderFailed)
    else if behind.None? then Skip(BehindUnknown)
    else if behind.value > 0 && OldNonMigrationFailure(pr) then RetryVerdict(pr)
    else
      var reason := FailureReason(pr, now);
      if reason.Some? then Skip(reason.value)
      else if behind.value == 0 then UpToDateVerdict(pr, now)
      else if pr.crossRepository && !pr.maintainerCanModify then Skip(ForkNotEditable)
      else Update(BehindLatest)
  }

  // ----- how verdicts change with time

  /** A pull request that is out of the queue's way stays out of it: nothing but its own data revives it. */
  lemma SkipIsStable(pr: PR, behind: Option<int>, now: Time, later: Time)
    requires Judge(pr, behind, now).Skip? && now <= later
    ensures Judge(pr, behind, later).Skip?
  {
    var checks := Required(pr.checks);
    assert forall c :: Hung(c, now) ==> Hung(c, later);
  }

  /** Why a pull request that contains latest will leave the queue's way if nothing about it changes. */
  predicate WillClear(pr: PR) {
    var checks := Required(pr.checks);
    || InConflict(pr)
    || (exists c :: c in checks && (c.conclusion.IsFailed() || (!c.completed && c.startedAt.Some?)))
    || checks == []
    || (AllNamesPresent(checks) && AllPassed(checks) && AllDated(checks))
  }

  /** The moment after which the pull request no longer holds the queue. */
  function Deadline(pr: PR): Time
    requires WillClear(pr)
  {
    var checks := Required(pr.checks);
    if InConflict(pr) || FirstFailed(checks).Some? then 0
    else if checks == [] then pr.committedAt + STALLED_AFTER
    else if FirstPending(checks).Some? then FirstPending(checks).value + HUNG_AFTER
    else LastCompletion(checks) + STALLED_AFTER
  }

  /** The earliest start among the checks that were started and are not complete. */
  function FirstPending(checks: seq<Check>): (r: Option<Time>)
    ensures r.Some? <==> exists c :: c in checks && !c.completed && c.startedAt.Some?
    ensures r.Some? ==> exists c :: c in checks && !c.completed && c.startedAt == r
    ensures r.Some? ==> forall c :: c in checks && !c.completed && c.startedAt.Some? ==> r.value <= c.startedAt.value
  {
    if checks == [] then None
    else
      var rest := FirstPending(checks[1..]);
      var c := checks[0];
      if c.completed || c.startedAt.None? then rest
      else if rest.Some? && rest.value < c.startedAt.value then rest
      else c.startedAt
  }

  /**
   Bounded waiting, exactly: unchanged data lets the pull request hold the queue until `Deadline`
   and not a moment longer, provided `WillClear`; without it, it is never skipped.
   */
  lemma BoundedWaiting(pr: PR, now: Time)
    ensures WillClear(pr) && now > Deadline(pr) ==> Judge(pr, Some(0), now).Skip?
    ensures WillClear(pr) && !InConflict(pr) && FirstFailed(Required(pr.checks)).None? && now <= Deadline(pr)
        ==> Judge(pr, Some(0), now).Wait?
    ensures !WillClear(pr) ==> Judge(pr, Some(0), now).Wait? || Judge(pr, Some(0), now).Raises?
  {
    var checks := Required(pr.checks);
    if FirstFailed(checks).None? {
      assert !MigrationFailed(pr);
    }
    if WillClear(pr) && !InConflict(pr) && FirstFailed(checks).None? && checks != [] {
      if FirstPending(checks).Some? {
        var c :| c in checks && !c.completed && c.startedAt == FirstPending(checks);
        assert now > Deadline(pr) ==> Hung(c, now);
        assert now <= Deadline(pr) ==> FirstHung(checks, now).None?;
      } else {
        assert FirstHung(checks, now).None?;
      }
    }
    if !WillClear(pr) {
      assert FirstHung(checks, now).None?;
    }
  }

  /** The train waits for this pull request, or its run ends with an exception. */
  predicate Holds(verdict: Verdict) {
    verdict.Wait? || verdict.Raises?
  }

  ghost predicate ReleasedAfter(pr: PR, behind: Option<int>, deadline: Time) {
    forall now :: now > deadline ==> !Holds(Judge(pr, behind, now))
  }

  /**
   The body says that an attempt was made for the latest commit and not that it was refused, and the failure is still
   there.
   */
  predicate AttemptUnresolved(pr: PR, behind: Option<int>) {
    && !InConflict(pr) && !MigrationFailed(pr)
    && behind.Some? && behind.value > 0 && OldNonMigrationFailure(pr)
    && Search(pr.body) == Some(Marker(pr.latestOid, false))
  }

  /** Such a pull request holds the queue at every time, until latest moves or its data change. */
  lemma UnresolvedAttemptWaits(pr: PR, behind: Option<int>, now: Time)
    ensures Judge(pr, behind, now) == Wait(AttemptPending) <==> AttemptUnresolved(pr, behind)
  {
    hide FailureReason;
  }

  /**
   Whatever its distance from latest, a frozen pull request stops holding the queue at some moment iff it does not
   wait for an attempt of an earlier run and, if it contains latest, `WillClear`.
   */
  lemma EventuallyReleasedIff(pr: PR, behind: Option<int>)
    ensures (exists deadline :: ReleasedAfter(pr, behind, deadline))
       <==> (behind == Some(0) ==> WillClear(pr)) && !AttemptUnresolved(pr, behind)
  {
    if behind == Some(0) {
      UpToDateReleasedIff(pr);
    } else {
      forall now ensures Holds(Judge(pr, behind, now)) <==> AttemptUnresolved(pr, behind) {
        UnresolvedAttemptWaits(pr, behind, now);
        NoOtherWaitBehind(pr, behind, now);
      }
      if !AttemptUnresolved(pr, behind) {
        assert ReleasedAfter(pr, behind, 0);
      }
      forall deadline | ReleasedAfter(pr, behind, deadline) ensures !AttemptUnresolved(pr, behind) {
        assert !Holds(Judge(pr, behind, deadline + 1));
      }
    }
  }

  lemma NoOtherWaitBehind(pr: PR, behind: Option<int>, now: Time)
    requires behind != Some(0)
    ensures Holds(Judge(pr, behind, now)) ==> Judge(pr, behind, now) == Wait(AttemptPending)
  {
    hide FailureReason, OldNonMigrationFailure;
  }

  lemma UpToDateReleasedIff(pr: PR)
    ensures (exists deadline :: ReleasedAfter(pr, Some(0), deadline)) <==> WillClear(pr)
  {
    hide Judge, WillClear, Deadline;
    if WillClear(pr) {
      forall now | now > Deadline(pr) ensures !Holds(Judge(pr, Some(0), now)) {
        BoundedWaiting(pr, now);
      }
      assert ReleasedAfter(pr, Some(0), Deadline(pr));
    }
    forall deadline | ReleasedAfter(pr, Some(0), deadline) ensures WillClear(pr) {
      BoundedWaiting(pr, deadline + 1);
      assert !Holds(Judge(pr, Some(0), deadline + 1));
    }
  }

  /** A pull request that will be skipped if nothing about it changes, and from then on for ever. */
  predicate WillBeSkipped(pr: PR, behind: Option<int>) {
    || InConflict(pr) || MigrationFailed(pr) || behind.None?
    || if behind.value > 0 && OldNonMigrationFailure(pr) then Search(pr.body) == Some(Marker(pr.latestOid, true))
       else
         || (exists c :: c in pr.checks && IsRequired(c.name)
                         && (c.conclusion.IsFailed() || (!c.completed && c.startedAt.Some?)))
         || if behind.value == 0 then WillClear(pr) else pr.crossRepository && !pr.maintainerCanModify
  }

  /** One that will not be, and that the train waits for meanwhile. */
  predicate HoldsForEver(pr: PR, behind: Option<int>) {
    !WillBeSkipped(pr, behind) && (behind == Some(0) || AttemptUnresolved(pr, behind))
  }

  ghost predicate SkippedAfter(pr: PR, behind: Option<int>, deadline: Time) {
    forall now :: now > deadline ==> Judge(pr, behind, now).Skip?
  }

  /** The earliest moment is not needed: some moment that is late enough for every started check. */
  function Late(checks: seq<Check>): (t: Time)
    ensures forall c, now :: c in checks && !c.completed && c.startedAt.Some? && now > t ==> Hung(c, now)
  {
    if checks == [] then 0
    else
      var rest := Late(checks[1..]);
      var mine := if checks[0].startedAt.Some? then checks[0].startedAt.value + HUNG_AFTER else rest;
      if mine > rest then mine else rest
  }

  /** Behind latest, or at an unknown distance, `WillBeSkipped` is decided by the checks that will hang. */
  lemma BehindIsSkipped(pr: PR, behind: Option<int>)
    requires behind != Some(0)
    ensures WillBeSkipped(pr, behind) ==> SkippedAfter(pr, behind, Late(Required(pr.checks)))
    ensures !WillBeSkipped(pr, behind) ==> forall now :: !Judge(pr, behind, now).Skip?
  {
    var checks := Required(pr.checks);
    forall now | now > Late(checks) && WillBeSkipped(pr, behind) ensures Judge(pr, behind, now).Skip? {
      if c :| c in checks && (c.conclusion.IsFailed() || (!c.completed && c.startedAt.Some?)) {
        assert c.conclusion.IsFailed() || Hung(c, now);
      }
    }
    if !WillBeSkipped(pr, behind) {
      forall now ensures !Judge(pr, behind, now).Skip? {
        if !(behind.value > 0 && OldNonMigrationFailure(pr)) {
          assert FirstFailed(checks).None? && FirstHung(checks, now).None?;
        }
      }
    }
  }

  lemma UpToDateIsSkipped(pr: PR)
    ensures WillBeSkipped(pr, Some(0)) <==> WillClear(pr)
    ensures WillBeSkipped(pr, Some(0)) ==> exists deadline :: SkippedAfter(pr, Some(0), deadline)
    ensures !WillBeSkipped(pr, Some(0)) ==> forall now :: !Judge(pr, Some(0), now).Skip?
  {
    forall c | c in pr.checks && IsRequired(c.name) ensures c in Required(pr.checks) {
    }
    hide Deadline;
    if WillClear(pr) {
      forall now | now > Deadline(pr) ensures Judge(pr, Some(0), now).Skip? {
        BoundedWaiting(pr, now);
      }
      assert SkippedAfter(pr, Some(0), Deadline(pr));
    } else {
      forall now ensures !Judge(pr, Some(0), now).Skip? {
        BoundedWaiting(pr, now);
      }
    }
  }

  /** Both directions, at every distance; otherwise the pull request holds the queue at every time, or is updated. */
  lemma EventuallySkippedIff(pr: PR, behind: Option<int>)
    ensures WillBeSkipped(pr, behind) <==> exists now :: Judge(pr, behind, now).Skip?
    ensures WillBeSkipped(pr, behind) ==> exists deadline :: SkippedAfter(pr, behind, deadline)
    ensures !WillBeSkipped(pr, behind) ==>
              forall now ::
                if HoldsForEver(pr, behind) then Holds(Judge(pr, behind, now)) else Judge(pr, behind, now).Update?
  {
    hide WillBeSkipped, Judge, Deadline, Late, WillClear, AttemptUnresolved;
    if behind == Some(0) {
      UpToDateIsSkipped(pr);
      forall now | !WillBeSkipped(pr, behind) ensures Holds(Judge(pr, behind, now)) {
        BoundedWaiting(pr, now);
      }
    } else {
      BehindIsSkipped(pr, behind);
      assert WillBeSkipped(pr, behind) ==> SkippedAfter(pr, behind, Late(Required(pr.checks)));
      forall now | !WillBeSkipped(pr, behind)
        ensures if HoldsForEver(pr, behind) then Holds(Judge(pr, behind, now)) else Judge(pr, behind, now).Update?
      {
        UnresolvedAttemptWaits(pr, behind, now);
        NoOtherWaitBehind(pr, behind, now);
      }
    }
    if deadline :| SkippedAfter(pr, behind, deadline) {
      assert Judge(pr, behind, deadline + 1).Skip?;
    }
  }

  // ----- what an update verdict promises

  /**
   The train never refreshes a pull request that conflicts or whose migration-order check failed, and
   never one whose distance from latest is unknown or zero. It repeats a failed check only for failures
   older than latest and only if the body does not name this latest commit.
   */
  lemma UpdateIsSafe(pr: PR, behind: Option<int>, now: Time)
    requires Judge(pr, behind, now).Update?
    ensures !InConflict(pr) && !MigrationFailed(pr)
    ensures behind.Some? && behind.value != 0
    ensures OldNonMigrationFailure(pr) <==> Judge(pr, behind, now).reason.OldFailure?
    ensures OldNonMigrationFailure(pr) ==>
              && behind.value > 0
              && (Search(pr.body).None? || Search(pr.body).value.oid != pr.latestOid)
    ensures forall c :: c in pr.checks && c.name != MigrationOrder && c.conclusion.IsFailed() && IsRequired(c.name) ==>
              pr.latestDate.Some? && c.completedAt.Some? && c.completedAt.value < pr.latestDate.value
    ensures !OldNonMigrationFailure(pr) ==>
              && (pr.crossRepository ==> pr.maintainerCanModify)
              && forall c :: c in pr.checks && IsRequired(c.name) ==> !c.conclusion.IsFailed() && !Hung(c, now)
  {
    var checks := Required(pr.checks);
    if !OldNonMigrationFailure(pr) {
      assert FirstFailed(checks).None? && FirstHung(checks, now).None?;
    }
  }
}

/**
 The verdicts of the merge train in terms of what GitHub reports, each exactly (scripts/merge_train.py:41-49, 84-180),
 and the queue and the choice in terms of the listed pull requests (scripts/merge_train.py:183-210).
 */
module MergeVerdicts {
  import opened Text
  import opened AttemptMarker
  import opened MergeJudge
  import opened StableSort
  import opened Permutations
  import opened MergeTrain

  const REQUIRED := {Lint, Test, MigrationOrder}
  const FAILED := {Failure, TimedOut, Cancelled, ActionRequired, StartupFailure}
  const PASSED := {Success, Skipped, Neutral}
  const TWO_HOURS: int := 7200
  const HALF_HOUR: int := 1800

  // ----- one pull request

  predicate HasConflict(pr: PR) {
    pr.mergeState == Dirty || pr.mergeable == Conflicting
  }

  predicate FailedAmong(pr: PR, names: set<CheckName>) {
    exists c :: c in pr.checks && c.name in names && c.conclusion in FAILED
  }

  /** Behind latest with a failed lint or test check, and all of those failed before latest was committed. */
  predicate FailedBeforeLatest(pr: PR, behind: Option<int>) {
    && behind.Some? && behind.value > 0
    && pr.latestDate.Some?
    && FailedAmong(pr, {Lint, Test})
    && forall c :: c in pr.checks && c.name in {Lint, Test} && c.conclusion in FAILED ==>
         c.completedAt.Some? && c.completedAt.value < pr.latestDate.value
  }

  /** No conflict, no failed migration-order check, and a known distance. */
  predicate Eligible(pr: PR, behind: Option<int>) {
    !HasConflict(pr) && !FailedAmong(pr, {MigrationOrder}) && behind.Some?
  }

  predicate IsFailedCheck(c: Check) {
    c.name in REQUIRED && c.conclusion in FAILED
  }

  predicate IsHungCheck(c: Check, now: Time) {
    c.name in REQUIRED && !c.completed && c.startedAt.Some? && now - c.startedAt.value > TWO_HOURS
  }

  ghost predicate FirstFailedIs(checks: seq<Check>, name: CheckName) {
    exists i :: 0 <= i < |checks| && FailedFirstAt(checks, i, name)
  }

  ghost predicate FailedFirstAt(checks: seq<Check>, i: nat, name: CheckName)
    requires i < |checks|
  {
    checks[i].name == name && IsFailedCheck(checks[i]) && forall j :: 0 <= j < i ==> !IsFailedCheck(checks[j])
  }

  ghost predicate FirstHungIs(checks: seq<Check>, now: Time, name: CheckName) {
    exists i :: 0 <= i < |checks| && HungFirstAt(checks, now, i, name)
  }

  ghost predicate HungFirstAt(checks: seq<Check>, now: Time, i: nat, name: CheckName)
    requires i < |checks|
  {
    checks[i].name == name && IsHungCheck(checks[i], now) && forall j :: 0 <= j < i ==> !IsHungCheck(checks[j], now)
  }

  /** Nothing about the checks parks it. */
  predicate Unparked(pr: PR, behind: Option<int>, now: Time) {
    && Eligible(pr, behind) && !FailedBeforeLatest(pr, behind)
    && forall c :: c in pr.checks ==> !IsFailedCheck(c) && !IsHungCheck(c, now)
  }

  predicate HasAllRequired(pr: PR) {
    forall name :: name in REQUIRED ==> exists c :: c in pr.checks && c.name == name
  }

  predicate RequiredPassed(pr: PR) {
    forall c :: c in pr.checks && c.name in REQUIRED ==> c.completed && c.conclusion in PASSED
  }

  predicate RequiredDated(pr: PR) {
    forall c :: c in pr.checks && c.name in REQUIRED ==> c.completedAt.Some?
  }

  /** Every required check was completed more than half an hour ago. */
  predicate LongPassed(pr: PR, now: Time) {
    forall c :: c in pr.checks && c.name in REQUIRED ==>
      c.completedAt.Some? && now - c.completedAt.value > HALF_HOUR
  }

  predicate NoneRequired(pr: PR) {
    forall c :: c in pr.checks ==> c.name !in REQUIRED
  }

  /** What a verdict says about the data, case by case. */
  ghost predicate Warranted(pr: PR, behind: Option<int>, now: Time, v: Verdict) {
    var marker := Search(pr.body);
    var retry := Eligible(pr, behind) && FailedBeforeLatest(pr, behind);
    var upToDate := Unparked(pr, behind, now) && behind == Some(0);
    var outdated := Unparked(pr, behind, now) && behind != Some(0);
    match v
    case Skip(MergeConflict) => HasConflict(pr)
    case Skip(MigrationOrderFailed) => !HasConflict(pr) && FailedAmong(pr, {MigrationOrder})
    case Skip(BehindUnknown) => !HasConflict(pr) && !FailedAmong(pr, {MigrationOrder}) && behind == None
    case Skip(UpdateRefused) => retry && marker == Some(Marker(pr.latestOid, true))
    case Wait(AttemptPending) => retry && marker == Some(Marker(pr.latestOid, false))
    case Update(OldFailure) => retry && (marker == None || marker.value.oid != pr.latestOid)
    case Skip(CheckFailed(name)) =>
      Eligible(pr, behind) && !FailedBeforeLatest(pr, behind) && FirstFailedIs(pr.checks, name)
    case Skip(CheckHung(name)) =>
      && Eligible(pr, behind) && !FailedBeforeLatest(pr, behind)
      && (forall c :: c in pr.checks ==> !IsFailedCheck(c)) && FirstHungIs(pr.checks, now, name)
    case Skip(ChecksNeverStarted) => upToDate && NoneRequired(pr) && now - pr.committedAt > HALF_HOUR
    case Wait(ChecksQueued) =>
      upToDate && !HasAllRequired(pr) && !(NoneRequired(pr) && now - pr.committedAt > HALF_HOUR)
    case Raises => upToDate && HasAllRequired(pr) && RequiredPassed(pr) && !RequiredDated(pr)
    case Skip(PassedButOpen) => upToDate && HasAllRequired(pr) && RequiredPassed(pr) && LongPassed(pr, now)
    case Wait(ChecksPassed) =>
      upToDate && HasAllRequired(pr) && RequiredPassed(pr) && RequiredDated(pr) && !LongPassed(pr, now)
    case Wait(ChecksRunning) => upToDate && HasAllRequired(pr) && !RequiredPassed(pr)
    case Skip(ForkNotEditable) => outdated && pr.crossRepository && !pr.maintainerCanModify
    case Update(BehindLatest) => outdated && !(pr.crossRepository && !pr.maintainerCanModify)
    case _ => false
  }

  lemma SameFailures(pr: PR, behind: Option<int>)
    ensures forall c: Conclusion :: (c.IsFailed() <==> c in FAILED) && (c.IsPassed() <==> c in PASSED)
    ensures forall n: CheckName :: IsRequired(n) <==> n in REQUIRED
    ensures InConflict(pr) <==> HasConflict(pr)
    ensures MigrationFailed(pr) <==> FailedAmong(pr, {MigrationOrder})
    ensures behind.Some? && behind.value > 0 && OldNonMigrationFailure(pr) <==> FailedBeforeLatest(pr, behind)
  {
    forall c | c in pr.checks
      ensures OtherThanMigrationFailed(c) <==> c.name in {Lint, Test} && c.conclusion in FAILED
    {
    }
  }

  lemma SameFailuresOf(c: Check)
    ensures IsRequired(c.name) && c.conclusion.IsFailed() <==> IsFailedCheck(c)
  {
  }

  lemma FailedStep(checks: seq<Check>)
    requires checks != []
    ensures var rest := FirstFailed(Required(checks[1..]));
      FirstFailed(Required(checks)) == if IsFailedCheck(checks[0]) then Some(checks[0].name) else rest
  {
    SameFailuresOf(checks[0]);
  }

  lemma {:induction false} FirstFailedOf(checks: seq<Check>)
    ensures FirstFailed(Required(checks)).None? ==> forall c :: c in checks ==> !IsFailedCheck(c)
    ensures FirstFailed(Required(checks)).Some? ==> FirstFailedIs(checks, FirstFailed(Required(checks)).value)
  {
    if checks != [] {
      FirstFailedOf(checks[1..]);
      FailedStep(checks);
      hide IsFailedCheck, FirstFailed, Required;
      if IsFailedCheck(checks[0]) {
        assert FailedFirstAt(checks, 0, checks[0].name);
      } else if FirstFailed(Required(checks)).Some? {
        var name := FirstFailed(Required(checks)).value;
        var i :| 0 <= i < |checks| - 1 && FailedFirstAt(checks[1..], i, name);
        assert FailedFirstAt(checks, i + 1, name);
      }
    }
  }

  lemma {:induction false} FirstHungOf(checks: seq<Check>, now: Time)
    ensures FirstHung(Required(checks), now).None? ==> forall c :: c in checks ==> !IsHungCheck(c, now)
    ensures FirstHung(Required(checks), now).Some? ==> FirstHungIs(checks, now, FirstHung(Required(checks), now).value)
  {
    if checks != [] {
      FirstHungOf(checks[1..], now);
      if IsHungCheck(checks[0], now) {
        assert HungFirstAt(checks, now, 0, checks[0].name);
      } else if FirstHung(Required(checks), now).Some? {
        var name := FirstHung(Required(checks), now).value;
        var i :| 0 <= i < |checks| - 1 && HungFirstAt(checks[1..], now, i, name);
        assert HungFirstAt(checks, now, i + 1, name);
      }
    }
  }

  /** An up-to-date pull request, from its required checks alone. */
  lemma UpToDateSays(pr: PR, now: Time)
    ensures Required(pr.checks) == [] <==> NoneRequired(pr)
    ensures AllNamesPresent(Required(pr.checks)) <==> HasAllRequired(pr)
    ensures AllPassed(Required(pr.checks)) <==> RequiredPassed(pr)
    ensures AllDated(Required(pr.checks)) <==> RequiredDated(pr)
    ensures Required(pr.checks) != [] && AllDated(Required(pr.checks)) ==>
              (now - LastCompletion(Required(pr.checks)) > STALLED_AFTER <==> LongPassed(pr, now))
    ensures HasAllRequired(pr) ==> !NoneRequired(pr)
  {
    SameFailures(pr, None);
    var checks := Required(pr.checks);
    assert checks != [] ==> checks[0] in checks;
    assert Lint in REQUIRED && Test in REQUIRED && MigrationOrder in REQUIRED;
    hide Required, LastCompletion;
  }

  lemma JudgeIsWarranted(pr: PR, behind: Option<int>, now: Time)
    ensures Warranted(pr, behind, now, Judge(pr, behind, now))
  {
    SameFailures(pr, behind);
    FirstFailedOf(pr.checks);
    FirstHungOf(pr.checks, now);
    UpToDateSays(pr, now);
    hide HasConflict, FailedAmong, InConflict, MigrationFailed, FailedBeforeLatest, OldNonMigrationFailure, Search,
      FirstFailed, FirstHung, Required, FirstFailedIs, FirstHungIs, AllNamesPresent, AllPassed, AllDated,
      LastCompletion, HasAllRequired, RequiredPassed, RequiredDated, LongPassed, NoneRequired, IsFailedCheck,
      IsHungCheck;
  }

  lemma FirstFailedIsFound(checks: seq<Check>, name: CheckName)
    ensures FirstFailedIs(checks, name) ==> FirstFailed(Required(checks)) == Some(name)
    ensures (forall c :: c in checks ==> !IsFailedCheck(c)) ==> FirstFailed(Required(checks)) == None
  {
    FirstFailedOf(checks);
    hide Required, FirstFailed;
    if FirstFailedIs(checks, name) {
      var i :| 0 <= i < |checks| && FailedFirstAt(checks, i, name);
      assert checks[i] in checks;
      var found := FirstFailed(Required(checks)).value;
      var j :| 0 <= j < |checks| && FailedFirstAt(checks, j, found);
      assert i == j;
    } else if FirstFailed(Required(checks)).Some? {
      var j :| 0 <= j < |checks| && FailedFirstAt(checks, j, FirstFailed(Required(checks)).value);
      assert checks[j] in checks;
    }
  }

  lemma FirstHungIsFound(checks: seq<Check>, now: Time, name: CheckName)
    ensures FirstHungIs(checks, now, name) ==> FirstHung(Required(checks), now) == Some(name)
    ensures (forall c :: c in checks ==> !IsHungCheck(c, now)) ==> FirstHung(Required(checks), now) == None
  {
    FirstHungOf(checks, now);
    hide Required, FirstHung;
    if FirstHungIs(checks, now, name) {
      var i :| 0 <= i < |checks| && HungFirstAt(checks, now, i, name);
      assert checks[i] in checks;
      var found := FirstHung(Required(checks), now).value;
      var j :| 0 <= j < |checks| && HungFirstAt(checks, now, j, found);
      assert i == j;
    } else if FirstHung(Required(checks), now).Some? {
      var j :| 0 <= j < |checks| && HungFirstAt(checks, now, j, FirstHung(Required(checks), now).value);
      assert checks[j] in checks;
    }
  }

  datatype Stage = InTheWay | Retrying | CheckParked | WaitingForMerge | ToUpdate

  /** The part of the source that gives the verdict. */
  function StageOf(v: Verdict): Stage {
    if v.Raises? then WaitingForMerge
    else
      match v.reason
      case MergeConflict => InTheWay
      case MigrationOrderFailed => InTheWay
      case BehindUnknown => InTheWay
      case UpdateRefused => Retrying
      case AttemptPending => Retrying
      case OldFailure => Retrying
      case CheckFailed(_) => CheckParked
      case CheckHung(_) => CheckParked
      case ForkNotEditable => ToUpdate
      case BehindLatest => ToUpdate
      case _ => WaitingForMerge
  }

  ghost predicate StageFits(pr: PR, behind: Option<int>, now: Time, stage: Stage) {
    match stage
    case InTheWay => !Eligible(pr, behind)
    case Retrying => Eligible(pr, behind) && FailedBeforeLatest(pr, behind)
    case CheckParked => Eligible(pr, behind) && !FailedBeforeLatest(pr, behind) && !Unparked(pr, behind, now)
    case WaitingForMerge => Unparked(pr, behind, now) && behind == Some(0)
    case ToUpdate => Unparked(pr, behind, now) && behind != Some(0)
  }

  lemma WarrantedStage(pr: PR, behind: Option<int>, now: Time, v: Verdict)
    requires Warranted(pr, behind, now, v)
    ensures StageFits(pr, behind, now, StageOf(v))
  {
    if v.Skip? && v.reason.CheckFailed? {
      var i :| 0 <= i < |pr.checks| && FailedFirstAt(pr.checks, i, v.reason.name);
      assert pr.checks[i] in pr.checks && IsFailedCheck(pr.checks[i]);
    }
    if v.Skip? && v.reason.CheckHung? {
      var i :| 0 <= i < |pr.checks| && HungFirstAt(pr.checks, now, i, v.reason.name);
      assert pr.checks[i] in pr.checks && IsHungCheck(pr.checks[i], now);
    }
    hide HasConflict, FailedAmong, FailedBeforeLatest, Search, FirstFailedIs, FirstHungIs, HasAllRequired,
      RequiredPassed, RequiredDated, LongPassed, NoneRequired, IsFailedCheck, IsHungCheck;
  }

  lemma OneStage(pr: PR, behind: Option<int>, now: Time, a: Stage, b: Stage)
    requires StageFits(pr, behind, now, a) && StageFits(pr, behind, now, b)
    ensures a == b
  {
    assert Unparked(pr, behind, now) ==> Eligible(pr, behind) && !FailedBeforeLatest(pr, behind);
    hide Unparked, Eligible, FailedBeforeLatest;
  }

  lemma OneParked(pr: PR, behind: Option<int>, now: Time, v: Verdict, w: Verdict)
    requires Warranted(pr, behind, now, v) && Warranted(pr, behind, now, w)
    requires StageOf(v).CheckParked? && StageOf(w).CheckParked?
    ensures v == w
  {
    FirstFailedIsFound(pr.checks, v.reason.name);
    FirstFailedIsFound(pr.checks, w.reason.name);
    FirstHungIsFound(pr.checks, now, v.reason.name);
    FirstHungIsFound(pr.checks, now, w.reason.name);
    hide FirstFailed, FirstHung, Required, FirstFailedIs, FirstHungIs, IsFailedCheck, IsHungCheck, Eligible,
      FailedBeforeLatest, Search, Unparked;
  }

  lemma OneWaiting(pr: PR, behind: Option<int>, now: Time, v: Verdict, w: Verdict)
    requires Warranted(pr, behind, now, v) && Warranted(pr, behind, now, w)
    requires StageOf(v).WaitingForMerge? && StageOf(w).WaitingForMerge?
    ensures v == w
  {
    UpToDateSays(pr, now);
    LongIsDated(pr, now);
    hide Search, HasAllRequired, RequiredPassed, RequiredDated, LongPassed, NoneRequired, Unparked, Eligible,
      FailedBeforeLatest, Required, LastCompletion, AllNamesPresent, AllPassed, AllDated;
  }

  lemma OneIsWarranted(pr: PR, behind: Option<int>, now: Time, v: Verdict, w: Verdict)
    requires Warranted(pr, behind, now, v) && Warranted(pr, behind, now, w)
    ensures v == w
  {
    WarrantedStage(pr, behind, now, v);
    WarrantedStage(pr, behind, now, w);
    OneStage(pr, behind, now, StageOf(v), StageOf(w));
    match StageOf(v)
    case CheckParked => OneParked(pr, behind, now, v, w);
    case WaitingForMerge => OneWaiting(pr, behind, now, v, w);
    case _ => OneOther(pr, behind, now, v, w);
  }

  lemma OneOther(pr: PR, behind: Option<int>, now: Time, v: Verdict, w: Verdict)
    requires Warranted(pr, behind, now, v) && Warranted(pr, behind, now, w)
    requires StageOf(v) == StageOf(w) && (StageOf(v).InTheWay? || StageOf(v).Retrying? || StageOf(v).ToUpdate?)
    ensures v == w
  {
    hide HasConflict, FailedAmong, FailedBeforeLatest, Search, Unparked;
  }

  lemma LongIsDated(pr: PR, now: Time)
    ensures LongPassed(pr, now) ==> RequiredDated(pr)
  {
  }

  /** Every verdict is given exactly when the data warrant it. */
  lemma VerdictIff(pr: PR, behind: Option<int>, now: Time, v: Verdict)
    ensures Judge(pr, behind, now) == v <==> Warranted(pr, behind, now, v)
  {
    hide Judge, Warranted;
    JudgeIsWarranted(pr, behind, now);
    if Warranted(pr, behind, now, v) {
      OneIsWarranted(pr, behind, now, v, Judge(pr, behind, now));
    }
  }

  /** In full: when a failed check is repeated. */
  lemma RetriedIff(pr: PR, behind: Option<int>, now: Time)
    ensures Judge(pr, behind, now) == Update(OldFailure)
       <==> && pr.mergeState != Dirty && pr.mergeable != Conflicting
            && (forall c :: c in pr.checks && c.name == MigrationOrder ==> c.conclusion !in FAILED)
            && behind.Some? && behind.value > 0 && pr.latestDate.Some?
            && (exists c :: c in pr.checks && c.name in {Lint, Test} && c.conclusion in FAILED)
            && (forall c :: c in pr.checks && c.name in {Lint, Test} && c.conclusion in FAILED ==>
                  c.completedAt.Some? && c.completedAt.value < pr.latestDate.value)
            && !(Search(pr.body).Some? && Search(pr.body).value.oid == pr.latestOid)
  {
    VerdictIff(pr, behind, now, Update(OldFailure));
    hide Judge, Search;
  }

  /** A branch whose lint or test check failed on the latest commit, or after it, is not refreshed. */
  lemma FreshFailureIsNotUpdated(pr: PR, behind: Option<int>, now: Time, c: Check)
    requires c in pr.checks && c.name in {Lint, Test} && c.conclusion in FAILED
    requires pr.latestDate.Some? && c.completedAt.Some? ==> c.completedAt.value >= pr.latestDate.value
    ensures !Judge(pr, behind, now).Update?
  {
    var v := Judge(pr, behind, now);
    VerdictIff(pr, behind, now, v);
    assert IsFailedCheck(c) && !FailedBeforeLatest(pr, behind);
    hide Judge, Search;
  }

  // ----- the queue

  function EnabledOn(prs: seq<PR>, t: Time): seq<PR> {
    if prs == [] then []
    else if !prs[0].isDraft && prs[0].enabledAt == Some(t) then [prs[0]] + EnabledOn(prs[1..], t)
    else EnabledOn(prs[1..], t)
  }

  lemma {:induction false} EnabledOnIsWithKey(prs: seq<PR>, t: Time)
    ensures EnabledOn(prs, t) == WithKey(Select(prs, InQueue), EnabledAt, t)
  {
    if prs != [] {
      var h, rest := prs[0], prs[1..];
      assert prs == [h] + rest;
      EnabledOnIsWithKey(rest, t);
      SelectCons(h, rest, InQueue);
      if InQueue(h) {
        WithKeyCons(h, Select(rest, InQueue), EnabledAt, t);
      }
      hide Select, WithKey;
    }
  }

  lemma {:induction false} AllQueued(prs: seq<PR>)
    requires forall p :: p in prs ==> !p.isDraft && p.enabledAt.Some?
    ensures Select(prs, InQueue) == prs
  {
    if prs != [] {
      assert prs[0] in prs;
      AllQueued(prs[1..]);
    }
  }

  lemma QueueMembers(prs: seq<PR>)
    ensures forall p :: p in Queue(prs) <==> p in prs && !p.isDraft && p.enabledAt.Some?
    ensures |Queue(prs)| == |Select(prs, InQueue)|
  {
    SortMembers(Select(prs, InQueue), EnabledAt);
    SortPermutes(Select(prs, InQueue), EnabledAt);
    hide Sort;
  }

  lemma QueueCount(prs: seq<PR>, p: PR)
    ensures multiset(Queue(prs))[p] == if !p.isDraft && p.enabledAt.Some? then multiset(prs)[p] else 0
  {
    SortPermutes(Select(prs, InQueue), EnabledAt);
    SelectCount(prs, InQueue, p);
    hide Sort, Select;
  }

  /**
   Auto-merge order: the queue holds the pull requests that are not drafts and have auto-merge on, as often as they
   are listed; who switched it on earlier comes first, and equal times keep the order in which they were fetched.
   */
  lemma QueueIsByTime(prs: seq<PR>)
    ensures forall p :: multiset(Queue(prs))[p] == if !p.isDraft && p.enabledAt.Some? then multiset(prs)[p] else 0
    ensures forall i, j :: 0 <= i < j < |Queue(prs)| ==>
              && Queue(prs)[i].enabledAt.Some? && Queue(prs)[j].enabledAt.Some?
              && Queue(prs)[i].enabledAt.value <= Queue(prs)[j].enabledAt.value
    ensures forall t :: EnabledOn(Queue(prs), t) == EnabledOn(prs, t)
  {
    forall p: PR ensures multiset(Queue(prs))[p] == if !p.isDraft && p.enabledAt.Some? then multiset(prs)[p] else 0 {
      QueueCount(prs, p);
    }
    QueueMembers(prs);
    SortSorted(Select(prs, InQueue), EnabledAt);
    var queue := Queue(prs);
    hide Queue, Sort, Select;
    assert queue == Sort(Select(prs, InQueue), EnabledAt) by { QueueIsSort(prs); }
    forall i, j | 0 <= i < j < |queue|
      ensures queue[i].enabledAt.Some? && queue[j].enabledAt.Some?
      ensures queue[i].enabledAt.value <= queue[j].enabledAt.value
    {
      assert queue[i] in queue && queue[j] in queue;
      assert EnabledAt(queue[i]) <= EnabledAt(queue[j]);
    }
    forall t: Time ensures EnabledOn(queue, t) == EnabledOn(prs, t) {
      EnabledOnIsWithKey(queue, t);
      EnabledOnIsWithKey(prs, t);
      AllQueued(queue);
      SortStable(Select(prs, InQueue), EnabledAt, t);
    }
  }

  lemma QueueIsSort(prs: seq<PR>)
    ensures Queue(prs) == Sort(Select(prs, InQueue), EnabledAt)
  {
  }

  // ----- the choice

  predicate Queued(p: PR) {
    !p.isDraft && p.enabledAt.Some?
  }

  ghost predicate FirstOfThose(prs: seq<PR>, behind: Distances, now: Time, p: PR) {
    && p in prs && Queued(p)
    && !VerdictOn(p, behind, now).Skip?
    && forall q :: q in prs && Queued(q) && q.enabledAt.value < p.enabledAt.value ==> VerdictOn(q, behind, now).Skip?
  }

  lemma HolderSays(prs: seq<PR>, behind: Distances, now: Time)
    requires FirstHolder(Queue(prs), behind, now) < |Queue(prs)|
    ensures FirstOfThose(prs, behind, now, Queue(prs)[FirstHolder(Queue(prs), behind, now)])
  {
    QueueMembers(prs);
    QueueIsByTime(prs);
    var queue := Queue(prs);
    var h := FirstHolder(queue, behind, now);
    hide Queue, EnabledOn, VerdictOn, FirstHolder;
    assert queue[h] in queue;
    forall q | q in prs && Queued(q) && q.enabledAt.value < queue[h].enabledAt.value
      ensures VerdictOn(q, behind, now).Skip?
    {
      EarlierIsBefore(queue, h, q);
    }
  }

  lemma EarlierIsBefore(queue: seq<PR>, h: nat, q: PR)
    requires h < |queue| && q in queue && queue[h].enabledAt.Some? && q.enabledAt.Some?
    requires forall i, j :: 0 <= i < j < |queue| ==>
               && queue[i].enabledAt.Some? && queue[j].enabledAt.Some?
               && queue[i].enabledAt.value <= queue[j].enabledAt.value
    requires q.enabledAt.value < queue[h].enabledAt.value
    ensures exists k :: 0 <= k < h && queue[k] == q
  {
    var k :| 0 <= k < |queue| && queue[k] == q;
  }

  lemma NobodySays(prs: seq<PR>, behind: Distances, now: Time)
    requires FirstHolder(Queue(prs), behind, now) == |Queue(prs)|
    ensures forall q :: q in prs && Queued(q) ==> VerdictOn(q, behind, now).Skip?
    ensures Queue(prs) == [] <==> forall q :: q in prs ==> !Queued(q)
  {
    QueueMembers(prs);
    var queue := Queue(prs);
    hide Queue, VerdictOn, FirstHolder;
    assert queue != [] ==> queue[0] in queue;
    forall q | q in prs && Queued(q) ensures VerdictOn(q, behind, now).Skip? {
      assert q in queue;
      var k :| 0 <= k < |queue| && queue[k] == q;
    }
  }

  /**
   What the choice says about the listed pull requests. It is made on one that is not skipped, while all for which
   auto-merge was switched on earlier are; nothing is queued when it is idle, and all are skipped when it is stuck.
   */
  lemma ChoiceSays(prs: seq<PR>, behind: Distances, now: Time)
    ensures match Choice(prs, behind, now)
      case UpdateBranch(number) =>
        exists p :: FirstOfThose(prs, behind, now, p) && p.number == number && VerdictOn(p, behind, now).Update?
      case InFlight(number) =>
        exists p :: FirstOfThose(prs, behind, now, p) && p.number == number && VerdictOn(p, behind, now).Wait?
      case Aborted => exists p :: FirstOfThose(prs, behind, now, p) && VerdictOn(p, behind, now).Raises?
      case Idle => forall p :: p in prs ==> !Queued(p)
      case Stuck =>
        && (exists p :: p in prs && Queued(p))
        && forall p :: p in prs && Queued(p) ==> VerdictOn(p, behind, now).Skip?
  {
    var h := FirstHolder(Queue(prs), behind, now);
    hide Queue, VerdictOn, FirstHolder, FirstOfThose;
    if h < |Queue(prs)| {
      HolderSays(prs, behind, now);
      assert !VerdictOn(Queue(prs)[h], behind, now).Skip?;
    } else {
      NobodySays(prs, behind, now);
    }
  }

  /**
   What the notes say, in auto-merge order: why each pull request before the chosen one is skipped, the verdict on the
   chosen one, and behind which number every later one waits; without a chosen one, why each is skipped.
   */
  lemma NotesSay(prs: seq<PR>, behind: Distances, now: Time, k: nat)
    requires k < |Queue(prs)|
    ensures var queue := Queue(prs);
      var h := FirstHolder(queue, behind, now);
      match NoteFor(queue, h, k, behind, now)
      case PassedOver(number, reason) =>
        number == queue[k].number && VerdictOn(queue[k], behind, now) == Skip(reason)
        && forall j :: 0 <= j < k ==> VerdictOn(queue[j], behind, now).Skip?
      case Decided(number, verdict) =>
        number == queue[k].number && VerdictOn(queue[k], behind, now) == verdict && !verdict.Skip?
        && forall j :: 0 <= j < k ==> VerdictOn(queue[j], behind, now).Skip?
      case QueuedBehind(number, ahead) =>
        number == queue[k].number
        && exists j :: 0 <= j < k && queue[j].number == ahead && !VerdictOn(queue[j], behind, now).Skip?
  {
    hide Queue, VerdictOn;
  }

  /** A dry run makes the choice once, changes nothing, and fails iff nothing can advance or the choice raises. */
  lemma DryRunReport(prs: seq<PR>, behind: Distances, remote: Remote, env: nat -> Input)
    ensures var (end, after) := Loop(Start(prs, behind, env(0).now), remote, true, env, 0);
      var choice := Choice(prs, behind, env(0).now);
      && after == remote && end.updated == None && end.failed == []
      && (Status(ExitOf(end.phase)) == 1 <==> choice.Stuck? || choice.Aborted?)
      && (Status(ExitOf(end.phase)) == 0 <==> choice.Idle? || choice.InFlight? || choice.UpdateBranch?)
  {
    hide Choice;
    var run := Start(prs, behind, env(0).now);
    var next := Iterate(run, remote, true, env(0));
    assert !next.0.phase.Deciding?;
  }
}

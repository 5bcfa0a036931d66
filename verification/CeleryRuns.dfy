/** What every reachable state of the two-slot worker satisfies. */
module CeleryRuns {
  import opened CeleryWorker

  // ----- one attempt

  predicate Ordered(job: Job, p: Progress) {
    && (p.sent ==> p.announced)
    && (p.published ==> p.sent)
    && (p.started ==> p.sent)
    && (p.pushed ==> p.started && job.barrier)
    && (p.passed ==> p.pushed)
    && (p.made > 0 || p.signalled || p.ended ==> p.started && (job.barrier ==> p.passed))
    && p.made <= job.calls
    && (p.signalled || p.ended ==> p.made == job.calls)
  }

  /** A retry is published after the requests of the first attempt and before it ends. */
  ghost predicate RetryLinked(plan: Plan, st: State, k: Key)
    requires Consistent(plan, st) && Expected(plan, k) && Retries(plan, k)
  {
    var first, second := st.progress[k], st.progress[Key(k.job, 1)];
    && (second.announced ==> first.started && PastBarrier(plan, k, first) && first.made == JobOf(plan, k).calls)
    && (first.signalled ==> second.published)
    && (first.ended ==> first.signalled)
  }

  ghost predicate AttemptsInvariant(plan: Plan, st: State)
    requires Consistent(plan, st)
  {
    && (forall k :: k in st.progress ==> Ordered(JobOf(plan, k), st.progress[k]))
    && (forall k :: k in st.progress && Retries(plan, k) ==> RetryLinked(plan, st, k))
    && (forall k :: k in st.progress && st.progress[k].signalled ==> Retries(plan, k))
  }

  // ----- slots, barrier and time

  ghost predicate BarrierInvariant(plan: Plan, st: State)
    requires Consistent(plan, st)
  {
    && (forall k :: k in st.barrier <==> k in st.progress && st.progress[k].pushed)
    && (forall i, j :: 0 <= i < j < |st.barrier| ==> st.barrier[i] != st.barrier[j])
    && (forall k :: k in st.progress && st.progress[k].passed ==> |st.barrier| >= 2)
  }

  ghost predicate TimesInvariant(plan: Plan, st: State)
    requires Consistent(plan, st)
  {
    && (forall k :: k in st.progress && st.progress[k].started ==> st.progress[k].startAt <= st.now)
    && (forall k :: k in st.progress && st.progress[k].ended ==>
          st.progress[k].startAt <= st.progress[k].endAt <= st.now)
  }

  /** An attempt that went through the barrier and made a request is later than the start of either opener. */
  ghost predicate OpenedBefore(plan: Plan, st: State, opener: Key)
    requires Consistent(plan, st)
  {
    && opener in st.progress
    && forall k :: k in st.progress && JobOf(plan, k).barrier && st.progress[k].made > 0 ==>
         && st.progress[opener].startAt < st.now
         && (st.progress[k].ended ==> st.progress[opener].startAt < st.progress[k].endAt)
  }

  ghost predicate OverlapInvariant(plan: Plan, st: State)
    requires Consistent(plan, st)
  {
    |st.barrier| >= 2 ==> OpenedBefore(plan, st, st.barrier[0]) && OpenedBefore(plan, st, st.barrier[1])
  }

  /** The intervals of two attempts intersect with positive length, or still may. */
  predicate MayOverlap(a: Progress, b: Progress) {
    && a.started && b.started
    && (a.ended ==> b.startAt < a.endAt)
    && (b.ended ==> a.startAt < b.endAt)
  }

  /** Attempts that share time are on different slots; in particular those that run at present are. */
  ghost predicate SlotsInvariant(plan: Plan, st: State)
    requires Consistent(plan, st)
  {
    forall a, b :: a in st.progress && b in st.progress && a != b && MayOverlap(st.progress[a], st.progress[b])
      ==> st.progress[a].slot != st.progress[b].slot
  }

  ghost predicate Invariant(plan: Plan, st: State) {
    && Consistent(plan, st)
    && AttemptsInvariant(plan, st)
    && SlotsInvariant(plan, st)
    && BarrierInvariant(plan, st)
    && TimesInvariant(plan, st)
    && OverlapInvariant(plan, st)
  }

  // ----- every step keeps each part

  lemma StepKeepsAttempts(plan: Plan, st: State, step: Step, elapsed: nat)
    requires Consistent(plan, st) && AttemptsInvariant(plan, st) && Enabled(plan, st, step)
    ensures Consistent(plan, Apply(plan, st, step, elapsed)) && AttemptsInvariant(plan, Apply(plan, st, step, elapsed))
  {
    var next := Apply(plan, st, step, elapsed);
    forall k | k in next.progress && Retries(plan, k) ensures RetryLinked(plan, next, k) {
      assert RetryLinked(plan, st, k);
    }
  }

  lemma StepKeepsBarrier(plan: Plan, st: State, step: Step, elapsed: nat)
    requires Consistent(plan, st) && BarrierInvariant(plan, st) && Enabled(plan, st, step)
    ensures Consistent(plan, Apply(plan, st, step, elapsed)) && BarrierInvariant(plan, Apply(plan, st, step, elapsed))
  {
  }

  lemma StepKeepsTimes(plan: Plan, st: State, step: Step, elapsed: nat)
    requires Consistent(plan, st) && AttemptsInvariant(plan, st) && TimesInvariant(plan, st) && Enabled(plan, st, step)
    ensures Consistent(plan, Apply(plan, st, step, elapsed)) && TimesInvariant(plan, Apply(plan, st, step, elapsed))
  {
    ApplyConsistent(plan, st, step, elapsed);
    forall k | k in st.progress
      ensures var p, now := Apply(plan, st, step, elapsed).progress[k], Apply(plan, st, step, elapsed).now;
        (p.started ==> p.startAt <= now) && (p.ended ==> p.startAt <= p.endAt <= now)
    {
      assert Ordered(JobOf(plan, k), st.progress[k]);
    }
  }

  lemma OpenerKept(plan: Plan, st: State, step: Step, elapsed: nat, opener: Key)
    requires Consistent(plan, st) && AttemptsInvariant(plan, st) && BarrierInvariant(plan, st)
        && TimesInvariant(plan, st)
    requires Enabled(plan, st, step)
    requires |st.barrier| >= 2 ==> OpenedBefore(plan, st, opener)
    requires opener in st.progress && (st.progress[opener].pushed || step == Push(opener))
    ensures Consistent(plan, Apply(plan, st, step, elapsed))
        && OpenedBefore(plan, Apply(plan, st, step, elapsed), opener)
  {
    var next := Apply(plan, st, step, elapsed);
    assert next.progress[opener].startAt == st.progress[opener].startAt;
    forall k | k in next.progress && JobOf(plan, k).barrier && next.progress[k].made > 0
      ensures next.progress[opener].startAt < next.now
      ensures next.progress[k].ended ==> next.progress[opener].startAt < next.progress[k].endAt
    {
      assert next.progress[k].passed == st.progress[k].passed || step == Pass(k);
    }
  }

  lemma BarrierGrows(plan: Plan, st: State, step: Step, elapsed: nat, i: nat)
    requires Consistent(plan, st) && BarrierInvariant(plan, st) && Enabled(plan, st, step)
    requires i < 2 <= |Apply(plan, st, step, elapsed).barrier|
    ensures var opener := Apply(plan, st, step, elapsed).barrier[i];
      && opener in st.progress
      && (st.progress[opener].pushed || step == Push(opener))
      && (|st.barrier| >= 2 ==> opener == st.barrier[i])
  {
    if i < |st.barrier| {
      assert st.barrier[i] in st.barrier;
    }
  }

  lemma OpenerStays(plan: Plan, st: State, step: Step, elapsed: nat, i: nat)
    requires Consistent(plan, st) && AttemptsInvariant(plan, st) && BarrierInvariant(plan, st)
        && TimesInvariant(plan, st)
    requires OverlapInvariant(plan, st) && Enabled(plan, st, step)
    requires i < 2 <= |Apply(plan, st, step, elapsed).barrier|
    ensures Consistent(plan, Apply(plan, st, step, elapsed))
    ensures OpenedBefore(plan, Apply(plan, st, step, elapsed), Apply(plan, st, step, elapsed).barrier[i])
  {
    hide Enabled, Apply, OpenedBefore, AttemptsInvariant, BarrierInvariant, TimesInvariant;
    BarrierGrows(plan, st, step, elapsed, i);
    OpenerKept(plan, st, step, elapsed, Apply(plan, st, step, elapsed).barrier[i]);
  }

  lemma StepKeepsOverlap(plan: Plan, st: State, step: Step, elapsed: nat)
    requires Invariant(plan, st) && Enabled(plan, st, step)
    ensures Consistent(plan, Apply(plan, st, step, elapsed)) && OverlapInvariant(plan, Apply(plan, st, step, elapsed))
  {
    ApplyConsistent(plan, st, step, elapsed);
    hide Enabled, Apply, OpenedBefore, AttemptsInvariant, BarrierInvariant, TimesInvariant, SlotsInvariant;
    if |Apply(plan, st, step, elapsed).barrier| >= 2 {
      OpenerStays(plan, st, step, elapsed, 0);
      OpenerStays(plan, st, step, elapsed, 1);
    }
  }

  /** A step changes whether two attempts may overlap only by starting one of them. */
  lemma OverlapShrinks(plan: Plan, st: State, step: Step, elapsed: nat, a: Key, b: Key)
    requires Consistent(plan, st) && AttemptsInvariant(plan, st) && TimesInvariant(plan, st) && Enabled(plan, st, step)
    requires a in st.progress && b in st.progress && a != b
    ensures var next := Apply(plan, st, step, elapsed);
      MayOverlap(next.progress[a], next.progress[b]) ==>
        || MayOverlap(st.progress[a], st.progress[b])
        || (step.Begin? && step.k == a && Running(st.progress[b]))
        || (step.Begin? && step.k == b && Running(st.progress[a]))
  {
  }

  lemma PairKeepsSlots(plan: Plan, st: State, step: Step, elapsed: nat, a: Key, b: Key)
    requires Consistent(plan, st) && AttemptsInvariant(plan, st) && TimesInvariant(plan, st)
    requires SlotsInvariant(plan, st) && Enabled(plan, st, step)
    requires a in st.progress && b in st.progress && a != b
    ensures var next := Apply(plan, st, step, elapsed);
      MayOverlap(next.progress[a], next.progress[b]) ==> next.progress[a].slot != next.progress[b].slot
  {
    OverlapShrinks(plan, st, step, elapsed, a, b);
    assert step.Begin? ==> SlotFree(st, step.slot);
  }

  lemma StepKeepsSlots(plan: Plan, st: State, step: Step, elapsed: nat)
    requires Consistent(plan, st) && AttemptsInvariant(plan, st) && TimesInvariant(plan, st)
    requires SlotsInvariant(plan, st) && Enabled(plan, st, step)
    ensures Consistent(plan, Apply(plan, st, step, elapsed)) && SlotsInvariant(plan, Apply(plan, st, step, elapsed))
  {
    var next := Apply(plan, st, step, elapsed);
    ApplyConsistent(plan, st, step, elapsed);
    forall a, b | a in next.progress && b in next.progress && a != b && MayOverlap(next.progress[a], next.progress[b])
      ensures next.progress[a].slot != next.progress[b].slot
    {
      PairKeepsSlots(plan, st, step, elapsed, a, b);
    }
  }

  /** Two slots: no three attempts share time pairwise. */
  lemma NoTripleOverlap(plan: Plan, st: State, a: Key, b: Key, c: Key)
    requires Invariant(plan, st) && a in st.progress && b in st.progress && c in st.progress
    requires a != b && b != c && a != c
    ensures !(MayOverlap(st.progress[a], st.progress[b])
              && MayOverlap(st.progress[b], st.progress[c])
              && MayOverlap(st.progress[a], st.progress[c]))
  {
  }

  lemma StepKeeps(plan: Plan, st: State, step: Step, elapsed: nat)
    requires Invariant(plan, st) && Enabled(plan, st, step)
    ensures Invariant(plan, Apply(plan, st, step, elapsed))
  {
    StepKeepsAttempts(plan, st, step, elapsed);
    StepKeepsSlots(plan, st, step, elapsed);
    StepKeepsBarrier(plan, st, step, elapsed);
    StepKeepsTimes(plan, st, step, elapsed);
    StepKeepsOverlap(plan, st, step, elapsed);
  }

  lemma InitialHolds(plan: Plan)
    ensures Invariant(plan, Initial(plan))
  {
  }

  lemma {:induction false} RunKeeps(plan: Plan, st: State, schedule: Schedule)
    requires Invariant(plan, st) && Feasible(plan, st, schedule)
    ensures Invariant(plan, Run(plan, st, schedule))
    decreases |schedule|
  {
    if schedule != [] {
      StepKeeps(plan, st, schedule[0].0, schedule[0].1);
      RunKeeps(plan, Apply(plan, st, schedule[0].0, schedule[0].1), schedule[1..]);
    }
  }
}

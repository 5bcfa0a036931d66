/**
 The two-slot worker always gets every job done, in a number of steps fixed by the plan, unless the plan
 has exactly one barrier job (scripts/benchmark_celery.py:198-213, 345-371).
 */
module CeleryProgress {
  import opened CeleryWorker
  import opened CeleryRuns

  /** A barrier that nobody else will come to. */
  ghost predicate LoneBarrier(plan: Plan) {
    exists j :: 0 <= j < |plan| && OnlyBarrier(plan, j)
  }

  predicate OnlyBarrier(plan: Plan, j: nat)
    requires j < |plan|
  {
    plan[j].barrier && forall i :: 0 <= i < |plan| && i != j ==> !plan[i].barrier
  }

  ghost predicate CanStep(plan: Plan, st: State)
    requires Consistent(plan, st)
  {
    exists step :: Enabled(plan, st, step)
  }

  // ----- never stuck

  /** The producer can go on as long as a job is not sent. */
  lemma ProducerGoesOn(plan: Plan, st: State, j: nat)
    requires Invariant(plan, st) && j < |plan| && !st.progress[Key(j, 0)].sent
    ensures CanStep(plan, st)
  {
    var i := 0;
    while st.progress[Key(i, 0)].published
      invariant i <= j
      invariant forall h :: 0 <= h < i ==> st.progress[Key(h, 0)].published
      decreases j - i
    {
      i := i + 1;
    }
    var k := Key(i, 0);
    var p := st.progress[k];
    if !p.announced {
      assert Enabled(plan, st, Announce(k));
    } else if !p.sent {
      assert Enabled(plan, st, Send(k));
    } else {
      assert Enabled(plan, st, Publish(k));
    }
  }

  predicate Waits(plan: Plan, st: State, k: Key)
    requires Expected(plan, k) && k in st.progress
  {
    var p := st.progress[k];
    Running(p) && JobOf(plan, k).barrier && p.pushed && !p.passed && |st.barrier| < 2
  }

  /** A running attempt can go on unless it waits at the barrier. */
  lemma RunningGoesOn(plan: Plan, st: State, k: Key)
    requires Invariant(plan, st) && k in st.progress && Running(st.progress[k]) && !Waits(plan, st, k)
    ensures CanStep(plan, st)
  {
    var p, job := st.progress[k], JobOf(plan, k);
    if job.barrier && !p.pushed {
      assert Enabled(plan, st, Push(k));
    } else if job.barrier && !p.passed {
      assert Enabled(plan, st, Pass(k));
    } else if p.made < job.calls {
      assert Enabled(plan, st, Request(k));
    } else if Retries(plan, k) && !p.signalled {
      var second := Key(k.job, 1);
      var q := st.progress[second];
      if !q.announced {
        assert Enabled(plan, st, Announce(second));
      } else if !q.sent {
        assert Enabled(plan, st, Send(second));
      } else if !q.published {
        assert Enabled(plan, st, Publish(second));
      } else {
        assert Enabled(plan, st, Signal(k));
      }
    } else {
      assert Enabled(plan, st, Finish(k));
    }
  }

  lemma TwoPushed(plan: Plan, st: State, a: Key, b: Key)
    requires Invariant(plan, st) && a in st.progress && b in st.progress && a != b
    ensures st.progress[a].pushed && st.progress[b].pushed ==> |st.barrier| >= 2
  {
    assert st.progress[a].pushed ==> a in st.barrier;
    assert st.progress[b].pushed ==> b in st.barrier;
  }

  /** When one attempt waits at the barrier, no other one does, so a job that was sent can be taken. */
  lemma OthersGoOn(plan: Plan, st: State, waiting: Key, k: Key)
    requires Invariant(plan, st)
    requires waiting in st.progress && Waits(plan, st, waiting)
    requires k in st.progress && k != waiting && !st.progress[k].started && st.progress[k].sent
    ensures CanStep(plan, st)
  {
    if other :| other in st.progress && other != waiting && Running(st.progress[other]) {
      TwoPushed(plan, st, waiting, other);
      RunningGoesOn(plan, st, other);
    } else {
      var slot := if st.progress[waiting].slot.Left? then Right else Left;
      assert SlotFree(st, slot);
      assert Enabled(plan, st, Begin(k, slot));
    }
  }

  lemma WaitingGoesOn(plan: Plan, st: State, waiting: Key)
    requires Invariant(plan, st) && !LoneBarrier(plan)
    requires waiting in st.progress && Waits(plan, st, waiting)
    ensures CanStep(plan, st)
  {
    assert !OnlyBarrier(plan, waiting.job);
    var j :| 0 <= j < |plan| && j != waiting.job && plan[j].barrier;
    var k := Key(j, 0);
    TwoPushed(plan, st, waiting, k);
    if st.progress[k].started {
      RunningGoesOn(plan, st, k);
    } else if st.progress[k].sent {
      OthersGoOn(plan, st, waiting, k);
    } else {
      ProducerGoesOn(plan, st, j);
    }
  }

  lemma IdleGoesOn(plan: Plan, st: State)
    requires Invariant(plan, st) && !Complete(plan, st)
    requires forall k :: k in st.progress ==> !Running(st.progress[k])
    ensures CanStep(plan, st)
  {
    var k :| k in st.progress && !(st.progress[k].published && st.progress[k].ended);
    var p := st.progress[k];
    if p.sent && !p.started {
      assert SlotFree(st, Left);
      assert Enabled(plan, st, Begin(k, Left));
    } else if p.sent {
      assert Enabled(plan, st, Publish(k));
    } else if k.attempt == 0 {
      ProducerGoesOn(plan, st, k.job);
    } else {
      var first := Key(k.job, 0);
      assert RetryLinked(plan, st, first);
      if st.progress[first].sent {
        assert SlotFree(st, Left);
        assert Enabled(plan, st, Begin(first, Left));
      } else {
        ProducerGoesOn(plan, st, k.job);
      }
    }
  }

  /** Unless its only barrier job waits for nobody, a worker that is not done can take a step. */
  lemma NeverStuck(plan: Plan, st: State)
    requires Invariant(plan, st) && !Complete(plan, st) && !LoneBarrier(plan)
    ensures CanStep(plan, st)
  {
    if k :| k in st.progress && Running(st.progress[k]) {
      if Waits(plan, st, k) {
        WaitingGoesOn(plan, st, k);
      } else {
        RunningGoesOn(plan, st, k);
      }
    } else {
      IdleGoesOn(plan, st);
    }
  }

  // ----- a single barrier job

  /** The only barrier attempt that can be reached is the first one, and it waits for ever. */
  ghost predicate LoneInvariant(plan: Plan, st: State, j: nat)
    requires Consistent(plan, st)
  {
    && (st.barrier == [] || st.barrier == [Key(j, 0)])
    && (forall k :: k in st.progress && k.job == j ==> !st.progress[k].passed)
  }

  lemma StepKeepsLone(plan: Plan, st: State, step: Step, elapsed: nat, j: nat)
    requires Invariant(plan, st) && Enabled(plan, st, step)
    requires j < |plan| && OnlyBarrier(plan, j) && LoneInvariant(plan, st, j)
    ensures Consistent(plan, Apply(plan, st, step, elapsed)) && LoneInvariant(plan, Apply(plan, st, step, elapsed), j)
  {
    ApplyConsistent(plan, st, step, elapsed);
    if step.Push? {
      assert step.k.job == j;
      assert Ordered(JobOf(plan, step.k), st.progress[step.k]);
      assert step.k.attempt == 1 ==> RetryLinked(plan, st, Key(j, 0));
      assert step.k !in st.barrier;
    }
  }

  lemma {:induction false} RunKeepsLone(plan: Plan, st: State, schedule: Schedule, j: nat)
    requires Invariant(plan, st) && Feasible(plan, st, schedule)
    requires j < |plan| && OnlyBarrier(plan, j) && LoneInvariant(plan, st, j)
    ensures LoneInvariant(plan, Run(plan, st, schedule), j)
    decreases |schedule|
  {
    if schedule != [] {
      var (step, elapsed) := schedule[0];
      StepKeepsLone(plan, st, step, elapsed, j);
      StepKeeps(plan, st, step, elapsed);
      RunKeepsLone(plan, Apply(plan, st, step, elapsed), schedule[1..], j);
    }
  }

  lemma LoneBarrierNeverCompletes(plan: Plan, schedule: Schedule)
    requires LoneBarrier(plan) && Feasible(plan, Initial(plan), schedule)
    ensures !Complete(plan, Run(plan, Initial(plan), schedule))
  {
    var j :| 0 <= j < |plan| && OnlyBarrier(plan, j);
    InitialHolds(plan);
    RunKeepsLone(plan, Initial(plan), schedule, j);
    RunKeeps(plan, Initial(plan), schedule);
    var end := Run(plan, Initial(plan), schedule);
    assert Expected(plan, Key(j, 0));
    assert Ordered(plan[j], end.progress[Key(j, 0)]);
  }

  // ----- sums over attempts

  function Total(keys: seq<Key>, m: map<Key, nat>): nat {
    if keys == [] then 0 else (if keys[0] in m then m[keys[0]] else 0) + Total(keys[1..], m)
  }

  lemma {:induction false} TotalSame(keys: seq<Key>, m: map<Key, nat>, n: map<Key, nat>)
    requires forall k :: k in keys ==> k in m && k in n && m[k] == n[k]
    ensures Total(keys, m) == Total(keys, n)
  {
    if keys != [] {
      assert keys[0] in keys;
      TotalSame(keys[1..], m, n);
    }
  }

  lemma {:induction false} TotalUpdate(keys: seq<Key>, m: map<Key, nat>, n: map<Key, nat>, k: Key)
    requires forall i, j :: 0 <= i < j < |keys| ==> keys[i] != keys[j]
    requires k in keys && k in m && k in n
    requires forall o :: o in keys ==> o in m && o in n && (o != k ==> m[o] == n[o])
    ensures Total(keys, n) + m[k] == Total(keys, m) + n[k]
  {
    assert keys[0] in keys;
    if keys[0] == k {
      TotalSame(keys[1..], m, n);
    } else {
      TotalUpdate(keys[1..], m, n, k);
    }
  }

  lemma {:induction false} TotalZero(keys: seq<Key>, m: map<Key, nat>)
    ensures Total(keys, m) == 0 <==> forall k :: k in keys && k in m ==> m[k] == 0
  {
    if keys != [] {
      TotalZero(keys[1..], m);
      assert forall k :: k in keys <==> k == keys[0] || k in keys[1..];
    }
  }

  // ----- the number of steps

  function One(b: bool): nat { if b then 1 else 0 }

  /** The steps that an attempt still has to take. */
  function StepsLeft(plan: Plan, k: Key, p: Progress): nat
    requires Expected(plan, k)
  {
    var job := JobOf(plan, k);
    One(!p.announced) + One(!p.sent) + One(!p.published) + One(!p.started) + One(!p.ended)
    + One(job.barrier && !p.pushed) + One(job.barrier && !p.passed)
    + (if p.made < job.calls then job.calls - p.made else 0)
    + One(Retries(plan, k) && !p.signalled)
  }

  ghost function LeftMap(plan: Plan, st: State): map<Key, nat>
    requires Consistent(plan, st)
  {
    map k | k in st.progress :: StepsLeft(plan, k, st.progress[k])
  }

  ghost function Remaining(plan: Plan, st: State): nat
    requires Consistent(plan, st)
  {
    Total(Keys(plan), LeftMap(plan, st))
  }

  lemma AttemptTakesOne(plan: Plan, st: State, step: Step, now: int)
    requires Invariant(plan, st) && Enabled(plan, st, step)
    ensures StepsLeft(plan, step.k, After(st.progress[step.k], step, now)) + 1
         == StepsLeft(plan, step.k, st.progress[step.k])
  {
    assert Ordered(JobOf(plan, step.k), st.progress[step.k]);
  }

  lemma OthersTakeNone(plan: Plan, st: State, step: Step, elapsed: nat)
    requires Consistent(plan, st) && Enabled(plan, st, step)
    ensures var next := Apply(plan, st, step, elapsed);
      && Consistent(plan, next)
      && next.progress[step.k] == After(st.progress[step.k], step, next.now)
      && forall o :: o in st.progress && o != step.k ==> next.progress[o] == st.progress[o]
  {
  }

  lemma StepTakesOne(plan: Plan, st: State, step: Step, elapsed: nat)
    requires Invariant(plan, st) && Enabled(plan, st, step)
    ensures Consistent(plan, Apply(plan, st, step, elapsed))
    ensures Remaining(plan, Apply(plan, st, step, elapsed)) + 1 == Remaining(plan, st)
  {
    var next := Apply(plan, st, step, elapsed);
    OthersTakeNone(plan, st, step, elapsed);
    AttemptTakesOne(plan, st, step, next.now);
    hide Enabled, Invariant, StepsLeft, After, Keys, LeftMap, Apply;
    KeysAreExpected(plan, st);
    KeysAreExpected(plan, next);
    TotalUpdate(Keys(plan), LeftMap(plan, st), LeftMap(plan, next), step.k);
  }

  lemma KeysAreExpected(plan: Plan, st: State)
    requires Consistent(plan, st)
    ensures forall k :: k in Keys(plan) <==> k in st.progress
    ensures forall k :: k in LeftMap(plan, st) <==> k in st.progress
    ensures forall k :: k in st.progress ==> LeftMap(plan, st)[k] == StepsLeft(plan, k, st.progress[k])
    ensures forall i, j :: 0 <= i < j < |Keys(plan)| ==> Keys(plan)[i] != Keys(plan)[j]
  {
    hide KeysFrom, StepsLeft;
  }

  lemma AttemptDoneIff(plan: Plan, st: State, k: Key)
    requires Invariant(plan, st) && k in st.progress
    ensures (st.progress[k].published && st.progress[k].ended) <==> StepsLeft(plan, k, st.progress[k]) == 0
  {
    assert Ordered(JobOf(plan, k), st.progress[k]);
    assert Retries(plan, k) ==> RetryLinked(plan, st, k);
  }

  lemma CompleteIffNoneLeft(plan: Plan, st: State)
    requires Invariant(plan, st)
    ensures Complete(plan, st) <==> Remaining(plan, st) == 0
  {
    forall k | k in st.progress
      ensures (st.progress[k].published && st.progress[k].ended) <==> StepsLeft(plan, k, st.progress[k]) == 0
    {
      AttemptDoneIff(plan, st, k);
    }
    KeysAreExpected(plan, st);
    hide Invariant, StepsLeft, LeftMap, Keys;
    TotalZero(Keys(plan), LeftMap(plan, st));
  }

  lemma {:induction false} RunTakes(plan: Plan, st: State, schedule: Schedule)
    requires Invariant(plan, st) && Feasible(plan, st, schedule)
    ensures |schedule| + Remaining(plan, Run(plan, st, schedule)) == Remaining(plan, st)
    decreases |schedule|
  {
    if schedule != [] {
      var (step, elapsed) := schedule[0];
      StepTakesOne(plan, st, step, elapsed);
      StepKeeps(plan, st, step, elapsed);
      RunTakes(plan, Apply(plan, st, step, elapsed), schedule[1..]);
    }
  }

  /** No schedule can be extended at its end. */
  ghost predicate Maximal(plan: Plan, schedule: Schedule)
    requires Feasible(plan, Initial(plan), schedule)
  {
    !CanStep(plan, Run(plan, Initial(plan), schedule))
  }

  /**
   Barrier progress, exactly: with any number of barrier jobs but one, every way of running the plan to
   its end completes every attempt, after the same number of steps; with exactly one, none does.
   */
  lemma CompletesIff(plan: Plan, schedule: Schedule)
    requires Feasible(plan, Initial(plan), schedule) && Maximal(plan, schedule)
    ensures Complete(plan, Run(plan, Initial(plan), schedule)) <==> !LoneBarrier(plan)
    ensures |schedule| <= Remaining(plan, Initial(plan))
    ensures !LoneBarrier(plan) ==> |schedule| == Remaining(plan, Initial(plan))
  {
    InitialHolds(plan);
    RunKeeps(plan, Initial(plan), schedule);
    RunTakes(plan, Initial(plan), schedule);
    var end := Run(plan, Initial(plan), schedule);
    CompleteIffNoneLeft(plan, end);
    if LoneBarrier(plan) {
      LoneBarrierNeverCompletes(plan, schedule);
    } else if !Complete(plan, end) {
      NeverStuck(plan, end);
    }
  }

  // ----- the barrier forces an overlap

  /** Two attempts whose start-to-end intervals intersect with positive length. */
  predicate Overlapped(a: Progress, b: Progress) {
    a.ended && b.ended && a.startAt < a.endAt && b.startAt < b.endAt && MayOverlap(a, b)
  }

  /** In a completed run with two barrier jobs that make requests, two attempts of barrier jobs overlap. */
  lemma BarrierForcesOverlap(plan: Plan, st: State, i: nat, j: nat) returns (a: Key, b: Key)
    requires Invariant(plan, st) && Complete(plan, st)
    requires i < j < |plan| && plan[i].barrier && plan[j].barrier
    requires forall h :: 0 <= h < |plan| && plan[h].barrier ==> plan[h].calls > 0
    ensures a != b && a in st.progress && b in st.progress
    ensures JobOf(plan, a).barrier && JobOf(plan, b).barrier
    ensures Overlapped(st.progress[a], st.progress[b])
  {
    var k := Key(i, 0);
    assert Expected(plan, k) && Ordered(JobOf(plan, k), st.progress[k]);
    a, b := st.barrier[0], st.barrier[1];
    assert a in st.barrier && b in st.barrier;
    assert Ordered(JobOf(plan, a), st.progress[a]) && Ordered(JobOf(plan, b), st.progress[b]);
    assert OpenedBefore(plan, st, a) && OpenedBefore(plan, st, b);
  }

  /** With exactly two barrier jobs that do not retry, it is those two jobs that overlap. */
  lemma TheTwoBarrierJobsOverlap(plan: Plan, st: State, i: nat, j: nat)
    requires Invariant(plan, st) && Complete(plan, st)
    requires i < j < |plan| && forall h :: 0 <= h < |plan| ==> (plan[h].barrier <==> h == i || h == j)
    requires plan[i].calls > 0 && plan[j].calls > 0 && !plan[i].retryOnce && !plan[j].retryOnce
    ensures Key(i, 0) in st.progress && Key(j, 0) in st.progress
    ensures Overlapped(st.progress[Key(i, 0)], st.progress[Key(j, 0)])
  {
    var a, b := BarrierForcesOverlap(plan, st, i, j);
    assert a == Key(i, 0) || a == Key(j, 0);
    assert b == Key(i, 0) || b == Key(j, 0);
  }
}

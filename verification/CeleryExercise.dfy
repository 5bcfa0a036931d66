/**
 Driving the collector through an interleaving (scripts/benchmark_celery.py:181-192, 241-242): the signal
 handlers see exactly the steps of the worker, and what they append is the event list of the step machine.
 */
module CeleryExercise {
  import opened CeleryWorker
  import opened CeleryRuns
  import opened CeleryTrace

  ghost predicate TracksKey(st: State, active: map<Key, Opening>, slots: map<Key, Slot>, k: Key) {
    && (k in active <==> k in st.progress && Running(st.progress[k]))
    && (k in active ==> active[k].calls == st.progress[k].made && k in slots && slots[k] == st.progress[k].slot)
  }

  /** The collector has an open entry for every running attempt, which counts its requests so far. */
  ghost predicate Tracks(st: State, active: map<Key, Opening>, slots: map<Key, Slot>) {
    forall k :: TracksKey(st, active, slots, k)
  }

  /** The open entries after a step. */
  function ActiveAfter(active: map<Key, Opening>, step: Step, now: int): map<Key, Opening> {
    match step
    case Begin(k, _) => active[k := Opening(now, 0)]
    case Request(k) => if k in active then active[k := Opening(active[k].startAt, active[k].calls + 1)] else active
    case Finish(k) => active - {k}
    case _ => active
  }

  function SlotsAfter(slots: map<Key, Slot>, step: Step): map<Key, Slot> {
    if step.Begin? then slots[step.k := step.slot] else slots
  }

  lemma TracksKeyAfter(plan: Plan, st: State, step: Step, elapsed: nat, active: map<Key, Opening>,
          slots: map<Key, Slot>, k: Key)
    requires Consistent(plan, st) && AttemptsInvariant(plan, st) && Enabled(plan, st, step)
    requires TracksKey(st, active, slots, k)
    ensures var next := Apply(plan, st, step, elapsed);
      TracksKey(next, ActiveAfter(active, step, next.now), SlotsAfter(slots, step), k)
  {
    assert Ordered(JobOf(plan, step.k), st.progress[step.k]);
  }

  lemma TracksAfter(plan: Plan, st: State, step: Step, elapsed: nat, active: map<Key, Opening>, slots: map<Key, Slot>)
    requires Consistent(plan, st) && AttemptsInvariant(plan, st) && Enabled(plan, st, step)
    requires Tracks(st, active, slots)
    ensures var next := Apply(plan, st, step, elapsed);
      && Tracks(next, ActiveAfter(active, step, next.now), SlotsAfter(slots, step))
      && next.now == st.now + Tick(step, elapsed)
      && next.log == st.log + Logged(plan, st.progress[step.k], step, next.now)
  {
    hide TracksKey, ActiveAfter, SlotsAfter, AttemptsInvariant, Enabled, Logged;
    var next := Apply(plan, st, step, elapsed);
    forall k ensures TracksKey(next, ActiveAfter(active, step, next.now), SlotsAfter(slots, step), k) {
      TracksKeyAfter(plan, st, step, elapsed, active, slots, k);
    }
  }

  /** One signal. */
  method Observe(trace: Trace, plan: Plan, ghost st: State, step: Step, now: int, slots: map<Key, Slot>)
    requires Consistent(plan, st) && Enabled(plan, st, step)
    requires Tracks(st, trace.active, slots)
    modifies trace
    ensures trace.events == old(trace.events) + Logged(plan, st.progress[step.k], step, now)
    ensures trace.active == ActiveAfter(old(trace.active), step, now)
  {
    match step {
      case Announce(k) => trace.Publish(k, now);
      case Publish(k) => trace.PublishReturned(k, now);
      case Begin(k, slot) => trace.Begin(k, now, SlotPid(slot));
      case Request(k) => trace.ProviderCall(k);
      case Signal(k) => trace.RetryDecided(k, now);
      case Finish(k) =>
        assert TracksKey(st, trace.active, slots, k);
        var known := trace.Finish(k, now, SlotPid(slots[k]), if Retries(plan, k) then Retried else Succeeded);
      case Send(k) =>
      case Push(k) =>
      case Pass(k) =>
    }
  }

  /** The rest of the schedule leads from `st` to `end`. */
  ghost predicate LeadsTo(plan: Plan, st: State, rest: Schedule, end: State) {
    && Invariant(plan, st)
    && Feasible(plan, st, rest)
    && Run(plan, st, rest) == end
  }

  lemma RunStep(plan: Plan, st: State, rest: Schedule, end: State)
    requires LeadsTo(plan, st, rest, end) && rest != []
    ensures var (step, elapsed) := rest[0];
      && Consistent(plan, st) && AttemptsInvariant(plan, st)
      && Enabled(plan, st, step)
      && LeadsTo(plan, Apply(plan, st, step, elapsed), rest[1..], end)
  {
    StepKeeps(plan, st, rest[0].0, rest[0].1);
  }

  /** One pass of the batch: the signal, and what the collector and the machine then agree on. */
  method Advance(trace: Trace, plan: Plan, ghost st: State, step: Step, elapsed: nat, now0: int, slots0: map<Key, Slot>)
    returns (now: int, slots: map<Key, Slot>)
    requires Consistent(plan, st) && AttemptsInvariant(plan, st) && Enabled(plan, st, step)
    requires now0 == st.now && trace.events == st.log && Tracks(st, trace.active, slots0)
    modifies trace
    ensures var next := Apply(plan, st, step, elapsed);
      now == next.now && trace.events == next.log && Tracks(next, trace.active, slots)
  {
    TracksAfter(plan, st, step, elapsed, trace.active, slots0);
    now := now0 + Tick(step, elapsed);
    hide ActiveAfter, Tracks, AttemptsInvariant, Enabled, Apply, Logged;
    Observe(trace, plan, st, step, now, slots0);
    slots := SlotsAfter(slots0, step);
  }

  /** The traced batch and its report. */
  method Exercise(plan: Plan, schedule: Schedule) returns (report: Report)
    requires Feasible(plan, Initial(plan), schedule)
    ensures report == Correlation(Run(plan, Initial(plan), schedule).log)
  {
    var trace := new Trace();
    var slots: map<Key, Slot> := map[];
    var now := 0;
    ghost var st := Initial(plan);
    ghost var end := Run(plan, st, schedule);
    InitialHolds(plan);
    assert Tracks(st, trace.active, slots);
    assert schedule[0..] == schedule;
    assert LeadsTo(plan, st, schedule, end);
    hide Initial, Apply, Enabled, Tracks, AttemptsInvariant, LeadsTo, Correlation;
    for i := 0 to |schedule|
      invariant LeadsTo(plan, st, schedule[i..], end)
      invariant now == st.now && trace.events == st.log && Tracks(st, trace.active, slots)
      invariant fresh(trace)
    {
      assert schedule[i..][0] == schedule[i] && schedule[i..][1..] == schedule[i + 1..];
      RunStep(plan, st, schedule[i..], end);
      now, slots := Advance(trace, plan, st, schedule[i].0, schedule[i].1, now, slots);
      st := Apply(plan, st, schedule[i].0, schedule[i].1);
    }
    assert schedule[|schedule|..] == [];
    AtTheEnd(plan, st, end);
    report := Correlate(trace.events);
  }

  lemma AtTheEnd(plan: Plan, st: State, end: State)
    requires LeadsTo(plan, st, [], end)
    ensures st == end
  {
  }
}

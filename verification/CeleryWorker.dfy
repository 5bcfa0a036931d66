/**
 The benchmark's two-slot worker as a step machine (scripts/benchmark_celery.py:80-93, 181-215, 345-371
 and the signal handlers of scripts/celery_trace.py:206-272). The producer publishes the jobs in plan order;
 everything else interleaves freely: publications return late, either slot takes any message that was
 sent, a retry is published from inside the attempt that asks for it. Timeouts are left out.
 */
module CeleryWorker {
  import opened Text

  datatype Job = Job(barrier: bool, retryOnce: bool, calls: nat)

  type Plan = seq<Job>

  /** One execution attempt of one job: `task_id` and `retries`. */
  datatype Key = Key(job: nat, attempt: nat)

  datatype Kind = Enqueue | Published | Start | Retry | End | Diagnostic

  datatype Outcome = Retried | Succeeded

  /** The row that `Trace.event` appends, with the values that some kinds carry. */
  datatype Event = Event(kind: Kind, key: Key, at: int, pid: Option<nat>, calls: nat, outcome: Option<Outcome>)

  function Plain(kind: Kind, key: Key, at: int): Event {
    Event(kind, key, at, None, 0, None)
  }

  datatype Slot = Left | Right

  /** How far an attempt has come. */
  datatype Progress = Progress(announced: bool, sent: bool, published: bool, started: bool, slot: Slot,
                               pushed: bool, passed: bool, made: nat, signalled: bool, ended: bool,
                               startAt: int, endAt: int)

  const FRESH := Progress(false, false, false, false, Left, false, false, 0, false, false, 0, 0)

  datatype State = State(progress: map<Key, Progress>, barrier: seq<Key>, now: int, log: seq<Event>)

  // ----- the attempts that a plan calls for

  predicate Expected(plan: Plan, k: Key) {
    k.job < |plan| && (k.attempt == 0 || (k.attempt == 1 && plan[k.job].retryOnce))
  }

  function KeysFrom(plan: Plan, j: nat): (keys: seq<Key>)
    requires j <= |plan|
    ensures forall k :: k in keys <==> Expected(plan, k) && j <= k.job
    ensures forall a, b :: 0 <= a < b < |keys| ==> keys[a] != keys[b]
    decreases |plan| - j
  {
    if j == |plan| then []
    else
      var rest := KeysFrom(plan, j + 1);
      if plan[j].retryOnce then [Key(j, 0), Key(j, 1)] + rest else [Key(j, 0)] + rest
  }

  function Keys(plan: Plan): seq<Key> {
    KeysFrom(plan, 0)
  }

  function JobOf(plan: Plan, k: Key): Job
    requires Expected(plan, k)
  {
    plan[k.job]
  }

  /** The attempt ends by asking for its retry. */
  predicate Retries(plan: Plan, k: Key)
    requires Expected(plan, k)
  {
    JobOf(plan, k).retryOnce && k.attempt == 0
  }

  function Initial(plan: Plan): (st: State)
    ensures Consistent(plan, st)
  {
    State(map k | k in Keys(plan) :: FRESH, [], 0, [])
  }

  // ----- steps

  datatype Step =
    | Announce(k: Key) | Send(k: Key) | Publish(k: Key)
    | Begin(k: Key, slot: Slot) | Push(k: Key) | Pass(k: Key) | Request(k: Key) | Signal(k: Key) | Finish(k: Key)

  predicate Running(p: Progress) {
    p.started && !p.ended
  }

  ghost predicate SlotFree(st: State, slot: Slot) {
    forall k :: k in st.progress && Running(st.progress[k]) ==> st.progress[k].slot != slot
  }

  /** The body is past its requests: it returns, or asks for the retry. */
  predicate BodyDone(plan: Plan, k: Key, p: Progress)
    requires Expected(plan, k)
  {
    Running(p) && PastBarrier(plan, k, p) && p.made == JobOf(plan, k).calls
  }

  predicate PastBarrier(plan: Plan, k: Key, p: Progress)
    requires Expected(plan, k)
  {
    JobOf(plan, k).barrier ==> p.passed
  }

  /** Who publishes the attempt: the producer when the jobs before are published, or the first attempt. */
  ghost predicate MayAnnounce(plan: Plan, st: State, k: Key)
    requires Expected(plan, k) && Consistent(plan, st)
  {
    if k.attempt == 0 then forall j :: 0 <= j < k.job ==> st.progress[Key(j, 0)].published
    else BodyDone(plan, Key(k.job, 0), st.progress[Key(k.job, 0)])
  }

  ghost predicate Consistent(plan: Plan, st: State) {
    forall k :: k in st.progress <==> Expected(plan, k)
  }

  ghost predicate Enabled(plan: Plan, st: State, step: Step)
    requires Consistent(plan, st)
  {
    && Expected(plan, step.k)
    && var p, job := st.progress[step.k], JobOf(plan, step.k);
    match step
    case Announce(k) => !p.announced && MayAnnounce(plan, st, k)
    case Send(k) => p.announced && !p.sent
    case Publish(k) => p.sent && !p.published
    case Begin(k, slot) => p.sent && !p.started && SlotFree(st, slot)
    case Push(k) => Running(p) && job.barrier && !p.pushed
    case Pass(k) => Running(p) && job.barrier && p.pushed && !p.passed && |st.barrier| >= 2
    case Request(k) => Running(p) && PastBarrier(plan, k, p) && p.made < job.calls
    case Signal(k) => BodyDone(plan, k, p) && Retries(plan, k) && st.progress[Key(k.job, 1)].published && !p.signalled
    case Finish(k) => BodyDone(plan, k, p) && (Retries(plan, k) ==> p.signalled)
  }

  function SlotPid(slot: Slot): nat {
    if slot.Left? then 0 else 1
  }

  function After(p: Progress, step: Step, now: int): Progress {
    match step
    case Announce(_) => p.(announced := true)
    case Send(_) => p.(sent := true)
    case Publish(_) => p.(published := true)
    case Begin(_, slot) => p.(started := true, slot := slot, startAt := now)
    case Push(_) => p.(pushed := true)
    case Pass(_) => p.(passed := true)
    case Request(_) => p.(made := p.made + 1)
    case Signal(_) => p.(signalled := true)
    case Finish(_) => p.(ended := true, endAt := now)
  }

  /** The event that the signal handlers append for the step. */
  function Logged(plan: Plan, p: Progress, step: Step, now: int): seq<Event>
    requires Expected(plan, step.k)
  {
    match step
    case Announce(k) => [Plain(Enqueue, k, now)]
    case Publish(k) => [Plain(Published, k, now)]
    case Begin(k, slot) => [Event(Start, k, now, Some(SlotPid(slot)), 0, None)]
    case Signal(k) => [Plain(Retry, k, now)]
    case Finish(k) =>
      [Event(End, k, now, Some(SlotPid(p.slot)), p.made, Some(if Retries(plan, k) then Retried else Succeeded))]
    case _ => []
  }

  /** Time passes with every step; a provider call sleeps, so it takes at least one tick. */
  function Tick(step: Step, elapsed: nat): nat {
    if step.Request? then elapsed + 1 else elapsed
  }

  ghost function Apply(plan: Plan, st: State, step: Step, elapsed: nat): State
    requires Consistent(plan, st) && Enabled(plan, st, step)
  {
    var p := st.progress[step.k];
    var now := st.now + Tick(step, elapsed);
    State(st.progress[step.k := After(p, step, now)],
          if step.Push? then st.barrier + [step.k] else st.barrier,
          now,
          st.log + Logged(plan, p, step, now))
  }

  /** Every attempt is published and has ended. */
  ghost predicate Complete(plan: Plan, st: State)
    requires Consistent(plan, st)
  {
    forall k :: Expected(plan, k) ==> k in st.progress && st.progress[k].published && st.progress[k].ended
  }

  type Schedule = seq<(Step, nat)>

  lemma ApplyConsistent(plan: Plan, st: State, step: Step, elapsed: nat)
    requires Consistent(plan, st) && Enabled(plan, st, step)
    ensures Consistent(plan, Apply(plan, st, step, elapsed))
  {
  }

  ghost predicate Feasible(plan: Plan, st: State, schedule: Schedule)
    requires Consistent(plan, st)
    decreases |schedule|
  {
    schedule == [] ||
    (Enabled(plan, st, schedule[0].0)
     && (ApplyConsistent(plan, st, schedule[0].0, schedule[0].1);
         Feasible(plan, Apply(plan, st, schedule[0].0, schedule[0].1), schedule[1..])))
  }

  ghost function Run(plan: Plan, st: State, schedule: Schedule): (end: State)
    requires Consistent(plan, st) && Feasible(plan, st, schedule)
    ensures Consistent(plan, end)
    decreases |schedule|
  {
    if schedule == [] then st
    else
      ApplyConsistent(plan, st, schedule[0].0, schedule[0].1);
      Run(plan, Apply(plan, st, schedule[0].0, schedule[0].1), schedule[1..])
  }
}

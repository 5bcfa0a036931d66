/**
 What the harness demands of every traced run (scripts/benchmark_celery.py:226-256 and
 scripts/benchmark_matrix.py:346-364), derived for every plan and every interleaving.
 */
module CeleryHarness {
  import opened Text
  import opened Permutations
  import opened StableSort
  import opened CeleryWorker
  import opened CeleryRuns
  import opened CeleryProgress
  import opened CeleryTrace
  import opened CeleryCorrelation

  // ----- the event list of a reachable state

  function Happened(kind: Kind, p: Progress): bool {
    match kind
    case Enqueue => p.announced
    case Published => p.published
    case Start => p.started
    case Retry => p.signalled
    case End => p.ended
    case Diagnostic => false
  }

  ghost predicate Counted(st: State, k: Key, kind: Kind) {
    CountEvents(st.log, k, kind) == if k in st.progress then One(Happened(kind, st.progress[k])) else 0
  }

  ghost predicate Faithful(plan: Plan, st: State, e: Event)
    requires Consistent(plan, st)
  {
    && e.key in st.progress
    && e.at <= st.now
    && var p := st.progress[e.key];
       && Happened(e.kind, p)
       && (e.kind.Start? ==> e.at == p.startAt && e.pid == Some(SlotPid(p.slot)))
       && (e.kind.End? ==>
             && e.at == p.endAt && e.pid == Some(SlotPid(p.slot)) && e.calls == p.made
             && e.outcome == Some(if Retries(plan, e.key) then Retried else Succeeded))
       && (e.pid.Some? ==> e.kind.Start? || e.kind.End?)
  }

  ghost predicate LogInvariant(plan: Plan, st: State)
    requires Consistent(plan, st)
  {
    && (forall k, kind :: Counted(st, k, kind))
    && (forall e :: e in st.log ==> Faithful(plan, st, e))
    && Sorted(st.log, At)
  }

  lemma CountGrows(log: seq<Event>, e: Event, k: Key, kind: Kind)
    ensures CountEvents(log + [e], k, kind) == CountEvents(log, k, kind) + One(e.key == k && e.kind == kind)
  {
    SelectAppend(log, e, Of(k, kind));
  }

  lemma StepKeepsCount(plan: Plan, st: State, step: Step, elapsed: nat, k: Key, kind: Kind)
    requires Invariant(plan, st) && Enabled(plan, st, step) && Counted(st, k, kind)
    ensures Counted(Apply(plan, st, step, elapsed), k, kind)
  {
    var p := st.progress[step.k];
    var next := Apply(plan, st, step, elapsed);
    var logged := Logged(plan, p, step, next.now);
    StepAppends(plan, st, step, elapsed);
    StepHappens(plan, st, step, elapsed, k, kind);
    hide CountEvents, Apply, Logged, Invariant, Enabled, Happened;
    if logged != [] {
      assert next.log == st.log + [logged[0]];
      CountGrows(st.log, logged[0], k, kind);
    } else {
      assert next.log == st.log;
    }
  }

  /** A step logs an event exactly for what it makes happen. */
  lemma StepHappens(plan: Plan, st: State, step: Step, elapsed: nat, k: Key, kind: Kind)
    requires Invariant(plan, st) && Enabled(plan, st, step)
    ensures var next := Apply(plan, st, step, elapsed);
      var logged := Logged(plan, st.progress[step.k], step, next.now);
      && (k in next.progress <==> k in st.progress)
      && (logged != [] && k == logged[0].key ==> k in st.progress)
      && (k in st.progress ==>
            One(Happened(kind, next.progress[k]))
            == One(Happened(kind, st.progress[k])) + One(logged != [] && logged[0].key == k && logged[0].kind == kind))
  {
    assert Ordered(JobOf(plan, step.k), st.progress[step.k]);
  }

  lemma StepKeepsFaith(plan: Plan, st: State, step: Step, elapsed: nat, e: Event)
    requires Invariant(plan, st) && Enabled(plan, st, step)
    requires e in st.log && Faithful(plan, st, e)
    ensures Consistent(plan, Apply(plan, st, step, elapsed)) && Faithful(plan, Apply(plan, st, step, elapsed), e)
  {
    ApplyConsistent(plan, st, step, elapsed);
    assert Ordered(JobOf(plan, step.k), st.progress[step.k]);
    assert Ordered(JobOf(plan, e.key), st.progress[e.key]);
  }

  lemma LoggedIsFaithful(plan: Plan, st: State, step: Step, elapsed: nat, e: Event)
    requires Invariant(plan, st) && Enabled(plan, st, step)
    requires e in Logged(plan, st.progress[step.k], step, Apply(plan, st, step, elapsed).now)
    ensures Consistent(plan, Apply(plan, st, step, elapsed)) && Faithful(plan, Apply(plan, st, step, elapsed), e)
    ensures e.at == Apply(plan, st, step, elapsed).now >= st.now
  {
    ApplyConsistent(plan, st, step, elapsed);
  }

  lemma StepAppends(plan: Plan, st: State, step: Step, elapsed: nat)
    requires Consistent(plan, st) && Enabled(plan, st, step)
    ensures var next := Apply(plan, st, step, elapsed);
      var logged := Logged(plan, st.progress[step.k], step, next.now);
      next.log == st.log + logged && |logged| <= 1
  {
  }

  lemma StepKeepsFaithful(plan: Plan, st: State, step: Step, elapsed: nat)
    requires Invariant(plan, st) && LogInvariant(plan, st) && Enabled(plan, st, step)
    ensures var next := Apply(plan, st, step, elapsed);
      Consistent(plan, next) && forall e :: e in next.log ==> Faithful(plan, next, e)
  {
    ApplyConsistent(plan, st, step, elapsed);
    StepAppends(plan, st, step, elapsed);
    var next := Apply(plan, st, step, elapsed);
    hide Apply, Logged, Invariant, Enabled, Faithful, Counted, Sorted;
    forall e | e in next.log ensures Faithful(plan, next, e) {
      if e in st.log {
        StepKeepsFaith(plan, st, step, elapsed, e);
      } else {
        LoggedIsFaithful(plan, st, step, elapsed, e);
      }
    }
  }

  lemma StepKeepsSorted(plan: Plan, st: State, step: Step, elapsed: nat)
    requires Invariant(plan, st) && LogInvariant(plan, st) && Enabled(plan, st, step)
    ensures Sorted(Apply(plan, st, step, elapsed).log, At)
  {
    StepAppends(plan, st, step, elapsed);
    var next := Apply(plan, st, step, elapsed);
    var logged := Logged(plan, st.progress[step.k], step, next.now);
    hide Apply, Logged, Invariant, Enabled, Faithful, Counted;
    if logged != [] {
      LoggedIsFaithful(plan, st, step, elapsed, logged[0]);
      forall e | e in st.log ensures e.at <= logged[0].at {
        LogIsPast(plan, st, e);
      }
    }
  }

  lemma StepKeepsLog(plan: Plan, st: State, step: Step, elapsed: nat)
    requires Invariant(plan, st) && LogInvariant(plan, st) && Enabled(plan, st, step)
    ensures Consistent(plan, Apply(plan, st, step, elapsed)) && LogInvariant(plan, Apply(plan, st, step, elapsed))
  {
    ApplyConsistent(plan, st, step, elapsed);
    assert Consistent(plan, st);
    hide Apply, Invariant, Enabled, Faithful, Counted, Sorted;
    StepKeepsFaithful(plan, st, step, elapsed);
    StepKeepsSorted(plan, st, step, elapsed);
    forall k, kind ensures Counted(Apply(plan, st, step, elapsed), k, kind) {
      StepKeepsCount(plan, st, step, elapsed, k, kind);
    }
  }

  lemma LogIsPast(plan: Plan, st: State, e: Event)
    requires Consistent(plan, st) && LogInvariant(plan, st) && e in st.log
    ensures e.at <= st.now
  {
    assert Faithful(plan, st, e);
  }

  lemma InitialLog(plan: Plan)
    ensures LogInvariant(plan, Initial(plan))
  {
  }

  lemma {:induction false} RunKeepsLog(plan: Plan, st: State, schedule: Schedule)
    requires Invariant(plan, st) && LogInvariant(plan, st) && Feasible(plan, st, schedule)
    ensures LogInvariant(plan, Run(plan, st, schedule))
    decreases |schedule|
  {
    if schedule != [] {
      var (step, elapsed) := schedule[0];
      StepKeeps(plan, st, step, elapsed);
      StepKeepsLog(plan, st, step, elapsed);
      RunKeepsLog(plan, Apply(plan, st, step, elapsed), schedule[1..]);
    }
  }

  // ----- the joined attempts of a complete run

  ghost predicate Done(plan: Plan, st: State) {
    Invariant(plan, st) && LogInvariant(plan, st) && Complete(plan, st)
  }

  /**
   What the harness reads. An event takes its time before it is appended, so those of two processes may arrive out of
   the order of their times; all have arrived when their attempts have ended.
   */
  ghost predicate Collected(st: State, events: seq<Event>) {
    multiset(events) == multiset(st.log)
  }

  lemma SameEvents(st: State, events: seq<Event>)
    requires Collected(st, events)
    ensures forall e :: e in events <==> e in st.log
    ensures forall k, kind :: CountEvents(events, k, kind) == CountEvents(st.log, k, kind)
  {
    assert forall e :: e in events <==> e in multiset(events);
    assert forall e :: e in st.log <==> e in multiset(st.log);
    forall k, kind ensures CountEvents(events, k, kind) == CountEvents(st.log, k, kind) {
      SelectPermutes(events, st.log, Of(k, kind));
    }
  }

  lemma AttemptsAreTheKeys(plan: Plan, st: State)
    requires Done(plan, st)
    ensures AttemptKeys(st.log) == st.progress.Keys
  {
    forall k | k in st.progress ensures k in AttemptKeys(st.log) {
      assert Counted(st, k, End);
      assert Select(st.log, Of(k, End)) != [];
      var e := Select(st.log, Of(k, End))[0];
      assert e in Select(st.log, Of(k, End));
    }
    forall k | k in AttemptKeys(st.log) ensures k in st.progress {
      var e :| e in st.log && e.key == k;
      assert Faithful(plan, st, e);
    }
  }

  lemma BoundariesOnce(plan: Plan, st: State, k: Key, kind: Kind)
    requires Done(plan, st) && k in st.progress
    ensures CountEvents(st.log, k, kind) <= 1
    ensures kind in BOUNDARIES ==> CountEvents(st.log, k, kind) == 1
  {
    assert Counted(st, k, kind);
    assert Ordered(JobOf(plan, k), st.progress[k]);
  }

  lemma SameKeys(st: State, events: seq<Event>)
    requires Collected(st, events)
    ensures AttemptKeys(events) == AttemptKeys(st.log)
  {
    SameAttemptKeys(events, st.log);
  }

  /** No attempt lacks a boundary or repeats an event. */
  lemma NothingIncomplete(plan: Plan, st: State, events: seq<Event>)
    requires Done(plan, st) && Collected(st, events)
    ensures Correlation(events).incomplete == 0 && Correlation(events).duplicate == 0
  {
    CountsAreExact(events);
    AttemptsAreTheKeys(plan, st);
    SameKeys(st, events);
    SameEvents(st, events);
    forall k, kind | k in st.progress
      ensures CountEvents(events, k, kind) <= 1
      ensures kind in BOUNDARIES ==> CountEvents(events, k, kind) == 1
    {
      BoundariesOnce(plan, st, k, kind);
    }
    hide Correlation, CountEvents, Done, Collected;
    assert IncompleteKeys(events) == {};
    assert RepeatedKeys(events) == {};
  }

  /** The row of an attempt's start or end. */
  lemma BoundaryRow(plan: Plan, st: State, events: seq<Event>, k: Key, kind: Kind)
    requires Done(plan, st) && Collected(st, events) && k in st.progress && (kind == Start || kind == End)
    ensures var those := Select(Listed(events, k).rows, KindIs(kind));
      && |those| == 1
      && those[0].at == (if kind == Start then st.progress[k].startAt else st.progress[k].endAt)
      && (kind == End ==>
            && those[0].calls == JobOf(plan, k).calls
            && those[0].outcome == Some(if Retries(plan, k) then Retried else Succeeded))
  {
    BoundariesOnce(plan, st, k, kind);
    var e := Select(st.log, Of(k, kind))[0];
    assert e in Select(st.log, Of(k, kind));
    assert Faithful(plan, st, e);
    assert Ordered(JobOf(plan, k), st.progress[k]);
    OnlyOne(st.log, events, k, kind, e);
    hide InOrder, Workers, Select, Done;
    OnlyRow(InOrder(events), k, kind, Workers(InOrder(events)), e);
  }

  lemma ListedTimes(plan: Plan, st: State, events: seq<Event>, k: Key)
    requires Done(plan, st) && Collected(st, events) && k in st.progress
    ensures TimeOf(Listed(events, k), Start) == st.progress[k].startAt
    ensures TimeOf(Listed(events, k), End) == st.progress[k].endAt
  {
    BoundaryRow(plan, st, events, k, Start);
    BoundaryRow(plan, st, events, k, End);
    hide Listed, Select, Done, Collected;
  }

  ghost predicate OverlapReported(report: Report, a: Key, b: Key) {
    exists o :: o in report.overlap && ((o.left == a && o.right == b) || (o.left == b && o.right == a))
  }

  lemma SharedTime(plan: Plan, st: State, events: seq<Event>, a: Key, b: Key)
    requires Done(plan, st) && Collected(st, events) && a in st.progress && b in st.progress && a != b
    ensures Shared(Listed(events, a), Listed(events, b)) > 0 <==> Overlapped(st.progress[a], st.progress[b])
  {
    hide Done, Collected, Listed, TimeOf;
    ListedTimes(plan, st, events, a);
    ListedTimes(plan, st, events, b);
    Lengths(plan, st, a);
    Lengths(plan, st, b);
  }

  lemma Lengths(plan: Plan, st: State, k: Key)
    requires Done(plan, st) && k in st.progress
    ensures st.progress[k].started && st.progress[k].ended
    ensures st.progress[k].startAt <= st.progress[k].endAt
  {
    assert Ordered(JobOf(plan, k), st.progress[k]);
  }

  /** Every listed attempt is complete, so all of them are compared. */
  lemma AllAreComplete(plan: Plan, st: State, events: seq<Event>)
    requires Done(plan, st) && Collected(st, events)
    ensures var attempts := Correlation(events).attempts;
      && Select(attempts, IsComplete) == attempts
      && DistinctAttempts(attempts)
      && (forall a :: a in attempts ==> a.key in st.progress && a == Listed(events, a.key))
      && (forall k :: k in st.progress ==> Listed(events, k) in attempts)
  {
    ListedAttempts(events);
    AttemptsAreTheKeys(plan, st);
    SameKeys(st, events);
    NothingIncomplete(plan, st, events);
    var attempts := Correlation(events).attempts;
    CorrelationCounts(events);
    hide Correlation, Listed, Done, Collected;
    NoneSelected(attempts);
  }

  lemma {:induction false} NoneSelected(attempts: seq<CeleryTrace.Attempt>)
    requires Select(attempts, IsIncomplete) == []
    ensures Select(attempts, IsComplete) == attempts
  {
    if attempts != [] {
      NoneSelected(attempts[1..]);
      assert attempts == [attempts[0]] + attempts[1..];
    }
  }

  /** The report lists a pair of attempts iff they were running at the same time for some time. */
  lemma OverlapsReported(plan: Plan, st: State, events: seq<Event>, a: Key, b: Key)
    requires Done(plan, st) && Collected(st, events) && a in st.progress && b in st.progress && a != b
    ensures OverlapReported(Correlation(events), a, b) <==> Overlapped(st.progress[a], st.progress[b])
  {
    hide Correlation, Listed, Shared, Done, Collected, AllDifferent, Overlapped;
    AllAreComplete(plan, st, events);
    ReportedOverlaps(events);
    SharedTime(plan, st, events, a, b);
    SharedTime(plan, st, events, b, a);
    OverlappedSymmetric(st.progress[a], st.progress[b]);
    var report := Correlation(events);
    var attempts := report.attempts;
    if OverlapReported(report, a, b) {
      ReportedIsShared(report, attempts, a, b);
    }
    if Overlapped(st.progress[a], st.progress[b]) {
      var i :| 0 <= i < |attempts| && attempts[i] == Listed(events, a);
      var j :| 0 <= j < |attempts| && attempts[j] == Listed(events, b);
      ListedKey(events, a);
      ListedKey(events, b);
      PairIsReported(report, attempts, i, j);
    }
  }

  lemma OverlappedSymmetric(a: Progress, b: Progress)
    ensures Overlapped(a, b) <==> Overlapped(b, a)
  {
  }

  lemma ReportedIsShared(report: Report, attempts: seq<CeleryTrace.Attempt>, a: Key, b: Key)
    requires OverlapReported(report, a, b)
    requires forall o ::
               o in report.overlap <==> exists i, j :: 0 <= i < j < |attempts| && PairListed(attempts, i, j, o)
    ensures exists left, right ::
              && left in attempts && right in attempts && Shared(left, right) > 0
              && ((left.key == a && right.key == b) || (left.key == b && right.key == a))
  {
    hide Shared;
    var o :| o in report.overlap && ((o.left == a && o.right == b) || (o.left == b && o.right == a));
    var i, j :| 0 <= i < j < |attempts| && PairListed(attempts, i, j, o);
    assert attempts[i] in attempts && attempts[j] in attempts;
  }

  lemma PairIsReported(report: Report, attempts: seq<CeleryTrace.Attempt>, i: nat, j: nat)
    requires i < |attempts| && j < |attempts| && i != j
    requires Shared(attempts[i], attempts[j]) > 0 && Shared(attempts[j], attempts[i]) > 0
    requires forall o ::
               o in report.overlap <==> exists i, j :: 0 <= i < j < |attempts| && PairListed(attempts, i, j, o)
    ensures OverlapReported(report, attempts[i].key, attempts[j].key)
  {
    hide Shared;
    var first, second := if i < j then i else j, if i < j then j else i;
    var o := Overlap(attempts[first].key, attempts[second].key, Shared(attempts[first], attempts[second]));
    assert PairListed(attempts, first, second, o);
    assert o in report.overlap;
  }

  // ----- how many ends, how many provider calls

  /** The end rows of all attempts, attempt by attempt. */
  function EndRows(attempts: seq<CeleryTrace.Attempt>): seq<Row> {
    if attempts == [] then [] else Select(attempts[0].rows, KindIs(End)) + EndRows(attempts[1..])
  }

  function CallsOf(rows: seq<Row>): nat {
    if rows == [] then 0 else rows[0].calls + CallsOf(rows[1..])
  }

  /** What the plan calls for: attempts and provider calls, a retried job counting twice. */
  function PlannedAttempts(plan: Plan): nat {
    if plan == [] then 0 else (if plan[0].retryOnce then 2 else 1) + PlannedAttempts(plan[1..])
  }

  function PlannedCalls(plan: Plan): nat {
    if plan == [] then 0 else (if plan[0].retryOnce then 2 * plan[0].calls else plan[0].calls) + PlannedCalls(plan[1..])
  }

  ghost function CallMap(plan: Plan, st: State): map<Key, nat>
    requires Consistent(plan, st)
  {
    map k | k in st.progress :: JobOf(plan, k).calls
  }

  lemma {:induction false} CallsAppend(a: seq<Row>, b: seq<Row>)
    ensures CallsOf(a + b) == CallsOf(a) + CallsOf(b)
  {
    if a == [] {
      assert a + b == b;
    } else {
      CallsAppend(a[1..], b);
      assert (a + b)[1..] == a[1..] + b;
    }
  }

  lemma OneEnd(plan: Plan, st: State, events: seq<Event>, k: Key)
    requires Done(plan, st) && Collected(st, events) && k in st.progress
    ensures var ends := Select(Listed(events, k).rows, KindIs(End));
      |ends| == 1 && CallsOf(ends) == JobOf(plan, k).calls
  {
    BoundaryRow(plan, st, events, k, End);
    hide Done, Collected, Listed;
    var ends := Select(Listed(events, k).rows, KindIs(End));
    assert ends[1..] == [];
  }

  lemma EndRowsStep(attempts: seq<CeleryTrace.Attempt>)
    requires attempts != []
    ensures EndRows(attempts) == Select(attempts[0].rows, KindIs(End)) + EndRows(attempts[1..])
  {
  }

  lemma TotalStep(attempts: seq<CeleryTrace.Attempt>, m: map<Key, nat>)
    requires attempts != [] && attempts[0].key in m
    ensures Total(KeysOf(attempts), m) == m[attempts[0].key] + Total(KeysOf(attempts[1..]), m)
  {
    assert KeysOf(attempts)[1..] == KeysOf(attempts[1..]);
  }

  /** One end for each attempt, carrying the calls of its job. */
  lemma {:induction false} EndsPerAttempt(plan: Plan, st: State, events: seq<Event>, attempts: seq<CeleryTrace.Attempt>)
    requires Done(plan, st) && Collected(st, events)
    requires forall a :: a in attempts ==> a.key in st.progress && a == Listed(events, a.key)
    ensures |EndRows(attempts)| == |attempts|
    ensures CallsOf(EndRows(attempts)) == Total(KeysOf(attempts), CallMap(plan, st))
  {
    if attempts != [] {
      assert Consistent(plan, st);
      hide Done, Collected, Listed, Select, CallsOf, EndRows, Total, KeysOf;
      var a, rest := attempts[0], attempts[1..];
      assert a in attempts;
      OneEnd(plan, st, events, a.key);
      EndsPerAttempt(plan, st, events, rest);
      EndRowsStep(attempts);
      TotalStep(attempts, CallMap(plan, st));
      CallsAppend(Select(a.rows, KindIs(End)), EndRows(rest));
    } else {
      assert EndRows(attempts) == [];
    }
  }

  function ValueIn(m: map<Key, nat>): Key -> nat {
    (k: Key) => if k in m then m[k] else 0
  }

  lemma {:induction false} TotalIsSumBy(keys: seq<Key>, m: map<Key, nat>)
    ensures Total(keys, m) == SumBy(keys, ValueIn(m))
  {
    if keys != [] {
      TotalIsSumBy(keys[1..], m);
    }
  }

  lemma TotalPermutes(keys: seq<Key>, others: seq<Key>, m: map<Key, nat>)
    requires multiset(keys) == multiset(others)
    ensures Total(keys, m) == Total(others, m)
  {
    TotalIsSumBy(keys, m);
    TotalIsSumBy(others, m);
    SumByPermutes(keys, others, ValueIn(m));
  }

  lemma {:induction false} TotalSplit(a: seq<Key>, b: seq<Key>, m: map<Key, nat>)
    ensures Total(a + b, m) == Total(a, m) + Total(b, m)
  {
    if a == [] {
      assert a + b == b;
    } else {
      TotalSplit(a[1..], b, m);
      assert (a + b)[1..] == a[1..] + b;
    }
  }

  lemma {:induction false} DistinctMultiset(keys: seq<Key>, k: Key)
    requires forall i, j :: 0 <= i < j < |keys| ==> keys[i] != keys[j]
    ensures multiset(keys)[k] == if k in keys then 1 else 0
  {
    if keys != [] {
      DistinctMultiset(keys[1..], k);
      assert keys == [keys[0]] + keys[1..];
    }
  }

  lemma TotalPair(a: Key, b: Key, m: map<Key, nat>)
    requires a in m && b in m
    ensures Total([a], m) == m[a] && Total([a, b], m) == m[a] + m[b]
  {
    assert [a, b][1..] == [b] && [b][1..] == [] && [a][1..] == [];
    assert Total([b], m) == m[b] + Total([], m);
    assert Total([a, b], m) == m[a] + Total([b], m);
  }

  lemma {:induction false} PlanLength(plan: Plan, j: nat)
    requires j <= |plan|
    ensures |KeysFrom(plan, j)| == PlannedAttempts(plan[j..])
    decreases |plan| - j
  {
    if j < |plan| {
      PlanLength(plan, j + 1);
      assert plan[j..][1..] == plan[j + 1..];
    }
  }

  lemma KeysFromStep(plan: Plan, j: nat)
    requires j < |plan|
    ensures KeysFrom(plan, j)
         == (if plan[j].retryOnce then [Key(j, 0), Key(j, 1)] else [Key(j, 0)]) + KeysFrom(plan, j + 1)
  {
  }

  lemma PlannedCallsStep(plan: Plan, j: nat)
    requires j < |plan|
    ensures PlannedCalls(plan[j..])
         == (if plan[j].retryOnce then 2 * plan[j].calls else plan[j].calls) + PlannedCalls(plan[j + 1..])
  {
    assert plan[j..][1..] == plan[j + 1..];
  }

  lemma {:induction false} PlanCalls(plan: Plan, j: nat, m: map<Key, nat>)
    requires j <= |plan|
    requires forall k :: Expected(plan, k) ==> k in m && m[k] == plan[k.job].calls
    ensures Total(KeysFrom(plan, j), m) == PlannedCalls(plan[j..])
    decreases |plan| - j
  {
    if j < |plan| {
      PlanCalls(plan, j + 1, m);
      hide Total, KeysFrom, PlannedCalls;
      KeysFromStep(plan, j);
      PlannedCallsStep(plan, j);
      assert Expected(plan, Key(j, 0));
      if plan[j].retryOnce {
        assert Expected(plan, Key(j, 1));
        TotalPair(Key(j, 0), Key(j, 1), m);
        TotalSplit([Key(j, 0), Key(j, 1)], KeysFrom(plan, j + 1), m);
      } else {
        TotalPair(Key(j, 0), Key(j, 0), m);
        TotalSplit([Key(j, 0)], KeysFrom(plan, j + 1), m);
      }
    } else {
      assert Total([], m) == 0;
    }
  }

  lemma OrderOfKeys(attempts: seq<CeleryTrace.Attempt>, keys: seq<Key>)
    requires DistinctAttempts(attempts)
    requires forall i, j :: 0 <= i < j < |keys| ==> keys[i] != keys[j]
    requires forall a :: a in attempts ==> a.key in keys
    requires forall k :: k in keys ==> exists a :: a in attempts && a.key == k
    ensures multiset(KeysOf(attempts)) == multiset(keys)
  {
    var order := KeysOf(attempts);
    assert forall i :: 0 <= i < |attempts| ==> order[i] == attempts[i].key;
    forall k ensures k in order <==> k in keys {
      if k in keys {
        var a :| a in attempts && a.key == k;
        var i :| 0 <= i < |attempts| && attempts[i] == a;
        assert order[i] == k;
      }
      if i :| 0 <= i < |attempts| && order[i] == k {
        assert attempts[i] in attempts;
      }
    }
    SameMultiset(order, keys);
  }

  /** The listed attempts are the planned ones, in some order. */
  lemma ListedArePlanned(plan: Plan, st: State, events: seq<Event>)
    requires Done(plan, st) && Collected(st, events)
    ensures multiset(KeysOf(Correlation(events).attempts)) == multiset(Keys(plan))
  {
    assert Consistent(plan, st);
    hide Done, Collected, Listed, Correlation, Keys;
    ListedAttempts(events);
    AttemptsAreTheKeys(plan, st);
    SameKeys(st, events);
    KeysAreExpected(plan, st);
    OrderOfKeys(Correlation(events).attempts, Keys(plan));
  }

  lemma SameMultiset(a: seq<Key>, b: seq<Key>)
    requires forall i, j :: 0 <= i < j < |a| ==> a[i] != a[j]
    requires forall i, j :: 0 <= i < j < |b| ==> b[i] != b[j]
    requires forall k :: k in a <==> k in b
    ensures multiset(a) == multiset(b)
  {
    forall k ensures multiset(a)[k] == multiset(b)[k] {
      DistinctMultiset(a, k);
      DistinctMultiset(b, k);
    }
  }

  /** Conservation: the report has one end per planned attempt and accounts for every planned provider call. */
  lemma EndsAndCalls(plan: Plan, st: State, events: seq<Event>)
    requires Done(plan, st) && Collected(st, events)
    ensures var ends := EndRows(Correlation(events).attempts);
      |ends| == PlannedAttempts(plan) && CallsOf(ends) == PlannedCalls(plan)
  {
    assert Consistent(plan, st);
    hide Done, Collected, Listed, Correlation;
    AllAreComplete(plan, st, events);
    var attempts := Correlation(events).attempts;
    EndsPerAttempt(plan, st, events, attempts);
    ListedArePlanned(plan, st, events);
    var keys, order := Keys(plan), KeysOf(attempts);
    assert |order| == |multiset(order)| && |keys| == |multiset(keys)|;
    TotalPermutes(order, keys, CallMap(plan, st));
    PlanLength(plan, 0);
    PlanCalls(plan, 0, CallMap(plan, st));
    assert plan[0..] == plan;
  }

  // ----- workers

  lemma SlotsDiffer(plan: Plan, st: State, a: Key, b: Key)
    requires Done(plan, st) && a in st.progress && b in st.progress && a != b
    requires Overlapped(st.progress[a], st.progress[b])
    ensures st.progress[a].slot != st.progress[b].slot
  {
  }

  lemma OnlyTwoPids(plan: Plan, st: State, e: Event)
    requires Done(plan, st) && e in st.log
    ensures e.pid.Some? ==> e.pid.value == 0 || e.pid.value == 1
  {
    assert Faithful(plan, st, e);
  }

  lemma MembersInOrder(events: seq<Event>)
    ensures forall e :: e in InOrder(events) <==> e in events
  {
    SortMembers(events, At);
  }

  lemma WorkerCount(plan: Plan, st: State, events: seq<Event>, a: Key, b: Key)
    requires Done(plan, st) && Collected(st, events) && a in st.progress && b in st.progress && a != b
    requires Overlapped(st.progress[a], st.progress[b])
    ensures Correlation(events).workerCount == 2
  {
    hide Done, Overlapped, InOrder, Workers;
    SlotsDiffer(plan, st, a, b);
    StartPid(plan, st, a);
    StartPid(plan, st, b);
    SameEvents(st, events);
    MembersInOrder(events);
    var w := Workers(InOrder(events));
    WorkersAreNumbered(InOrder(events));
    forall p | p in w ensures p == 0 || p == 1 {
      var e :| e in InOrder(events) && e.pid == Some(p);
      OnlyTwoPids(plan, st, e);
    }
    assert 0 in w && 1 in w;
    assert w.Keys == {0, 1};
    assert |w| == |w.Keys| == 2;
  }

  lemma StartPid(plan: Plan, st: State, k: Key)
    requires Done(plan, st) && k in st.progress
    ensures exists e :: e in st.log && e.pid == Some(SlotPid(st.progress[k].slot))
  {
    BoundariesOnce(plan, st, k, Start);
    var e := Select(st.log, Of(k, Start))[0];
    assert e in Select(st.log, Of(k, Start));
    assert Faithful(plan, st, e);
  }

  // ----- when the harness stops waiting

  /** The number of end events that the harness polls for. */
  function EndEvents(log: seq<Event>): nat {
    |Select(log, IsEnd)|
  }

  function IsEnd(e: Event): bool { e.kind.End? }

  /** The harness waits for one end more than there are jobs. */
  predicate WaitIsOver(plan: Plan, log: seq<Event>) {
    EndEvents(log) >= |plan| + 1
  }

  /** Every job of the batch was published, as it is once the producer has all results. */
  ghost predicate ProducerDone(plan: Plan, st: State)
    requires Consistent(plan, st)
  {
    forall j :: 0 <= j < |plan| ==> st.progress[Key(j, 0)].published
  }

  ghost function EndCounts(log: seq<Event>, keys: seq<Key>): map<Key, nat> {
    map k | k in keys :: CountEvents(log, k, End)
  }

  lemma EndEventsGrow(log: seq<Event>, e: Event)
    ensures EndEvents(log + [e]) == EndEvents(log) + One(e.kind.End?)
  {
    SelectAppend(log, e, IsEnd);
  }

  lemma {:induction false} EndsByKey(log: seq<Event>, keys: seq<Key>)
    requires forall i, j :: 0 <= i < j < |keys| ==> keys[i] != keys[j]
    requires forall e :: e in log ==> e.key in keys
    ensures EndEvents(log) == Total(keys, EndCounts(log, keys))
  {
    if log == [] {
      TotalZero(keys, EndCounts(log, keys));
    } else {
      var front, e := log[..|log| - 1], log[|log| - 1];
      assert log == front + [e];
      assert e in log;
      EndsByKey(front, keys);
      EndEventsGrow(front, e);
      forall k ensures CountEvents(log, k, End) == CountEvents(front, k, End) + One(e.key == k && e.kind == End) {
        CountGrows(front, e, k, End);
      }
      hide CountEvents, EndEvents, Total;
      TotalUpdate(keys, EndCounts(front, keys), EndCounts(log, keys), e.key);
    }
  }

  lemma {:induction false} TotalOfOnes(keys: seq<Key>, m: map<Key, nat>)
    requires forall k :: k in keys ==> k in m && m[k] <= 1
    ensures Total(keys, m) <= |keys|
    ensures Total(keys, m) == |keys| <==> forall k :: k in keys ==> m[k] == 1
  {
    if keys != [] {
      TotalOfOnes(keys[1..], m);
      assert keys[0] in keys && forall k :: k in keys <==> k == keys[0] || k in keys[1..];
    }
  }

  lemma EndedIsCounted(plan: Plan, st: State, k: Key)
    requires Consistent(plan, st) && LogInvariant(plan, st) && k in st.progress
    ensures CountEvents(st.log, k, End) == One(st.progress[k].ended)
  {
    hide CountEvents;
    assert Counted(st, k, End);
  }

  lemma LoggedKeys(plan: Plan, st: State)
    requires Consistent(plan, st) && LogInvariant(plan, st)
    ensures forall e :: e in st.log ==> e.key in Keys(plan)
  {
    KeysAreExpected(plan, st);
    hide Keys, LeftMap;
    forall e | e in st.log ensures e.key in Keys(plan) {
      assert Faithful(plan, st, e);
    }
  }

  /** There are never more ends than planned attempts, and as many exactly when all have ended. */
  lemma EndsAreBounded(plan: Plan, st: State)
    requires Consistent(plan, st) && LogInvariant(plan, st)
    ensures EndEvents(st.log) <= PlannedAttempts(plan)
    ensures EndEvents(st.log) == PlannedAttempts(plan) <==> forall k :: k in st.progress ==> st.progress[k].ended
  {
    var keys, counts := Keys(plan), EndCounts(st.log, Keys(plan));
    hide Keys, LeftMap, CountEvents, EndEvents, LogInvariant, Total, PlannedAttempts;
    KeysAreExpected(plan, st);
    LoggedKeys(plan, st);
    EndsByKey(st.log, keys);
    AllKeys(plan);
    forall k | k in st.progress ensures k in counts && counts[k] == One(st.progress[k].ended) {
      EndedIsCounted(plan, st, k);
    }
    TotalOfOnes(keys, counts);
  }

  lemma AllKeys(plan: Plan)
    ensures |Keys(plan)| == PlannedAttempts(plan)
  {
    PlanLength(plan, 0);
    assert plan[0..] == plan;
  }

  /** The producer publishes the first attempts; a retry is published before its first attempt ends. */
  lemma EndedIsComplete(plan: Plan, st: State)
    requires Invariant(plan, st) && ProducerDone(plan, st)
    ensures Complete(plan, st) <==> forall k :: k in st.progress ==> st.progress[k].ended
  {
    if forall k :: k in st.progress ==> st.progress[k].ended {
      forall k | k in st.progress ensures st.progress[k].published {
        if k.attempt == 1 {
          assert RetryLinked(plan, st, Key(k.job, 0));
        } else {
          assert k == Key(k.job, 0);
        }
      }
    }
  }

  /** With exactly one retrying job, the wait is over exactly when the run is complete. */
  lemma WaitMeansComplete(plan: Plan, st: State)
    requires Invariant(plan, st) && LogInvariant(plan, st) && ProducerDone(plan, st)
    requires PlannedAttempts(plan) == |plan| + 1
    ensures WaitIsOver(plan, st.log) <==> Complete(plan, st)
  {
    hide Invariant, LogInvariant, ProducerDone, Complete, EndEvents;
    assert Consistent(plan, st) by { InvariantConsistent(plan, st); }
    EndsAreBounded(plan, st);
    EndedIsComplete(plan, st);
  }

  lemma InvariantConsistent(plan: Plan, st: State)
    requires Invariant(plan, st)
    ensures Consistent(plan, st)
  {
  }

  /** Without a retrying job the harness waits until its deadline, however the run goes. */
  lemma WaitNeverEnds(plan: Plan, schedule: Schedule)
    requires Feasible(plan, Initial(plan), schedule) && PlannedAttempts(plan) == |plan|
    ensures !WaitIsOver(plan, Run(plan, Initial(plan), schedule).log)
  {
    ReachedStates(plan, schedule);
    EndsAreBounded(plan, Run(plan, Initial(plan), schedule));
  }

  lemma ReachedStates(plan: Plan, schedule: Schedule)
    requires Feasible(plan, Initial(plan), schedule)
    ensures Invariant(plan, Run(plan, Initial(plan), schedule))
        && LogInvariant(plan, Run(plan, Initial(plan), schedule))
  {
    InitialHolds(plan);
    InitialLog(plan);
    RunKeeps(plan, Initial(plan), schedule);
    RunKeepsLog(plan, Initial(plan), schedule);
  }

  /** A step adds at most one end. */
  lemma StepAddsOneEnd(plan: Plan, st: State, step: Step, elapsed: nat)
    requires Consistent(plan, st) && Enabled(plan, st, step)
    ensures EndEvents(st.log) <= EndEvents(Apply(plan, st, step, elapsed).log) <= EndEvents(st.log) + 1
  {
    StepAppends(plan, st, step, elapsed);
    var next := Apply(plan, st, step, elapsed);
    var logged := Logged(plan, st.progress[step.k], step, next.now);
    hide Apply, Logged, Enabled, EndEvents;
    if logged != [] {
      assert next.log == st.log + [logged[0]];
      EndEventsGrow(st.log, logged[0]);
    } else {
      assert next.log == st.log;
    }
  }

  /** On the way to a state with that many ends there is one with any smaller number. */
  lemma {:induction false} EndsPassThrough(plan: Plan, st: State, schedule: Schedule, n: nat) returns (i: nat)
    requires Consistent(plan, st) && Feasible(plan, st, schedule)
    requires EndEvents(st.log) <= n <= EndEvents(Run(plan, st, schedule).log)
    ensures i <= |schedule| && Feasible(plan, st, schedule[..i]) && EndEvents(Run(plan, st, schedule[..i]).log) == n
    decreases |schedule|
  {
    hide EndEvents, Apply, Enabled;
    if schedule == [] || EndEvents(st.log) == n {
      i := 0;
      assert schedule[..0] == [];
    } else {
      var (step, elapsed) := schedule[0];
      ApplyConsistent(plan, st, step, elapsed);
      StepAddsOneEnd(plan, st, step, elapsed);
      var rest := EndsPassThrough(plan, Apply(plan, st, step, elapsed), schedule[1..], n);
      i := rest + 1;
      assert schedule[..i][1..] == schedule[1..][..rest] && schedule[..i][0] == schedule[0];
    }
  }

  /** With two or more retrying jobs, every run that completes passes a state in which the wait is over too early. */
  lemma WaitEndsTooEarly(plan: Plan, schedule: Schedule) returns (i: nat)
    requires Feasible(plan, Initial(plan), schedule) && Complete(plan, Run(plan, Initial(plan), schedule))
    requires PlannedAttempts(plan) > |plan| + 1
    ensures i <= |schedule| && Feasible(plan, Initial(plan), schedule[..i])
    ensures var st := Run(plan, Initial(plan), schedule[..i]);
      WaitIsOver(plan, st.log) && !Complete(plan, st)
  {
    hide Invariant, EndEvents, PlannedAttempts, Feasible, Run, LogInvariant;
    ReachedStates(plan, schedule);
    EndsAreBounded(plan, Run(plan, Initial(plan), schedule));
    NoEndsYet(plan);
    i := EndsPassThrough(plan, Initial(plan), schedule, |plan| + 1);
    ReachedStates(plan, schedule[..i]);
    EndsAreBounded(plan, Run(plan, Initial(plan), schedule[..i]));
  }

  lemma NoEndsYet(plan: Plan)
    ensures EndEvents(Initial(plan).log) == 0
  {
  }

  // ----- main results

  /**
   Every completed run of a plan with at least two barrier jobs, however it interleaves and in whatever order its
   events arrive, passes all the checks of the harness: nothing incomplete or repeated, overlap observed on exactly two
   workers, one end per planned attempt, and all planned provider calls accounted for.
   */
  lemma TracedRunPasses(plan: Plan, schedule: Schedule, events: seq<Event>, i: nat, j: nat)
    requires Feasible(plan, Initial(plan), schedule)
    requires Complete(plan, Run(plan, Initial(plan), schedule)) && Collected(Run(plan, Initial(plan), schedule), events)
    requires i < j < |plan| && plan[i].barrier && plan[j].barrier
    requires forall h :: 0 <= h < |plan| && plan[h].barrier ==> plan[h].calls > 0
    ensures var report := Correlation(events);
      && report.incomplete == 0
      && report.duplicate == 0
      && report.overlap != []
      && report.workerCount == 2
      && |EndRows(report.attempts)| == PlannedAttempts(plan)
      && CallsOf(EndRows(report.attempts)) == PlannedCalls(plan)
  {
    InitialHolds(plan);
    InitialLog(plan);
    RunKeeps(plan, Initial(plan), schedule);
    RunKeepsLog(plan, Initial(plan), schedule);
    var st := Run(plan, Initial(plan), schedule);
    hide Run, Correlation;
    NothingIncomplete(plan, st, events);
    EndsAndCalls(plan, st, events);
    var a, b := BarrierForcesOverlap(plan, st, i, j);
    OverlapsReported(plan, st, events, a, b);
    WorkerCount(plan, st, events, a, b);
  }

  /** `plan(seed)`, without the identities and the hash iterations. */
  function BenchmarkPlan(): Plan {
    seq(6, index => Job(index < 2, index == 3, if index < 2 then 2 else 1))
  }

  lemma BenchmarkSums()
    ensures PlannedAttempts(BenchmarkPlan()) == 7 && PlannedCalls(BenchmarkPlan()) == 9
  {
    var plan := BenchmarkPlan();
    var one, two, retried := Job(false, false, 1), Job(true, false, 2), Job(false, true, 1);
    assert plan == [two, two, one, retried, one, one];
    assert plan[1..] == [two, one, retried, one, one];
    assert plan[1..][1..] == [one, retried, one, one];
    assert plan[1..][1..][1..] == [retried, one, one];
    assert plan[1..][1..][1..][1..] == [one, one];
    assert plan[1..][1..][1..][1..][1..] == [one];
  }

  /** With exactly two barrier jobs that do not retry, the report lists the overlap of these two. */
  lemma TheTwoAreReported(plan: Plan, schedule: Schedule, events: seq<Event>, i: nat, j: nat)
    requires Feasible(plan, Initial(plan), schedule)
    requires Complete(plan, Run(plan, Initial(plan), schedule)) && Collected(Run(plan, Initial(plan), schedule), events)
    requires i < j < |plan| && forall h :: 0 <= h < |plan| ==> (plan[h].barrier <==> h == i || h == j)
    requires plan[i].calls > 0 && plan[j].calls > 0 && !plan[i].retryOnce && !plan[j].retryOnce
    ensures OverlapReported(Correlation(events), Key(i, 0), Key(j, 0))
  {
    InitialHolds(plan);
    InitialLog(plan);
    RunKeeps(plan, Initial(plan), schedule);
    RunKeepsLog(plan, Initial(plan), schedule);
    var st := Run(plan, Initial(plan), schedule);
    hide Run, Correlation, Initial;
    TheTwoBarrierJobsOverlap(plan, st, i, j);
    OverlapsReported(plan, st, events, Key(i, 0), Key(j, 0));
  }

  lemma WaitCountsAll(plan: Plan, st: State, events: seq<Event>)
    requires Collected(st, events)
    ensures WaitIsOver(plan, events) <==> WaitIsOver(plan, st.log)
  {
    SelectPermutes(events, st.log, IsEnd);
  }

  /**
   The constants of the harness: when its wait is over, the report has 7 ends, 9 provider calls and the overlap of the
   two barrier jobs, in whatever order the events arrived.
   */
  lemma BenchmarkRunPasses(schedule: Schedule, events: seq<Event>)
    requires Feasible(BenchmarkPlan(), Initial(BenchmarkPlan()), schedule)
    requires ProducerDone(BenchmarkPlan(), Run(BenchmarkPlan(), Initial(BenchmarkPlan()), schedule))
    requires Collected(Run(BenchmarkPlan(), Initial(BenchmarkPlan()), schedule), events)
    requires WaitIsOver(BenchmarkPlan(), events)
    ensures var report := Correlation(events);
      && report.incomplete == 0 && report.duplicate == 0
      && OverlapReported(report, Key(0, 0), Key(1, 0))
      && |EndRows(report.attempts)| == 7
      && CallsOf(EndRows(report.attempts)) == 9
  {
    hide Correlation, PlannedAttempts, PlannedCalls, Feasible, Run, Complete, Initial, EndRows, CallsOf,
      OverlapReported, ProducerDone, WaitIsOver, Invariant, LogInvariant, Collected;
    BenchmarkSums();
    ReachedStates(BenchmarkPlan(), schedule);
    WaitCountsAll(BenchmarkPlan(), Run(BenchmarkPlan(), Initial(BenchmarkPlan()), schedule), events);
    WaitMeansComplete(BenchmarkPlan(), Run(BenchmarkPlan(), Initial(BenchmarkPlan()), schedule));
    TracedRunPasses(BenchmarkPlan(), schedule, events, 0, 1);
    TheTwoAreReported(BenchmarkPlan(), schedule, events, 0, 1);
  }
}

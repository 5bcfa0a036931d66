/**
 The transaction tracker of the import investigation (scripts/investigate_performance.py:485-541): how long
 each transaction held its first write, the sixteen longest ones, and the peaks. Times are integer ticks of
 `time.perf_counter`; the factor 1000 of the source only changes the unit.
 */
module TransactionWindows {
  import opened Text
  import opened StableSort

  const KEPT: nat := 16

  datatype Command = Begin | Write | Other

  datatype Outcome = Commit | Rollback

  /** `transaction_state` */
  datatype Open = Open(started: int, firstWriteStart: Option<int>, firstWriteEnd: Option<int>, writes: nat)

  datatype Sample = Sample(outcome: Outcome, writes: nat, atomic: int, firstWriteToEnd: int, afterFirstWrite: int)

  datatype Peaks = Peaks(atomic: int, firstWriteToEnd: int, afterFirstWrite: int)

  datatype Tracker = Tracker(open: Option<Open>, counts: map<Outcome, nat>, peaks: Peaks, samples: seq<Sample>)

  /** A statement with the clock before and after it, or the end of a transaction; either may raise. */
  datatype Signal =
    | Statement(command: Command, before: int, after: int, raised: bool)
    | Ending(outcome: Outcome, now: int, raised: bool)

  // ----- the specification

  function Initial(): Tracker {
    Tracker(None, map[], Peaks(0, 0, 0), [])
  }

  function OpenBefore(open: Option<Open>, command: Command, before: int): Option<Open> {
    if command.Begin? then Some(Open(before, None, None, 0))
    else if command.Write? && open.Some? then
      var o := open.value;
      Some(o.(writes := o.writes + 1,
              firstWriteStart := if o.firstWriteStart.None? then Some(before) else o.firstWriteStart))
    else open
  }

  function OpenAfter(open: Option<Open>, s: Signal): Option<Open>
    requires s.Statement?
  {
    var o := OpenBefore(open, s.command, s.before);
    if s.command.Write? && o.Some? && !s.raised && o.value.firstWriteEnd.None? then
      Some(o.value.(firstWriteEnd := Some(s.after)))
    else o
  }

  function SampleOf(o: Open, outcome: Outcome, now: int): Sample {
    Sample(outcome, o.writes, now - o.started,
           if o.firstWriteStart.Some? then now - o.firstWriteStart.value else 0,
           if o.firstWriteEnd.Some? then now - o.firstWriteEnd.value else 0)
  }

  /** The sample that a signal completes, if it completes one. */
  function Observed(t: Tracker, s: Signal): seq<Sample> {
    if s.Ending? && !s.raised && t.open.Some? then [SampleOf(t.open.value, s.outcome, s.now)] else []
  }

  function Larger(a: int, b: int): int { if b > a then b else a }

  function Raise(p: Peaks, x: Sample): Peaks {
    Peaks(Larger(p.atomic, x.atomic), Larger(p.firstWriteToEnd, x.firstWriteToEnd),
        Larger(p.afterFirstWrite, x.afterFirstWrite))
  }

  /** `sort(key=..., reverse=True)` keeps the order of equal keys, so it is the stable sort by the negated key. */
  function Descending(x: Sample): int {
    -x.firstWriteToEnd
  }

  function Take<T>(s: seq<T>, k: nat): seq<T> {
    if |s| <= k then s else s[..k]
  }

  function Keep(samples: seq<Sample>, x: Sample): seq<Sample> {
    Take(Sort(samples + [x], Descending), KEPT)
  }

  function Next(t: Tracker, s: Signal): Tracker {
    if s.Statement? then t.(open := OpenAfter(t.open, s))
    else if Observed(t, s) == [] then t
    else
      var x := Observed(t, s)[0];
      Tracker(None, t.counts[s.outcome := (if s.outcome in t.counts then t.counts[s.outcome] else 0) + 1],
              Raise(t.peaks, x), Keep(t.samples, x))
  }

  function After(signals: seq<Signal>): Tracker {
    if signals == [] then Initial() else Next(After(signals[..|signals| - 1]), signals[|signals| - 1])
  }

  /** Every sample that was ever completed, in order, kept or not. */
  function AllSamples(signals: seq<Signal>): seq<Sample> {
    if signals == [] then []
    else
      var front, last := signals[..|signals| - 1], signals[|signals| - 1];
      AllSamples(front) + Observed(After(front), last)
  }

  // ----- the tracker as the source writes it

  class Monitor {
    var open: Option<Open>
    var counts: map<Outcome, nat>
    var peaks: Peaks
    var samples: seq<Sample>

    ghost function State(): Tracker
      reads this
    {
      Tracker(open, counts, peaks, samples)
    }

    constructor ()
      ensures State() == Initial()
    {
      open, counts, peaks, samples := None, map[], Peaks(0, 0, 0), [];
    }

    /** The wrapper around every statement; `raised` says that the statement itself failed. */
    method Query(command: Command, before: int, after: int, raised: bool)
      modifies this
      ensures State() == Next(old(State()), Statement(command, before, after, raised))
    {
      if command.Begin? {
        open := Some(Open(before, None, None, 0));
      }
      var firstWrite := open.Some? && command.Write?;
      if firstWrite {
        open := Some(open.value.(writes := open.value.writes + 1));
        if open.value.firstWriteStart.None? {
          open := Some(open.value.(firstWriteStart := Some(before)));
        }
      }
      if !raised {
        if firstWrite && open.value.firstWriteEnd.None? {
          open := Some(open.value.(firstWriteEnd := Some(after)));
        }
      }
    }

    /** The wrapper around commit and rollback. */
    method Finish(outcome: Outcome, now: int, raised: bool)
      modifies this
      ensures State() == Next(old(State()), Ending(outcome, now, raised))
    {
      hide Sort, Larger;
      if raised {
        return;
      }
      if open.Some? {
        var o := open.value;
        var observed := Sample(outcome, o.writes, now - o.started,
                               if o.firstWriteStart.Some? then now - o.firstWriteStart.value else 0,
                               if o.firstWriteEnd.Some? then now - o.firstWriteEnd.value else 0);
        counts := counts[outcome := (if outcome in counts then counts[outcome] else 0) + 1];
        peaks := Peaks(Larger(peaks.atomic, observed.atomic), Larger(peaks.firstWriteToEnd, observed.firstWriteToEnd),
                       Larger(peaks.afterFirstWrite, observed.afterFirstWrite));
        samples := Sort(samples + [observed], Descending);
        if |samples| > KEPT {
          samples := samples[..KEPT];
        }
        open := None;
      }
    }
  }

  // ----- online against offline

  lemma {:induction false} InsertTake<T>(x: T, s: seq<T>, key: T -> int, k: nat)
    ensures Take(Insert(x, Take(s, k), key), k) == Take(Insert(x, s, key), k)
    decreases |s|
  {
    if s == [] || k == 0 {
    } else {
      var h, t := s[0], s[1..];
      assert s == [h] + t;
      TakeCons(h, t, k);
      InsertCons(x, h, t, key);
      InsertCons(x, h, Take(t, k - 1), key);
      InsertTake(x, t, key, k - 1);
      TakeCons(h, Insert(x, t, key), k);
      TakeCons(h, Insert(x, Take(t, k - 1), key), k);
      TakeCons(x, [h] + t, k);
      TakeCons(x, [h] + Take(t, k - 1), k);
      if k > 1 {
        TakeCons(h, t, k - 1);
        TakeCons(h, Take(t, k - 1), k - 1);
        TakeTake(t, k - 2, k - 1);
      }
    }
  }

  lemma TakeCons<T>(h: T, t: seq<T>, k: nat)
    requires k > 0
    ensures Take([h] + t, k) == [h] + Take(t, k - 1)
  {
  }

  lemma TakeTake<T>(s: seq<T>, k: nat, l: nat)
    requires k <= l
    ensures Take(Take(s, l), k) == Take(s, k)
  {
  }

  lemma TakeSorted<T(!new)>(s: seq<T>, key: T -> int, k: nat)
    requires Sorted(s, key)
    ensures Sorted(Take(s, k), key)
  {
  }

  /** Appending, sorting and truncating each time keeps what sorting everything at the end would keep, for any key. */
  lemma OnlineIsOffline<T(!new)>(history: seq<T>, x: T, key: T -> int, k: nat)
    ensures Take(Sort(Take(Sort(history, key), k) + [x], key), k) == Take(Sort(history + [x], key), k)
  {
    var sorted := Sort(history, key);
    SortSorted(history, key);
    TakeSorted(sorted, key, k);
    SortOfSorted(Take(sorted, k), key);
    SortAppend(Take(sorted, k), x, key);
    SortAppend(history, x, key);
    InsertTake(x, sorted, key, k);
  }

  /** A list that is sorted and truncated after every append. */
  function KeptOnline<T>(history: seq<T>, key: T -> int, k: nat): seq<T> {
    if history == [] then []
    else Take(Sort(KeptOnline(history[..|history| - 1], key, k) + [history[|history| - 1]], key), k)
  }

  /** So after any number of appends it is the beginning of the stable sort of everything. */
  lemma {:induction false} KeptIsTop<T(!new)>(history: seq<T>, key: T -> int, k: nat)
    ensures KeptOnline(history, key, k) == Take(Sort(history, key), k)
  {
    if history != [] {
      var front, last := history[..|history| - 1], history[|history| - 1];
      assert history == front + [last];
      hide Sort, Take;
      KeptIsTop(front, key, k);
      OnlineIsOffline(front, last, key, k);
    }
  }

  // ----- traces

  function First(s: Signal): int { if s.Statement? then s.before else s.now }
  function Last(s: Signal): int { if s.Statement? then s.after else s.now }

  /** The clock does not go back. */
  ghost predicate Chronological(signals: seq<Signal>) {
    && (forall i :: 0 <= i < |signals| ==> First(signals[i]) <= Last(signals[i]))
    && (forall i, j :: 0 <= i < j < |signals| ==> Last(signals[i]) <= First(signals[j]))
  }

  predicate OpenInOrder(o: Open, now: int) {
    && o.started <= now
    && (o.firstWriteStart.Some? ==> o.started <= o.firstWriteStart.value <= now)
    && (o.firstWriteEnd.Some? ==> o.firstWriteStart.Some? && o.firstWriteStart.value <= o.firstWriteEnd.value <= now)
  }

  predicate Nested(x: Sample) {
    0 <= x.afterFirstWrite <= x.firstWriteToEnd <= x.atomic
  }

  /** The peaks are reached by a sample, or zero, and no sample exceeds them. */
  ghost predicate PeakOf(peak: int, all: seq<Sample>, metric: Sample -> int) {
    && (forall x :: x in all ==> metric(x) <= peak)
    && (peak == 0 || exists x :: x in all && metric(x) == peak)
  }

  function Atomic(x: Sample): int { x.atomic }
  function FirstWriteToEnd(x: Sample): int { x.firstWriteToEnd }
  function AfterFirstWrite(x: Sample): int { x.afterFirstWrite }

  lemma PeakGrows(peak: int, all: seq<Sample>, metric: Sample -> int, x: Sample)
    requires PeakOf(peak, all, metric)
    ensures PeakOf(Larger(peak, metric(x)), all + [x], metric)
  {
    var more := all + [x];
    assert forall y :: y in more <==> y in all || y == x;
    if peak != 0 && !(metric(x) > peak) {
      var y :| y in all && metric(y) == peak;
      assert y in more;
    }
  }

  ghost predicate PeaksOf(p: Peaks, all: seq<Sample>) {
    && PeakOf(p.atomic, all, Atomic)
    && PeakOf(p.firstWriteToEnd, all, FirstWriteToEnd)
    && PeakOf(p.afterFirstWrite, all, AfterFirstWrite)
  }

  lemma PeaksGrow(p: Peaks, all: seq<Sample>, x: Sample)
    requires PeaksOf(p, all)
    ensures PeaksOf(Raise(p, x), all + [x])
  {
    hide PeakOf;
    PeakGrows(p.atomic, all, Atomic, x);
    PeakGrows(p.firstWriteToEnd, all, FirstWriteToEnd, x);
    PeakGrows(p.afterFirstWrite, all, AfterFirstWrite, x);
  }

  function CountOf(all: seq<Sample>, outcome: Outcome): nat {
    if all == [] then 0 else CountOf(all[..|all| - 1], outcome) + if all[|all| - 1].outcome == outcome then 1 else 0
  }

  ghost predicate Invariant(t: Tracker, all: seq<Sample>, now: int) {
    && (t.open.Some? ==> OpenInOrder(t.open.value, now))
    && (forall x :: x in all ==> Nested(x))
    && t.samples == Take(Sort(all, Descending), KEPT)
    && PeaksOf(t.peaks, all)
    && CountsOf(t.counts, all)
  }

  lemma SampleIsNested(o: Open, outcome: Outcome, now: int)
    requires OpenInOrder(o, now)
    ensures Nested(SampleOf(o, outcome, now))
  {
  }

  ghost predicate CountsOf(counts: map<Outcome, nat>, all: seq<Sample>) {
    forall o :: CountOf(all, o) == if o in counts then counts[o] else 0
  }

  lemma CountsGrow(counts: map<Outcome, nat>, all: seq<Sample>, x: Sample)
    requires CountsOf(counts, all)
    ensures CountsOf(counts[x.outcome := (if x.outcome in counts then counts[x.outcome] else 0) + 1], all + [x])
  {
    assert (all + [x])[..|all|] == all;
    forall o ensures CountOf(all + [x], o) == CountOf(all, o) + if x.outcome == o then 1 else 0 {
    }
    hide CountOf;
  }

  lemma StepKeeps(t: Tracker, all: seq<Sample>, earlier: int, s: Signal)
    requires Invariant(t, all, earlier) && earlier <= First(s) <= Last(s)
    ensures Invariant(Next(t, s), all + Observed(t, s), Last(s))
  {
    var more := all + Observed(t, s);
    hide Sort, Take, PeaksOf, Raise, Nested, CountsOf;
    if Observed(t, s) == [] {
      assert more == all;
    } else {
      var x := Observed(t, s)[0];
      assert more == all + [x];
      SampleIsNested(t.open.value, s.outcome, s.now);
      OnlineIsOffline(all, x, Descending, KEPT);
      PeaksGrow(t.peaks, all, x);
      CountsGrow(t.counts, all, x);
    }
  }

  lemma {:induction false} TraceKeeps(signals: seq<Signal>)
    requires Chronological(signals)
    ensures Invariant(After(signals), AllSamples(signals), if signals == [] then 0 else Last(signals[|signals| - 1]))
  {
    if signals != [] {
      var front, last := signals[..|signals| - 1], signals[|signals| - 1];
      assert forall i :: 0 <= i < |front| ==> front[i] == signals[i];
      TraceKeeps(front);
      if front == [] {
        assert Invariant(After(front), AllSamples(front), First(last));
        StepKeeps(After(front), AllSamples(front), First(last), last);
      } else {
        StepKeeps(After(front), AllSamples(front), Last(front[|front| - 1]), last);
      }
    }
  }

  /**
   For every trace whose clock does not go back: each observed window is nested in the next larger one, the
   kept list is the first sixteen of a stable descending sort of all samples, the peaks are the maxima over
   all of them, dropped ones included, and the counts are those of the outcomes.
   */
  lemma WindowsAndPeaks(signals: seq<Signal>)
    requires Chronological(signals)
    ensures var t, all := After(signals), AllSamples(signals);
      && (forall x :: x in all ==> Nested(x))
      && t.samples == Take(Sort(all, Descending), KEPT)
      && PeaksOf(t.peaks, all)
      && CountsOf(t.counts, all)
  {
    TraceKeeps(signals);
  }

  // ----- one transaction

  predicate IsWrite(s: Signal) { s.Statement? && s.command == Write }
  predicate IsDone(s: Signal) { s.Statement? && s.command == Write && !s.raised }
  predicate IsBegin(s: Signal) { s.Statement? && s.command == Begin }
  predicate IsEnd(s: Signal) { s.Ending? && !s.raised }

  /** What may stand between the beginning of a transaction and its end. */
  ghost predicate IsBody(body: seq<Signal>) {
    forall s :: s in body ==> !IsBegin(s) && !IsEnd(s)
  }

  function CountWrites(body: seq<Signal>): nat {
    if body == [] then 0
    else CountWrites(body[..|body| - 1]) + if IsWrite(body[|body| - 1]) then 1 else 0
  }

  ghost predicate FirstWrite(body: seq<Signal>, i: int) {
    0 <= i < |body| && IsWrite(body[i]) && forall j :: 0 <= j < i ==> !IsWrite(body[j])
  }

  ghost predicate FirstDone(body: seq<Signal>, i: int) {
    0 <= i < |body| && IsDone(body[i]) && forall j :: 0 <= j < i ==> !IsDone(body[j])
  }

  ghost predicate NoneIs(body: seq<Signal>, p: Signal -> bool) {
    forall j :: 0 <= j < |body| ==> !p(body[j])
  }

  /** The transaction that was begun at a time and went through the body. */
  ghost predicate Holds(o: Open, began: int, body: seq<Signal>) {
    && o.started == began && o.writes == CountWrites(body)
    && (if o.firstWriteStart.None? then NoneIs(body, IsWrite)
        else exists i :: FirstWrite(body, i) && o.firstWriteStart.value == body[i].before)
    && (if o.firstWriteEnd.None? then NoneIs(body, IsDone)
        else exists i :: FirstDone(body, i) && o.firstWriteEnd.value == body[i].after)
  }

  lemma WriteGrows(body: seq<Signal>, s: Signal)
    ensures CountWrites(body + [s]) == CountWrites(body) + if IsWrite(s) then 1 else 0
    ensures forall i :: FirstWrite(body, i) ==> 0 <= i < |body| && IsWrite(body[i]) && FirstWrite(body + [s], i)
    ensures forall i :: FirstDone(body, i) ==> 0 <= i < |body| && IsDone(body[i]) && FirstDone(body + [s], i)
    ensures NoneIs(body, IsWrite) && IsWrite(s) ==> FirstWrite(body + [s], |body|)
    ensures NoneIs(body, IsDone) && IsDone(s) ==> FirstDone(body + [s], |body|)
    ensures NoneIs(body, IsWrite) && !IsWrite(s) ==> NoneIs(body + [s], IsWrite)
    ensures NoneIs(body, IsDone) && !IsDone(s) ==> NoneIs(body + [s], IsDone)
  {
    assert (body + [s])[..|body|] == body;
    hide IsWrite, IsDone;
  }

  lemma HoldsGrows(t: Tracker, began: int, body: seq<Signal>, s: Signal)
    requires t.open.Some? && Holds(t.open.value, began, body) && !IsBegin(s) && !IsEnd(s)
    ensures Next(t, s).open.Some? && Holds(Next(t, s).open.value, began, body + [s])
  {
    hide CountWrites, FirstWrite, FirstDone, NoneIs;
    WriteGrows(body, s);
    var longer := body + [s];
    assert longer[|body|] == s && forall i :: 0 <= i < |body| ==> longer[i] == body[i];
  }

  lemma AfterStep(signals: seq<Signal>, s: Signal)
    ensures After(signals + [s]) == Next(After(signals), s)
  {
    assert (signals + [s])[..|signals|] == signals;
  }

  lemma {:induction false} OpenSays(history: seq<Signal>, begin: Signal, body: seq<Signal>)
    requires IsBegin(begin) && IsBody(body)
    ensures var open := After(history + [begin] + body).open;
      open.Some? && Holds(open.value, begin.before, body)
  {
    assert begin.Statement?;
    hide After, Holds, Next, IsBegin, IsEnd;
    AfterStep(history, begin);
    if body == [] {
      assert history + [begin] + body == history + [begin];
      Began(After(history), begin);
    } else {
      var front, s := body[..|body| - 1], body[|body| - 1];
      assert s in body && forall x :: x in front ==> x in body;
      OpenSays(history, begin, front);
      assert history + [begin] + body == (history + [begin] + front) + [s];
      AfterStep(history + [begin] + front, s);
      HoldsGrows(After(history + [begin] + front), begin.before, front, s);
      assert front + [s] == body;
    }
  }

  lemma Began(t: Tracker, begin: Signal)
    requires IsBegin(begin)
    ensures Next(t, begin).open.Some? && Holds(Next(t, begin).open.value, begin.before, [])
  {
  }

  /** The sample of a transaction, from its signals. */
  ghost predicate Measures(x: Sample, began: int, body: seq<Signal>, end: Signal)
    requires IsEnd(end)
  {
    && x.outcome == end.outcome && x.writes == CountWrites(body) && x.atomic == end.now - began
    && (forall i :: FirstWrite(body, i) ==> x.firstWriteToEnd == end.now - body[i].before)
    && (NoneIs(body, IsWrite) ==> x.firstWriteToEnd == 0)
    && (forall i :: FirstDone(body, i) ==> x.afterFirstWrite == end.now - body[i].after)
    && (NoneIs(body, IsDone) ==> x.afterFirstWrite == 0)
  }

  lemma SampleMeasures(o: Open, began: int, body: seq<Signal>, end: Signal)
    requires Holds(o, began, body) && IsEnd(end)
    ensures Measures(SampleOf(o, end.outcome, end.now), began, body, end)
  {
    assert forall i, j :: FirstWrite(body, i) && FirstWrite(body, j) ==> i == j;
    assert forall i, j :: FirstDone(body, i) && FirstDone(body, j) ==> i == j;
  }

  /**
   A transaction, whatever went before: its sample gives the time since it began, since the first write began, and since
   the first write that succeeded, and the number of writes; then nothing is open.
   */
  lemma TransactionIsMeasured(history: seq<Signal>, begin: Signal, body: seq<Signal>, end: Signal)
    requires IsBegin(begin) && IsBody(body) && IsEnd(end)
    ensures var before := history + [begin] + body;
      && (exists x ::
            && AllSamples(before + [end]) == AllSamples(before) + [x]
            && Measures(x, begin.before, body, end))
      && After(before + [end]).open == None
  {
    var before := history + [begin] + body;
    OpenSays(history, begin, body);
    AfterStep(before, end);
    assert (before + [end])[..|before|] == before;
    hide After, Holds, Measures, Keep, Raise;
    SampleMeasures(After(before).open.value, begin.before, body, end);
  }

  /** A transaction is open iff one was begun that has not ended since. */
  ghost predicate BegunAt(signals: seq<Signal>, i: int) {
    0 <= i < |signals| && IsBegin(signals[i]) && forall j :: i < j < |signals| ==> !IsEnd(signals[j])
  }

  lemma BegunStep(signals: seq<Signal>, s: Signal)
    ensures (exists i :: BegunAt(signals + [s], i)) <==> IsBegin(s) || (!IsEnd(s) && exists i :: BegunAt(signals, i))
  {
    var longer := signals + [s];
    hide IsBegin, IsEnd;
    if IsBegin(s) {
      assert BegunAt(longer, |signals|);
    } else if i :| BegunAt(longer, i) {
      assert i < |signals| && !IsEnd(longer[|signals|]);
      assert forall j :: 0 <= j < |signals| ==> longer[j] == signals[j];
      assert BegunAt(signals, i);
    }
    if i :| BegunAt(signals, i) && !IsEnd(s) {
      assert BegunAt(longer, i);
    }
  }

  lemma {:induction false} OpenIff(signals: seq<Signal>)
    ensures After(signals).open.Some? <==> exists i :: BegunAt(signals, i)
  {
    if signals != [] {
      var front, s := signals[..|signals| - 1], signals[|signals| - 1];
      OpenIff(front);
      BegunStep(front, s);
      AfterStep(front, s);
      assert signals == front + [s];
      hide After, BegunAt, Keep, Raise;
    }
  }

  /** Only the end of an open transaction gives a sample. */
  lemma OnlyEndsAreMeasured(signals: seq<Signal>, s: Signal)
    ensures AllSamples(signals + [s]) == AllSamples(signals)
       <==> !IsEnd(s) || forall i :: !BegunAt(signals, i)
  {
    OpenIff(signals);
    assert (signals + [s])[..|signals|] == signals;
    hide After, BegunAt;
  }

  // ----- the longest ones

  function Lasting(samples: seq<Sample>, length: int): seq<Sample> {
    if samples == [] then []
    else if samples[0].firstWriteToEnd == length then [samples[0]] + Lasting(samples[1..], length)
    else Lasting(samples[1..], length)
  }

  lemma {:induction false} LastingIs(samples: seq<Sample>, length: int)
    ensures Lasting(samples, length) == WithKey(samples, Descending, -length)
  {
    if samples != [] {
      LastingIs(samples[1..], length);
    }
  }

  lemma LastingCons(x: Sample, s: seq<Sample>, length: int)
    ensures Lasting([x] + s, length) == (if x.firstWriteToEnd == length then [x] else []) + Lasting(s, length)
  {
    assert ([x] + s)[1..] == s;
  }

  lemma {:induction false} LastingSplit(a: seq<Sample>, b: seq<Sample>, length: int)
    ensures Lasting(a + b, length) == Lasting(a, length) + Lasting(b, length)
  {
    if a == [] {
      assert a + b == b;
    } else {
      hide Lasting;
      LastingSplit(a[1..], b, length);
      LastingCons(a[0], a[1..] + b, length);
      LastingCons(a[0], a[1..], length);
      assert a == [a[0]] + a[1..] && a + b == [a[0]] + (a[1..] + b);
    }
  }

  /** What is left of all samples without the kept ones lasted no longer. */
  ghost predicate NoLonger(dropped: seq<Sample>, kept: seq<Sample>, all: seq<Sample>) {
    && multiset(kept) + multiset(dropped) == multiset(all)
    && forall x, y :: x in kept && y in dropped ==> x.firstWriteToEnd >= y.firstWriteToEnd
  }

  /** The kept list, in terms of all samples. */
  ghost predicate LongestOf(kept: seq<Sample>, all: seq<Sample>) {
    && |kept| == (if |all| < 16 then |all| else 16)
    && (forall i, j :: 0 <= i < j < |kept| ==> kept[i].firstWriteToEnd >= kept[j].firstWriteToEnd)
    && (exists dropped :: NoLonger(dropped, kept, all))
    && KeepsOrder(kept, all)
  }

  /** Of equal ones, those that were completed first are kept, in order. */
  ghost predicate KeepsOrder(kept: seq<Sample>, all: seq<Sample>) {
    forall length :: Lasting(kept, length) <= Lasting(all, length)
  }

  lemma KeptAreLonger(kept: seq<Sample>, dropped: seq<Sample>)
    requires Sorted(kept + dropped, Descending)
    ensures forall i, j :: 0 <= i < j < |kept| ==> kept[i].firstWriteToEnd >= kept[j].firstWriteToEnd
    ensures forall x, y :: x in kept && y in dropped ==> x.firstWriteToEnd >= y.firstWriteToEnd
  {
    var sorted := kept + dropped;
    forall i, j | 0 <= i < j < |sorted| ensures sorted[i].firstWriteToEnd >= sorted[j].firstWriteToEnd {
      assert Descending(sorted[i]) <= Descending(sorted[j]);
    }
    hide Sorted;
    assert forall i :: 0 <= i < |kept| ==> sorted[i] == kept[i];
    forall x, y | x in kept && y in dropped ensures x.firstWriteToEnd >= y.firstWriteToEnd {
      var i :| 0 <= i < |kept| && kept[i] == x;
      var j :| 0 <= j < |dropped| && dropped[j] == y;
      assert sorted[i] == x && sorted[|kept| + j] == y;
    }
  }

  lemma KeptInOrder(all: seq<Sample>, kept: seq<Sample>, dropped: seq<Sample>)
    requires kept + dropped == Sort(all, Descending)
    ensures KeepsOrder(kept, all)
  {
    hide Sort, Lasting;
    forall length ensures Lasting(kept, length) <= Lasting(all, length) {
      LastingIs(all, length);
      LastingIs(kept + dropped, length);
      SortStable(all, Descending, -length);
      LastingSplit(kept, dropped, length);
    }
  }

  lemma TakeIsShorter(sorted: seq<Sample>)
    ensures |Take(sorted, KEPT)| <= |sorted|
  {
  }

  lemma KeptAndDropped(sorted: seq<Sample>, kept: seq<Sample>, dropped: seq<Sample>)
    requires kept == Take(sorted, KEPT) && |kept| <= |sorted| && dropped == sorted[|kept|..]
    ensures kept + dropped == sorted && multiset(kept) + multiset(dropped) == multiset(sorted)
    ensures |kept| == if |sorted| < 16 then |sorted| else 16
  {
    assert kept + dropped == sorted;
  }

  lemma LongestAreKept(all: seq<Sample>)
    ensures LongestOf(Take(Sort(all, Descending), KEPT), all)
  {
    hide Sort, Sorted, Take, KeepsOrder;
    var sorted := Sort(all, Descending);
    var kept := Take(sorted, KEPT);
    SortPermutes(all, Descending);
    SortSorted(all, Descending);
    TakeIsShorter(sorted);
    var dropped := sorted[|kept|..];
    KeptAndDropped(sorted, kept, dropped);
    KeptAreLonger(kept, dropped);
    KeptInOrder(all, kept, dropped);
    assert NoLonger(dropped, kept, all);
    hide NoLonger;
  }

  /** Sixteen samples are kept, the longest first windows; of equal ones those that were completed first, in order. */
  lemma LongestWindows(signals: seq<Signal>)
    requires Chronological(signals)
    ensures LongestOf(After(signals).samples, AllSamples(signals))
  {
    WindowsAndPeaks(signals);
    LongestAreKept(AllSamples(signals));
  }
}

/**
 Drift of a memory series and deltas of cumulative counters (scripts/memory_aging_report.py:29-33, 97-202).
 Readings are integers (KiB, ticks, microseconds); the rounding for display and the unit of the readings are
 left out, the arithmetic is over rationals.
 */
module MemoryAging {
  import opened Text
  import opened StableSort

  // ----- trend

  datatype Point = Point(at: int, value: Option<int>)
  datatype Measured = Measured(at: int, value: int)

  datatype Trend = Trend(samples: nat, warmSamples: nat, span: int, first: int, last: int, peak: int,
                         median: real, early: real, late: real, drift: Option<real>)

  const SECONDS_PER_HOUR: int := 3600
  /** A quarter of an hour. */
  const MIN_DRIFT_SPAN: int := 900

  function Known(points: seq<Point>): seq<Measured> {
    if points == [] then []
    else if points[0].value.None? then Known(points[1..])
    else [Measured(points[0].at, points[0].value.value)] + Known(points[1..])
  }

  function Warm(measured: seq<Measured>, start: int, warmup: int): seq<Measured> {
    if measured == [] then []
    else if measured[0].at - start >= warmup then [measured[0]] + Warm(measured[1..], start, warmup)
    else Warm(measured[1..], start, warmup)
  }

  function Values(s: seq<Measured>): (v: seq<int>)
    ensures |v| == |s| && forall i :: 0 <= i < |s| ==> v[i] == s[i].value
  {
    seq(|s|, i requires 0 <= i < |s| => s[i].value)
  }

  function Itself(x: int): int { x }

  /** `statistics.median` */
  function Median(values: seq<int>): real
    requires values != []
  {
    SortPermutes(values, Itself);
    var sorted := Sort(values, Itself);
    var n := |sorted|;
    if n % 2 == 1 then sorted[n / 2] as real
    else (sorted[n / 2 - 1] as real + sorted[n / 2] as real) / 2.0
  }

  function MaxOf(values: seq<int>): (m: int)
    requires values != []
    ensures m in values && forall v :: v in values ==> v <= m
  {
    if |values| == 1 then values[0]
    else
      var rest := MaxOf(values[1..]);
      assert values == [values[0]] + values[1..];
      if values[0] > rest then values[0] else rest
  }

  function Quarter(n: nat): nat {
    if n / 4 > 1 then n / 4 else 1
  }

  /** The part that is looked at: behind the warm-up, or everything if nothing is. */
  function Window(measured: seq<Measured>, warmup: int): seq<Measured>
    requires measured != []
  {
    var warm := Warm(measured, measured[0].at, warmup);
    if warm == [] then measured else warm
  }

  function DriftOf(early: real, late: real, span: int): Option<real> {
    if span >= MIN_DRIFT_SPAN then Some((late - early) / (span as real / SECONDS_PER_HOUR as real)) else None
  }

  function TrendOf(points: seq<Point>, warmup: int): Option<Trend> {
    var measured := Known(points);
    if |measured| < 2 then None
    else
      var warm := Window(measured, warmup);
      var n := |warm|;
      var q := Quarter(n);
      var early, late := Median(Values(warm[..q])), Median(Values(warm[n - q..]));
      var span := warm[n - 1].at - warm[0].at;
      Some(Trend(|measured|, n, span, measured[0].value, measured[|measured| - 1].value, MaxOf(Values(measured)),
                 Median(Values(warm)), early, late, DriftOf(early, late, span)))
  }

  // ----- medians

  lemma MedianBounds(values: seq<int>, lo: int, hi: int)
    requires values != [] && forall v :: v in values ==> lo <= v <= hi
    ensures lo as real <= Median(values) <= hi as real
  {
    SortPermutes(values, Itself);
    SortMembers(values, Itself);
    var sorted := Sort(values, Itself);
    var n := |sorted|;
    assert sorted[n / 2] in sorted;
    if n % 2 == 0 {
      assert sorted[n / 2 - 1] in sorted;
    }
  }

  lemma SortIsCanonical(values: seq<int>, others: seq<int>)
    requires multiset(values) == multiset(others)
    ensures Sort(values, Itself) == Sort(others, Itself)
  {
    hide Sort;
    SortPermutes(values, Itself);
    SortPermutes(others, Itself);
    SortSorted(values, Itself);
    SortSorted(others, Itself);
    SameSorted(Sort(values, Itself), Sort(others, Itself));
  }

  /** The median does not depend on the order of the readings. */
  lemma MedianPermutes(values: seq<int>, others: seq<int>)
    requires values != [] && multiset(values) == multiset(others)
    ensures others != [] && Median(values) == Median(others)
  {
    assert |values| == |multiset(values)| && |others| == |multiset(others)|;
    SortIsCanonical(values, others);
    hide Sort;
  }

  lemma HeadBelow(a: seq<int>, b: seq<int>)
    requires Sorted(a, Itself) && multiset(a) == multiset(b) && a != [] && b != []
    ensures a[0] <= b[0]
  {
    assert b[0] in multiset(b);
    assert b[0] in a;
    var j :| 0 <= j < |a| && a[j] == b[0];
    assert Itself(a[0]) <= Itself(a[j]);
  }

  lemma TailMultiset(a: seq<int>)
    requires a != []
    ensures multiset(a[1..]) == multiset(a) - multiset{a[0]}
  {
    assert a == [a[0]] + a[1..];
  }

  lemma SameHead(a: seq<int>, b: seq<int>)
    requires Sorted(a, Itself) && Sorted(b, Itself) && multiset(a) == multiset(b) && a != []
    ensures b != [] && a[0] == b[0] && multiset(a[1..]) == multiset(b[1..])
  {
    hide Sorted;
    assert a[0] in multiset(b);
    HeadBelow(a, b);
    HeadBelow(b, a);
    TailMultiset(a);
    TailMultiset(b);
  }

  lemma {:induction false} SameSorted(a: seq<int>, b: seq<int>)
    requires Sorted(a, Itself) && Sorted(b, Itself) && multiset(a) == multiset(b)
    ensures a == b
  {
    if a == [] {
      assert |b| == |multiset(b)| == 0;
    } else {
      SameHead(a, b);
      SameSorted(a[1..], b[1..]);
      assert a == [a[0]] + a[1..] && b == [b[0]] + b[1..];
    }
  }

  // ----- the window

  lemma {:induction false} WarmMembers(measured: seq<Measured>, start: int, warmup: int)
    ensures forall x :: x in Warm(measured, start, warmup) ==> x in measured && x.at - start >= warmup
  {
    if measured != [] {
      WarmMembers(measured[1..], start, warmup);
    }
  }

  ghost predicate Rising(s: seq<Measured>) {
    forall i, j :: 0 <= i < j < |s| ==> s[i].value <= s[j].value
  }

  lemma {:induction false} WarmRising(measured: seq<Measured>, start: int, warmup: int)
    requires Rising(measured)
    ensures Rising(Warm(measured, start, warmup))
  {
    if measured != [] {
      WarmRising(measured[1..], start, warmup);
      var rest := Warm(measured[1..], start, warmup);
      WarmMembers(measured[1..], start, warmup);
      forall i | 0 <= i < |rest| ensures measured[0].value <= rest[i].value {
        assert rest[i] in measured[1..];
        var j :| 0 <= j < |measured| - 1 && measured[1..][j] == rest[i];
        assert measured[j + 1] == rest[i];
      }
    }
  }

  lemma WindowRising(measured: seq<Measured>, warmup: int)
    requires measured != [] && Rising(measured)
    ensures Rising(Window(measured, warmup))
  {
    WarmRising(measured, measured[0].at, warmup);
  }

  lemma WindowMembers(measured: seq<Measured>, warmup: int)
    requires measured != []
    ensures Window(measured, warmup) != [] && forall x :: x in Window(measured, warmup) ==> x in measured
  {
    WarmMembers(measured, measured[0].at, warmup);
  }

  /** In a rising window the first quarter lies below the last one. */
  lemma QuartersApart(warm: seq<Measured>)
    requires warm != [] && Rising(warm)
    ensures var q := Quarter(|warm|);
      Median(Values(warm[..q])) <= Median(Values(warm[|warm| - q..]))
  {
    var n := |warm|;
    var q := Quarter(n);
    var pivot := warm[q - 1].value;
    var early, late := Values(warm[..q]), Values(warm[n - q..]);
    assert forall v :: v in early ==> warm[0].value <= v <= pivot;
    assert forall v :: v in late ==> pivot <= v <= warm[n - 1].value;
    MedianBounds(early, warm[0].value, pivot);
    MedianBounds(late, pivot, warm[n - 1].value);
  }

  lemma DriftSign(early: real, late: real, span: int)
    requires span >= MIN_DRIFT_SPAN
    ensures early <= late ==> DriftOf(early, late, span).value >= 0.0
    ensures early == late ==> DriftOf(early, late, span) == Some(0.0)
  {
    var hours := span as real / SECONDS_PER_HOUR as real;
    assert hours > 0.0;
    if early <= late {
      assert (late - early) / hours >= 0.0;
    }
  }

  lemma TrendParts(points: seq<Point>, warmup: int)
    ensures var t, measured := TrendOf(points, warmup), Known(points);
      t.Some? ==>
        && |measured| >= 2
        && t.value.first == measured[0].value && t.value.last == measured[|measured| - 1].value
        && Window(measured, warmup) != []
        && var warm := Window(measured, warmup);
           var q := Quarter(|warm|);
           && t.value.early == Median(Values(warm[..q])) && t.value.late == Median(Values(warm[|warm| - q..]))
           && t.value.drift == DriftOf(t.value.early, t.value.late, t.value.span)
  {
    hide Median, MaxOf, Known, Window, Quarter, DriftOf, Values;
    if |Known(points)| >= 2 {
      WindowMembers(Known(points), warmup);
    }
  }

  /** A series that never falls has no negative drift, and a constant one none at all. */
  lemma DriftSoundness(points: seq<Point>, warmup: int)
    requires Rising(Known(points))
    ensures var t := TrendOf(points, warmup);
      t.Some? && t.value.drift.Some? ==>
        && t.value.drift.value >= 0.0
        && (t.value.first == t.value.last ==> t.value.drift.value == 0.0)
  {
    hide Median, MaxOf, TrendOf, Known, Window, Quarter, Rising;
    TrendParts(points, warmup);
    var t, measured := TrendOf(points, warmup), Known(points);
    if t.Some? && t.value.drift.Some? {
      WindowRising(measured, warmup);
      WindowMembers(measured, warmup);
      QuartersApart(Window(measured, warmup));
      if t.value.first == t.value.last {
        ConstantQuarters(measured, Window(measured, warmup));
      }
      DriftSign(t.value.early, t.value.late, t.value.span);
    }
  }

  lemma ConstantQuarters(measured: seq<Measured>, warm: seq<Measured>)
    requires measured != [] && warm != [] && Rising(measured) && forall x :: x in warm ==> x in measured
    requires measured[0].value == measured[|measured| - 1].value
    ensures var q := Quarter(|warm|);
      Median(Values(warm[..q])) == Median(Values(warm[|warm| - q..]))
  {
    var n, q, c := |warm|, Quarter(|warm|), measured[0].value;
    forall x | x in measured ensures x.value == c {
      var i :| 0 <= i < |measured| && measured[i] == x;
    }
    forall i | 0 <= i < n ensures warm[i].value == c {
      assert warm[i] in warm;
    }
    MedianBounds(Values(warm[..q]), c, c);
    MedianBounds(Values(warm[n - q..]), c, c);
  }

  lemma WindowBounds(measured: seq<Measured>, warmup: int, lo: int, hi: int)
    requires measured != [] && hi == MaxOf(Values(measured))
    requires forall x :: x in measured ==> lo <= x.value
    ensures forall i :: 0 <= i < |Window(measured, warmup)| ==> lo <= Window(measured, warmup)[i].value <= hi
  {
    WindowMembers(measured, warmup);
    hide Window, MaxOf;
    var warm := Window(measured, warmup);
    forall i | 0 <= i < |warm| ensures lo <= warm[i].value <= hi {
      assert warm[i] in warm;
      var j :| 0 <= j < |measured| && measured[j] == warm[i];
      assert Values(measured)[j] in Values(measured);
    }
  }

  /**
   For every series: the reported middles lie between the extremes, and drift is unknown exactly for short windows.
   */
  lemma TrendBounds(points: seq<Point>, warmup: int, lo: int)
    requires forall x :: x in Known(points) ==> lo <= x.value
    ensures var t := TrendOf(points, warmup);
      t.Some? ==>
        && lo as real <= t.value.early <= t.value.peak as real
        && lo as real <= t.value.late <= t.value.peak as real
        && lo as real <= t.value.median <= t.value.peak as real
        && (t.value.drift.None? <==> t.value.span < MIN_DRIFT_SPAN)
  {
    var t := TrendOf(points, warmup);
    if t.Some? {
      TrendParts(points, warmup);
      var warm := Window(Known(points), warmup);
      var n, q, hi := |warm|, Quarter(|warm|), t.value.peak;
      WindowBounds(Known(points), warmup, lo, hi);
      hide Median, Known, Window, MaxOf;
      MedianBounds(Values(warm[..q]), lo, hi);
      MedianBounds(Values(warm[n - q..]), lo, hi);
      MedianBounds(Values(warm), lo, hi);
    }
  }

  // ----- deltas of cumulative counters

  datatype Name = CgroupCpu | Pressure(scope: Scope, kind: Resource, level: Level)
  datatype Scope = Global | Cgroup
  datatype Resource = Cpu | Memory | Io
  datatype Level = SomeStalled | FullStalled

  const MICROSECONDS: int := 1_000_000

  datatype Snapshot = Snapshot(boot: Option<string>, ticks: Option<int>, cpu: map<string, nat>,
          counters: map<Name, int>)

  function SameBoot(before: Snapshot, after: Snapshot): bool {
    before.boot.Some? && before.boot == after.boot
  }

  function Delta(sameBoot: bool, first: Option<int>, last: Option<int>, scale: int): Option<real>
    requires scale != 0
  {
    if !sameBoot || first.None? || last.None? || last.value < first.value then None
    else Some((last.value - first.value) as real / scale as real)
  }

  function Counter(s: Snapshot, name: Name): Option<int> {
    if name in s.counters then Some(s.counters[name]) else None
  }

  function CounterDelta(before: Snapshot, after: Snapshot, name: Name): Option<real> {
    Delta(SameBoot(before, after), Counter(before, name), Counter(after, name), MICROSECONDS)
  }

  predicate IsIdle(key: string) {
    key == "idle" || key == "iowait"
  }

  ghost function PickKey(keys: set<string>): (k: string)
    requires keys != {}
    ensures k in keys
  {
    var k :| k in keys; k
  }

  ghost predicate Matches(which: Option<bool>, key: string) {
    which.None? || which.value == IsIdle(key)
  }

  /** The ticks of all keys, or only of the idle or only of the busy ones. */
  ghost function Ticks(cpu: map<string, nat>, keys: set<string>, which: Option<bool>): nat
    requires keys <= cpu.Keys
    decreases |keys|
  {
    if keys == {} then 0
    else
      var k := PickKey(keys);
      (if Matches(which, k) then cpu[k] else 0) + Ticks(cpu, keys - {k}, which)
  }

  ghost function TotalTicks(s: Snapshot): nat { Ticks(s.cpu, s.cpu.Keys, None) }
  ghost function BusyTicks(s: Snapshot): nat { Ticks(s.cpu, s.cpu.Keys, Some(false)) }
  ghost function IdleTicks(s: Snapshot): nat { Ticks(s.cpu, s.cpu.Keys, Some(true)) }

  predicate CpuComparable(before: Snapshot, after: Snapshot) {
    && before.cpu != map[] && after.cpu != map[]
    && before.ticks.Some? && before.ticks.value != 0 && before.ticks == after.ticks
    && before.cpu.Keys == after.cpu.Keys
  }

  ghost function CpuDelta(before: Snapshot, after: Snapshot, which: Option<bool>): Option<real> {
    if !CpuComparable(before, after) then None
    else
      Delta(SameBoot(before, after), Some(Ticks(before.cpu, before.cpu.Keys, which)),
            Some(Ticks(after.cpu, after.cpu.Keys, which)), before.ticks.value)
  }

  ghost function TotalCpuDelta(before: Snapshot, after: Snapshot): Option<real> { CpuDelta(before, after, None) }
  ghost function BusyCpuDelta(before: Snapshot, after: Snapshot): Option<real> { CpuDelta(before, after, Some(false)) }

  lemma {:induction false} TicksSplit(cpu: map<string, nat>, keys: set<string>)
    requires keys <= cpu.Keys
    ensures Ticks(cpu, keys, None) == Ticks(cpu, keys, Some(true)) + Ticks(cpu, keys, Some(false))
    decreases |keys|
  {
    if keys != {} {
      TicksSplit(cpu, keys - {PickKey(keys)});
    }
  }

  /** The sum does not depend on the order in which the dictionary lists its keys. */
  lemma {:induction false} TicksRemove(cpu: map<string, nat>, keys: set<string>, which: Option<bool>, k: string)
    requires keys <= cpu.Keys && k in keys
    ensures Ticks(cpu, keys, which) == (if Matches(which, k) then cpu[k] else 0) + Ticks(cpu, keys - {k}, which)
    decreases |keys|
  {
    var picked := PickKey(keys);
    if picked != k {
      TicksRemove(cpu, keys - {picked}, which, k);
      assert keys - {picked} - {k} == keys - {k} - {picked};
      TicksRemove(cpu, keys - {k}, which, picked);
    }
  }

  /** The sum of all ticks and the sum without the idle keys. */
  method SumTicks(cpu: map<string, nat>) returns (total: nat, busy: nat)
    ensures total == Ticks(cpu, cpu.Keys, None) && busy == Ticks(cpu, cpu.Keys, Some(false))
  {
    total, busy := 0, 0;
    var keys := cpu.Keys;
    while keys != {}
      invariant keys <= cpu.Keys
      invariant total + Ticks(cpu, keys, None) == Ticks(cpu, cpu.Keys, None)
      invariant busy + Ticks(cpu, keys, Some(false)) == Ticks(cpu, cpu.Keys, Some(false))
      decreases |keys|
    {
      var k :| k in keys;
      TicksRemove(cpu, keys, None, k);
      TicksRemove(cpu, keys, Some(false), k);
      total := total + cpu[k];
      if !IsIdle(k) {
        busy := busy + cpu[k];
      }
      keys := keys - {k};
    }
  }

  /** Whether `delta` reports a reset between two known readings of one boot. */
  predicate IsReset(sameBoot: bool, first: Option<int>, last: Option<int>) {
    sameBoot && first.Some? && last.Some? && last.value < first.value
  }

  datatype Report = Report(busy: Option<real>, total: Option<real>, counters: map<Name, Option<real>>,
          otherBoot: bool, reset: bool)

  /** `resource_delta`: every difference, and the two warnings. */
  method ResourceDelta(before: Snapshot, after: Snapshot) returns (r: Report)
    ensures r.busy == BusyCpuDelta(before, after) && r.total == TotalCpuDelta(before, after)
    ensures forall name :: name in r.counters && r.counters[name] == CounterDelta(before, after, name)
    ensures r.otherBoot == !SameBoot(before, after)
    ensures r.reset <==>
              || (exists name :: IsReset(SameBoot(before, after), Counter(before, name), Counter(after, name)))
              || (CpuComparable(before, after) && SameBoot(before, after)
                  && (TotalTicks(after) < TotalTicks(before) || BusyTicks(after) < BusyTicks(before)))
  {
    var same := SameBoot(before, after);
    var reset := false;
    var busy, total: Option<real> := None, None;
    if CpuComparable(before, after) {
      var total0, busy0 := SumTicks(before.cpu);
      var total1, busy1 := SumTicks(after.cpu);
      total := Delta(same, Some(total0), Some(total1), before.ticks.value);
      busy := Delta(same, Some(busy0), Some(busy1), before.ticks.value);
      reset := same && (total1 < total0 || busy1 < busy0);
    }
    ghost var cpuReset := reset;
    var names := [CgroupCpu,
                  Pressure(Global, Cpu, SomeStalled), Pressure(Global, Cpu, FullStalled),
                  Pressure(Global, Memory, SomeStalled), Pressure(Global, Memory, FullStalled),
                  Pressure(Global, Io, SomeStalled), Pressure(Global, Io, FullStalled),
                  Pressure(Cgroup, Cpu, SomeStalled), Pressure(Cgroup, Cpu, FullStalled),
                  Pressure(Cgroup, Memory, SomeStalled), Pressure(Cgroup, Memory, FullStalled),
                  Pressure(Cgroup, Io, SomeStalled), Pressure(Cgroup, Io, FullStalled)];
    assert forall name: Name :: name in names by {
      forall name: Name ensures name in names {
        AllNames(name);
      }
    }
    var counters := CounterDeltas(before, after, names);
    var counterReset := AnyReset(before, after, names);
    r := Report(busy, total, counters, !same, reset || counterReset);
  }

  lemma AllNames(name: Name)
    ensures name == CgroupCpu
         || (name.Pressure? && (name.scope == Global || name.scope == Cgroup)
             && (name.kind == Cpu || name.kind == Memory || name.kind == Io)
             && (name.level == SomeStalled || name.level == FullStalled))
  {
  }

  method CounterDeltas(before: Snapshot, after: Snapshot, names: seq<Name>) returns (counters: map<Name, Option<real>>)
    ensures forall name :: name in names ==> name in counters && counters[name] == CounterDelta(before, after, name)
  {
    counters := map[];
    for i := 0 to |names|
      invariant forall name :: name in names[..i] ==>
                  name in counters && counters[name] == CounterDelta(before, after, name)
    {
      counters := counters[names[i] := Delta(SameBoot(before, after), Counter(before, names[i]),
          Counter(after, names[i]), MICROSECONDS)];
    }
  }

  method AnyReset(before: Snapshot, after: Snapshot, names: seq<Name>) returns (reset: bool)
    ensures reset <==> exists name ::
              name in names && IsReset(SameBoot(before, after), Counter(before, name), Counter(after, name))
  {
    reset := false;
    for i := 0 to |names|
      invariant reset <==> exists name ::
                  name in names[..i] && IsReset(SameBoot(before, after), Counter(before, name), Counter(after, name))
    {
      if IsReset(SameBoot(before, after), Counter(before, names[i]), Counter(after, names[i])) {
        reset := true;
      }
    }
  }

  lemma DivideMonotone(a: int, b: int, scale: int)
    requires scale > 0
    ensures a <= b <==> a as real / scale as real <= b as real / scale as real
  {
    if a < b {
      assert (b - a) as real / scale as real > 0.0;
    } else {
      assert (a - b) as real / scale as real >= 0.0;
    }
  }

  /**
   A known delta is not negative, and busy time lies within a known total exactly if the idle counters did not go
   back.
   */
  lemma BusyWithinTotal(before: Snapshot, after: Snapshot)
    requires before.ticks.Some? ==> before.ticks.value >= 0
    ensures var busy, total := BusyCpuDelta(before, after), TotalCpuDelta(before, after);
      busy.Some? ==>
        && busy.value >= 0.0
        && ((total.Some? && busy.value <= total.value) <==> IdleTicks(before) <= IdleTicks(after))
  {
    TicksSplit(before.cpu, before.cpu.Keys);
    TicksSplit(after.cpu, after.cpu.Keys);
    if BusyCpuDelta(before, after).Some? {
      var scale, busy, total := before.ticks.value, BusyTicks(after) - BusyTicks(before),
          TotalTicks(after) - TotalTicks(before);
      DivideMonotone(0, busy, scale);
      DivideMonotone(busy, total, scale);
    }
  }

  // ----- telescoping

  /** A reading of one counter: whether it is known, and on which boot. */
  datatype Reading = Reading(boot: Option<string>, value: Option<int>)

  function Step(a: Reading, b: Reading, scale: int): Option<real>
    requires scale != 0
  {
    Delta(a.boot.Some? && a.boot == b.boot, a.value, b.value, scale)
  }

  ghost predicate Unbroken(readings: seq<Reading>, scale: int)
    requires scale != 0
  {
    forall i {:trigger readings[i]} :: 0 <= i < |readings| - 1 ==> Step(readings[i], readings[i + 1], scale).Some?
  }

  function StepSum(readings: seq<Reading>, scale: int): real
    requires scale != 0
    decreases |readings|
  {
    if |readings| < 2 then 0.0
    else
      var last := Step(readings[|readings| - 2], readings[|readings| - 1], scale);
      StepSum(readings[..|readings| - 1], scale) + if last.Some? then last.value else 0.0
  }

  lemma AddFractions(a: int, b: int, c: int, scale: int)
    requires scale > 0
    ensures (b - a) as real / scale as real + (c - b) as real / scale as real == (c - a) as real / scale as real
  {
  }

  lemma StepsCompose(a: Reading, b: Reading, c: Reading, scale: int)
    requires scale > 0
    ensures Step(a, b, scale).Some? ==> Step(a, b, scale).value >= 0.0
    ensures Step(a, b, scale).Some? && Step(b, c, scale).Some? ==>
              Step(a, c, scale) == Some(Step(a, b, scale).value + Step(b, c, scale).value)
  {
    if Step(a, b, scale).Some? {
      DivideMonotone(0, b.value.value - a.value.value, scale);
      if Step(b, c, scale).Some? {
        AddFractions(a.value.value, b.value.value, c.value.value, scale);
      }
    }
  }

  /** When every consecutive delta is known, so is the one from end to end, and it is their sum. */
  lemma {:induction false} DeltasTelescope(readings: seq<Reading>, scale: int)
    requires scale > 0 && |readings| >= 2 && Unbroken(readings, scale)
    ensures Step(readings[0], readings[|readings| - 1], scale) == Some(StepSum(readings, scale))
    ensures StepSum(readings, scale) >= 0.0
    decreases |readings|
  {
    hide Step;
    var n := |readings|;
    var front := readings[..n - 1];
    assert readings[n - 2] == front[n - 2];
    assert Step(readings[n - 2], readings[n - 1], scale).Some?;
    if n == 2 {
      assert StepSum(front, scale) == 0.0;
    } else {
      forall i | 0 <= i < |front| - 1 ensures Step(front[i], front[i + 1], scale).Some? {
        assert front[i] == readings[i] && front[i + 1] == readings[i + 1];
      }
      DeltasTelescope(front, scale);
      StepsCompose(readings[0], readings[n - 2], readings[n - 1], scale);
    }
    StepsCompose(readings[0], readings[n - 1], readings[n - 1], scale);
  }

  /** Every reading is known and of the same boot. */
  predicate OneBoot(readings: seq<Reading>) {
    forall r :: r in readings ==> r.boot.Some? && r.boot == readings[0].boot && r.value.Some?
  }

  /** The plain difference from end to end. */
  function RawDelta(readings: seq<Reading>, scale: int): real
    requires readings != [] && OneBoot(readings) && scale != 0
  {
    assert readings[0] in readings && readings[|readings| - 1] in readings;
    (readings[|readings| - 1].value.value - readings[0].value.value) as real / scale as real
  }

  /** One more reading: what it adds to the plain difference, and to the sum of the known deltas. */
  lemma RawGrows(readings: seq<Reading>, scale: int)
    requires |readings| >= 2 && OneBoot(readings) && scale > 0
    ensures var n, front := |readings|, readings[..|readings| - 1];
      && OneBoot(front)
      && var a, b := readings[n - 2].value.value, readings[n - 1].value.value;
         && RawDelta(readings, scale) == RawDelta(front, scale) + (b - a) as real / scale as real
         && (Step(readings[n - 2], readings[n - 1], scale).Some? <==> a <= b)
         && StepSum(readings, scale)
            == StepSum(front, scale) + (if a <= b then (b - a) as real / scale as real else 0.0)
         && (a <= b <==> (b - a) as real / scale as real >= 0.0)
  {
    var n, front := |readings|, readings[..|readings| - 1];
    assert readings[0] in readings && readings[n - 2] in readings && readings[n - 1] in readings;
    assert front[0] == readings[0] && front[n - 2] == readings[n - 2];
    var first, a, b := readings[0].value.value, readings[n - 2].value.value, readings[n - 1].value.value;
    AddFractions(first, a, b, scale);
    DivideMonotone(0, b - a, scale);
  }

  lemma UnbrokenGrows(readings: seq<Reading>, scale: int)
    requires |readings| >= 2 && scale != 0
    ensures var n := |readings|;
      Unbroken(readings, scale)
      <==> Unbroken(readings[..n - 1], scale) && Step(readings[n - 2], readings[n - 1], scale).Some?
  {
    hide Step;
    var n, front := |readings|, readings[..|readings| - 1];
    assert forall i {:trigger front[i]} :: 0 <= i < n - 2 ==>
             front[i] == readings[i] && front[i + 1] == readings[i + 1];
    if Unbroken(front, scale) && Step(readings[n - 2], readings[n - 1], scale).Some? {
      forall i | 0 <= i < n - 1 ensures Step(readings[i], readings[i + 1], scale).Some? {
        if i < n - 2 {
          assert front[i] == readings[i];
        }
      }
    }
    if Unbroken(readings, scale) {
      forall i | 0 <= i < n - 2 ensures Step(front[i], front[i + 1], scale).Some? {
        assert front[i] == readings[i];
      }
      assert readings[n - 2] == readings[n - 2];
    }
  }

  /**
   Among known readings of one boot the plain difference is at most the sum of the deltas, and equal iff nothing went
   back.
   */
  lemma {:induction false} ResetsAreLost(readings: seq<Reading>, scale: int)
    requires readings != [] && OneBoot(readings) && scale > 0
    ensures RawDelta(readings, scale) <= StepSum(readings, scale)
    ensures RawDelta(readings, scale) == StepSum(readings, scale) <==> Unbroken(readings, scale)
    decreases |readings|
  {
    if |readings| > 1 {
      RawGrows(readings, scale);
      UnbrokenGrows(readings, scale);
      hide Step, StepSum, RawDelta, Unbroken, OneBoot;
      ResetsAreLost(readings[..|readings| - 1], scale);
    }
  }

  lemma {:induction false} StepSumPositive(readings: seq<Reading>, scale: int)
    requires scale > 0
    ensures StepSum(readings, scale) >= 0.0
    decreases |readings|
  {
    if |readings| >= 2 {
      StepSumPositive(readings[..|readings| - 1], scale);
      StepsCompose(readings[|readings| - 2], readings[|readings| - 1], readings[|readings| - 1], scale);
    }
  }

  /** No reading is below the one before it. */
  predicate NeverFalls(readings: seq<Reading>)
    requires OneBoot(readings)
  {
    forall i :: 0 <= i < |readings| - 1 ==> RisesAt(readings, i)
  }

  predicate RisesAt(readings: seq<Reading>, i: nat)
    requires OneBoot(readings) && i + 1 < |readings|
  {
    assert readings[i] in readings && readings[i + 1] in readings;
    readings[i].value.value <= readings[i + 1].value.value
  }

  lemma StepRises(readings: seq<Reading>, scale: int, i: nat)
    requires OneBoot(readings) && scale > 0 && i + 1 < |readings|
    ensures RisesAt(readings, i) <==> Step(readings[i], readings[i + 1], scale).Some?
  {
    assert readings[i] in readings && readings[i + 1] in readings;
  }

  lemma UnbrokenRises(readings: seq<Reading>, scale: int)
    requires OneBoot(readings) && scale > 0
    ensures Unbroken(readings, scale) <==> NeverFalls(readings)
  {
    hide Step, RisesAt, OneBoot;
    if NeverFalls(readings) {
      forall i | 0 <= i < |readings| - 1 ensures Step(readings[i], readings[i + 1], scale).Some? {
        assert RisesAt(readings, i);
        StepRises(readings, scale, i);
      }
    }
    if Unbroken(readings, scale) {
      forall i | 0 <= i < |readings| - 1 ensures RisesAt(readings, i) {
        assert Step(readings[i], readings[i + 1], scale).Some?;
        StepRises(readings, scale, i);
      }
    }
  }

  lemma WholeStep(readings: seq<Reading>, scale: int)
    requires readings != [] && OneBoot(readings) && scale > 0
    ensures Step(readings[0], readings[|readings| - 1], scale)
         == if RawDelta(readings, scale) >= 0.0 then Some(RawDelta(readings, scale)) else None
  {
    var first, last := readings[0], readings[|readings| - 1];
    assert first in readings && last in readings;
    DivideMonotone(0, last.value.value - first.value.value, scale);
  }

  /** So the end-to-end delta is right exactly when no reading goes back; when it is known, it is never too large. */
  lemma EndToEndIsRightIff(readings: seq<Reading>, scale: int)
    requires readings != [] && OneBoot(readings) && scale > 0
    ensures var whole := Step(readings[0], readings[|readings| - 1], scale);
      && (whole == Some(StepSum(readings, scale)) <==> NeverFalls(readings))
      && (whole.Some? ==> whole.value <= StepSum(readings, scale))
  {
    hide Step, StepSum, RawDelta, Unbroken, OneBoot, NeverFalls;
    ResetsAreLost(readings, scale);
    UnbrokenRises(readings, scale);
    WholeStep(readings, scale);
    StepSumPositive(readings, scale);
  }

  /** A witness: a known end-to-end delta over a reset, after which the counter grew past its start again. */
  lemma EndToEndHidesReset(boot: string)
    ensures var readings := [Reading(Some(boot), Some(5)), Reading(Some(boot), Some(1)), Reading(Some(boot), Some(9))];
      && Step(readings[0], readings[2], MICROSECONDS).Some?
      && !Unbroken(readings, MICROSECONDS)
  {
    var readings := [Reading(Some(boot), Some(5)), Reading(Some(boot), Some(1)), Reading(Some(boot), Some(9))];
    assert Step(readings[0], readings[1], MICROSECONDS).None?;
  }

  function CounterReadings(samples: seq<Snapshot>, name: Name): seq<Reading> {
    seq(|samples|, i requires 0 <= i < |samples| => Reading(samples[i].boot, Counter(samples[i], name)))
  }

  lemma CounterStep(samples: seq<Snapshot>, name: Name, i: nat, j: nat)
    requires i < |samples| && j < |samples|
    ensures Step(CounterReadings(samples, name)[i], CounterReadings(samples, name)[j], MICROSECONDS)
         == CounterDelta(samples[i], samples[j], name)
  {
  }

  /** In particular for the cgroup counter and every pressure counter of a run. */
  lemma CounterTelescopes(samples: seq<Snapshot>, name: Name)
    requires |samples| >= 2
    requires forall i {:trigger samples[i]} :: 0 <= i < |samples| - 1 ==>
               CounterDelta(samples[i], samples[i + 1], name).Some?
    ensures CounterDelta(samples[0], samples[|samples| - 1], name)
         == Some(StepSum(CounterReadings(samples, name), MICROSECONDS))
    ensures StepSum(CounterReadings(samples, name), MICROSECONDS) >= 0.0
  {
    var readings := CounterReadings(samples, name);
    assert |readings| == |samples|;
    hide CounterReadings, CounterDelta, Step, StepSum;
    forall i | 0 <= i < |readings| - 1 ensures Step(readings[i], readings[i + 1], MICROSECONDS).Some? {
      CounterStep(samples, name, i, i + 1);
      assert CounterDelta(samples[i], samples[i + 1], name).Some?;
    }
    CounterStep(samples, name, 0, |samples| - 1);
    DeltasTelescope(readings, MICROSECONDS);
  }

  /**
   The same for the counters of a run on one boot: the delta from the first to the last sample misses what a reset hid.
   */
  lemma CounterEndToEndIsRightIff(samples: seq<Snapshot>, name: Name)
    requires samples != [] && samples[0].boot.Some?
    requires forall s :: s in samples ==> s.boot == samples[0].boot && name in s.counters
    ensures var whole, total := CounterDelta(samples[0], samples[|samples| - 1], name),
                                StepSum(CounterReadings(samples, name), MICROSECONDS);
      && (whole.Some? ==> whole.value <= total)
      && (whole == Some(total) <==> forall i :: 0 <= i < |samples| - 1 ==> CounterRises(samples, name, i))
  {
    var readings := CounterReadings(samples, name);
    assert |readings| == |samples|;
    forall r | r in readings ensures r.boot.Some? && r.boot == readings[0].boot && r.value.Some? {
      var i :| 0 <= i < |samples| && readings[i] == r;
      assert samples[i] in samples;
    }
    CounterStep(samples, name, 0, |samples| - 1);
    CounterFallsIff(samples, name, readings);
    hide CounterReadings, CounterDelta, Step, StepSum, Delta, NeverFalls;
    EndToEndIsRightIff(readings, MICROSECONDS);
  }

  predicate CounterRises(samples: seq<Snapshot>, name: Name, i: nat)
    requires i + 1 < |samples| && forall s :: s in samples ==> name in s.counters
  {
    assert samples[i] in samples && samples[i + 1] in samples;
    samples[i].counters[name] <= samples[i + 1].counters[name]
  }

  lemma CounterFallsIff(samples: seq<Snapshot>, name: Name, readings: seq<Reading>)
    requires readings == CounterReadings(samples, name) && OneBoot(readings)
    requires forall s :: s in samples ==> name in s.counters
    ensures NeverFalls(readings) <==> forall i :: 0 <= i < |samples| - 1 ==> CounterRises(samples, name, i)
  {
    forall i: nat | i + 1 < |samples| ensures RisesAt(readings, i) <==> CounterRises(samples, name, i) {
      assert samples[i] in samples && samples[i + 1] in samples;
      assert readings[i].value == Some(samples[i].counters[name]);
    }
    hide RisesAt, CounterRises, CounterReadings, OneBoot;
  }

  ghost function CpuReadings(samples: seq<Snapshot>, which: Option<bool>): seq<Reading> {
    seq(|samples|, i requires 0 <= i < |samples| =>
      Reading(samples[i].boot, Some(Ticks(samples[i].cpu, samples[i].cpu.Keys, which))))
  }

  /** And for the ticks of the processors, all of them or only the busy ones. */
  lemma CpuTelescopes(samples: seq<Snapshot>, which: Option<bool>)
    requires |samples| >= 2 && samples[0].ticks.Some? && samples[0].ticks.value > 0
    requires forall i {:trigger samples[i]} :: 0 <= i < |samples| - 1 ==>
               CpuDelta(samples[i], samples[i + 1], which).Some?
    ensures CpuDelta(samples[0], samples[|samples| - 1], which)
         == Some(StepSum(CpuReadings(samples, which), samples[0].ticks.value))
    ensures StepSum(CpuReadings(samples, which), samples[0].ticks.value) >= 0.0
  {
    var readings, scale := CpuReadings(samples, which), samples[0].ticks.value;
    hide Ticks;
    SameTicks(samples, which, |samples| - 1);
    forall i | 0 <= i < |readings| - 1 ensures Step(readings[i], readings[i + 1], scale).Some? {
      assert CpuDelta(samples[i], samples[i + 1], which).Some?;
    }
    DeltasTelescope(readings, scale);
    assert CpuDelta(samples[0], samples[1], which).Some?;
  }

  lemma {:induction false} SameTicks(samples: seq<Snapshot>, which: Option<bool>, n: nat)
    requires n < |samples| && samples[0].ticks.Some?
    requires forall i {:trigger samples[i]} :: 0 <= i < |samples| - 1 ==>
               CpuDelta(samples[i], samples[i + 1], which).Some?
    ensures samples[n].ticks == samples[0].ticks && samples[n].cpu.Keys == samples[0].cpu.Keys
    ensures n > 0 ==> samples[n].cpu != map[]
  {
    if n > 0 {
      SameTicks(samples, which, n - 1);
      assert CpuDelta(samples[n - 1], samples[n], which).Some?;
    }
  }
}

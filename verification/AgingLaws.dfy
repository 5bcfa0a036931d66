/**
 What the figures of the aging report say about the readings, in terms of the readings alone
 (scripts/memory_aging_report.py:97-202).
 */
module AgingLaws {
  import opened Text
  import opened StableSort
  import opened MemoryAging

  // ----- the figures of a trend

  /** Places in a list, in their order, exactly those that satisfy a condition. */
  ghost predicate Places(places: seq<int>, n: nat, p: int -> bool) {
    && (forall i, j :: 0 <= i < j < |places| ==> places[i] < places[j])
    && (forall i :: i in places <==> 0 <= i < n && p(i))
  }

  lemma Extends(places: seq<int>, n: nat, p: int -> bool)
    requires Places(places, n, p)
    ensures Places(if p(n) then places + [n] else places, n + 1, p)
  {
    if p(n) {
      assert forall i :: 0 <= i < |places| ==> places[i] in places;
    }
  }

  function IsKnown(points: seq<Point>): int -> bool {
    (i: int) => 0 <= i < |points| && points[i].value.Some?
  }

  /** The known readings, in order. */
  ghost predicate KnownAt(points: seq<Point>, places: seq<int>, measured: seq<Measured>) {
    && Places(places, |points|, IsKnown(points))
    && |measured| == |places|
    && forall k :: 0 <= k < |places| ==> IsAt(points, places[k], measured[k])
  }

  predicate IsAt(points: seq<Point>, i: int, m: Measured) {
    0 <= i < |points| && points[i].at == m.at && points[i].value == Some(m.value)
  }

  lemma {:induction false} KnownAppend(points: seq<Point>, p: Point)
    ensures Known(points + [p])
         == Known(points) + if p.value.Some? then [Measured(p.at, p.value.value)] else []
  {
    if points == [] {
      assert points + [p] == [p];
      assert [p][1..] == [];
    } else {
      KnownAppend(points[1..], p);
      assert (points + [p])[1..] == points[1..] + [p];
    }
  }

  lemma PlacesStay(places: seq<int>, points: seq<Point>, p: Point)
    requires Places(places, |points|, IsKnown(points))
    ensures Places(places, |points|, IsKnown(points + [p]))
  {
  }

  lemma StillAt(points: seq<Point>, p: Point, i: int, m: Measured)
    requires IsAt(points, i, m)
    ensures IsAt(points + [p], i, m)
  {
  }

  lemma KnownGrows(points: seq<Point>, p: Point, places: seq<int>, measured: seq<Measured>)
    requires KnownAt(points, places, measured)
    ensures var more := points + [p];
      if p.value.Some?
      then KnownAt(more, places + [|points|], measured + [Measured(p.at, p.value.value)])
      else KnownAt(more, places, measured)
  {
    var n, more := |points|, points + [p];
    PlacesStay(places, points, p);
    Extends(places, n, IsKnown(more));
    assert IsKnown(more)(n) <==> p.value.Some?;
    assert p.value.Some? ==> IsAt(more, n, Measured(p.at, p.value.value));
    hide Places, IsKnown, IsAt;
    forall k | 0 <= k < |places| ensures IsAt(more, places[k], measured[k]) {
      StillAt(points, p, places[k], measured[k]);
    }
  }

  lemma {:induction false} KnownSays(points: seq<Point>) returns (places: seq<int>)
    ensures KnownAt(points, places, Known(points))
  {
    if points == [] {
      places := [];
    } else {
      var front, p := points[..|points| - 1], points[|points| - 1];
      places := KnownSays(front);
      hide *;
      KnownAppend(front, p);
      KnownGrows(front, p, places, Known(front));
      places := if p.value.Some? then places + [|front|] else places;
      assert points == front + [p];
      assert Known(front) + [] == Known(front);
    }
  }

  function IsWarm(measured: seq<Measured>, warmup: int): int -> bool {
    (i: int) => 0 <= i < |measured| && measured[i].at - measured[0].at >= warmup
  }

  /** The readings behind the warm-up, counted from the first reading, or all if there is none. */
  ghost predicate WarmAt(measured: seq<Measured>, warmup: int, places: seq<int>, warm: seq<Measured>)
    requires measured != []
  {
    if forall i :: 0 <= i < |measured| ==> measured[i].at - measured[0].at < warmup then warm == measured
    else
      && Places(places, |measured|, IsWarm(measured, warmup))
      && |warm| == |places|
      && forall k :: 0 <= k < |places| ==> 0 <= places[k] < |measured| && warm[k] == measured[places[k]]
  }

  lemma {:induction false} WarmAppend(measured: seq<Measured>, m: Measured, start: int, warmup: int)
    ensures Warm(measured + [m], start, warmup)
         == Warm(measured, start, warmup) + if m.at - start >= warmup then [m] else []
  {
    if measured == [] {
      assert measured + [m] == [m];
      assert [m][1..] == [];
    } else {
      WarmAppend(measured[1..], m, start, warmup);
      assert (measured + [m])[1..] == measured[1..] + [m];
    }
  }

  /** The readings behind the warm-up among the first ones. */
  ghost predicate WarmAmong(measured: seq<Measured>, n: nat, warmup: int, places: seq<int>, warm: seq<Measured>) {
    && n <= |measured|
    && Places(places, n, IsWarm(measured, warmup))
    && |warm| == |places|
    && forall k :: 0 <= k < |places| ==> 0 <= places[k] < n && warm[k] == measured[places[k]]
  }

  lemma WarmGrows(measured: seq<Measured>, n: nat, warmup: int, places: seq<int>, warm: seq<Measured>)
    requires n < |measured| && WarmAmong(measured, n, warmup, places, warm)
    ensures if measured[n].at - measured[0].at >= warmup
            then WarmAmong(measured, n + 1, warmup, places + [n], warm + [measured[n]])
            else WarmAmong(measured, n + 1, warmup, places, warm)
  {
    Extends(places, n, IsWarm(measured, warmup));
    hide Places;
  }

  lemma {:induction false} WarmPlaces(measured: seq<Measured>, n: nat, warmup: int) returns (places: seq<int>)
    requires n <= |measured| && measured != []
    ensures WarmAmong(measured, n, warmup, places, Warm(measured[..n], measured[0].at, warmup))
  {
    if n == 0 {
      places := [];
    } else {
      var m, front := measured[n - 1], measured[..n - 1];
      places := WarmPlaces(measured, n - 1, warmup);
      hide *;
      WarmAppend(front, m, measured[0].at, warmup);
      WarmGrows(measured, n - 1, warmup, places, Warm(front, measured[0].at, warmup));
      places := if m.at - measured[0].at >= warmup then places + [n - 1] else places;
      assert measured[..n] == front + [m];
      assert Warm(front, measured[0].at, warmup) + [] == Warm(front, measured[0].at, warmup);
    }
  }

  lemma WindowSays(measured: seq<Measured>, warmup: int) returns (places: seq<int>)
    requires measured != []
    ensures WarmAt(measured, warmup, places, Window(measured, warmup))
  {
    var n := |measured|;
    places := WarmPlaces(measured, n, warmup);
    assert measured[..n] == measured;
    var warm := Warm(measured, measured[0].at, warmup);
    hide Warm;
    if warm == [] {
      forall i | 0 <= i < n ensures measured[i].at - measured[0].at < warmup {
        assert i !in places;
      }
    } else {
      assert places[0] in places;
    }
  }

  /** The middle of the readings in order of size, or half the sum of the two middle ones. */
  ghost predicate Middle(values: seq<int>, m: real) {
    exists sorted: seq<int> ::
      && multiset(sorted) == multiset(values) && |sorted| == |values| > 0
      && (forall i, j :: 0 <= i < j < |sorted| ==> sorted[i] <= sorted[j])
      && 2.0 * m == (sorted[(|sorted| - 1) / 2] + sorted[|sorted| / 2]) as real
  }

  lemma Half(a: int, b: int)
    ensures 2.0 * ((a as real + b as real) / 2.0) == (a + b) as real
    ensures 2.0 * a as real == (a + a) as real
  {
  }

  lemma MiddlePlaces(n: nat)
    requires n > 0
    ensures (n - 1) / 2 == if n % 2 == 1 then n / 2 else n / 2 - 1
    ensures 0 <= (n - 1) / 2 <= n / 2 < n
  {
  }

  lemma MedianForm(values: seq<int>)
    requires values != []
    ensures var sorted, n := Sort(values, Itself), |values|;
      && |sorted| == n && 0 <= (n - 1) / 2 <= n / 2 < n
      && 2.0 * Median(values) == (sorted[(n - 1) / 2] + sorted[n / 2]) as real
  {
    hide Sort;
    SortPermutes(values, Itself);
    var sorted, n := Sort(values, Itself), |values|;
    MiddlePlaces(n);
    if n % 2 == 1 {
      Half(sorted[n / 2], sorted[n / 2]);
    } else {
      Half(sorted[n / 2 - 1], sorted[n / 2]);
    }
  }

  lemma MedianSays(values: seq<int>)
    requires values != []
    ensures Middle(values, Median(values))
  {
    hide Sort, Sorted, Median;
    MedianForm(values);
    SortPermutes(values, Itself);
    SortSorted(values, Itself);
    SortedValues(Sort(values, Itself));
  }

  lemma SortedValues(sorted: seq<int>)
    requires Sorted(sorted, Itself)
    ensures forall i, j :: 0 <= i < j < |sorted| ==> sorted[i] <= sorted[j]
  {
    assert forall i, j :: 0 <= i < j < |sorted| ==> Itself(sorted[i]) <= Itself(sorted[j]);
  }

  ghost predicate Peak(measured: seq<Measured>, peak: int) {
    && (forall m :: m in measured ==> m.value <= peak)
    && exists m :: m in measured && m.value == peak
  }

  lemma PeakSays(measured: seq<Measured>)
    requires measured != []
    ensures Peak(measured, MaxOf(Values(measured)))
  {
    var values := Values(measured);
    var peak := MaxOf(values);
    forall m | m in measured ensures m.value <= peak {
      var i :| 0 <= i < |measured| && measured[i] == m;
      assert values[i] in values;
    }
    var i :| 0 <= i < |values| && values[i] == peak;
    assert measured[i] in measured;
  }

  /** The drift in units per hour, if the window is a quarter of an hour long. */
  predicate DriftIs(drift: Option<real>, early: real, late: real, span: int) {
    && (drift.Some? <==> span >= 900)
    && (drift.Some? ==> drift.value * span as real == (late - early) * 3600.0)
  }

  lemma DriftSays(early: real, late: real, span: int)
    ensures DriftIs(DriftOf(early, late, span), early, late, span)
  {
    if span >= 900 {
      Rate(late - early, span as real);
    }
  }

  lemma Rate(change: real, span: real)
    requires span > 0.0
    ensures span / 3600.0 != 0.0 && change / (span / 3600.0) * span == change * 3600.0
  {
    var hours := span / 3600.0;
    assert change / hours * hours == change;
  }

  /** Every figure of a trend. */
  ghost predicate Figures(measured: seq<Measured>, warm: seq<Measured>, t: Trend)
    requires measured != [] && warm != []
  {
    var n := |warm|;
    var q := if n < 8 then 1 else n / 4;
    && t.samples == |measured| && t.warmSamples == n
    && t.span == warm[n - 1].at - warm[0].at
    && t.first == measured[0].value && t.last == measured[|measured| - 1].value
    && Peak(measured, t.peak)
    && Middle(Values(warm), t.median)
    && Middle(Values(warm[..q]), t.early) && Middle(Values(warm[n - q..]), t.late)
    && DriftIs(t.drift, t.early, t.late, t.span)
  }

  lemma QuarterSays(n: nat)
    requires n > 0
    ensures Quarter(n) == (if n < 8 then 1 else n / 4) && 0 < Quarter(n) <= n
  {
  }

  lemma TrendForm(points: seq<Point>, warmup: int)
    requires TrendOf(points, warmup).Some?
    ensures var measured := Known(points);
      && |measured| >= 2
      && var warm := Window(measured, warmup);
         && warm != []
         && var n := |warm|;
            var q := Quarter(n);
            && q <= n && Values(warm) != [] && Values(warm[..q]) != [] && Values(warm[n - q..]) != []
            && var early, late := Median(Values(warm[..q])), Median(Values(warm[n - q..]));
               var span := warm[n - 1].at - warm[0].at;
               TrendOf(points, warmup).value
               == Trend(|measured|, n, span, measured[0].value, measured[|measured| - 1].value,
                        MaxOf(Values(measured)), Median(Values(warm)), early, late, DriftOf(early, late, span))
  {
    hide Median, MaxOf, DriftOf, Window, Known, Quarter, Values;
    var measured := Known(points);
    WindowMembers(measured, warmup);
    var warm := Window(measured, warmup);
    QuarterSays(|warm|);
    WholeValues(warm, Quarter(|warm|));
  }

  lemma FiguresHold(points: seq<Point>, warmup: int)
    requires TrendOf(points, warmup).Some?
    ensures var measured := Known(points);
      && |measured| >= 2 && Window(measured, warmup) != []
      && Figures(measured, Window(measured, warmup), TrendOf(points, warmup).value)
  {
    hide Median, MaxOf, DriftOf, Window, Known, Middle, Peak, DriftIs, Values, TrendOf, Quarter;
    TrendForm(points, warmup);
    var measured := Known(points);
    var warm := Window(measured, warmup);
    var n := |warm|;
    var q := Quarter(n);
    QuarterSays(n);
    var t := TrendOf(points, warmup).value;
    PeakSays(measured);
    MedianSays(Values(warm));
    MedianSays(Values(warm[..q]));
    MedianSays(Values(warm[n - q..]));
    DriftSays(t.early, t.late, t.span);
  }

  lemma WholeValues(warm: seq<Measured>, q: nat)
    requires 0 < q <= |warm|
    ensures Values(warm) != [] && Values(warm[..q]) != [] && Values(warm[|warm| - q..]) != []
  {
  }

  /**
   A trend, from the readings: it is made iff two readings are known, and every figure of it is the one that its name
   promises, over the known readings or over those behind the warm-up.
   */
  lemma TrendSays(points: seq<Point>, warmup: int)
    ensures exists places, measured ::
              && KnownAt(points, places, measured)
              && (TrendOf(points, warmup).Some? <==> |places| >= 2)
              && (|places| >= 2 ==>
                    exists warmPlaces, warm ::
                      && WarmAt(measured, warmup, warmPlaces, warm) && warm != []
                      && Figures(measured, warm, TrendOf(points, warmup).value))
  {
    var places := KnownSays(points);
    var measured := Known(points);
    assert TrendOf(points, warmup).Some? <==> |measured| >= 2;
    hide TrendOf, Known, Window, WarmAt, Figures, Places;
    if |measured| >= 2 {
      FiguresHold(points, warmup);
      var warmPlaces := WindowSays(measured, warmup);
      assert WarmAt(measured, warmup, warmPlaces, Window(measured, warmup));
    }
    assert KnownAt(points, places, measured);
  }

  // ----- deltas

  lemma Quotient(change: int, scale: int, d: real)
    requires scale != 0
    ensures d == change as real / scale as real <==> d * scale as real == change as real
  {
    assert change as real / scale as real * scale as real == change as real;
    if d * scale as real == change as real {
      assert d == d * scale as real / scale as real;
    }
  }

  /** A delta is known iff both readings are, on one boot, and the counter was not set back; then it is exact. */
  lemma DeltaSays(sameBoot: bool, first: Option<int>, last: Option<int>, scale: int, d: real)
    requires scale != 0
    ensures Delta(sameBoot, first, last, scale) == Some(d)
       <==> sameBoot && first.Some? && last.Some? && first.value <= last.value
            && d * scale as real == (last.value - first.value) as real
    ensures IsReset(sameBoot, first, last)
       <==> sameBoot && first.Some? && last.Some? && Delta(sameBoot, first, last, scale) == None
  {
    if first.Some? && last.Some? {
      Quotient(last.value - first.value, scale, d);
    }
  }

  /** The delta of a counter of microseconds, in seconds. */
  lemma CounterSays(before: Snapshot, after: Snapshot, name: Name, d: real)
    ensures CounterDelta(before, after, name) == Some(d)
       <==> && before.boot.Some? && before.boot == after.boot
            && name in before.counters && name in after.counters
            && before.counters[name] <= after.counters[name]
            && d * 1_000_000.0 == (after.counters[name] - before.counters[name]) as real
  {
    DeltaSays(SameBoot(before, after), Counter(before, name), Counter(after, name), MICROSECONDS, d);
    hide Delta;
    assert MICROSECONDS as real == 1_000_000.0;
  }

  ghost predicate SameClocks(before: Snapshot, after: Snapshot) {
    && before.boot.Some? && before.boot == after.boot
    && before.cpu != map[] && after.cpu != map[] && before.cpu.Keys == after.cpu.Keys
    && before.ticks.Some? && before.ticks.value != 0 && before.ticks == after.ticks
  }

  /** The delta of processor time, in seconds, all of it or only the busy part. */
  lemma CpuSays(before: Snapshot, after: Snapshot, d: real)
    ensures TotalCpuDelta(before, after) == Some(d)
       <==> && SameClocks(before, after) && TotalTicks(before) <= TotalTicks(after)
            && d * before.ticks.value as real == (TotalTicks(after) - TotalTicks(before)) as real
    ensures BusyCpuDelta(before, after) == Some(d)
       <==> && SameClocks(before, after) && BusyTicks(before) <= BusyTicks(after)
            && d * before.ticks.value as real == (BusyTicks(after) - BusyTicks(before)) as real
  {
    hide Delta, Ticks;
    if before.ticks.Some? && before.ticks.value != 0 {
      DeltaSays(SameBoot(before, after), Some(TotalTicks(before)), Some(TotalTicks(after)), before.ticks.value, d);
      DeltaSays(SameBoot(before, after), Some(BusyTicks(before)), Some(BusyTicks(after)), before.ticks.value, d);
    }
  }

  lemma {:induction false} TicksAgree(cpu: map<string, nat>, other: map<string, nat>, keys: set<string>,
          which: Option<bool>)
    requires keys <= cpu.Keys && keys <= other.Keys && forall k :: k in keys ==> cpu[k] == other[k]
    ensures Ticks(cpu, keys, which) == Ticks(other, keys, which)
    decreases |keys|
  {
    if keys != {} {
      TicksAgree(cpu, other, keys - {PickKey(keys)}, which);
    }
  }

  /** The totals add up key by key; only the ticks of "idle" and "iowait" are not busy. */
  lemma TicksSay(s: Snapshot, key: string, ticks: nat)
    requires key !in s.cpu
    ensures s.cpu == map[] ==> TotalTicks(s) == 0 && BusyTicks(s) == 0
    ensures TotalTicks(s.(cpu := s.cpu[key := ticks])) == TotalTicks(s) + ticks
    ensures BusyTicks(s.(cpu := s.cpu[key := ticks]))
         == BusyTicks(s) + if key == "idle" || key == "iowait" then 0 else ticks
  {
    var more := s.cpu[key := ticks];
    TicksRemove(more, more.Keys, None, key);
    TicksRemove(more, more.Keys, Some(false), key);
    assert more.Keys - {key} == s.cpu.Keys;
    TicksAgree(more, s.cpu, s.cpu.Keys, None);
    TicksAgree(more, s.cpu, s.cpu.Keys, Some(false));
  }
}

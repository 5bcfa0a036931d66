/**
 What the fields of a listed attempt and of an overlap say about the events, in terms of the events alone
 (scripts/celery_trace.py:319-390).
 */
module CeleryLaws {
  import opened Text
  import opened Permutations
  import opened StableSort
  import opened CeleryWorker
  import opened CeleryRuns
  import opened CeleryTrace
  import opened CeleryCorrelation
  import opened CeleryHarness

  // ----- the event that a kind's name stands for

  predicate IsOf(e: Event, k: Key, kind: Kind) {
    e.key == k && e.kind == kind
  }

  /** The latest event of an attempt and kind; of equal times, the one that stands behind in the input. */
  ghost predicate Latest(events: seq<Event>, k: Key, kind: Kind, i: int) {
    && 0 <= i < |events| && IsOf(events[i], k, kind)
    && forall j :: 0 <= j < |events| && IsOf(events[j], k, kind) ==>
         events[j].at < events[i].at || (events[j].at == events[i].at && j <= i)
  }

  ghost predicate Occurs(events: seq<Event>, k: Key, kind: Kind) {
    exists e :: e in events && e.key == k && e.kind == kind
  }

  lemma LatestIsUnique(events: seq<Event>, k: Key, kind: Kind, i: int, j: int)
    requires Latest(events, k, kind, i) && Latest(events, k, kind, j)
    ensures i == j
  {
  }

  lemma {:induction false} LastInserted(x: Event, s: seq<Event>)
    requires Sorted(s, At)
    ensures var r := Insert(x, s, At);
      r != [] && r[|r| - 1] == if s == [] || s[|s| - 1].at <= x.at then x else s[|s| - 1]
  {
    if s == [] {
      assert Insert(x, s, At) == [x];
    } else {
      hide Insert, Sorted;
      var h, t := s[0], s[1..];
      assert s == [h] + t;
      InsertCons(x, h, t, At);
      SortedCons(h, t, At);
      if t == [] {
        assert Insert(x, t, At) == [x] by { InsertEmpty(x); }
      } else {
        assert t[|t| - 1] in t;
        if At(h) <= At(x) {
          LastInserted(x, t);
        }
      }
    }
  }

  lemma InsertEmpty(x: Event)
    ensures Insert(x, [], At) == [x]
  {
  }

  lemma LatestStays(events: seq<Event>, e: Event, k: Key, kind: Kind, i: int)
    requires Latest(events, k, kind, i) && !(IsOf(e, k, kind) && events[i].at <= e.at)
    ensures Latest(events + [e], k, kind, i)
  {
    hide IsOf;
    var longer := events + [e];
    forall j | 0 <= j < |longer| && IsOf(longer[j], k, kind)
      ensures longer[j].at < longer[i].at || (longer[j].at == longer[i].at && j <= i)
    {
      assert j < |events| ==> longer[j] == events[j];
    }
  }

  lemma NewIsLatest(events: seq<Event>, e: Event, k: Key, kind: Kind)
    requires IsOf(e, k, kind)
    requires forall j :: 0 <= j < |events| && IsOf(events[j], k, kind) ==> events[j].at <= e.at
    ensures Latest(events + [e], k, kind, |events|)
  {
    hide IsOf;
    var longer := events + [e];
    assert longer[|events|] == e;
    forall j | 0 <= j < |longer| && IsOf(longer[j], k, kind)
      ensures longer[j].at < e.at || (longer[j].at == e.at && j <= |events|)
    {
      assert j < |events| ==> longer[j] == events[j];
    }
  }

  /** The last of the sorted events of an attempt and kind, if there is any. */
  ghost predicate LastIsLatest(events: seq<Event>, k: Key, kind: Kind, those: seq<Event>) {
    if those == [] then !Occurs(events, k, kind)
    else exists i :: Latest(events, k, kind, i) && events[i] == those[|those| - 1]
  }

  lemma NoneYet(events: seq<Event>, e: Event, k: Key, kind: Kind)
    requires !Occurs(events, k, kind)
    ensures IsOf(e, k, kind) ==> LastIsLatest(events + [e], k, kind, [e])
    ensures !IsOf(e, k, kind) ==> LastIsLatest(events + [e], k, kind, [])
  {
    assert forall j :: 0 <= j < |events| ==> !IsOf(events[j], k, kind);
    if IsOf(e, k, kind) {
      hide IsOf, Latest;
      NewIsLatest(events, e, k, kind);
      assert (events + [e])[|events|] == e;
    }
  }

  lemma LastGrows(events: seq<Event>, e: Event, k: Key, kind: Kind, those: seq<Event>, next: seq<Event>)
    requires LastIsLatest(events, k, kind, those)
    requires !IsOf(e, k, kind) ==> next == those
    requires IsOf(e, k, kind) ==> next != []
    requires IsOf(e, k, kind) ==>
               next[|next| - 1] == if those == [] || those[|those| - 1].at <= e.at then e else those[|those| - 1]
    ensures LastIsLatest(events + [e], k, kind, next)
  {
    hide IsOf, Latest;
    if those == [] {
      NoneYet(events, e, k, kind);
      hide Occurs;
    } else {
      var i := LatestPlace(events, k, kind, those);
      LatestIn(events, k, kind, i);
      if IsOf(e, k, kind) && events[i].at <= e.at {
        NewIsLatest(events, e, k, kind);
        assert (events + [e])[|events|] == e;
      } else {
        LatestStays(events, e, k, kind, i);
        assert (events + [e])[i] == events[i];
      }
    }
  }

  lemma LatestPlace(events: seq<Event>, k: Key, kind: Kind, those: seq<Event>) returns (i: int)
    requires LastIsLatest(events, k, kind, those) && those != []
    ensures Latest(events, k, kind, i) && events[i] == those[|those| - 1]
  {
    i :| Latest(events, k, kind, i) && events[i] == those[|those| - 1];
  }

  lemma LatestIn(events: seq<Event>, k: Key, kind: Kind, i: int)
    requires Latest(events, k, kind, i)
    ensures 0 <= i < |events| && IsOf(events[i], k, kind)
    ensures forall j :: 0 <= j < |events| && IsOf(events[j], k, kind) ==> events[j].at <= events[i].at
  {
  }

  lemma OfIs(e: Event, k: Key, kind: Kind)
    ensures Of(k, kind)(e) <==> IsOf(e, k, kind)
  {
  }

  lemma OrderGrows(events: seq<Event>, e: Event, k: Key, kind: Kind)
    ensures var those := Select(InOrder(events), Of(k, kind));
      && Sorted(those, At)
      && Select(InOrder(events + [e]), Of(k, kind)) == if IsOf(e, k, kind) then Insert(e, those, At) else those
  {
    hide Select, Sort, Insert, Sorted, IsOf;
    var mine := Select(events, Of(k, kind));
    SelectSort(events + [e], Of(k, kind), At);
    SelectSort(events, Of(k, kind), At);
    SelectAppend(events, e, Of(k, kind));
    OfIs(e, k, kind);
    SortAppend(mine, e, At);
    SortSorted(mine, At);
  }

  lemma {:induction false} LastInOrder(events: seq<Event>, k: Key, kind: Kind)
    ensures LastIsLatest(events, k, kind, Select(InOrder(events), Of(k, kind)))
  {
    if events != [] {
      var front, e := events[..|events| - 1], events[|events| - 1];
      LastInOrder(front, k, kind);
      hide Select, InOrder, Insert, LastIsLatest, IsOf, Sorted;
      OrderGrows(front, e, k, kind);
      var those, next := Select(InOrder(front), Of(k, kind)), Select(InOrder(front + [e]), Of(k, kind));
      LastInserted(e, those);
      LastGrows(front, e, k, kind, those, next);
      assert events == front + [e];
    }
  }

  // ----- the fields of an attempt

  /** The latest event of a kind gives the row that the kind's name stands for. */
  ghost predicate NamedRow(events: seq<Event>, k: Key, kind: Kind, row: Option<Row>) {
    if row == None then !Occurs(events, k, kind)
    else exists i ::
        && 0 <= i < |events| && Latest(events, k, kind, i) && row.value.kind == kind
        && row.value.at == events[i].at && row.value.calls == events[i].calls && row.value.outcome == events[i].outcome
  }

  lemma LastRow(events: seq<Event>, k: Key, kind: Kind)
    ensures NamedRow(events, k, kind, LastOf(Listed(events, k).rows, kind))
  {
    var sorted := InOrder(events);
    var workers := Workers(sorted);
    var those := Select(sorted, Of(k, kind));
    hide InOrder, Workers, Select, RowsOf, Latest, Occurs, CountOf;
    LastInOrder(events, k, kind);
    RowsOfKind(sorted, k, kind, workers);
    LastOfRows(Listed(events, k).rows, those, workers, kind);
    if those != [] {
      var i := LatestPlace(events, k, kind, those);
      LatestIn(events, k, kind, i);
    }
  }

  lemma LastOfRows(rows: seq<Row>, those: seq<Event>, workers: map<nat, nat>, kind: Kind)
    requires Select(rows, KindIs(kind)) == RowsOf(those, workers)
    ensures LastOf(rows, kind) == if those == [] then None else Some(RowOf(those[|those| - 1], workers))
  {
    hide Select, RowOf;
  }

  /** The delay between the latest start and the latest event of another kind. */
  ghost predicate DelayFrom(events: seq<Event>, k: Key, from: Kind, delay: int) {
    exists i, j :: Latest(events, k, Start, i) && Latest(events, k, from, j) && delay == events[i].at - events[j].at
  }

  lemma DelaySays(events: seq<Event>, k: Key, from: Kind)
    ensures var delay := Delay(Listed(events, k).rows, from);
      && (delay == None <==> !Occurs(events, k, Start) || !Occurs(events, k, from))
      && forall d :: delay == Some(d) <==> DelayFrom(events, k, from, d)
  {
    LastRow(events, k, Start);
    LastRow(events, k, from);
    var rows := Listed(events, k).rows;
    hide Listed, LastOf, Latest, Occurs;
    LatestOccurs(events, k, Start);
    LatestOccurs(events, k, from);
    forall d ensures Delay(rows, from) == Some(d) <==> DelayFrom(events, k, from, d) {
      hide NamedRow;
      DelayIs(events, k, from, rows, d);
    }
  }

  lemma LatestOccurs(events: seq<Event>, k: Key, kind: Kind)
    ensures (exists i :: Latest(events, k, kind, i)) ==> Occurs(events, k, kind)
  {
    if i :| Latest(events, k, kind, i) {
      assert events[i] in events;
    }
  }

  lemma DelayIs(events: seq<Event>, k: Key, from: Kind, rows: seq<Row>, d: int)
    requires NamedRow(events, k, Start, LastOf(rows, Start)) && NamedRow(events, k, from, LastOf(rows, from))
    ensures Delay(rows, from) == Some(d) <==> DelayFrom(events, k, from, d)
  {
    hide LastOf, Latest, Occurs;
    LatestOccurs(events, k, Start);
    LatestOccurs(events, k, from);
    forall i, j | Latest(events, k, Start, i) && Latest(events, k, Start, j) ensures i == j {
      LatestIsUnique(events, k, Start, i, j);
    }
    forall i, j | Latest(events, k, from, i) && Latest(events, k, from, j) ensures i == j {
      LatestIsUnique(events, k, from, i, j);
    }
  }

  /**
   The fields of a listed attempt: the queue delay runs from its latest enqueue to its latest start, the broker delay
   from its latest return of the publication to that start, and each is unknown iff one of its two events is missing.
   */
  lemma DelaysSay(events: seq<Event>, k: Key)
    ensures var a := Listed(events, k);
      && (a.queueDelay == None <==> !Occurs(events, k, Start) || !Occurs(events, k, Enqueue))
      && (a.brokerDelay == None <==> !Occurs(events, k, Start) || !Occurs(events, k, Published))
      && (forall d :: a.queueDelay == Some(d) <==> DelayFrom(events, k, Enqueue, d))
      && (forall d :: a.brokerDelay == Some(d) <==> DelayFrom(events, k, Published, d))
  {
    DelaySays(events, k, Enqueue);
    DelaySays(events, k, Published);
    DelayFields(k, RowsOf(Select(InOrder(events), HasKey(k)), Workers(InOrder(events))));
    hide DelayFrom, Occurs, Delay, AttemptOf, RowsOf, Select, InOrder, Workers;
  }

  lemma DelayFields(k: Key, rows: seq<Row>)
    ensures AttemptOf(k, rows).rows == rows
    ensures AttemptOf(k, rows).queueDelay == Delay(rows, Enqueue)
    ensures AttemptOf(k, rows).brokerDelay == Delay(rows, Published)
  {
    hide Delay, CountOf, LastOf;
  }

  lemma OnlyIsLatest(events: seq<Event>, k: Key, kind: Kind, e: Event)
    requires CountEvents(events, k, kind) == 1 && e in events && IsOf(e, k, kind)
    ensures exists i :: Latest(events, k, kind, i) && events[i] == e
  {
    hide Select, InOrder, Latest, CountEvents;
    OfIs(e, k, kind);
    OnlyOne(events, events, k, kind, e);
    LastInOrder(events, k, kind);
    var i := LatestPlace(events, k, kind, [e]);
  }

  /** With a single enqueue, published and start event, wherever they stand, the delays are those between them. */
  lemma DelaysOfSingle(events: seq<Event>, k: Key, enqueue: Event, published: Event, start: Event)
    requires CountEvents(events, k, Enqueue) == 1 && enqueue in events && IsOf(enqueue, k, Enqueue)
    requires CountEvents(events, k, Published) == 1 && published in events && IsOf(published, k, Published)
    requires CountEvents(events, k, Start) == 1 && start in events && IsOf(start, k, Start)
    ensures Listed(events, k).queueDelay == Some(start.at - enqueue.at)
    ensures Listed(events, k).brokerDelay == Some(start.at - published.at)
  {
    hide Listed, Latest, Occurs, CountEvents, IsOf;
    DelaysSay(events, k);
    OnlyIsLatest(events, k, Start, start);
    OnlyIsLatest(events, k, Enqueue, enqueue);
    OnlyIsLatest(events, k, Published, published);
    assert DelayFrom(events, k, Enqueue, start.at - enqueue.at);
    assert DelayFrom(events, k, Published, start.at - published.at);
  }

  lemma ListedForm(events: seq<Event>, k: Key)
    ensures Listed(events, k) == AttemptOf(k, Listed(events, k).rows)
  {
    DelayFields(k, RowsOf(Select(InOrder(events), HasKey(k)), Workers(InOrder(events))));
    hide AttemptOf, RowsOf, Select, InOrder, Workers;
  }

  lemma OutcomeField(k: Key, rows: seq<Row>)
    ensures var end := LastOf(rows, End);
      AttemptOf(k, rows).outcome == if end.Some? then end.value.outcome else None
  {
    hide Delay, CountOf, LastOf;
  }

  /** The outcome is that of the latest end. */
  lemma OutcomeSays(events: seq<Event>, k: Key)
    ensures !Occurs(events, k, End) ==> Listed(events, k).outcome == None
    ensures forall i :: Latest(events, k, End, i) ==> Listed(events, k).outcome == events[i].outcome
  {
    LastRow(events, k, End);
    LatestOccurs(events, k, End);
    ListedForm(events, k);
    OutcomeField(k, Listed(events, k).rows);
    hide LastOf, Latest, Occurs, AttemptOf, Listed;
    forall i | Latest(events, k, End, i)
      ensures 0 <= i < |events| && LastOf(Listed(events, k).rows, End).value.outcome == events[i].outcome
    {
      LatestIn(events, k, End, i);
      var j :| 0 <= j < |events| && Latest(events, k, End, j)
          && LastOf(Listed(events, k).rows, End).value.outcome == events[j].outcome;
      LatestIsUnique(events, k, End, i, j);
    }
  }

  lemma OccursIff(events: seq<Event>, k: Key, kind: Kind)
    ensures CountEvents(events, k, kind) == 0 <==> !Occurs(events, k, kind)
  {
    var those := Select(events, Of(k, kind));
    if those != [] {
      assert those[0] in those;
    }
    if e :| e in events && e.key == k && e.kind == kind {
      assert e in those;
    }
  }

  lemma FlagFields(k: Key, rows: seq<Row>)
    ensures forall kind ::
              kind in AttemptOf(k, rows).missing
              <==> kind in {Enqueue, Published, Start, End} && CountOf(rows, kind) == 0
    ensures forall kind :: kind in AttemptOf(k, rows).duplicates <==> CountOf(rows, kind) > 1
    ensures forall kind ::
              kind in AttemptOf(k, rows).duplicates ==> AttemptOf(k, rows).duplicates[kind] == CountOf(rows, kind)
  {
    hide Delay, CountOf, LastOf;
    forall kind: Kind ensures kind in KINDS {
      match kind
      case Enqueue =>
      case Published =>
      case Start =>
      case Retry =>
      case End =>
      case Diagnostic =>
    }
  }

  /** Which boundaries are missing and what is repeated how often. */
  lemma FlagsSay(events: seq<Event>, k: Key, kind: Kind)
    ensures kind in Listed(events, k).missing
       <==> kind in {Enqueue, Published, Start, End} && forall e :: e in events && e.key == k ==> e.kind != kind
    ensures kind in Listed(events, k).duplicates <==> CountEvents(events, k, kind) > 1
    ensures kind in Listed(events, k).duplicates ==>
              Listed(events, k).duplicates[kind] == CountEvents(events, k, kind)
  {
    ListedForm(events, k);
    FlagFields(k, Listed(events, k).rows);
    ListedCounts(events, k, kind);
    OccursIff(events, k, kind);
    hide AttemptOf, Listed, CountEvents, CountOf;
  }

  // ----- the overlaps

  /** An attempt with all four boundaries, and its times. */
  ghost predicate Lasted(events: seq<Event>, k: Key, from: int, to: int) {
    && Occurs(events, k, Enqueue) && Occurs(events, k, Published)
    && (exists i :: Latest(events, k, Start, i) && events[i].at == from)
    && (exists i :: Latest(events, k, End, i) && events[i].at == to)
  }

  lemma TimeSays(events: seq<Event>, k: Key, kind: Kind, i: int)
    requires Latest(events, k, kind, i)
    ensures TimeOf(Listed(events, k), kind) == events[i].at
  {
    LastRow(events, k, kind);
    var a := Listed(events, k);
    hide LastOf, Latest, Occurs, Listed;
    LatestOccurs(events, k, kind);
    var row := LastOf(a.rows, kind);
    LatestIn(events, k, kind, i);
    var j :| 0 <= j < |events| && Latest(events, k, kind, j) && row.value.at == events[j].at;
    LatestIsUnique(events, k, kind, i, j);
  }

  lemma LatestExists(events: seq<Event>, k: Key, kind: Kind)
    requires Occurs(events, k, kind)
    ensures exists i :: Latest(events, k, kind, i)
  {
    hide Select, InOrder, Latest, Occurs;
    LastInOrder(events, k, kind);
    var those := Select(InOrder(events), Of(k, kind));
    assert LastIsLatest(events, k, kind, those);
    var i := LatestPlace(events, k, kind, those);
  }

  lemma CompleteIff(events: seq<Event>, k: Key)
    ensures IsComplete(Listed(events, k)) <==>
              && Occurs(events, k, Enqueue) && Occurs(events, k, Published)
              && Occurs(events, k, Start) && Occurs(events, k, End)
  {
    var a := Listed(events, k);
    FlagsSay(events, k, Enqueue);
    FlagsSay(events, k, Published);
    FlagsSay(events, k, Start);
    FlagsSay(events, k, End);
    hide Listed, CountEvents;
    if kind :| kind in a.missing {
      FlagsSay(events, k, kind);
    }
  }

  lemma LastedIff(events: seq<Event>, k: Key, from: int, to: int)
    ensures Lasted(events, k, from, to)
       <==> && IsComplete(Listed(events, k))
            && TimeOf(Listed(events, k), Start) == from && TimeOf(Listed(events, k), End) == to
  {
    hide Listed, IsComplete, TimeOf, Latest, Occurs;
    CompleteIff(events, k);
    LatestOccurs(events, k, Start);
    LatestOccurs(events, k, End);
    forall kind, i | Latest(events, k, kind, i)
      ensures 0 <= i < |events| && TimeOf(Listed(events, k), kind) == events[i].at
    {
      LatestIn(events, k, kind, i);
      TimeSays(events, k, kind, i);
    }
    if IsComplete(Listed(events, k)) {
      LatestExists(events, k, Start);
      LatestExists(events, k, End);
    }
  }

  /** An entry for the two attempts, in either order. */
  ghost predicate EntryFor(report: Report, a: Key, b: Key, seconds: int) {
    Overlap(a, b, seconds) in report.overlap || Overlap(b, a, seconds) in report.overlap
  }

  /** The two have positive time in common: from the later start to the earlier end. */
  ghost predicate InCommon(events: seq<Event>, a: Key, b: Key, seconds: int) {
    exists from, to, start, end ::
      && Lasted(events, a, from, to) && Lasted(events, b, start, end) && seconds > 0
      && seconds == (if to < end then to else end) - (if from < start then start else from)
  }

  lemma SharedIs(left: CeleryTrace.Attempt, right: CeleryTrace.Attempt)
    ensures var to, end := TimeOf(left, End), TimeOf(right, End);
      var from, start := TimeOf(left, Start), TimeOf(right, Start);
      && Shared(left, right) == (if to < end then to else end) - (if from < start then start else from)
      && Shared(left, right) == Shared(right, left)
  {
    hide TimeOf;
  }

  lemma CompleteAttempts(events: seq<Event>, k: Key)
    ensures var complete := Select(Correlation(events).attempts, IsComplete);
      && (forall a :: a in complete ==> a == Listed(events, a.key) && IsComplete(a))
      && (IsComplete(Listed(events, k)) ==> Listed(events, k) in complete)
  {
    ListedAttempts(events);
    CompleteIff(events, k);
    hide Correlation, Listed, IsComplete;
    if IsComplete(Listed(events, k)) {
      var e :| e in events && e.key == k && e.kind == End;
      assert k in AttemptKeys(events);
    }
  }

  lemma EntryIff(events: seq<Event>, a: Key, b: Key, seconds: int)
    requires a != b
    ensures var left, right := Listed(events, a), Listed(events, b);
      EntryFor(Correlation(events), a, b, seconds)
      <==> IsComplete(left) && IsComplete(right) && seconds > 0 && seconds == Shared(left, right)
  {
    ReportedOverlaps(events);
    CompleteAttempts(events, a);
    CompleteAttempts(events, b);
    ListedKey(events, a);
    ListedKey(events, b);
    var left, right := Listed(events, a), Listed(events, b);
    SharedIs(left, right);
    var report := Correlation(events);
    var complete := Select(report.attempts, IsComplete);
    hide Correlation, Listed, IsComplete, Shared, AllDifferent, Select;
    if Overlap(a, b, seconds) in report.overlap {
      var i, j :| 0 <= i < j < |complete| && PairListed(complete, i, j, Overlap(a, b, seconds));
      assert complete[i] in complete && complete[j] in complete;
    }
    if Overlap(b, a, seconds) in report.overlap {
      var i, j :| 0 <= i < j < |complete| && PairListed(complete, i, j, Overlap(b, a, seconds));
      assert complete[i] in complete && complete[j] in complete;
    }
    if IsComplete(left) && IsComplete(right) && seconds > 0 && seconds == Shared(left, right) {
      var i :| 0 <= i < |complete| && complete[i] == left;
      var j :| 0 <= j < |complete| && complete[j] == right;
      if i < j {
        assert PairListed(complete, i, j, Overlap(a, b, seconds));
      } else {
        assert PairListed(complete, j, i, Overlap(b, a, seconds));
      }
    }
  }

  /** Two attempts are reported with a number of seconds iff they are complete and share exactly that much time. */
  lemma OverlapSays(events: seq<Event>, a: Key, b: Key, seconds: int)
    requires a != b
    ensures EntryFor(Correlation(events), a, b, seconds) <==> InCommon(events, a, b, seconds)
  {
    EntryIff(events, a, b, seconds);
    var left, right := Listed(events, a), Listed(events, b);
    SharedIs(left, right);
    forall from, to ensures Lasted(events, a, from, to)
        <==> IsComplete(left) && TimeOf(left, Start) == from && TimeOf(left, End) == to {
      LastedIff(events, a, from, to);
    }
    forall from, to ensures Lasted(events, b, from, to)
        <==> IsComplete(right) && TimeOf(right, Start) == from && TimeOf(right, End) == to {
      LastedIff(events, b, from, to);
    }
    hide Correlation, Listed, IsComplete, Shared, Lasted, TimeOf, EntryFor;
    if IsComplete(left) && IsComplete(right) {
      assert Lasted(events, a, TimeOf(left, Start), TimeOf(left, End));
      assert Lasted(events, b, TimeOf(right, Start), TimeOf(right, End));
    }
  }

  // ----- the rows

  /** The events of an attempt at one time, in the order of the input. */
  function EventsAt(events: seq<Event>, k: Key, t: int): seq<Event> {
    if events == [] then []
    else if events[0].key == k && events[0].at == t then [events[0]] + EventsAt(events[1..], k, t)
    else EventsAt(events[1..], k, t)
  }

  lemma {:induction false} EventsAtIs(events: seq<Event>, k: Key, t: int)
    ensures EventsAt(events, k, t) == WithKey(Select(events, HasKey(k)), At, t)
  {
    if events != [] {
      var h, rest := events[0], events[1..];
      assert events == [h] + rest;
      EventsAtIs(rest, k, t);
      SelectCons(h, rest, HasKey(k));
      if h.key == k {
        WithKeyCons(h, Select(rest, HasKey(k)), At, t);
      }
      hide Select, WithKey;
    }
  }

  lemma {:induction false} AllOfKey(those: seq<Event>, k: Key)
    requires forall e :: e in those ==> e.key == k
    ensures Select(those, HasKey(k)) == those
  {
    if those != [] {
      assert those[0] in those;
      AllOfKey(those[1..], k);
    }
  }

  /** The events of an attempt as the report has them: all of them, by time, equal times in the order of the input. */
  ghost predicate InTime(events: seq<Event>, k: Key, those: seq<Event>) {
    && (forall e :: multiset(those)[e] == if e.key == k then multiset(events)[e] else 0)
    && (forall i, j :: 0 <= i < j < |those| ==> those[i].at <= those[j].at)
    && (forall t :: EventsAt(those, k, t) == EventsAt(events, k, t))
  }

  /** A row tells of its event everything but the process, for which it has a number. */
  predicate Tells(row: Row, e: Event, workers: map<nat, nat>) {
    && row.kind == e.kind && row.at == e.at && row.calls == e.calls && row.outcome == e.outcome
    && row.worker == if e.pid.Some? && e.pid.value in workers then Some(workers[e.pid.value]) else None
  }

  lemma SelectedInTime(events: seq<Event>, k: Key)
    ensures InTime(events, k, Select(InOrder(events), HasKey(k)))
  {
    var mine := Select(events, HasKey(k));
    SelectSort(events, HasKey(k), At);
    var those := Select(InOrder(events), HasKey(k));
    hide Select, Sort, EventsAt;
    SortPermutes(mine, At);
    SortSorted(mine, At);
    forall e: Event ensures multiset(those)[e] == if e.key == k then multiset(events)[e] else 0 {
      SelectCount(events, HasKey(k), e);
    }
    forall i, j | 0 <= i < j < |those| ensures those[i].at <= those[j].at {
      assert At(those[i]) <= At(those[j]);
    }
    forall t ensures EventsAt(those, k, t) == EventsAt(events, k, t) {
      EventsAtIs(those, k, t);
      EventsAtIs(events, k, t);
      AllOfKey(those, k);
      SortStable(mine, At, t);
    }
  }

  /** The rows of a listed attempt tell of its events in the order of time. */
  lemma RowsSay(events: seq<Event>, k: Key)
    ensures exists those ::
              && InTime(events, k, those)
              && |Listed(events, k).rows| == |those|
              && forall i :: 0 <= i < |those| ==> Tells(Listed(events, k).rows[i], those[i], Workers(InOrder(events)))
  {
    SelectedInTime(events, k);
    var those := Select(InOrder(events), HasKey(k));
    DelayFields(k, RowsOf(those, Workers(InOrder(events))));
    hide Select, InOrder, Workers, InTime, AttemptOf;
  }

  /** The smaller number belongs to the process that was seen first. */
  lemma {:induction false} NumbersByAppearance(events: seq<Event>, p: nat, q: nat)
    requires p in Workers(events) && q in Workers(events) && Workers(events)[p] < Workers(events)[q]
    ensures exists i ::
              0 <= i < |events| && events[i].pid == Some(p) && forall j :: 0 <= j <= i ==> events[j].pid != Some(q)
  {
    var front, last := events[..|events| - 1], events[|events| - 1];
    var v, w := Workers(front), Workers(events);
    WorkersAreNumbered(front);
    if last.pid == Some(q) && q !in v {
      var e :| e in front && e.pid == Some(p);
      var i :| 0 <= i < |front| && front[i] == e;
      assert events[i].pid == Some(p);
      forall j | 0 <= j <= i ensures events[j].pid != Some(q) {
        assert events[j] == front[j] && front[j] in front;
      }
    } else {
      assert p in v && q in v;
      NumbersByAppearance(front, p, q);
      assert forall j :: 0 <= j < |front| ==> front[j] == events[j];
    }
  }

  // ----- the delays of a completed run

  /** An attempt is announced before it starts and before its publication returns. */
  ghost predicate AnnouncedBefore(st: State, e: Event) {
    && e.key in st.progress
    && (st.progress[e.key].started ==> e.at <= st.progress[e.key].startAt)
    && forall f :: f in st.log && IsOf(f, e.key, Published) ==> e.at <= f.at
  }

  ghost predicate EnqueuedFirst(st: State) {
    forall e :: e in st.log && e.kind == Enqueue ==> AnnouncedBefore(st, e)
  }

  /** What a step adds is later than everything before it. */
  lemma StepIsLater(plan: Plan, st: State, step: Step, elapsed: nat, e: Event)
    requires Invariant(plan, st) && Enabled(plan, st, step) && e.at <= st.now && e.key in st.progress
    ensures var next := Apply(plan, st, step, elapsed);
      && e.key in next.progress
      && (forall f :: f in next.log ==> f in st.log || f.at == next.now >= e.at)
      && (next.progress[e.key].started ==>
            || (st.progress[e.key].started && next.progress[e.key].startAt == st.progress[e.key].startAt)
            || next.progress[e.key].startAt >= e.at)
  {
    StepAppends(plan, st, step, elapsed);
  }

  /** An attempt that is announced has not started and is not published. */
  lemma AnnouncedIsNew(plan: Plan, st: State, step: Step, elapsed: nat, e: Event)
    requires Invariant(plan, st) && LogInvariant(plan, st) && Enabled(plan, st, step)
    requires e in Apply(plan, st, step, elapsed).log && e !in st.log && e.kind == Enqueue
    ensures AnnouncedBefore(Apply(plan, st, step, elapsed), e)
  {
    StepAppends(plan, st, step, elapsed);
    assert step == Announce(e.key);
    assert Ordered(JobOf(plan, e.key), st.progress[e.key]);
    assert forall f :: f in st.log ==> Faithful(plan, st, f);
  }

  lemma StepKeepsEnqueued(plan: Plan, st: State, step: Step, elapsed: nat)
    requires Invariant(plan, st) && LogInvariant(plan, st) && Enabled(plan, st, step) && EnqueuedFirst(st)
    ensures EnqueuedFirst(Apply(plan, st, step, elapsed))
  {
    var next := Apply(plan, st, step, elapsed);
    assert Consistent(plan, st);
    forall e | e in next.log && e.kind == Enqueue ensures AnnouncedBefore(next, e) {
      if e in st.log {
        assert e.at <= st.now by { LogIsPast(plan, st, e); }
        assert AnnouncedBefore(st, e);
        hide Apply, Invariant, LogInvariant, Enabled, IsOf;
        StepIsLater(plan, st, step, elapsed, e);
      } else {
        hide Apply, Invariant, LogInvariant, Enabled, AnnouncedBefore;
        AnnouncedIsNew(plan, st, step, elapsed, e);
      }
    }
  }

  lemma {:induction false} RunKeepsEnqueued(plan: Plan, st: State, schedule: Schedule)
    requires Invariant(plan, st) && LogInvariant(plan, st) && Feasible(plan, st, schedule) && EnqueuedFirst(st)
    ensures EnqueuedFirst(Run(plan, st, schedule))
    decreases |schedule|
  {
    if schedule != [] {
      hide EnqueuedFirst, LogInvariant, Invariant;
      var (step, elapsed) := schedule[0];
      InvariantConsistent(plan, st);
      StepKeeps(plan, st, step, elapsed);
      StepKeepsLog(plan, st, step, elapsed);
      StepKeepsEnqueued(plan, st, step, elapsed);
      RunKeepsEnqueued(plan, Apply(plan, st, step, elapsed), schedule[1..]);
    }
  }

  lemma OneEvent(plan: Plan, st: State, events: seq<Event>, k: Key, kind: Kind) returns (e: Event)
    requires Done(plan, st) && Collected(st, events) && k in st.progress && kind in BOUNDARIES
    ensures e in st.log && e in events && IsOf(e, k, kind) && CountEvents(events, k, kind) == 1
    ensures kind == Start ==> e.at == st.progress[k].startAt
  {
    SameEvents(st, events);
    BoundariesOnce(plan, st, k, kind);
    e := Select(st.log, Of(k, kind))[0];
    assert e in Select(st.log, Of(k, kind));
    assert Faithful(plan, st, e);
  }

  /** The delays of an attempt, with the events between which they run. */
  ghost predicate DelaysBetween(st: State, k: Key, a: CeleryTrace.Attempt, enqueue: Event, published: Event)
    requires k in st.progress
  {
    && enqueue in st.log && IsOf(enqueue, k, Enqueue)
    && published in st.log && IsOf(published, k, Published)
    && a.queueDelay == Some(st.progress[k].startAt - enqueue.at)
    && a.brokerDelay == Some(st.progress[k].startAt - published.at)
    && enqueue.at <= st.progress[k].startAt && enqueue.at <= published.at
  }

  lemma DelaysOfDone(plan: Plan, st: State, events: seq<Event>, k: Key)
    requires Done(plan, st) && Collected(st, events) && EnqueuedFirst(st) && k in st.progress
    ensures exists enqueue, published :: DelaysBetween(st, k, Listed(events, k), enqueue, published)
  {
    hide Done, Collected, Listed, CountEvents;
    var enqueue := OneEvent(plan, st, events, k, Enqueue);
    var published := OneEvent(plan, st, events, k, Published);
    var start := OneEvent(plan, st, events, k, Start);
    DelaysOfSingle(events, k, enqueue, published, start);
    Lengths(plan, st, k);
    assert AnnouncedBefore(st, enqueue);
    assert DelaysBetween(st, k, Listed(events, k), enqueue, published);
  }

  /**
   In a completed run the queue delay of an attempt is the time from its announcement to its start on a slot, the
   broker delay that from the return of its publication. The first is never negative and never the smaller one.
   */
  lemma DelaysOfRun(plan: Plan, schedule: Schedule, events: seq<Event>, k: Key)
    requires Feasible(plan, Initial(plan), schedule) && Expected(plan, k)
    requires Complete(plan, Run(plan, Initial(plan), schedule)) && Collected(Run(plan, Initial(plan), schedule), events)
    ensures k in Run(plan, Initial(plan), schedule).progress
    ensures exists enqueue, published ::
              DelaysBetween(Run(plan, Initial(plan), schedule), k, Listed(events, k), enqueue, published)
  {
    var st := Run(plan, Initial(plan), schedule);
    hide Run, Listed, Feasible, Invariant, LogInvariant, Collected, DelaysBetween;
    InitialHolds(plan);
    InitialLog(plan);
    RunKeepsEnqueued(plan, Initial(plan), schedule);
    hide Initial, EnqueuedFirst;
    ReachedStates(plan, schedule);
    DelaysOfDone(plan, st, events, k);
  }

  // ----- the producer

  /** The producer announces a job when the publication of every job before it has returned. */
  ghost predicate ProducerInOrder(plan: Plan, st: State)
    requires Consistent(plan, st)
  {
    forall i: nat, j: nat :: j < i < |plan| && st.progress[Key(i, 0)].announced ==> st.progress[Key(j, 0)].published
  }

  lemma StepKeepsProducer(plan: Plan, st: State, step: Step, elapsed: nat)
    requires Consistent(plan, st) && Enabled(plan, st, step) && ProducerInOrder(plan, st)
    ensures Consistent(plan, Apply(plan, st, step, elapsed)) && ProducerInOrder(plan, Apply(plan, st, step, elapsed))
  {
    ApplyConsistent(plan, st, step, elapsed);
    var next := Apply(plan, st, step, elapsed);
    forall i: nat, j: nat | j < i < |plan| && next.progress[Key(i, 0)].announced
      ensures next.progress[Key(j, 0)].published
    {
      assert st.progress[Key(i, 0)].announced || (step == Announce(Key(i, 0)) && MayAnnounce(plan, st, Key(i, 0)));
      assert st.progress[Key(j, 0)].published;
    }
  }

  lemma {:induction false} RunKeepsProducer(plan: Plan, st: State, schedule: Schedule)
    requires Consistent(plan, st) && Feasible(plan, st, schedule) && ProducerInOrder(plan, st)
    ensures ProducerInOrder(plan, Run(plan, st, schedule))
    decreases |schedule|
  {
    if schedule != [] {
      var (step, elapsed) := schedule[0];
      ApplyConsistent(plan, st, step, elapsed);
      StepKeepsProducer(plan, st, step, elapsed);
      hide ProducerInOrder;
      RunKeepsProducer(plan, Apply(plan, st, step, elapsed), schedule[1..]);
    }
  }

  /** However the rest interleaves, the jobs of the batch are published one after the other in the order of the plan. */
  lemma PublishedInOrder(plan: Plan, schedule: Schedule)
    requires Feasible(plan, Initial(plan), schedule)
    ensures ProducerInOrder(plan, Run(plan, Initial(plan), schedule))
  {
    RunKeepsProducer(plan, Initial(plan), schedule);
  }
}

/** What the joined attempts say about the events they were made from (scripts/celery_trace.py:319-390). */
module CeleryCorrelation {
  import opened Text
  import opened FirstSeen
  import opened Permutations
  import opened StableSort
  import opened CeleryWorker
  import opened CeleryTrace

  // ----- partition

  /** The events of one attempt and kind. */
  function Of(k: Key, kind: Kind): Event -> bool {
    (e: Event) => e.key == k && e.kind == kind
  }

  function CountEvents(events: seq<Event>, k: Key, kind: Kind): nat {
    |Select(events, Of(k, kind))|
  }

  ghost function AttemptKeys(events: seq<Event>): set<Key> {
    set e | e in events :: e.key
  }

  lemma RowsCons(e: Event, events: seq<Event>, workers: map<nat, nat>)
    ensures RowsOf([e] + events, workers) == [RowOf(e, workers)] + RowsOf(events, workers)
  {
  }

  /** The rows of one kind of an attempt are made from its events of that kind. */
  lemma {:induction false} RowsOfKind(events: seq<Event>, k: Key, kind: Kind, workers: map<nat, nat>)
    ensures Select(RowsOf(Select(events, HasKey(k)), workers), KindIs(kind))
         == RowsOf(Select(events, Of(k, kind)), workers)
  {
    if events != [] {
      hide Select, RowsOf;
      var h, t := events[0], events[1..];
      assert events == [h] + t;
      RowsOfKind(t, k, kind, workers);
      SelectCons(h, t, HasKey(k));
      SelectCons(h, t, Of(k, kind));
      var rest, those := Select(t, HasKey(k)), Select(t, Of(k, kind));
      RowsCons(h, rest, workers);
      RowsCons(h, those, workers);
      SelectCons(RowOf(h, workers), RowsOf(rest, workers), KindIs(kind));
    }
  }

  lemma CountInRows(events: seq<Event>, k: Key, kind: Kind, workers: map<nat, nat>)
    ensures CountOf(RowsOf(Select(events, HasKey(k)), workers), kind) == CountEvents(events, k, kind)
  {
    RowsOfKind(events, k, kind, workers);
    assert CountOf(RowsOf(Select(events, HasKey(k)), workers), kind)
        == |Select(RowsOf(Select(events, HasKey(k)), workers), KindIs(kind))|;
  }

  ghost predicate Incomplete(events: seq<Event>, k: Key) {
    exists kind :: kind in BOUNDARIES && CountEvents(events, k, kind) == 0
  }

  ghost predicate Repeated(events: seq<Event>, k: Key) {
    exists kind :: kind in KINDS && CountEvents(events, k, kind) > 1
  }

  /** The attempt that the report lists for a key of the events. */
  function Listed(events: seq<Event>, k: Key): CeleryTrace.Attempt {
    AttemptOf(k, RowsOf(Select(InOrder(events), HasKey(k)), Workers(InOrder(events))))
  }

  lemma ListedCounts(events: seq<Event>, k: Key, kind: Kind)
    ensures CountOf(Listed(events, k).rows, kind) == CountEvents(events, k, kind)
  {
    SortPermutes(events, At);
    CountInRows(InOrder(events), k, kind, Workers(InOrder(events)));
    SelectPermutes(InOrder(events), events, Of(k, kind));
  }

  lemma ListedFlags(events: seq<Event>, k: Key)
    ensures IsIncomplete(Listed(events, k)) <==> Incomplete(events, k)
    ensures IsDuplicate(Listed(events, k)) <==> Repeated(events, k)
  {
    var a := Listed(events, k);
    forall kind ensures CountOf(a.rows, kind) == CountEvents(events, k, kind) {
      ListedCounts(events, k, kind);
    }
    hide CountOf, CountEvents;
    if kind :| kind in BOUNDARIES && CountEvents(events, k, kind) == 0 {
      assert kind in a.missing;
    }
    if kind :| kind in KINDS && CountEvents(events, k, kind) > 1 {
      assert kind in a.duplicates;
    }
  }

  ghost function AttemptOrder(events: seq<Event>): seq<Key> {
    Unique(KeysIn(InOrder(events)))
  }

  /** Every attempt of the events is listed, once, with all its events in the order of time. */
  lemma AttemptsPartition(events: seq<Event>)
    ensures var report, order := Correlation(events), AttemptOrder(events);
      && |report.attempts| == |order|
      && (forall i :: 0 <= i < |order| ==> report.attempts[i] == Listed(events, order[i]))
      && (forall i, j :: 0 <= i < j < |order| ==> order[i] != order[j])
      && (forall k :: k in order <==> k in AttemptKeys(events))
  {
    var sorted := InOrder(events);
    UniqueMembers(KeysIn(sorted));
    SortMembers(events, At);
    forall k ensures k in KeysIn(sorted) <==> k in AttemptKeys(events) {
      if k in KeysIn(sorted) {
        var i :| 0 <= i < |sorted| && KeysIn(sorted)[i] == k;
        assert sorted[i] in sorted;
      }
      if k in AttemptKeys(events) {
        var e :| e in events && e.key == k;
        var i :| 0 <= i < |sorted| && sorted[i] == e;
        assert KeysIn(sorted)[i] == k;
      }
    }
  }

  // ----- counts

  ghost predicate DistinctAttempts(attempts: seq<CeleryTrace.Attempt>) {
    forall i, j :: 0 <= i < j < |attempts| ==> attempts[i].key != attempts[j].key
  }

  function KeysOf(attempts: seq<CeleryTrace.Attempt>): seq<Key> {
    seq(|attempts|, i requires 0 <= i < |attempts| => attempts[i].key)
  }

  lemma {:induction false} SelectKeepsDistinct(attempts: seq<CeleryTrace.Attempt>, p: CeleryTrace.Attempt -> bool)
    requires DistinctAttempts(attempts)
    ensures DistinctAttempts(Select(attempts, p))
  {
    if attempts != [] {
      var rest := Select(attempts[1..], p);
      SelectKeepsDistinct(attempts[1..], p);
      forall i | 0 <= i < |rest| ensures rest[i].key != attempts[0].key {
        assert rest[i] in rest && rest[i] in attempts[1..];
      }
    }
  }

  /** Selecting from attempts with different keys counts the set of the selected keys. */
  lemma SelectCounts(attempts: seq<CeleryTrace.Attempt>, p: CeleryTrace.Attempt -> bool, keys: set<Key>)
    requires DistinctAttempts(attempts)
    requires forall a :: a in attempts ==> (p(a) <==> a.key in keys)
    requires forall k :: k in keys ==> exists a :: a in attempts && a.key == k
    ensures |Select(attempts, p)| == |keys|
  {
    var those := Select(attempts, p);
    SelectKeepsDistinct(attempts, p);
    DistinctSize(KeysOf(those));
    forall k ensures k in KeysOf(those) <==> k in keys {
      if k in KeysOf(those) {
        var i :| 0 <= i < |those| && KeysOf(those)[i] == k;
        assert those[i] in those;
      }
      if k in keys {
        var a :| a in attempts && a.key == k;
        assert a in those;
        var i :| 0 <= i < |those| && those[i] == a;
        assert KeysOf(those)[i] == k;
      }
    }
    assert ToSet(KeysOf(those)) == keys;
  }

  ghost function IncompleteKeys(events: seq<Event>): set<Key> {
    set k | k in AttemptKeys(events) && Incomplete(events, k)
  }

  ghost function RepeatedKeys(events: seq<Event>): set<Key> {
    set k | k in AttemptKeys(events) && Repeated(events, k)
  }

  /** The listed attempts carry the keys of the events, and each says by itself whether it counts. */
  lemma ListedAttempts(events: seq<Event>)
    ensures var attempts := Correlation(events).attempts;
      && DistinctAttempts(attempts)
      && (forall a :: a in attempts ==> a.key in AttemptKeys(events) && a == Listed(events, a.key))
      && (forall k :: k in AttemptKeys(events) ==> exists a :: a in attempts && a.key == k)
  {
    AttemptsPartition(events);
    var attempts, order := Correlation(events).attempts, AttemptOrder(events);
    hide Correlation, AttemptOrder;
    assert forall i :: 0 <= i < |order| ==> attempts[i].key == order[i];
    forall k | k in AttemptKeys(events) ensures exists a :: a in attempts && a.key == k {
      var i :| 0 <= i < |order| && order[i] == k;
      assert attempts[i] in attempts;
    }
  }

  /** The two counts are the numbers of attempts that lack a boundary and that repeat an event. */
  lemma CountsAreExact(events: seq<Event>)
    ensures Correlation(events).incomplete == |IncompleteKeys(events)|
    ensures Correlation(events).duplicate == |RepeatedKeys(events)|
  {
    ListedAttempts(events);
    CorrelationCounts(events);
    var attempts := Correlation(events).attempts;
    forall a | a in attempts
      ensures IsIncomplete(a) <==> a.key in IncompleteKeys(events)
      ensures IsDuplicate(a) <==> a.key in RepeatedKeys(events)
    {
      ListedFlags(events, a.key);
    }
    hide Correlation, Listed, IsIncomplete, IsDuplicate, Incomplete, Repeated;
    SelectCounts(attempts, IsIncomplete, IncompleteKeys(events));
    SelectCounts(attempts, IsDuplicate, RepeatedKeys(events));
  }

  lemma CorrelationCounts(events: seq<Event>)
    ensures Correlation(events).incomplete == |Select(Correlation(events).attempts, IsIncomplete)|
    ensures Correlation(events).duplicate == |Select(Correlation(events).attempts, IsDuplicate)|
    ensures Correlation(events).overlap == Overlaps(Select(Correlation(events).attempts, IsComplete))
  {
  }

  // ----- independence of the input order

  /** One node of the event graph that is digested: the attempt, its outcome and how often each kind occurs. */
  datatype Node = Node(key: Key, outcome: Option<Outcome>, counts: map<Kind, nat>)

  function NodeOf(a: CeleryTrace.Attempt): Node {
    Node(a.key, a.outcome, map kind | kind in KINDS :: CountOf(a.rows, kind))
  }

  ghost function Graph(events: seq<Event>): set<Node> {
    set k | k in AttemptKeys(events) :: NodeOf(Listed(events, k))
  }

  /** The only event of a kind is the one that the attempt's rows show. */
  lemma OnlyRow(events: seq<Event>, k: Key, kind: Kind, workers: map<nat, nat>, e: Event)
    requires Select(events, Of(k, kind)) == [e]
    ensures Select(RowsOf(Select(events, HasKey(k)), workers), KindIs(kind)) == [RowOf(e, workers)]
  {
    RowsOfKind(events, k, kind, workers);
  }

  /** The only event of an attempt and kind is still the only one after sorting, and in every order of the input. */
  lemma OnlyOne(events: seq<Event>, others: seq<Event>, k: Key, kind: Kind, e: Event)
    requires multiset(events) == multiset(others)
    requires CountEvents(events, k, kind) == 1 && e in events && Of(k, kind)(e)
    ensures Select(InOrder(others), Of(k, kind)) == [e]
  {
    hide Select, Sort;
    var sorted := InOrder(others);
    SortPermutes(others, At);
    SelectPermutes(sorted, events, Of(k, kind));
    SortMembers(others, At);
    assert e in multiset(others);
    assert e in Select(sorted, Of(k, kind));
  }

  lemma LastIsOutcome(a: CeleryTrace.Attempt, rows: seq<Row>, row: Row)
    requires a == AttemptOf(a.key, rows) && Select(rows, KindIs(End)) == [row]
    ensures a.outcome == row.outcome
  {
    hide Select, CountOf, Delay;
  }

  /** An attempt that ends once has the outcome of that end. */
  lemma OutcomeOfSingleEnd(events: seq<Event>, k: Key, e: Event)
    requires CountEvents(events, k, End) == 1 && e in events && Of(k, End)(e)
    ensures Listed(events, k).outcome == e.outcome
  {
    hide Select, InOrder, Workers, RowsOf, AttemptOf, CountEvents;
    var sorted := InOrder(events);
    OnlyOne(events, events, k, End, e);
    OnlyRow(sorted, k, End, Workers(sorted), e);
    var rows := RowsOf(Select(sorted, HasKey(k)), Workers(sorted));
    assert Listed(events, k).key == k by { ListedKey(events, k); }
    LastIsOutcome(Listed(events, k), rows, RowOf(e, Workers(sorted)));
  }

  lemma ListedKey(events: seq<Event>, k: Key)
    ensures Listed(events, k).key == k
  {
  }

  lemma OutcomeOfNoEnd(events: seq<Event>, k: Key)
    requires CountEvents(events, k, End) == 0
    ensures Listed(events, k).outcome == None
  {
    ListedCounts(events, k, End);
  }

  lemma CountsIndependent(events: seq<Event>, others: seq<Event>, k: Key, kind: Kind)
    requires multiset(events) == multiset(others)
    ensures CountOf(Listed(events, k).rows, kind) == CountOf(Listed(others, k).rows, kind)
    ensures CountEvents(events, k, kind) == CountEvents(others, k, kind)
  {
    ListedCounts(events, k, kind);
    ListedCounts(others, k, kind);
    SelectPermutes(events, others, Of(k, kind));
  }

  lemma OutcomeIndependent(events: seq<Event>, others: seq<Event>, k: Key)
    requires multiset(events) == multiset(others) && CountEvents(events, k, End) <= 1
    ensures Listed(events, k).outcome == Listed(others, k).outcome
  {
    hide Listed;
    CountsIndependent(events, others, k, End);
    if CountEvents(events, k, End) == 0 {
      OutcomeOfNoEnd(events, k);
      OutcomeOfNoEnd(others, k);
    } else {
      var e := Select(events, Of(k, End))[0];
      assert e in Select(events, Of(k, End));
      assert e in multiset(events) && e in multiset(others);
      OutcomeOfSingleEnd(events, k, e);
      OutcomeOfSingleEnd(others, k, e);
    }
  }

  lemma AtMostOneEnd(events: seq<Event>, k: Key)
    requires !Repeated(events, k)
    ensures CountEvents(events, k, End) <= 1
  {
    hide CountEvents;
  }

  lemma NodeIndependent(events: seq<Event>, others: seq<Event>, k: Key)
    requires multiset(events) == multiset(others) && !Repeated(events, k)
    ensures NodeOf(Listed(events, k)) == NodeOf(Listed(others, k))
  {
    hide Listed, CountOf, CountEvents, Repeated;
    ListedKey(events, k);
    ListedKey(others, k);
    AtMostOneEnd(events, k);
    forall kind ensures CountOf(Listed(events, k).rows, kind) == CountOf(Listed(others, k).rows, kind) {
      CountsIndependent(events, others, k, kind);
    }
    OutcomeIndependent(events, others, k);
  }

  lemma SameAttemptKeys(events: seq<Event>, others: seq<Event>)
    requires multiset(events) == multiset(others)
    ensures AttemptKeys(events) == AttemptKeys(others)
  {
    assert forall e :: e in events <==> e in multiset(events);
    assert forall e :: e in others <==> e in multiset(others);
  }

  lemma FlagsIndependent(events: seq<Event>, others: seq<Event>, k: Key)
    requires multiset(events) == multiset(others)
    ensures Incomplete(events, k) <==> Incomplete(others, k)
    ensures Repeated(events, k) <==> Repeated(others, k)
  {
    forall kind ensures CountEvents(events, k, kind) == CountEvents(others, k, kind) {
      SelectPermutes(events, others, Of(k, kind));
    }
    hide CountEvents;
  }

  /**
   The counts never depend on the order of the input, and neither does the graph unless an attempt repeats an event.
   */
  lemma OrderIsIrrelevant(events: seq<Event>, others: seq<Event>)
    requires multiset(events) == multiset(others)
    ensures Correlation(events).incomplete == Correlation(others).incomplete
    ensures Correlation(events).duplicate == Correlation(others).duplicate
    ensures Correlation(events).duplicate == 0 ==> Graph(events) == Graph(others)
  {
    hide Correlation, Listed, Incomplete, Repeated;
    SameAttemptKeys(events, others);
    CountsAreExact(events);
    CountsAreExact(others);
    forall k ensures (Incomplete(events, k) <==> Incomplete(others, k))
        && (Repeated(events, k) <==> Repeated(others, k)) {
      FlagsIndependent(events, others, k);
    }
    assert IncompleteKeys(events) == IncompleteKeys(others);
    assert RepeatedKeys(events) == RepeatedKeys(others);
    if Correlation(events).duplicate == 0 {
      forall k | k in AttemptKeys(events) ensures NodeOf(Listed(events, k)) == NodeOf(Listed(others, k)) {
        assert k !in RepeatedKeys(events);
        NodeIndependent(events, others, k);
      }
      assert Graph(events) == Graph(others);
    }
  }

  // ----- workers

  /** Processes and worker numbers correspond one to one; there are as many numbers as processes. */
  lemma {:induction false} WorkersAreNumbered(events: seq<Event>)
    ensures var w := Workers(events);
      && (forall p :: p in w <==> exists e :: e in events && e.pid == Some(p))
      && (forall p, q :: p in w && q in w && w[p] == w[q] ==> p == q)
      && (forall p :: p in w ==> 1 <= w[p] <= |w|)
  {
    if events != [] {
      var front, last := events[..|events| - 1], events[|events| - 1];
      WorkersAreNumbered(front);
      assert forall e :: e in events <==> e in front || e == last;
      var v, w := Workers(front), Workers(events);
      if last.pid.Some? && last.pid.value !in v {
        var p := last.pid.value;
        assert last in events;
        assert w.Keys == v.Keys + {p} && |w| == |w.Keys| == |v| + 1;
      }
    }
  }

  // ----- overlaps

  lemma {:induction false} OverlapsWithIff(left: CeleryTrace.Attempt, others: seq<CeleryTrace.Attempt>, o: Overlap)
    ensures o in OverlapsWith(left, others)
       <==> exists j ::
              0 <= j < |others| && Shared(left, others[j]) > 0
              && o == Overlap(left.key, others[j].key, Shared(left, others[j]))
  {
    hide Shared;
    if others != [] {
      OverlapsWithIff(left, others[..|others| - 1], o);
    }
  }

  ghost predicate PairListed(complete: seq<CeleryTrace.Attempt>, i: nat, j: nat, o: Overlap)
    requires i < j < |complete|
  {
    Shared(complete[i], complete[j]) > 0
        && o == Overlap(complete[i].key, complete[j].key, Shared(complete[i], complete[j]))
  }

  ghost predicate SomePair(complete: seq<CeleryTrace.Attempt>, o: Overlap) {
    exists i: nat, j: nat :: i < j < |complete| && PairListed(complete, i, j, o)
  }

  /** A pair is made of the first attempt and another one, or lies in the rest. */
  lemma SomePairStep(complete: seq<CeleryTrace.Attempt>, o: Overlap)
    requires complete != []
    ensures SomePair(complete, o)
       <==> (exists j: nat :: 0 < j < |complete| && PairListed(complete, 0, j, o)) || SomePair(complete[1..], o)
  {
    hide Shared;
    var rest := complete[1..];
    if i: nat, j: nat :| i < j < |rest| && PairListed(rest, i, j, o) {
      assert PairListed(complete, i + 1, j + 1, o);
    }
    if i: nat, j: nat :| 0 < i < j < |complete| && PairListed(complete, i, j, o) {
      assert PairListed(rest, i - 1, j - 1, o);
    }
  }

  lemma FirstListed(complete: seq<CeleryTrace.Attempt>, o: Overlap)
    requires complete != []
    ensures o in OverlapsWith(complete[0], complete[1..])
       <==> exists j: nat :: 0 < j < |complete| && PairListed(complete, 0, j, o)
  {
    hide Shared;
    var left, rest := complete[0], complete[1..];
    OverlapsWithIff(left, rest, o);
    if o in OverlapsWith(left, rest) {
      var j :| 0 <= j < |rest| && Shared(left, rest[j]) > 0
          && o == Overlap(left.key, rest[j].key, Shared(left, rest[j]));
      assert PairListed(complete, 0, j + 1, o);
    }
    if j: nat :| 0 < j < |complete| && PairListed(complete, 0, j, o) {
      assert rest[j - 1] == complete[j];
    }
  }

  /** A pair of complete attempts is listed iff their intervals share time, and for exactly that long. */
  lemma {:induction false} OverlapsIff(complete: seq<CeleryTrace.Attempt>, o: Overlap)
    ensures o in Overlaps(complete) <==> SomePair(complete, o)
  {
    if complete != [] {
      hide SomePair, OverlapsWith;
      SomePairStep(complete, o);
      FirstListed(complete, o);
      OverlapsIff(complete[1..], o);
    }
  }

  ghost predicate KeyAmong(attempts: seq<CeleryTrace.Attempt>, k: Key) {
    exists a :: a in attempts && a.key == k
  }

  /** The entries for one left attempt: the right attempts come from the others, each once. */
  ghost predicate ListedFor(left: CeleryTrace.Attempt, others: seq<CeleryTrace.Attempt>, listed: seq<Overlap>) {
    && (forall a :: 0 <= a < |listed| ==> listed[a].left == left.key && KeyAmong(others, listed[a].right))
    && (forall a, b :: 0 <= a < b < |listed| ==> listed[a].right != listed[b].right)
  }

  lemma {:induction false} OverlapsWithDistinct(left: CeleryTrace.Attempt, others: seq<CeleryTrace.Attempt>)
    requires DistinctAttempts(others)
    ensures ListedFor(left, others, OverlapsWith(left, others))
  {
    hide Shared;
    if others != [] {
      var front, last := others[..|others| - 1], others[|others| - 1];
      OverlapsWithDistinct(left, front);
      assert !KeyAmong(front, last.key);
      assert last in others && forall a :: a in front ==> a in others;
      assert forall k :: KeyAmong(front, k) ==> KeyAmong(others, k);
      assert KeyAmong(others, last.key);
    }
  }

  ghost predicate AllDifferent(listed: seq<Overlap>) {
    forall a, b :: 0 <= a < b < |listed| ==>
      && (listed[a].left, listed[a].right) != (listed[b].left, listed[b].right)
      && (listed[a].left, listed[a].right) != (listed[b].right, listed[b].left)
  }

  lemma LaterAreDifferent(left: CeleryTrace.Attempt, rest: seq<CeleryTrace.Attempt>, first: seq<Overlap>,
          later: seq<Overlap>)
    requires ListedFor(left, rest, first) && !KeyAmong(rest, left.key) && AllDifferent(later)
    requires forall o :: o in later ==> o.left != left.key && o.right != left.key
    ensures AllDifferent(first + later)
  {
    var listed := first + later;
    assert forall a :: 0 <= a < |first| ==> listed[a] == first[a];
    assert forall a :: |first| <= a < |listed| ==> listed[a] == later[a - |first|] && listed[a] in later;
  }

  /** No pair is listed twice, in either order. */
  lemma {:induction false} OverlapsAreDistinct(complete: seq<CeleryTrace.Attempt>)
    requires DistinctAttempts(complete)
    ensures AllDifferent(Overlaps(complete))
  {
    if complete != [] {
      hide Shared;
      var left, rest := complete[0], complete[1..];
      OverlapsAreDistinct(rest);
      OverlapsWithDistinct(left, rest);
      assert !KeyAmong(rest, left.key);
      forall o | o in Overlaps(rest) ensures o.left != left.key && o.right != left.key {
        OverlapsIff(rest, o);
        var i, j :| 0 <= i < j < |rest| && PairListed(rest, i, j, o);
      }
      LaterAreDifferent(left, rest, OverlapsWith(left, rest), Overlaps(rest));
    }
  }

  /** The overlaps of a report, exactly: pairs of listed complete attempts with shared time, each once. */
  lemma ReportedOverlaps(events: seq<Event>)
    ensures var report := Correlation(events);
      var complete := Select(report.attempts, IsComplete);
      && AllDifferent(report.overlap)
      && forall o :: o in report.overlap <==> exists i, j :: 0 <= i < j < |complete| && PairListed(complete, i, j, o)
  {
    ListedAttempts(events);
    CorrelationCounts(events);
    var complete := Select(Correlation(events).attempts, IsComplete);
    hide Correlation;
    SelectKeepsDistinct(Correlation(events).attempts, IsComplete);
    OverlapsAreDistinct(complete);
    forall o ensures o in Correlation(events).overlap
        <==> exists i, j :: 0 <= i < j < |complete| && PairListed(complete, i, j, o) {
      OverlapsIff(complete, o);
    }
  }
}

/**
 Collecting the events of a traced run and joining them into attempts (scripts/celery_trace.py:173-272,
 319-390). Clock values are integers; the digest at the end is represented by what is digested.
 */
module CeleryTrace {
  import opened Text
  import opened FirstSeen
  import opened StableSort
  import opened CeleryWorker

  // ----- the collector

  datatype Opening = Opening(startAt: int, calls: nat)

  class Trace {
    var active: map<Key, Opening>
    var events: seq<Event>

    constructor ()
      ensures active == map[] && events == []
    {
      active, events := map[], [];
    }

    method Publish(key: Key, at: int)
      modifies this`events
      ensures events == old(events) + [Plain(Enqueue, key, at)]
    {
      events := events + [Plain(Enqueue, key, at)];
    }

    method PublishReturned(key: Key, at: int)
      modifies this`events
      ensures events == old(events) + [Plain(Published, key, at)]
    {
      events := events + [Plain(Published, key, at)];
    }

    method Begin(key: Key, at: int, pid: nat)
      modifies this
      ensures active == old(active)[key := Opening(at, 0)]
      ensures events == old(events) + [Event(Start, key, at, Some(pid), 0, None)]
    {
      active := active[key := Opening(at, 0)];
      events := events + [Event(Start, key, active[key].startAt, Some(pid), 0, None)];
    }

    /** The mocked request counts itself if its attempt is being traced. */
    method ProviderCall(key: Key)
      modifies this`active
      ensures active == if key in old(active)
                        then old(active)[key := Opening(old(active)[key].startAt, old(active)[key].calls + 1)]
                        else old(active)
    {
      if key in active {
        active := active[key := Opening(active[key].startAt, active[key].calls + 1)];
      }
    }

    method RetryDecided(key: Key, at: int)
      modifies this`events
      ensures events == old(events) + [Plain(Retry, key, at)]
    {
      events := events + [Plain(Retry, key, at)];
    }

    /** False stands for the KeyError of an attempt that was never opened. */
    method Finish(key: Key, at: int, pid: nat, outcome: Outcome) returns (known: bool)
      modifies this
      ensures known == (key in old(active))
      ensures !known ==> active == old(active) && events == old(events)
      ensures known ==> active == old(active) - {key}
      ensures known ==> events == old(events) + [Event(End, key, at, Some(pid), old(active)[key].calls, Some(outcome))]
    {
      known := key in active;
      if known {
        var opening := active[key];
        active := active - {key};
        events := events + [Event(End, key, at, Some(pid), opening.calls, Some(outcome))];
      }
    }
  }

  // ----- what correlate returns

  /** An event without its process id, which is replaced by the number of its worker. */
  datatype Row = Row(kind: Kind, at: int, worker: Option<nat>, calls: nat, outcome: Option<Outcome>)

  datatype Attempt = Attempt(key: Key, rows: seq<Row>, missing: set<Kind>, duplicates: map<Kind, nat>,
                             queueDelay: Option<int>, brokerDelay: Option<int>, outcome: Option<Outcome>)

  datatype Overlap = Overlap(left: Key, right: Key, seconds: int)

  datatype Report = Report(attempts: seq<Attempt>, overlap: seq<Overlap>, workerCount: nat, incomplete: nat,
          duplicate: nat)

  // ----- its specification

  function At(e: Event): int { e.at }

  function InOrder(events: seq<Event>): seq<Event> {
    Sort(events, At)
  }

  function HasKey(k: Key): Event -> bool {
    (e: Event) => e.key == k
  }

  function KeysIn(events: seq<Event>): seq<Key> {
    seq(|events|, i requires 0 <= i < |events| => events[i].key)
  }

  /** Worker numbers, given out in the order in which the processes first appear. */
  function Workers(events: seq<Event>): map<nat, nat> {
    if events == [] then map[]
    else
      var w, last := Workers(events[..|events| - 1]), events[|events| - 1];
      if last.pid.Some? && last.pid.value !in w then w[last.pid.value := |w| + 1] else w
  }

  function RowOf(e: Event, workers: map<nat, nat>): Row {
    Row(e.kind, e.at,
        if e.pid.Some? && e.pid.value in workers then Some(workers[e.pid.value]) else None,
        e.calls, e.outcome)
  }

  function RowsOf(events: seq<Event>, workers: map<nat, nat>): seq<Row> {
    seq(|events|, i requires 0 <= i < |events| => RowOf(events[i], workers))
  }

  function KindIs(kind: Kind): Row -> bool {
    (row: Row) => row.kind == kind
  }

  function CountOf(rows: seq<Row>, kind: Kind): nat {
    |Select(rows, KindIs(kind))|
  }

  const BOUNDARIES := {Enqueue, Published, Start, End}
  const KINDS := {Enqueue, Published, Start, Retry, End, Diagnostic}

  /** The last event of a kind, which is the one the name stands for. */
  function LastOf(rows: seq<Row>, kind: Kind): Option<Row> {
    var those := Select(rows, KindIs(kind));
    if those == [] then None else Some(those[|those| - 1])
  }

  function Delay(rows: seq<Row>, from: Kind): Option<int> {
    var start, other := LastOf(rows, Start), LastOf(rows, from);
    if start.Some? && other.Some? then Some(start.value.at - other.value.at) else None
  }

  function AttemptOf(key: Key, rows: seq<Row>): Attempt {
    Attempt(key, rows,
            set kind | kind in BOUNDARIES && CountOf(rows, kind) == 0,
            map kind | kind in KINDS && CountOf(rows, kind) > 1 :: CountOf(rows, kind),
            Delay(rows, Enqueue), Delay(rows, Published),
            var end := LastOf(rows, End); if end.Some? then end.value.outcome else None)
  }

  /** The attempts in the order in which they first appear. */
  function AttemptsOf(keys: seq<Key>, sorted: seq<Event>, workers: map<nat, nat>): seq<Attempt> {
    seq(|keys|, i requires 0 <= i < |keys| => AttemptOf(keys[i], RowsOf(Select(sorted, HasKey(keys[i])), workers)))
  }

  function IsComplete(a: Attempt): bool { a.missing == {} }
  function IsIncomplete(a: Attempt): bool { a.missing != {} }
  function IsDuplicate(a: Attempt): bool { a.duplicates != map[] }

  function TimeOf(a: Attempt, kind: Kind): int {
    var row := LastOf(a.rows, kind);
    if row.Some? then row.value.at else 0
  }

  function Min(a: int, b: int): int { if a < b then a else b }
  function Max(a: int, b: int): int { if a < b then b else a }

  function Shared(left: Attempt, right: Attempt): int {
    Min(TimeOf(left, End), TimeOf(right, End)) - Max(TimeOf(left, Start), TimeOf(right, Start))
  }

  function OverlapsWith(left: Attempt, others: seq<Attempt>): seq<Overlap> {
    if others == [] then []
    else
      var front, last := others[..|others| - 1], others[|others| - 1];
      if Shared(left, last) > 0 then OverlapsWith(left, front) + [Overlap(left.key, last.key, Shared(left, last))]
      else OverlapsWith(left, front)
  }

  function Overlaps(complete: seq<Attempt>): seq<Overlap> {
    if complete == [] then [] else OverlapsWith(complete[0], complete[1..]) + Overlaps(complete[1..])
  }

  function Correlation(events: seq<Event>): Report {
    var sorted := InOrder(events);
    var workers := Workers(sorted);
    var attempts := AttemptsOf(Unique(KeysIn(sorted)), sorted, workers);
    Report(attempts, Overlaps(Select(attempts, IsComplete)), |workers|,
           |Select(attempts, IsIncomplete)|, |Select(attempts, IsDuplicate)|)
  }

  // ----- correlate as the source writes it

  lemma WorkersGrow(events: seq<Event>, i: nat)
    requires i < |events|
    ensures var e := events[i];
      Workers(events[..i + 1])
      == if e.pid.Some? && e.pid.value !in Workers(events[..i])
         then Workers(events[..i])[e.pid.value := |Workers(events[..i])| + 1]
         else Workers(events[..i])
  {
    assert events[..i + 1][..i] == events[..i];
  }

  lemma {:induction false} WorkersStay(events: seq<Event>, i: nat)
    requires i <= |events|
    ensures forall p :: p in Workers(events[..i]) ==>
              p in Workers(events) && Workers(events[..i])[p] == Workers(events)[p]
    decreases |events| - i
  {
    if i == |events| {
      assert events[..i] == events;
    } else {
      WorkersGrow(events, i);
      WorkersStay(events, i + 1);
    }
  }

  /** The row made from an event with the numbers given out so far is the final one. */
  lemma RowStays(events: seq<Event>, i: nat)
    requires i < |events|
    ensures RowOf(events[i], Workers(events[..i + 1])) == RowOf(events[i], Workers(events))
  {
    WorkersGrow(events, i);
    WorkersStay(events, i + 1);
  }

  lemma SelectGrows(events: seq<Event>, i: nat, k: Key)
    requires i < |events|
    ensures Select(events[..i + 1], HasKey(k))
         == if events[i].key == k then Select(events[..i], HasKey(k)) + [events[i]] else Select(events[..i], HasKey(k))
  {
    assert events[..i + 1] == events[..i] + [events[i]];
    SelectAppend(events[..i], events[i], HasKey(k));
  }

  lemma KeysGrow(events: seq<Event>, i: nat)
    requires i < |events|
    ensures Unique(KeysIn(events[..i + 1]))
         == if events[i].key in Unique(KeysIn(events[..i])) then Unique(KeysIn(events[..i]))
            else Unique(KeysIn(events[..i])) + [events[i].key]
  {
    assert KeysIn(events[..i + 1]) == KeysIn(events[..i]) + [events[i].key];
    UniqueAppend(KeysIn(events[..i]), events[i].key);
  }

  lemma RowsGrow(events: seq<Event>, e: Event, workers: map<nat, nat>)
    ensures RowsOf(events + [e], workers) == RowsOf(events, workers) + [RowOf(e, workers)]
    ensures RowsOf([], workers) == []
  {
  }

  /** The dictionaries after the first `i` events. */
  ghost predicate Joined(sorted: seq<Event>, i: nat, order: seq<Key>, rows: map<Key, seq<Row>>)
    requires i <= |sorted|
  {
    && order == Unique(KeysIn(sorted[..i]))
    && (forall k :: k in order <==> k in rows)
    && forall k :: RowsOf(Select(sorted[..i], HasKey(k)), Workers(sorted)) == if k in rows then rows[k] else []
  }

  lemma JoinedGrowsAt(sorted: seq<Event>, i: nat, rows: map<Key, seq<Row>>, row: Row, k: Key)
    requires i < |sorted| && row == RowOf(sorted[i], Workers(sorted))
    requires RowsOf(Select(sorted[..i], HasKey(k)), Workers(sorted)) == if k in rows then rows[k] else []
    ensures var key := sorted[i].key;
      var next := rows[key := (if key in rows then rows[key] else []) + [row]];
      RowsOf(Select(sorted[..i + 1], HasKey(k)), Workers(sorted)) == if k in next then next[k] else []
  {
    hide Workers, Select, RowsOf, RowOf;
    SelectGrows(sorted, i, k);
    RowsGrow(Select(sorted[..i], HasKey(k)), sorted[i], Workers(sorted));
  }

  lemma JoinedGrows(sorted: seq<Event>, i: nat, order: seq<Key>, rows: map<Key, seq<Row>>, row: Row)
    requires i < |sorted| && Joined(sorted, i, order, rows)
    requires row == RowOf(sorted[i], Workers(sorted))
    ensures var key := sorted[i].key;
      Joined(sorted, i + 1, if key in rows then order else order + [key],
             rows[key := (if key in rows then rows[key] else []) + [row]])
  {
    hide Unique, Workers, Select, KeysIn, RowsOf, RowOf;
    var key := sorted[i].key;
    KeysGrow(sorted, i);
    var next := rows[key := (if key in rows then rows[key] else []) + [row]];
    forall k ensures RowsOf(Select(sorted[..i + 1], HasKey(k)), Workers(sorted)) == if k in next then next[k] else [] {
      JoinedGrowsAt(sorted, i, rows, row, k);
    }
  }

  /** One pass of the first loop. */
  method JoinOne(event: Event, order0: seq<Key>, rows0: map<Key, seq<Row>>, workers0: map<nat, nat>)
    returns (order: seq<Key>, rows: map<Key, seq<Row>>, workers: map<nat, nat>)
    ensures workers == if event.pid.Some? && event.pid.value !in workers0
                       then workers0[event.pid.value := |workers0| + 1]
                       else workers0
    ensures order == if event.key in rows0 then order0 else order0 + [event.key]
    ensures rows == rows0[event.key := (if event.key in rows0 then rows0[event.key] else []) + [RowOf(event, workers)]]
  {
    order, rows, workers := order0, rows0, workers0;
    if event.pid.Some? && event.pid.value !in workers {
      workers := workers[event.pid.value := |workers| + 1];
    }
    var row := RowOf(event, workers);
    if event.key !in rows {
      order := order + [event.key];
      rows := rows[event.key := []];
    }
    rows := rows[event.key := rows[event.key] + [row]];
  }

  lemma JoinOneKeeps(sorted: seq<Event>, i: nat, order0: seq<Key>, rows0: map<Key, seq<Row>>, order: seq<Key>,
          rows: map<Key, seq<Row>>, row: Row)
    requires i < |sorted| && Joined(sorted, i, order0, rows0)
    requires row == RowOf(sorted[i], Workers(sorted[..i + 1]))
    requires order == if sorted[i].key in rows0 then order0 else order0 + [sorted[i].key]
    requires rows == rows0[sorted[i].key := (if sorted[i].key in rows0 then rows0[sorted[i].key] else []) + [row]]
    ensures Joined(sorted, i + 1, order, rows)
  {
    hide *;
    RowStays(sorted, i);
    JoinedGrows(sorted, i, order0, rows0, row);
  }

  /** The first loop: the keys in order, the rows of each, and the worker numbers. */
  method Join(sorted: seq<Event>) returns (order: seq<Key>, rows: map<Key, seq<Row>>, workers: map<nat, nat>)
    ensures order == Unique(KeysIn(sorted))
    ensures workers == Workers(sorted)
    ensures forall k :: k in order ==> k in rows && rows[k] == RowsOf(Select(sorted, HasKey(k)), workers)
  {
    order, rows, workers := [], map[], map[];
    assert KeysIn(sorted[..0]) == [];
    assert Joined(sorted, 0, order, rows);
    hide *;
    for i := 0 to |sorted|
      invariant Joined(sorted, i, order, rows)
      invariant workers == Workers(sorted[..i])
    {
      ghost var order0, rows0 := order, rows;
      WorkersGrow(sorted, i);
      order, rows, workers := JoinOne(sorted[i], order, rows, workers);
      JoinOneKeeps(sorted, i, order0, rows0, order, rows, RowOf(sorted[i], workers));
    }
    JoinedAll(sorted, order, rows);
  }

  lemma JoinedAll(sorted: seq<Event>, order: seq<Key>, rows: map<Key, seq<Row>>)
    requires Joined(sorted, |sorted|, order, rows)
    ensures sorted[..|sorted|] == sorted
    ensures order == Unique(KeysIn(sorted))
    ensures forall k :: k in order ==> k in rows && rows[k] == RowsOf(Select(sorted, HasKey(k)), Workers(sorted))
  {
    assert sorted[..|sorted|] == sorted;
  }

  /** The inner loop over the attempts behind `index`. */
  method PairsWith(complete: seq<Attempt>, index: nat) returns (overlap: seq<Overlap>)
    requires index < |complete|
    ensures overlap == OverlapsWith(complete[index], complete[index + 1..])
  {
    hide TimeOf, Min, Max;
    var left := complete[index];
    overlap := [];
    for j := index + 1 to |complete|
      invariant overlap == OverlapsWith(left, complete[index + 1..j])
    {
      var right := complete[j];
      assert complete[index + 1..j + 1][..j - index - 1] == complete[index + 1..j];
      var seconds := Min(TimeOf(left, End), TimeOf(right, End)) - Max(TimeOf(left, Start), TimeOf(right, Start));
      if seconds > 0 {
        overlap := overlap + [Overlap(left.key, right.key, seconds)];
      }
    }
    assert complete[index + 1..|complete|] == complete[index + 1..];
  }

  /** The loops over pairs. */
  method Pairs(complete: seq<Attempt>) returns (overlap: seq<Overlap>)
    ensures overlap == Overlaps(complete)
  {
    hide OverlapsWith;
    overlap := [];
    assert complete[0..] == complete;
    for index := 0 to |complete|
      invariant overlap + Overlaps(complete[index..]) == Overlaps(complete)
    {
      var here := PairsWith(complete, index);
      ghost var rest := complete[index..];
      assert rest[0] == complete[index] && rest[1..] == complete[index + 1..];
      assert overlap + (here + Overlaps(rest[1..])) == (overlap + here) + Overlaps(rest[1..]);
      overlap := overlap + here;
    }
    assert Overlaps(complete[|complete|..]) == [];
  }

  method Correlate(events: seq<Event>) returns (report: Report)
    ensures report == Correlation(events)
  {
    hide Workers, Unique, Select, Overlaps, KeysIn, AttemptOf, RowsOf;
    var sorted := InOrder(events);
    var order, rows, workers := Join(sorted);
    var result: seq<Attempt> := [];
    ghost var all := AttemptsOf(order, sorted, workers);
    for i := 0 to |order|
      invariant result == all[..i]
    {
      assert order[i] in order;
      result := result + [AttemptOf(order[i], rows[order[i]])];
    }
    assert all[..|order|] == all;
    var overlap := Pairs(Select(result, IsComplete));
    report := Report(result, overlap, |workers|, |Select(result, IsIncomplete)|, |Select(result, IsDuplicate)|);
  }
}

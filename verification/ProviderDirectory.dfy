/**
 The fetch and pin state of the provider directory (frontend/providers/ProviderDirectoryView.jsx:63-69, 117-169,
 184-204). Filter changes, timers, replies and pin confirmations arrive in any order; the cleanup of an effect
 is one step with the change that causes it. Pin values are booleans.
 */
module ProviderDirectory {
  import opened Text
  import opened StableSort

  type Slug = string

  datatype Item = Item(slug: Slug, pinned: bool, title: string)

  datatype Filters = Filters(q: string, capability: string, media: string)

  datatype Phase = Scheduled | InFlight | Settled

  /** One run of the effect: its filters, its request and its abort signal. */
  datatype Effect = Effect(filters: Filters, phase: Phase, aborted: bool)

  datatype State = State(filters: Filters, items: seq<Item>, overrides: map<Slug, bool>,
                         effects: seq<Effect>, current: Option<nat>, loading: bool, error: bool)

  datatype Result = Items(items: seq<Item>) | Malformed | Rejected

  /** What can happen; `id` numbers the effects, `hasLoader` says whether `onFetch` is a function at that time. */
  datatype Action =
    | Change(filters: Filters, hasLoader: bool)
    | Retry(hasLoader: bool)
    | Fire(id: nat)
    | Reply(id: nat, result: Result)
    | PinConfirmed(slug: Slug, pinned: bool)
    | PinFailed

  // ----- sorting

  function PinKey(item: Item): int {
    if item.pinned then 0 else 1
  }

  function SortPinned(items: seq<Item>): seq<Item> {
    Sort(items, PinKey)
  }

  function IsPinned(item: Item): bool { item.pinned }
  function IsUnpinned(item: Item): bool { !item.pinned }

  lemma {:induction false} SelectIsWithKey(items: seq<Item>)
    ensures Select(items, IsPinned) == WithKey(items, PinKey, 0)
    ensures Select(items, IsUnpinned) == WithKey(items, PinKey, 1)
  {
    if items != [] {
      SelectIsWithKey(items[1..]);
    }
  }

  lemma {:induction false} WithKeyOfSplit(a: seq<Item>, b: seq<Item>, k: int)
    ensures WithKey(a + b, PinKey, k) == WithKey(a, PinKey, k) + WithKey(b, PinKey, k)
  {
    if a == [] {
      assert a + b == b;
    } else {
      hide WithKey;
      var h, t := a[0], a[1..];
      assert a == [h] + t && a + b == [h] + (t + b);
      WithKeyOfSplit(t, b, k);
      WithKeyCons(h, t, PinKey, k);
      WithKeyCons(h, t + b, PinKey, k);
    }
  }

  lemma {:induction false} WithKeyOfSelected(items: seq<Item>, k: int)
    ensures WithKey(Select(items, IsPinned), PinKey, k) == if k == 0 then Select(items, IsPinned) else []
    ensures WithKey(Select(items, IsUnpinned), PinKey, k) == if k == 1 then Select(items, IsUnpinned) else []
  {
    if items != [] {
      hide WithKey, Select;
      var h, t := items[0], items[1..];
      assert items == [h] + t;
      WithKeyOfSelected(t, k);
      SelectCons(h, t, IsPinned);
      SelectCons(h, t, IsUnpinned);
      WithKeyCons(h, Select(t, IsPinned), PinKey, k);
      WithKeyCons(h, Select(t, IsUnpinned), PinKey, k);
    }
  }

  lemma SelectOrNothing(items: seq<Item>, k: int)
    requires k != 0 && k != 1
    ensures WithKey(items, PinKey, k) == []
  {
    WithKeyMember(items, PinKey, k);
    if WithKey(items, PinKey, k) != [] {
      assert WithKey(items, PinKey, k)[0] in WithKey(items, PinKey, k);
    }
  }

  /** Sorting puts the pinned items first and changes nothing else about the order. */
  lemma PinnedFirst(items: seq<Item>)
    ensures SortPinned(items) == Select(items, IsPinned) + Select(items, IsUnpinned)
  {
    var split := Select(items, IsPinned) + Select(items, IsUnpinned);
    SortSorted(items, PinKey);
    assert forall i :: 0 <= i < |Select(items, IsPinned)| ==> split[i] in Select(items, IsPinned);
    assert forall i :: |Select(items, IsPinned)| <= i < |split| ==> split[i] in Select(items, IsUnpinned);
    assert Sorted(split, PinKey);
    forall k ensures WithKey(SortPinned(items), PinKey, k) == WithKey(split, PinKey, k) {
      SortStable(items, PinKey, k);
      SelectIsWithKey(items);
      WithKeyOfSplit(Select(items, IsPinned), Select(items, IsUnpinned), k);
      WithKeyOfSelected(items, k);
      if k != 0 && k != 1 {
        SelectOrNothing(items, k);
      }
    }
    SortIsUnique(SortPinned(items), split, PinKey);
  }

  // ----- the handlers as functions

  function Override(overrides: map<Slug, bool>, item: Item): Item {
    if item.slug in overrides then item.(pinned := overrides[item.slug]) else item
  }

  function OverrideAll(overrides: map<Slug, bool>, items: seq<Item>): seq<Item> {
    if items == [] then [] else [Override(overrides, items[0])] + OverrideAll(overrides, items[1..])
  }

  function SetPin(items: seq<Item>, slug: Slug, pinned: bool): seq<Item> {
    if items == [] then []
    else [if items[0].slug == slug then items[0].(pinned := pinned) else items[0]] + SetPin(items[1..], slug, pinned)
  }

  /** Cleanup: clear the timer and abort. */
  function Cleanup(st: State): State {
    if st.current.Some? && st.current.value < |st.effects| then
      var e := st.effects[st.current.value];
      var phase := if e.phase.Scheduled? then Settled else e.phase;
      st.(effects := st.effects[st.current.value := e.(aborted := true, phase := phase)], current := None)
    else st.(current := None)
  }

  function StartEffect(st: State, hasLoader: bool): State {
    if !hasLoader then st.(error := true)
    else st.(effects := st.effects + [Effect(st.filters, Scheduled, false)], current := Some(|st.effects|))
  }

  /** Whether the step can happen: timers fire once, requests settle once. */
  predicate Enabled(st: State, a: Action) {
    match a
    case Fire(id) => id < |st.effects| && st.effects[id].phase.Scheduled?
    case Reply(id, _) => id < |st.effects| && st.effects[id].phase.InFlight?
    case _ => true
  }

  function Next(st: State, a: Action): State
    requires Enabled(st, a)
  {
    match a
    case Change(filters, hasLoader) =>
      // The effect depends on the three filter values, so it is not run again for equal ones.
      if filters == st.filters then st else StartEffect(Cleanup(st).(filters := filters), hasLoader)
    case Retry(hasLoader) => StartEffect(Cleanup(st).(error := false), hasLoader)
    case Fire(id) =>
      st.(effects := st.effects[id := st.effects[id].(phase := InFlight)], loading := true, error := false)
    case Reply(id, result) =>
      var settled := st.(effects := st.effects[id := st.effects[id].(phase := Settled)]);
      if st.effects[id].aborted then settled
      else if result.Items? then
        settled.(items := SortPinned(OverrideAll(st.overrides, result.items)), loading := false)
      else settled.(error := true, loading := false)
    case PinConfirmed(slug, pinned) =>
      st.(overrides := st.overrides[slug := pinned], items := SortPinned(SetPin(st.items, slug, pinned)))
    case PinFailed => st
  }

  /** The state after mounting: the items of the model, and the first effect unless it is skipped. */
  function Mounted(filters: Filters, items: seq<Item>, skip: bool, hasLoader: bool): State {
    var st := State(filters, items, map[], [], None, false, false);
    if skip then st else StartEffect(st, hasLoader)
  }

  predicate Possible(st: State, actions: seq<Action>)
    decreases |actions|
  {
    actions == [] || (Enabled(st, actions[0]) && Possible(Next(st, actions[0]), actions[1..]))
  }

  function After(st: State, actions: seq<Action>): State
    requires Possible(st, actions)
    decreases |actions|
  {
    if actions == [] then st else After(Next(st, actions[0]), actions[1..])
  }

  // ----- the component as the source writes it

  class Directory {
    var filters: Filters
    var items: seq<Item>
    var overrides: map<Slug, bool>
    var effects: seq<Effect>
    var current: Option<nat>
    var loading: bool
    var error: bool

    ghost function View(): State
      reads this
    {
      State(filters, items, overrides, effects, current, loading, error)
    }

    constructor (filters: Filters, items: seq<Item>, skip: bool, hasLoader: bool)
      ensures View() == Mounted(filters, items, skip, hasLoader)
      ensures this.items == items && overrides == map[] && !loading && error == (!skip && !hasLoader)
      ensures effects == if skip || !hasLoader then [] else [Effect(filters, Scheduled, false)]
    {
      this.filters, this.items, overrides := filters, items, map[];
      loading := false;
      effects, current, error := [], None, false;
      new;
      if !skip {
        RunEffect(hasLoader);
      }
    }

    method RunEffect(hasLoader: bool)
      modifies this
      ensures View() == StartEffect(old(View()), hasLoader)
    {
      if !hasLoader {
        error := true;
        return;
      }
      current := Some(|effects|);
      effects := effects + [Effect(filters, Scheduled, false)];
    }

    method CleanUp()
      modifies this
      ensures View() == Cleanup(old(View()))
    {
      if current.Some? && current.value < |effects| {
        var e := effects[current.value];
        effects := effects[current.value := Effect(e.filters, if e.phase.Scheduled? then Settled else e.phase, true)];
      }
      current := None;
    }

    method ChangeFilters(next: Filters, hasLoader: bool)
      modifies this
      ensures View() == Next(old(View()), Change(next, hasLoader))
    {
      if next != filters {
        CleanUp();
        filters := next;
        RunEffect(hasLoader);
      }
    }

    method RetryLoad(hasLoader: bool)
      modifies this
      ensures View() == Next(old(View()), Retry(hasLoader))
    {
      CleanUp();
      error := false;
      RunEffect(hasLoader);
    }

    method TimerFires(id: nat)
      requires Enabled(View(), Fire(id))
      modifies this
      ensures View() == Next(old(View()), Fire(id))
    {
      effects := effects[id := effects[id].(phase := InFlight)];
      loading := true;
      error := false;
    }

    method RequestSettles(id: nat, result: Result)
      requires Enabled(View(), Reply(id, result))
      modifies this
      ensures View() == Next(old(View()), Reply(id, result))
    {
      var aborted := effects[id].aborted;
      effects := effects[id := effects[id].(phase := Settled)];
      if aborted {
        return;
      }
      if result.Items? {
        items := SortPinned(OverrideAll(overrides, result.items));
      } else {
        error := true;
      }
      loading := false;
    }

    method PinSettles(slug: Slug, pinned: bool)
      modifies this
      ensures View() == Next(old(View()), PinConfirmed(slug, pinned))
    {
      overrides := overrides[slug := pinned];
      items := SortPinned(SetPin(items, slug, pinned));
    }
  }

  // ----- the last word on every pin

  /** The value of the last confirmation for the slug, from the history alone. */
  function LastConfirmed(actions: seq<Action>, slug: Slug): Option<bool> {
    if actions == [] then None
    else
      var last := actions[|actions| - 1];
      if last.PinConfirmed? && last.slug == slug then Some(last.pinned)
      else LastConfirmed(actions[..|actions| - 1], slug)
  }

  ghost predicate Agrees(items: seq<Item>, overrides: map<Slug, bool>) {
    forall item :: item in items && item.slug in overrides ==> item.pinned == overrides[item.slug]
  }

  lemma {:induction false} OverrideAgrees(overrides: map<Slug, bool>, items: seq<Item>)
    ensures Agrees(OverrideAll(overrides, items), overrides)
  {
    if items != [] {
      OverrideAgrees(overrides, items[1..]);
    }
  }

  lemma {:induction false} SetPinAgrees(items: seq<Item>, overrides: map<Slug, bool>, slug: Slug, pinned: bool)
    requires Agrees(items, overrides)
    ensures Agrees(SetPin(items, slug, pinned), overrides[slug := pinned])
  {
    if items != [] {
      assert items[0] in items;
      assert Agrees(items[1..], overrides);
      SetPinAgrees(items[1..], overrides, slug, pinned);
    }
  }

  lemma SortAgrees(items: seq<Item>, overrides: map<Slug, bool>)
    requires Agrees(items, overrides)
    ensures Agrees(SortPinned(items), overrides)
  {
    SortMembers(items, PinKey);
  }

  /** Only the current effect is alive, and it is for the filters that are shown. */
  ghost predicate OneAlive(st: State) {
    && (forall id :: 0 <= id < |st.effects| && !st.effects[id].aborted && !st.effects[id].phase.Settled? ==>
          st.current == Some(id))
    && (forall id :: 0 <= id < |st.effects| && st.effects[id].phase.Scheduled? ==> !st.effects[id].aborted)
    && (st.current.Some? ==>
          && st.current.value < |st.effects|
          && !st.effects[st.current.value].aborted
          && st.effects[st.current.value].filters == st.filters)
  }

  /** The loading sign is shown only while something is under way, or an error is shown with it. */
  ghost predicate LoadingHonest(st: State) {
    st.loading ==>
      || st.error
      || (st.current.Some? && st.current.value < |st.effects| && !st.effects[st.current.value].phase.Settled?)
  }

  ghost predicate Invariant(st: State) {
    Agrees(st.items, st.overrides) && OneAlive(st) && LoadingHonest(st)
  }

  /** After the cleanup nothing is alive. */
  lemma CleanupEnds(st: State)
    requires OneAlive(st)
    ensures var clean := Cleanup(st);
      && clean.current.None?
      && clean.items == st.items && clean.overrides == st.overrides
      && forall id :: 0 <= id < |clean.effects| ==>
           && (clean.effects[id].aborted || clean.effects[id].phase.Settled?)
           && (clean.effects[id].phase.Scheduled? ==> !clean.effects[id].aborted)
  {
  }

  lemma RestartKeeps(st: State, filters: Filters, hasLoader: bool, error: bool)
    requires Invariant(st)
    ensures Invariant(StartEffect(Cleanup(st).(filters := filters, error := error), hasLoader))
  {
    CleanupEnds(st);
    hide Cleanup, Agrees;
    var clean := Cleanup(st).(filters := filters, error := error);
    var next := StartEffect(clean, hasLoader);
    if hasLoader {
      assert forall id :: 0 <= id < |clean.effects| ==> next.effects[id] == clean.effects[id];
    }
  }

  lemma FireKeeps(st: State, id: nat)
    requires Invariant(st) && Enabled(st, Fire(id))
    ensures Invariant(Next(st, Fire(id)))
  {
    hide Agrees;
  }

  lemma ReplyKeeps(st: State, id: nat, result: Result)
    requires Invariant(st) && Enabled(st, Reply(id, result))
    ensures Invariant(Next(st, Reply(id, result)))
  {
    if result.Items? {
      OverrideAgrees(st.overrides, result.items);
      SortAgrees(OverrideAll(st.overrides, result.items), st.overrides);
    }
    hide Agrees, SortPinned, OverrideAll;
  }

  lemma NextKeeps(st: State, a: Action)
    requires Invariant(st) && Enabled(st, a)
    ensures Invariant(Next(st, a))
  {
    match a
    case Change(filters, hasLoader) => RestartKeeps(st, filters, hasLoader, st.error);
      assert Cleanup(st).error == st.error;
    case Retry(hasLoader) => RestartKeeps(st, st.filters, hasLoader, false);
    case Fire(id) => FireKeeps(st, id);
    case Reply(id, result) => ReplyKeeps(st, id, result);
    case PinConfirmed(slug, pinned) =>
      SetPinAgrees(st.items, st.overrides, slug, pinned);
      SortAgrees(SetPin(st.items, slug, pinned), st.overrides[slug := pinned]);
    case PinFailed =>
  }

  lemma {:induction false} AfterLast(st: State, actions: seq<Action>)
    requires Possible(st, actions) && actions != []
    ensures var front, last := actions[..|actions| - 1], actions[|actions| - 1];
      && Possible(st, front)
      && Enabled(After(st, front), last)
      && After(st, actions) == Next(After(st, front), last)
    decreases |actions|
  {
    var front := actions[..|actions| - 1];
    if |actions| > 1 {
      AfterLast(Next(st, actions[0]), actions[1..]);
      assert front[1..] == actions[1..][..|actions| - 2];
    }
  }

  lemma {:induction false} HistoryKeeps(st: State, actions: seq<Action>)
    requires Possible(st, actions) && Invariant(st) && st.overrides == map[]
    ensures var end := After(st, actions);
      && Invariant(end)
      && forall slug :: LastConfirmed(actions, slug)
                     == if slug in end.overrides then Some(end.overrides[slug]) else None
    decreases |actions|
  {
    if actions != [] {
      hide Invariant, After, Enabled, Possible;
      AfterLast(st, actions);
      HistoryKeeps(st, actions[..|actions| - 1]);
      NextKeeps(After(st, actions[..|actions| - 1]), actions[|actions| - 1]);
    }
  }

  /**
   Whatever the order of filter changes, aborts, replies and confirmations: every shown item whose slug was
   ever confirmed carries the last confirmed value.
   */
  lemma ShownPinsAreConfirmed(filters: Filters, items: seq<Item>, skip: bool, hasLoader: bool, actions: seq<Action>)
    requires Possible(Mounted(filters, items, skip, hasLoader), actions)
    ensures var end := After(Mounted(filters, items, skip, hasLoader), actions);
      forall item :: item in end.items && LastConfirmed(actions, item.slug).Some?
                     ==> item.pinned == LastConfirmed(actions, item.slug).value
  {
    HistoryKeeps(Mounted(filters, items, skip, hasLoader), actions);
  }

  /**
   A reply changes the shown items only if it answers the request for the filters that are selected when it
   arrives; a superseded one changes nothing at all. Every change leaves pinned items first.
   */
  lemma RepliesAreCurrent(filters: Filters, items: seq<Item>, skip: bool, hasLoader: bool, actions: seq<Action>,
          id: nat, result: Result)
    requires Possible(Mounted(filters, items, skip, hasLoader), actions)
    requires Enabled(After(Mounted(filters, items, skip, hasLoader), actions), Reply(id, result))
    ensures var st := After(Mounted(filters, items, skip, hasLoader), actions);
      var next := Next(st, Reply(id, result));
      if st.current == Some(id) then
        && st.effects[id].filters == st.filters
        && (result.Items? ==> next.items == Select(OverrideAll(st.overrides, result.items), IsPinned)
                                          + Select(OverrideAll(st.overrides, result.items), IsUnpinned))
      else next == st.(effects := next.effects)
  {
    HistoryKeeps(Mounted(filters, items, skip, hasLoader), actions);
    if result.Items? {
      PinnedFirst(OverrideAll(After(Mounted(filters, items, skip, hasLoader), actions).overrides, result.items));
    }
  }

  /** A confirmation changes one slug, keeps the rest, and leaves the pinned items first, each group in its order. */
  lemma ConfirmationReorders(st: State, slug: Slug, pinned: bool)
    ensures var next := Next(st, PinConfirmed(slug, pinned));
      && next.items
          == Select(SetPin(st.items, slug, pinned), IsPinned) + Select(SetPin(st.items, slug, pinned), IsUnpinned)
      && (forall item: Item :: item in next.items && item.slug == slug ==> item.pinned == pinned)
      && (forall item: Item :: item.slug != slug ==> (item in next.items <==> item in st.items))
  {
    var changed := SetPin(st.items, slug, pinned);
    PinnedFirst(changed);
    SetPinMembers(st.items, slug, pinned);
    SortMembers(changed, PinKey);
    hide SetPin, Sort;
  }

  lemma {:induction false} SetPinMembers(items: seq<Item>, slug: Slug, pinned: bool)
    ensures forall item: Item :: item in SetPin(items, slug, pinned) && item.slug == slug ==> item.pinned == pinned
    ensures forall item: Item :: item.slug != slug ==> (item in SetPin(items, slug, pinned) <==> item in items)
  {
    if items != [] {
      SetPinMembers(items[1..], slug, pinned);
      assert forall item: Item :: item in items <==> item == items[0] || item in items[1..];
    }
  }

  // ----- what each event shows

  /** Pinned items first, and within both groups the order of the given list. */
  ghost predicate ShowsPinnedFirst(shown: seq<Item>, given: seq<Item>) {
    && multiset(shown) == multiset(given)
    && (forall i, j :: 0 <= i < j < |shown| && shown[j].pinned ==> shown[i].pinned)
    && (forall pinned :: OfPin(shown, pinned) == OfPin(given, pinned))
  }

  function OfPin(items: seq<Item>, pinned: bool): seq<Item> {
    if items == [] then []
    else if items[0].pinned == pinned then [items[0]] + OfPin(items[1..], pinned)
    else OfPin(items[1..], pinned)
  }

  lemma {:induction false} OfPinIs(items: seq<Item>, pinned: bool)
    ensures OfPin(items, pinned) == WithKey(items, PinKey, if pinned then 0 else 1)
  {
    if items != [] {
      OfPinIs(items[1..], pinned);
    }
  }

  lemma SortShows(items: seq<Item>)
    ensures ShowsPinnedFirst(SortPinned(items), items)
  {
    var shown := SortPinned(items);
    SortPermutes(items, PinKey);
    SortSorted(items, PinKey);
    assert forall i, j :: 0 <= i < j < |shown| ==> PinKey(shown[i]) <= PinKey(shown[j]);
    hide Sort, OfPin;
    forall pinned ensures OfPin(shown, pinned) == OfPin(items, pinned) {
      OfPinIs(shown, pinned);
      OfPinIs(items, pinned);
      SortStable(items, PinKey, if pinned then 0 else 1);
    }
  }

  /** The fetched items, each with the pin that was confirmed for it, if any was. */
  ghost predicate Confirmed(given: seq<Item>, items: seq<Item>, overrides: map<Slug, bool>) {
    && |given| == |items|
    && forall i :: 0 <= i < |items| ==>
         && given[i].slug == items[i].slug && given[i].title == items[i].title
         && given[i].pinned == if items[i].slug in overrides then overrides[items[i].slug] else items[i].pinned
  }

  lemma {:induction false} OverrideSays(overrides: map<Slug, bool>, items: seq<Item>)
    ensures Confirmed(OverrideAll(overrides, items), items, overrides)
  {
    if items != [] {
      OverrideSays(overrides, items[1..]);
    }
  }

  /** The shown items with one pin set. */
  ghost predicate Repinned(given: seq<Item>, items: seq<Item>, slug: Slug, pinned: bool) {
    && |given| == |items|
    && forall i :: 0 <= i < |items| ==>
         given[i] == if items[i].slug == slug then Item(slug, pinned, items[i].title) else items[i]
  }

  lemma {:induction false} SetPinSays(items: seq<Item>, slug: Slug, pinned: bool)
    ensures Repinned(SetPin(items, slug, pinned), items, slug, pinned)
  {
    if items != [] {
      SetPinSays(items[1..], slug, pinned);
    }
  }

  /** Nothing but the phase and the abort signal of one effect differs. */
  ghost predicate OthersStay(effects: seq<Effect>, next: seq<Effect>, id: nat) {
    && |next| == |effects|
    && (id < |effects| ==> next[id].filters == effects[id].filters)
    && forall i :: 0 <= i < |effects| && i != id ==> next[i] == effects[i]
  }

  /**
   A reply ends its request. If that was aborted, nothing else changes. Otherwise the loading sign goes away, and items
   replace the shown ones with their confirmed pins, pinned ones first, while anything else shows an error.
   */
  lemma ReplySays(st: State, id: nat, result: Result)
    requires Enabled(st, Reply(id, result))
    ensures var next := Next(st, Reply(id, result));
      && OthersStay(st.effects, next.effects, id) && next.effects[id].phase.Settled?
      && next.filters == st.filters && next.overrides == st.overrides && next.current == st.current
      && (if st.effects[id].aborted then
            next.items == st.items && next.loading == st.loading && next.error == st.error
          else if result.Items? then
            && !next.loading && next.error == st.error
            && exists given :: Confirmed(given, result.items, st.overrides) && ShowsPinnedFirst(next.items, given)
          else
            !next.loading && next.error && next.items == st.items)
  {
    if result.Items? {
      var given := OverrideAll(st.overrides, result.items);
      OverrideSays(st.overrides, result.items);
      SortShows(given);
    }
    hide SortPinned, OverrideAll, Confirmed, ShowsPinnedFirst;
  }

  /** A confirmation is remembered and shown, pinned ones first. */
  lemma ConfirmationSays(st: State, slug: Slug, pinned: bool)
    ensures var next := Next(st, PinConfirmed(slug, pinned));
      && next == st.(overrides := st.overrides[slug := pinned], items := next.items)
      && exists given :: Repinned(given, st.items, slug, pinned) && ShowsPinnedFirst(next.items, given)
  {
    SetPinSays(st.items, slug, pinned);
    SortShows(SetPin(st.items, slug, pinned));
    hide SetPin, SortPinned, ShowsPinnedFirst, Repinned;
  }

  /** The timer shows loading instead of an error and sends the request. */
  lemma FireSays(st: State, id: nat)
    requires Enabled(st, Fire(id))
    ensures var next := Next(st, Fire(id));
      && next == st.(loading := true, error := false, effects := next.effects)
      && OthersStay(st.effects, next.effects, id)
      && next.effects[id].phase.InFlight? && next.effects[id].aborted == st.effects[id].aborted
  {
  }

  /**
   New filters and a retry abort the effect before, its timer included, and
   schedule one for the filters that are selected then; without a loader they show an error. Equal filters do nothing.
   */
  lemma StartSays(st: State, filters: Filters, hasLoader: bool)
    requires OneAlive(st)
    ensures Next(st, Change(st.filters, hasLoader)) == st
    ensures filters != st.filters ==> Restarted(st, Next(st, Change(filters, hasLoader)), filters, hasLoader, st.error)
    ensures Restarted(st, Next(st, Retry(hasLoader)), st.filters, hasLoader, false)
  {
    CleanupEnds(st);
  }

  ghost predicate Restarted(st: State, next: State, filters: Filters, hasLoader: bool, error: bool) {
    && next.filters == filters && next.items == st.items && next.overrides == st.overrides
    && next.loading == st.loading
    && next.error == (error || !hasLoader)
    && |next.effects| == |st.effects| + (if hasLoader then 1 else 0)
    && (forall id :: 0 <= id < |st.effects| ==>
          && next.effects[id].filters == st.effects[id].filters
          && (next.effects[id].aborted || next.effects[id].phase.Settled?)
          && !next.effects[id].phase.Scheduled?)
    && (if hasLoader then
          next.current == Some(|st.effects|) && next.effects[|st.effects|] == Effect(filters, Scheduled, false)
        else next.current == None)
  }

  // ----- one timer, one request, one reply

  function Fires(actions: seq<Action>, id: nat): nat {
    if actions == [] then 0
    else
      Fires(actions[..|actions| - 1], id)
          + if actions[|actions| - 1].Fire? && actions[|actions| - 1].id == id then 1 else 0
  }

  function Replies(actions: seq<Action>, id: nat): nat {
    if actions == [] then 0
    else
      Replies(actions[..|actions| - 1], id)
          + if actions[|actions| - 1].Reply? && actions[|actions| - 1].id == id then 1 else 0
  }

  /** What the phase of an effect says about the history: a settled one was answered, or its timer was cleared. */
  predicate PhaseFits(st: State, id: nat, fires: nat, replies: nat) {
    if id >= |st.effects| then fires == 0 && replies == 0
    else
      match st.effects[id].phase
      case Scheduled => fires == 0 && replies == 0
      case InFlight => fires == 1 && replies == 0
      case Settled => fires == replies <= 1
  }

  lemma PhaseStep(st: State, a: Action, id: nat, fires: nat, replies: nat)
    requires Enabled(st, a) && PhaseFits(st, id, fires, replies)
    ensures PhaseFits(Next(st, a), id, fires + (if a.Fire? && a.id == id then 1 else 0),
                      replies + (if a.Reply? && a.id == id then 1 else 0))
  {
    hide SortPinned, SetPin, OverrideAll;
  }

  /**
   In every history a timer fires at most once, and a reply comes only after its timer fired, once; while a request is
   under way its timer has fired and no reply has come.
   */
  lemma {:induction false} OneReplyPerRequest(filters: Filters, items: seq<Item>, skip: bool, hasLoader: bool,
          actions: seq<Action>, id: nat)
    requires Possible(Mounted(filters, items, skip, hasLoader), actions)
    ensures Replies(actions, id) <= Fires(actions, id) <= 1
    ensures PhaseFits(After(Mounted(filters, items, skip, hasLoader), actions), id, Fires(actions, id),
                      Replies(actions, id))
    decreases |actions|
  {
    if actions != [] {
      hide PhaseFits, Next, Enabled, Mounted, Possible, After;
      var st := Mounted(filters, items, skip, hasLoader);
      var front, last := actions[..|actions| - 1], actions[|actions| - 1];
      AfterLast(st, actions);
      OneReplyPerRequest(filters, items, skip, hasLoader, front, id);
      PhaseStep(After(st, front), last, id, Fires(front, id), Replies(front, id));
      PhaseBounds(After(st, actions), id, Fires(actions, id), Replies(actions, id));
    }
  }

  lemma PhaseBounds(st: State, id: nat, fires: nat, replies: nat)
    requires PhaseFits(st, id, fires, replies)
    ensures replies <= fires <= 1
  {
  }

  /** A timer that can fire belongs to the effect for the selected filters, and a reply can be awaited after it. */
  lemma FiresForSelected(st: State, id: nat, result: Result)
    requires Invariant(st) && Enabled(st, Fire(id))
    ensures st.current == Some(id) && st.effects[id].filters == st.filters
    ensures Enabled(Next(st, Fire(id)), Reply(id, result)) && !Enabled(Next(st, Fire(id)), Fire(id))
  {
    hide Agrees;
  }
}

/** The frozen layout: a snapshot of polled items that changes only when their keys do. */
module FrozenLayout {
  import opened Options

  datatype Item = Item(key: string, metrics: string)

  function KeySet(items: seq<Item>): set<string> { set i | 0 <= i < |items| :: items[i].key }

  /** One render's effect, or a press of the refresh button, each with the data of its render. */
  datatype Event =
    | Effect(data: Option<seq<Item>>, refreshKey: int)
    | ForceRefresh(data: Option<seq<Item>>)

  datatype State = State(snapshot: Option<seq<Item>>, snapshotKeys: set<string>, initialized: bool, lastRefreshKey: int)

  function Initial(refreshKey: int): State { State(None, {}, false, refreshKey) }

  function Take(s: State, data: seq<Item>): State { s.(snapshot := Some(data), snapshotKeys := KeySet(data)) }

  function Step(s: State, e: Event): State {
    match e
    case ForceRefresh(data) => if data.None? then s else Take(s, data.value)
    case Effect(data, refreshKey) =>
      if data.None? then s
      else
        var t := s.(lastRefreshKey := refreshKey);
        if !s.initialized || refreshKey != s.lastRefreshKey then Take(t, data.value).(initialized := true)
        else if KeySet(data.value) != s.snapshotKeys then Take(t, data.value)
        else t
  }

  function After(refreshKey: int, events: seq<Event>): State {
    if events == [] then Initial(refreshKey)
    else Step(After(refreshKey, events[..|events| - 1]), events[|events| - 1])
  }

  // ---------------------------------------------------------------------------
  // The simple form: told from the history alone
  // ---------------------------------------------------------------------------

  predicate HasData(e: Event) { e.data.Some? }
  predicate Settles(e: Event) { e.Effect? && HasData(e) }

  /** The refresh key that was current before: that of the last effect that had data. */
  function CurrentKey(refreshKey: int, events: seq<Event>): int {
    if events == [] then refreshKey
    else
      var e := events[|events| - 1];
      if Settles(e) then e.refreshKey else CurrentKey(refreshKey, events[..|events| - 1])
  }

  function Keys(items: Option<seq<Item>>): set<string> { if items.Some? then KeySet(items.value) else {} }

  /** e takes its data after the events before: by force, on the first load, for a new refresh key,
      or because other keys are shown. */
  predicate Takes(refreshKey: int, before: seq<Event>, shown: set<string>, e: Event) {
    HasData(e) &&
    (e.ForceRefresh? || (forall f :: f in before ==> !Settles(f)) || e.refreshKey != CurrentKey(refreshKey, before) ||
     KeySet(e.data.value) != shown)
  }

  /** The data of the last event that took its data. */
  function Shown(refreshKey: int, events: seq<Event>): Option<seq<Item>> {
    if events == [] then None
    else
      var (before, e) := (events[..|events| - 1], events[|events| - 1]);
      var shown := Shown(refreshKey, before);
      if Takes(refreshKey, before, Keys(shown), e) then e.data else shown
  }

  /** Over every run the snapshot, and the key set kept with it, are those of the simple form. */
  lemma {:induction false} StateIsHistory(refreshKey: int, events: seq<Event>)
    ensures var s := After(refreshKey, events);
            s.snapshot == Shown(refreshKey, events) && s.snapshotKeys == Keys(s.snapshot) &&
            s.lastRefreshKey == CurrentKey(refreshKey, events) &&
            (s.initialized <==> exists f :: f in events && Settles(f))
    decreases |events|
  {
    if events != [] {
      var (before, e) := (events[..|events| - 1], events[|events| - 1]);
      StateIsHistory(refreshKey, before);
      assert events == before + [e];
      assert forall f :: f in events <==> f in before || f == e;
    }
  }

  // ---------------------------------------------------------------------------
  // What one event does
  // ---------------------------------------------------------------------------

  lemma {:induction false} AfterOne(refreshKey: int, events: seq<Event>, e: Event)
    ensures After(refreshKey, events + [e]) == Step(After(refreshKey, events), e)
  {
    assert (events + [e])[..|events|] == events;
  }

  /** Without data nothing happens. */
  lemma {:induction false} NoDataKeeps(refreshKey: int, events: seq<Event>, newKey: int)
    ensures After(refreshKey, events + [Effect(None, newKey)]) == After(refreshKey, events)
    ensures After(refreshKey, events + [ForceRefresh(None)]) == After(refreshKey, events)
  {
    AfterOne(refreshKey, events, Effect(None, newKey));
    AfterOne(refreshKey, events, ForceRefresh(None));
  }

  /** A forced refresh shows its data and no more: it is no first load and no new refresh key. */
  lemma {:induction false} ForcedTakes(refreshKey: int, events: seq<Event>, data: seq<Item>)
    ensures var (s, t) := (After(refreshKey, events), After(refreshKey, events + [ForceRefresh(Some(data))]));
            t.snapshot == Some(data) && t.initialized == s.initialized && t.lastRefreshKey == s.lastRefreshKey
  {
    AfterOne(refreshKey, events, ForceRefresh(Some(data)));
  }

  /** The last effect with data before, if there is one. */
  ghost predicate LastSettled(events: seq<Event>, i: nat) {
    i < |events| && Settles(events[i]) && forall j :: i < j < |events| ==> !Settles(events[j])
  }

  lemma {:induction false} KeyOfLast(refreshKey: int, events: seq<Event>)
    ensures forall i: nat :: LastSettled(events, i) ==> CurrentKey(refreshKey, events) == events[i].refreshKey
    ensures (forall i :: 0 <= i < |events| ==> !Settles(events[i])) ==> CurrentKey(refreshKey, events) == refreshKey
    decreases |events|
  {
    if events != [] {
      var before := events[..|events| - 1];
      KeyOfLast(refreshKey, before);
      forall i: nat | LastSettled(events, i) && i < |before|
        ensures LastSettled(before, i)
      {
        assert !Settles(events[|events| - 1]);
      }
    }
  }

  /** The first effect with data shows it; so does one with another refresh key than the last such effect,
      and one whose data has other keys than those shown. Every other one leaves the snapshot as it is. */
  lemma {:induction false} EffectTakes(refreshKey: int, events: seq<Event>, data: seq<Item>, newKey: int, i: nat)
    ensures (forall j :: 0 <= j < |events| ==> !Settles(events[j])) ==>
              After(refreshKey, events + [Effect(Some(data), newKey)]).snapshot == Some(data)
    ensures LastSettled(events, i) ==>
              var (s, t) := (After(refreshKey, events), After(refreshKey, events + [Effect(Some(data), newKey)]));
              s.snapshot.Some? &&
              t.snapshot == if events[i].refreshKey != newKey || KeySet(data) != KeySet(s.snapshot.value) then Some(data) else s.snapshot
  {
    AfterOne(refreshKey, events, Effect(Some(data), newKey));
    StateIsHistory(refreshKey, events);
    KeyOfLast(refreshKey, events);
    if LastSettled(events, i) {
      assert events[i] in events;
      StaysSettled(refreshKey, events);
    }
  }

  // ---------------------------------------------------------------------------
  // Live values
  // ---------------------------------------------------------------------------

  /** The last item of the key. */
  function Live(items: seq<Item>, key: string): Option<Item> {
    if items == [] then None
    else if items[|items| - 1].key == key then Some(items[|items| - 1])
    else Live(items[..|items| - 1], key)
  }

  lemma {:induction false} LiveKeys(items: seq<Item>, key: string)
    ensures Live(items, key).Some? <==> key in KeySet(items)
    ensures Live(items, key).Some? ==>
              exists i :: 0 <= i < |items| && items[i] == Live(items, key).value && items[i].key == key &&
                          forall j :: i < j < |items| ==> items[j].key != key
    decreases |items|
  {
    if items != [] {
      LiveKeys(items[..|items| - 1], key);
      assert items[|items| - 1].key in KeySet(items);
      assert forall i :: 0 <= i < |items| - 1 ==> items[..|items| - 1][i] == items[i];
    }
  }

  /** After an effect with data every key of the snapshot has a live value, and no other key has one. */
  lemma {:induction false} SnapshotIsLive(refreshKey: int, events: seq<Event>, data: seq<Item>, newKey: int)
    ensures var s := After(refreshKey, events + [Effect(Some(data), newKey)]);
            s.snapshot.Some? && forall k :: k in KeySet(s.snapshot.value) <==> Live(data, k).Some?
  {
    assert (events + [Effect(Some(data), newKey)])[..|events|] == events;
    StateIsHistory(refreshKey, events);
    forall k
      ensures k in KeySet(data) <==> Live(data, k).Some?
    {
      LiveKeys(data, k);
    }
    var s := After(refreshKey, events);
    if exists f :: f in events && Settles(f) {
      StaysSettled(refreshKey, events);
    }
  }

  lemma {:induction false} StaysSettled(refreshKey: int, events: seq<Event>)
    requires exists f :: f in events && Settles(f)
    ensures Shown(refreshKey, events).Some?
    decreases |events|
  {
    var (before, e) := (events[..|events| - 1], events[|events| - 1]);
    assert events == before + [e];
    if exists f :: f in before && Settles(f) {
      StaysSettled(refreshKey, before);
    } else {
      assert Settles(e);
    }
  }

  /** Only the metrics have changed: nothing moves. */
  lemma {:induction false} Freezes(refreshKey: int, events: seq<Event>, data: seq<Item>)
    requires (exists f :: f in events && Settles(f)) && KeySet(data) == Keys(Shown(refreshKey, events))
    ensures After(refreshKey, events + [Effect(Some(data), CurrentKey(refreshKey, events))]) == After(refreshKey, events)
  {
    assert (events + [Effect(Some(data), CurrentKey(refreshKey, events))])[..|events|] == events;
    StateIsHistory(refreshKey, events);
  }

  // ---------------------------------------------------------------------------
  // The hook
  // ---------------------------------------------------------------------------

  class Layout {
    var snapshot: Option<seq<Item>>
    var snapshotKeys: set<string>
    var initialized: bool
    var lastRefreshKey: int

    ghost function View(): State
      reads this
    {
      State(snapshot, snapshotKeys, initialized, lastRefreshKey)
    }

    constructor (refreshKey: int)
      ensures View() == After(refreshKey, [])
    {
      snapshot, snapshotKeys, initialized, lastRefreshKey := None, {}, false, refreshKey;
    }

    method RunEffect(data: Option<seq<Item>>, refreshKey: int)
      modifies this
      ensures View() == Step(old(View()), Effect(data, refreshKey))
    {
      if data.None? {
        return;
      }
      var refreshForced := refreshKey != lastRefreshKey;
      lastRefreshKey := refreshKey;
      var newKeys := KeySet(data.value);
      if !initialized || refreshForced {
        snapshot := data;
        snapshotKeys := newKeys;
        initialized := true;
        return;
      }
      var hasAdded := exists k :: k in newKeys && k !in snapshotKeys;
      var hasRemoved := exists k :: k in snapshotKeys && k !in newKeys;
      if hasAdded || hasRemoved {
        snapshot := data;
        snapshotKeys := newKeys;
      }
    }

    method Refresh(data: Option<seq<Item>>)
      modifies this`snapshot, this`snapshotKeys
      ensures View() == Step(old(View()), ForceRefresh(data))
    {
      if data.Some? {
        snapshot := data;
        snapshotKeys := KeySet(data.value);
      }
    }
  }

  method LiveById(data: Option<seq<Item>>) returns (m: map<string, Item>)
    ensures forall k :: (k in m <==> data.Some? && Live(data.value, k).Some?) && (k in m ==> m[k] == Live(data.value, k).value)
  {
    m := map[];
    if data.Some? {
      for i := 0 to |data.value|
        invariant forall k :: k in m <==> Live(data.value[..i], k).Some?
        invariant forall k :: k in m ==> m[k] == Live(data.value[..i], k).value
      {
        assert data.value[..i + 1][..i] == data.value[..i];
        m := m[data.value[i].key := data.value[i]];
      }
      assert data.value[..|data.value|] == data.value;
    }
  }
}

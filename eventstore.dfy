/** The personal events, kept per day: a map from the day's key
    (`formatDateKey`) to that day's events in insertion order. These are the
    values the component's `addEvent` and `deleteEvent` hand to the state
    setter. */
module EventStore {

  /** One personal event. `category` is the source's `type` field. */
  datatype Event = Event(id: int, text: string, category: string)

  /** The only category the component creates. */
  const Personal: string := "personal"

  type Store = map<string, seq<Event>>

  /** `events[key] || []`: the day's events, or none when the key is absent.
      In a store without empty lists, a day shows no events exactly when it
      has no entry. */
  function EventsFor(store: Store, key: string): (r: seq<Event>)
    ensures NoEmptyLists(store) ==> (r == [] <==> key !in store)
  {
    if key in store then store[key] else []
  }

  /** The store invariant: a day with no events has no entry. */
  predicate NoEmptyLists(store: Store) {
    forall k :: k in store ==> store[k] != []
  }

  /** `{...events, [key]: [...currentEvents, newEvent]}`: the day gains an
      entry whose events are the old ones followed by the new event, and
      every other day shows the same events as before. */
  function Add(store: Store, key: string, ev: Event): (r: Store)
    ensures r.Keys == store.Keys + {key}
    ensures EventsFor(r, key) == EventsFor(store, key) + [ev]
    ensures forall k :: k != key ==> EventsFor(r, k) == EventsFor(store, k)
  {
    store[key := EventsFor(store, key) + [ev]]
  }

  /** `currentEvents.filter(ev => ev.id !== eventId)`: no event carrying
      the id is left. */
  function Without(evs: seq<Event>, id: int): (r: seq<Event>)
    ensures |r| <= |evs|
    ensures forall i :: 0 <= i < |r| ==> r[i].id != id
  {
    if evs == [] then []
    else if evs[0].id != id then [evs[0]] + Without(evs[1..], id)
    else Without(evs[1..], id)
  }

  /** `deleteEvent`: the filtered list replaces the day's list, or the key is
      dropped when nothing is left; every other day keeps its entry. The
      source reads `events[dateKey]` and calls `filter` on it, which fails
      on a missing key. */
  function Delete(store: Store, key: string, id: int): (r: Store)
    requires key in store
    ensures key in r <==> Without(store[key], id) != []
    ensures EventsFor(r, key) == Without(store[key], id)
    ensures r.Keys - {key} == store.Keys - {key}
    ensures forall k :: k in store && k != key ==> k in r && r[k] == store[k]
  {
    var kept := Without(store[key], id);
    if |kept| == 0 then store - {key} else store[key := kept]
  }

  /** `xs` is `ys` with some elements left out, the rest in their order. */
  predicate IsSubsequence(xs: seq<Event>, ys: seq<Event>)
    decreases |ys|
  {
    if xs == [] then true
    else if ys == [] then false
    else if xs[0] == ys[0] then IsSubsequence(xs[1..], ys[1..])
    else IsSubsequence(xs, ys[1..])
  }

  // ---------------------------------------------------------------------------
  // Add

  /** Adding never leaves a day with an empty entry. */
  lemma AddKeepsNoEmptyLists(store: Store, key: string, ev: Event)
    requires NoEmptyLists(store)
    ensures NoEmptyLists(Add(store, key, ev))
  {
  }

  // ---------------------------------------------------------------------------
  // Filter

  /** The filter keeps exactly the events whose id differs, each as often as
      it occurs, in their original order. */
  lemma {:induction false} WithoutKeepsOthers(evs: seq<Event>, id: int)
    ensures forall e :: multiset(Without(evs, id))[e] == if e.id == id then 0 else multiset(evs)[e]
    ensures IsSubsequence(Without(evs, id), evs)
  {
    if evs != [] {
      WithoutKeepsOthers(evs[1..], id);
      assert evs == [evs[0]] + evs[1..];
      if evs[0].id != id {
        assert Without(evs, id) == [evs[0]] + Without(evs[1..], id);
        assert Without(evs, id)[1..] == Without(evs[1..], id);
      } else {
        SubsequenceOfTail(Without(evs[1..], id), evs);
      }
    }
  }

  lemma SubsequenceOfTail(xs: seq<Event>, ys: seq<Event>)
    requires ys != [] && IsSubsequence(xs, ys[1..])
    ensures IsSubsequence(xs, ys)
    decreases |ys|, 0
  {
    if xs != [] && xs[0] == ys[0] {
      SubsequenceDropsFront(xs, ys[1..]);
    }
  }

  lemma SubsequenceDropsFront(xs: seq<Event>, zs: seq<Event>)
    requires xs != [] && IsSubsequence(xs, zs)
    ensures IsSubsequence(xs[1..], zs)
    decreases |zs|, 1
  {
    if xs[0] == zs[0] {
      SubsequenceOfTail(xs[1..], zs);
    } else {
      SubsequenceDropsFront(xs, zs[1..]);
      SubsequenceOfTail(xs[1..], zs);
    }
  }

  /** Nothing is removed when no event carries the id. */
  lemma {:induction false} WithoutNoMatch(evs: seq<Event>, id: int)
    requires forall i :: 0 <= i < |evs| ==> evs[i].id != id
    ensures Without(evs, id) == evs
  {
    if evs != [] {
      WithoutNoMatch(evs[1..], id);
      assert evs == [evs[0]] + evs[1..];
    }
  }

  /** Filtering twice by the same id is filtering once. */
  lemma WithoutIdempotent(evs: seq<Event>, id: int)
    ensures Without(Without(evs, id), id) == Without(evs, id)
  {
    WithoutNoMatch(Without(evs, id), id);
  }

  // ---------------------------------------------------------------------------
  // Delete

  lemma DeleteKeepsNoEmptyLists(store: Store, key: string, id: int)
    requires key in store && NoEmptyLists(store)
    ensures NoEmptyLists(Delete(store, key, id))
  {
  }

  /** Deleting the same id again, while the day still has an entry, changes
      nothing. (When the first delete emptied the day, the key is gone and a
      second delete would fail on the missing key.) */
  lemma DeleteTwice(store: Store, key: string, id: int)
    requires key in store && key in Delete(store, key, id)
    ensures Delete(Delete(store, key, id), key, id) == Delete(store, key, id)
  {
    WithoutIdempotent(store[key], id);
  }

  /** Deleting the id of an event just added, when no other event of that
      day carries it, restores the store. */
  lemma DeleteUndoesAdd(store: Store, key: string, ev: Event)
    requires NoEmptyLists(store)
    requires forall i :: 0 <= i < |EventsFor(store, key)| ==> EventsFor(store, key)[i].id != ev.id
    ensures Delete(Add(store, key, ev), key, ev.id) == store
  {
    var before := EventsFor(store, key);
    WithoutAppend(before, ev, ev.id);
    WithoutNoMatch(before, ev.id);
    if key !in store {
      assert Add(store, key, ev) - {key} == store;
    } else {
      var added := Add(store, key, ev);
      assert added[key] == before + [ev];
      assert Without(added[key], ev.id) == before;
      assert before != [];
      assert Delete(added, key, ev.id) == added[key := before];
      assert added[key := before] == store[key := before];
    }
  }

  /** The filter of an appended list is the filter of its parts. */
  lemma {:induction false} WithoutAppend(evs: seq<Event>, ev: Event, id: int)
    ensures Without(evs + [ev], id) == Without(evs, id) + (if ev.id != id then [ev] else [])
  {
    if evs == [] {
      assert [] + [ev] == [ev];
    } else {
      assert (evs + [ev])[1..] == evs[1..] + [ev];
      WithoutAppend(evs[1..], ev, id);
    }
  }
}

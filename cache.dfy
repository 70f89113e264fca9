/**
 The memo table behind `getEventById`: `eventsById`, created empty when the
 component is constructed and never reset. An entry holding an event is
 truthy and is returned without searching; an entry holding `undefined`
 (a stored miss) is falsy, so the next lookup of that id searches again.
 */
module EventCache {
  import opened Domain

  /** `this.eventsById`; `None` is a stored `undefined`. */
  type Cache = map<EventId, Option<Event>>

  /** Every event in the cache is stored under its own id. */
  ghost predicate Consistent(c: Cache)
  {
    forall k :: k in c && c[k].Some? ==> c[k].value.id == k
  }

  /** Every entry, stored hit or stored miss, is what a search of `events`
      gives for its id: the cache was filled from these events alone. */
  ghost predicate Agrees(c: Cache, events: seq<Event>)
  {
    forall k {:trigger Searched(events, k)} :: k in c ==> c[k] == Searched(events, k)
  }

  /** `FindEvent` under a name of its own, so that `Agrees` is applied only
      where a proof asks for the search of a particular id. */
  ghost function Searched(events: seq<Event>, id: EventId): Option<Event>
  {
    FindEvent(events, id)
  }

  /** `this.eventsById[eventId]` as a JavaScript value: a property never
      written and a stored miss both read as `undefined`; a stored event is
      an object (its identity plays no part here). */
  function Read(c: Cache, id: EventId): JsValue
  {
    if id !in c then Undefined
    else match c[id]
      case None => Undefined
      case Some(_) => Obj(0)
  }

  /** The test `getEventById` makes before searching: the entry holds an
      event, not a stored `undefined`. */
  predicate Hit(c: Cache, id: EventId)
  {
    id in c && c[id].Some?
  }

  /** `Hit` is exactly JavaScript truthiness of the entry as read from the
      table. */
  lemma HitIsTruthy(c: Cache, id: EventId)
    ensures Hit(c, id) <==> Truthy(Read(c, id))
  {
  }

  /** What `getEventById(id)` returns, given the cache and the events it
      would search. */
  function Resolve(c: Cache, events: seq<Event>, id: EventId): (r: Option<Event>)
    ensures Consistent(c) && r.Some? ==> r.value.id == id
    ensures r.None? ==> forall e :: e in events ==> e.id != id
  {
    if Hit(c, id) then c[id] else FindEvent(events, id)
  }

  /** The cache after `getEventById(id)`: the call writes the entry for `id`
      and no other, and leaves the cache as it was on a hit. */
  function Remember(c: Cache, events: seq<Event>, id: EventId): (r: Cache)
    ensures r.Keys == c.Keys + {id}
    ensures forall k :: k in c && k != id ==> r[k] == c[k]
    ensures r[id] == Resolve(c, events, id)
    ensures Hit(c, id) ==> r == c
    ensures Consistent(c) ==> Consistent(r)
  {
    if Hit(c, id) then c else c[id := FindEvent(events, id)]
  }

  /** A cache filled from `events` answers every lookup as a search of
      `events` would. */
  lemma AgreesResolve(c: Cache, events: seq<Event>, id: EventId)
    requires Agrees(c, events)
    ensures Resolve(c, events, id) == FindEvent(events, id)
  {
    assert id in c ==> c[id] == Searched(events, id);
  }

  /** A lookup against the events the cache was filled from keeps the cache
      filled from them. */
  lemma AgreesRemember(c: Cache, events: seq<Event>, id: EventId)
    requires Agrees(c, events)
    ensures Agrees(Remember(c, events, id), events)
  {
  }

  /** The first lookup of an id searches the events. */
  lemma FirstLookupSearches(events: seq<Event>, id: EventId)
    ensures Resolve(map[], events, id) == FindEvent(events, id)
  {
  }

  /** Against one snapshot of the events, a lookup changes the result of no
      later lookup: whatever it stores is what a search would find. */
  lemma ResolveAfterRemember(c: Cache, events: seq<Event>, id: EventId, k: EventId)
    ensures Resolve(Remember(c, events, id), events, k) == Resolve(c, events, k)
  {
  }

  /** Once an id has resolved to an event, later lookups return that same
      event without searching, even after the events have been replaced. */
  lemma HitIsSticky(c: Cache, before: seq<Event>, after: seq<Event>, id: EventId)
    requires Resolve(c, before, id).Some?
    ensures Resolve(Remember(c, before, id), after, id) == Resolve(c, before, id)
  {
  }

  /** A miss stores `undefined`, which does not count as a hit: the next
      lookup of that id searches whatever events there are then. */
  lemma MissIsSearchedAgain(c: Cache, before: seq<Event>, after: seq<Event>, id: EventId)
    requires Resolve(c, before, id).None?
    ensures Remember(c, before, id)[id] == None
    ensures Resolve(Remember(c, before, id), after, id) == FindEvent(after, id)
  {
  }

  /** The outcome of mapping `getEventById` over the ids of the selected
      elements: the looked-up events, the cache afterwards, and whether a
      `TypeError` was thrown because reading the id of an `undefined`
      element failed. */
  datatype Mapped = Mapped(resolved: seq<Option<Event>>, cache: Cache, threw: bool)

  /** The ids that are looked up before the first undefined element. */
  function LookedUp(refs: seq<Option<Ref>>): set<EventId>
  {
    if refs == [] || refs[0].None? then {} else {refs[0].value.id} + LookedUp(refs[1..])
  }

  /** Looks the elements up left to right, each lookup seeing the cache the
      previous one left; stops at the first undefined element. */
  function MapLookups(c: Cache, events: seq<Event>, refs: seq<Option<Ref>>): (m: Mapped)
    ensures !m.threw ==> |m.resolved| == |refs|
    ensures m.cache.Keys == c.Keys + LookedUp(refs)
    decreases |refs|
  {
    if refs == [] then Mapped([], c, false)
    else if refs[0].None? then Mapped([], c, true)
    else
      var id := refs[0].value.id;
      var rest := MapLookups(Remember(c, events, id), events, refs[1..]);
      Mapped([Resolve(c, events, id)] + rest.resolved, rest.cache, rest.threw)
  }

  /** One step of the map: the first element is looked up in `c`, and the
      rest are looked up in the cache that lookup leaves. */
  lemma MapLookupsStep(c: Cache, events: seq<Event>, refs: seq<Option<Ref>>)
    requires refs != [] && refs[0].Some?
    ensures var id := refs[0].value.id;
      var rest := MapLookups(Remember(c, events, id), events, refs[1..]);
      MapLookups(c, events, refs) == Mapped([Resolve(c, events, id)] + rest.resolved, rest.cache, rest.threw)
  {
  }

  /** The map over `refs`, split after its first `i` elements: when the
      lookups so far have yielded `resolved` and left cache `c`, and element
      `i` is defined, looking it up in `c` extends `resolved` by one and
      moves the split one place on. */
  lemma MapLookupsAdvance(before: Cache, c: Cache, events: seq<Event>, refs: seq<Option<Ref>>,
                          i: nat, resolved: seq<Option<Event>>)
    requires i < |refs| && refs[i].Some?
    requires MapLookups(before, events, refs).cache == MapLookups(c, events, refs[i..]).cache
    requires MapLookups(before, events, refs).threw == MapLookups(c, events, refs[i..]).threw
    requires MapLookups(before, events, refs).resolved == resolved + MapLookups(c, events, refs[i..]).resolved
    ensures var tail := MapLookups(Remember(c, events, refs[i].value.id), events, refs[i + 1..]);
      && MapLookups(before, events, refs).cache == tail.cache
      && MapLookups(before, events, refs).threw == tail.threw
      && MapLookups(before, events, refs).resolved == (resolved + [Resolve(c, events, refs[i].value.id)]) + tail.resolved
  {
    // Dafny finds this unaided too, but at several times the cost
    assert refs[i..][0] == refs[i] && refs[i..][1..] == refs[i + 1..];
    MapLookupsStep(c, events, refs[i..]);
    var tail := MapLookups(Remember(c, events, refs[i].value.id), events, refs[i + 1..]);
    assert resolved + ([Resolve(c, events, refs[i].value.id)] + tail.resolved)
        == (resolved + [Resolve(c, events, refs[i].value.id)]) + tail.resolved;
  }

  /** A run of lookups against the events the cache was filled from keeps
      the cache filled from them. */
  lemma {:induction false} AgreesMapLookups(c: Cache, events: seq<Event>, refs: seq<Option<Ref>>)
    requires Agrees(c, events)
    ensures Agrees(MapLookups(c, events, refs).cache, events)
    decreases |refs|
  {
    if refs != [] && refs[0].Some? {
      AgreesRemember(c, events, refs[0].value.id);
      AgreesMapLookups(Remember(c, events, refs[0].value.id), events, refs[1..]);
    }
  }

  /** The map throws exactly when some element is undefined. */
  lemma {:induction false} MapLookupsThrows(c: Cache, events: seq<Event>, refs: seq<Option<Ref>>)
    ensures MapLookups(c, events, refs).threw <==> exists k :: 0 <= k < |refs| && refs[k].None?
    decreases |refs|
  {
    if refs != [] && refs[0].Some? {
      var tail := refs[1..];
      MapLookupsThrows(Remember(c, events, refs[0].value.id), events, tail);
      assert forall k :: 0 <= k < |tail| ==> tail[k] == refs[k + 1];
      assert (exists k :: 0 <= k < |refs| && refs[k].None?) ==> exists k :: 0 <= k < |tail| && tail[k].None?;
    }
  }

  /** With no undefined element, every entry of the result is what a
      lookup in the cache as it was before the map would give. */
  lemma {:induction false} MapLookupsResults(c: Cache, events: seq<Event>, refs: seq<Option<Ref>>)
    requires forall k :: 0 <= k < |refs| ==> refs[k].Some?
    ensures var m := MapLookups(c, events, refs);
      && !m.threw && |m.resolved| == |refs|
      && forall k :: 0 <= k < |refs| ==> m.resolved[k] == Resolve(c, events, refs[k].value.id)
    decreases |refs|
  {
    if refs != [] {
      var id := refs[0].value.id;
      var c1 := Remember(c, events, id);
      var tail := refs[1..];
      assert forall k :: 0 <= k < |tail| ==> tail[k] == refs[k + 1];
      MapLookupsResults(c1, events, tail);
      var rest := MapLookups(c1, events, tail);
      var m := MapLookups(c, events, refs);
      MapLookupsStep(c, events, refs);
      forall k | 0 < k < |refs| ensures m.resolved[k] == Resolve(c, events, refs[k].value.id) {
        assert m.resolved[k] == rest.resolved[k - 1];
        ResolveAfterRemember(c, events, id, refs[k].value.id);
      }
    }
  }

  /** Every id looked up ends up holding its lookup result, every other
      entry is kept, and a consistent cache stays consistent. */
  lemma {:induction false} MapLookupsCache(c: Cache, events: seq<Event>, refs: seq<Option<Ref>>)
    ensures var m := MapLookups(c, events, refs);
      && (forall id :: id in LookedUp(refs) ==> m.cache[id] == Resolve(c, events, id))
      && (forall id :: id in c && id !in LookedUp(refs) ==> m.cache[id] == c[id])
      && (Consistent(c) ==> Consistent(m.cache))
    decreases |refs|
  {
    if refs != [] && refs[0].Some? {
      var id := refs[0].value.id;
      var tail := refs[1..];
      MapLookupsCache(Remember(c, events, id), events, tail);
      forall x | x in LookedUp(tail) {
        ResolveAfterRemember(c, events, id, x);
      }
    }
  }

  /** The map throws exactly when some element is undefined. Otherwise it
      yields one entry per element, each what a lookup in the original
      cache would give (so within one call an id resolves the same way
      every time, and nothing is deduplicated or dropped). Either way the
      cache gains an entry for every id looked up, holding the lookup's
      result, and keeps every other entry. */
  lemma MapLookupsSpec(c: Cache, events: seq<Event>, refs: seq<Option<Ref>>)
    ensures var m := MapLookups(c, events, refs);
      && (m.threw <==> exists k :: 0 <= k < |refs| && refs[k].None?)
      && (!m.threw ==> |m.resolved| == |refs| &&
                       forall k :: 0 <= k < |refs| ==> m.resolved[k] == Resolve(c, events, refs[k].value.id))
      && m.cache.Keys == c.Keys + LookedUp(refs)
      && (forall id :: id in LookedUp(refs) ==> m.cache[id] == Resolve(c, events, id))
      && (forall id :: id in c && id !in LookedUp(refs) ==> m.cache[id] == c[id])
      && (Consistent(c) ==> Consistent(m.cache))
  {
    MapLookupsThrows(c, events, refs);
    if forall k :: 0 <= k < |refs| ==> refs[k].Some? {
      MapLookupsResults(c, events, refs);
    }
    MapLookupsCache(c, events, refs);
  }
}

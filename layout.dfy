/**
 The non-rendering part of the `Dashboard` component: the memoised event
 lookup, the selection builder, narrative entry and stepping, and the small
 handlers that turn interactions into state-update intents.

 Dispatching an action is modelled as appending its intent to `log`; what
 the store then does with it is not part of this model. A JavaScript
 exception thrown inside a handler is the outcome `Threw`: whatever was
 dispatched or cached before the throw stays, nothing after it happens.
 */
module Layout {
  import opened Domain
  import opened Ordering
  import opened EventCache

  datatype Filter = Tags | Categories

  /** The actions the component dispatches, with their arguments. */
  datatype Intent =
    | UpdateSelected(selected: seq<Option<Event>>)
    | UpdateHighlighted(highlighted: JsValue)
    | UpdateSource(source: JsValue)
    | UpdateNarrative(narrative: Option<Narrative>)
    | IncrementNarrativeCurrent
    | DecrementNarrativeCurrent
    | ClearFilter(filter: Filter)
    | ToggleFilter(filter: Filter, value: string)

  /** How a handler ends: normally, or by a `TypeError` (reading `id` of an
      undefined step, or `steps` of a null narrative). */
  datatype Outcome = Returned | Threw

  /** What `getNarrativeLinks` returns: `null` when the event's narrative is
      not among the domain's narratives, otherwise `narrative.byId[event.id]`,
      itself `undefined` when the narrative has no entry for the event. */
  datatype Links = NoNarrative | Entry(links: Option<StepLinks>)

  /** `getNarrativeLinks(event)`: the step metadata the first narrative whose
      id is the event's narrative keeps for the event. */
  function NarrativeLinks(narratives: seq<Narrative>, event: Event): (r: Links)
    ensures r.NoNarrative? <==> forall nv :: nv in narratives ==> event.narrative != Some(nv.id)
    ensures r.Entry? ==>
      exists i :: 0 <= i < |narratives| && event.narrative == Some(narratives[i].id) &&
                  (forall j :: 0 <= j < i ==> event.narrative != Some(narratives[j].id)) &&
                  (r.links.Some? <==> event.id in narratives[i].byId) &&
                  (r.links.Some? ==> r.links.value == narratives[i].byId[event.id])
  {
    var found := FindNarrative(narratives, event.narrative);
    if found.None? then NoNarrative
    else
      var nv := found.value;
      assert Find(narratives, (nv: Narrative) => event.narrative == Some(nv.id)) == found;
      Entry(if event.id in nv.byId then Some(nv.byId[event.id]) else None)
  }

  /** The value `handleHighlight` dispatches: a truthy argument is passed on
      as it is, every falsy one becomes `null`. */
  function HighlightValue(highlighted: JsValue): (r: JsValue)
    ensures Truthy(r) <==> Truthy(highlighted)
    ensures Truthy(highlighted) ==> r == highlighted
    ensures !Truthy(r) ==> r == Null
  {
    if Truthy(highlighted) then highlighted else Null
  }

  /** The payload `handleSelect` dispatches when no element is undefined:
      one entry per element, in any case the event a lookup in the cache as
      it was gives for that element (nothing deduplicated, unresolved ids
      kept as undefined; a search of the events when the cache was filled
      from them), rearranged so that the resolved events are in
      timestamp order with ties in input order and the undefined entries
      last. */
  lemma SelectionPayload(c: Cache, events: seq<Event>, refs: seq<Option<Ref>>)
    requires forall k :: 0 <= k < |refs| ==> refs[k].Some?
    ensures var m := MapLookups(c, events, refs);
      var payload := ArraySort(m.resolved);
      && !m.threw
      && |m.resolved| == |payload| == |refs|
      && (forall k :: 0 <= k < |refs| ==> m.resolved[k] == Resolve(c, events, refs[k].value.id))
      && multiset(payload) == multiset(m.resolved)
      && Sorted(payload)
      && (forall t :: WithTime(payload, t) == WithTime(m.resolved, t))
      && (Agrees(c, events) ==>
            forall k :: 0 <= k < |refs| ==> m.resolved[k] == FindEvent(events, refs[k].value.id))
  {
    var m := MapLookups(c, events, refs);
    MapLookupsSpec(c, events, refs);
    ArraySortSpec(m.resolved);
    if Agrees(c, events) {
      forall k | 0 <= k < |refs| {
        AgreesResolve(c, events, refs[k].value.id);
      }
    }
  }

  class Dashboard {
    /** `props.domain.events` and `props.domain.narratives`. */
    var events: seq<Event>
    var narratives: seq<Narrative>
    /** `this.eventsById`. */
    var eventsById: Cache
    /** The intents dispatched so far, oldest first. */
    var log: seq<Intent>
    /** Whether every cache entry was filled from the current `events`.
        True from construction until a different domain arrives. */
    ghost var fromCurrentDomain: bool

    ghost predicate Valid()
      reads this
    {
      && Consistent(eventsById)
      && (fromCurrentDomain ==> Agrees(eventsById, events))
    }

    /** The cache starts empty; nothing is dispatched. */
    constructor (events: seq<Event>, narratives: seq<Narrative>)
      ensures Valid()
      ensures this.events == events && this.narratives == narratives
      ensures eventsById == map[] && log == []
      ensures fromCurrentDomain
    {
      this.events := events;
      this.narratives := narratives;
      eventsById := map[];
      log := [];
      fromCurrentDomain := true;
    }

    /** The component receiving a new domain in its props. The cache is
        kept: nothing in the component resets it, so its entries may now
        come from events that are gone. */
    method ReceiveDomain(events: seq<Event>, narratives: seq<Narrative>)
      requires Valid()
      modifies this`events, this`narratives, this`fromCurrentDomain
      ensures Valid()
      ensures this.events == events && this.narratives == narratives
      ensures fromCurrentDomain <==> old(fromCurrentDomain) && events == old(this.events)
    {
      fromCurrentDomain := fromCurrentDomain && events == this.events;
      this.events := events;
      this.narratives := narratives;
    }

    /** `getNarrativeLinks(event)` against the component's current
        narratives. */
    function GetNarrativeLinks(event: Event): (r: Links)
      reads this
      ensures r.NoNarrative? <==> forall nv :: nv in narratives ==> event.narrative != Some(nv.id)
    {
      NarrativeLinks(narratives, event)
    }

    /** A cached event is returned as it is; otherwise the events are
        searched and the result, found or not, is stored under `id`. */
    method GetEventById(id: EventId) returns (r: Option<Event>)
      requires Valid()
      modifies this`eventsById
      ensures Valid()
      ensures r == Resolve(old(eventsById), events, id)
      ensures eventsById == Remember(old(eventsById), events, id)
      ensures fromCurrentDomain ==> r == FindEvent(events, id)
    {
      if fromCurrentDomain {
        AgreesResolve(eventsById, events, id);
        AgreesRemember(eventsById, events, id);
      }
      if id in eventsById && eventsById[id].Some? {
        return eventsById[id];
      }
      eventsById := eventsById[id := FindEvent(events, id)];
      r := eventsById[id];
    }

    method HandleHighlight(highlighted: JsValue)
      modifies this`log
      ensures log == old(log) + [UpdateHighlighted(HighlightValue(highlighted))]
    {
      log := log + [UpdateHighlighted(HighlightValue(highlighted))];
    }

    method HandleViewSource(source: JsValue)
      modifies this`log
      ensures log == old(log) + [UpdateSource(source)]
    {
      log := log + [UpdateSource(source)];
    }

    /** Mapping `getEventById` over the selected elements, left to right.
        Reading the id of an undefined element throws, and the lookups made
        before it stay in the cache. */
    method MapGetEventById(refs: seq<Option<Ref>>) returns (resolved: seq<Option<Event>>, threw: bool)
      requires Valid()
      modifies this`eventsById
      ensures Valid()
      ensures var m := MapLookups(old(eventsById), events, refs);
        eventsById == m.cache && threw == m.threw && (!threw ==> resolved == m.resolved)
    {
      ghost var before := eventsById;
      ghost var evs := events;
      resolved := [];
      var i := 0;
      while i < |refs|
        invariant 0 <= i <= |refs|
        invariant Valid() && events == evs
        invariant MapLookups(before, evs, refs).cache == MapLookups(eventsById, evs, refs[i..]).cache
        invariant MapLookups(before, evs, refs).threw == MapLookups(eventsById, evs, refs[i..]).threw
        invariant MapLookups(before, evs, refs).resolved == resolved + MapLookups(eventsById, evs, refs[i..]).resolved
      {
        if refs[i].None? {
          return resolved, true;
        }
        MapLookupsAdvance(before, eventsById, evs, refs, i, resolved);
        var e := GetEventById(refs[i].value.id);
        resolved := resolved + [e];
        i := i + 1;
      }
      assert resolved + [] == resolved;
      threw := false;
    }

    /** `selected` is `None` for a falsy argument (`null`, `undefined`); any
        array, the empty one included, is truthy. Each element is looked up
        in turn; an undefined element throws when its `id` is read. The
        looked-up events are sorted and dispatched in one intent. */
    method HandleSelect(selected: Option<seq<Option<Ref>>>) returns (outcome: Outcome)
      requires Valid()
      modifies this`eventsById, this`log
      ensures Valid()
      ensures selected.None? ==> outcome == Returned && eventsById == old(eventsById) && log == old(log)
      ensures selected.Some? ==>
        var m := MapLookups(old(eventsById), events, selected.value);
        && eventsById == m.cache
        && (outcome == Threw <==> m.threw)
        && log == old(log) + (if m.threw then [] else [UpdateSelected(ArraySort(m.resolved))])
    {
      if selected.None? {
        return Returned;
      }
      var resolved, threw := MapGetEventById(selected.value);
      if threw {
        return Threw;
      }
      log := log + [UpdateSelected(ArraySort(resolved))];
      outcome := Returned;
    }

    /** `handleSelect([ref])` for a single, possibly undefined, element. */
    method SelectOne(ref: Option<Ref>) returns (outcome: Outcome)
      requires Valid()
      modifies this`eventsById, this`log
      ensures Valid()
      ensures ref.None? ==> outcome == Threw && eventsById == old(eventsById) && log == old(log)
      ensures ref.Some? ==>
        && outcome == Returned
        && eventsById == Remember(old(eventsById), events, ref.value.id)
        && log == old(log) + [UpdateSelected([Resolve(old(eventsById), events, ref.value.id)])]
    {
      outcome := HandleSelect(Some([ref]));
      if ref.Some? {
        assert [ref][1..] == [];
        ArraySortSingleton(Resolve(old(eventsById), events, ref.value.id));
      }
    }

    /** Choosing a narrative clears the tag and category filters, selects
        the first step and records the narrative. A narrative without steps
        throws after the two filters are cleared. A falsy argument only
        records it. */
    method SetNarrative(narrative: Option<Narrative>) returns (outcome: Outcome)
      requires Valid()
      modifies this`eventsById, this`log
      ensures Valid()
      ensures narrative.None? ==>
        outcome == Returned && eventsById == old(eventsById) && log == old(log) + [UpdateNarrative(None)]
      ensures narrative.Some? && narrative.value.steps == [] ==>
        && outcome == Threw
        && eventsById == old(eventsById)
        && log == old(log) + [ClearFilter(Tags), ClearFilter(Categories)]
      ensures narrative.Some? && narrative.value.steps != [] ==>
        var first := narrative.value.steps[0].id;
        && outcome == Returned
        && eventsById == Remember(old(eventsById), events, first)
        && log == old(log) + [ClearFilter(Tags), ClearFilter(Categories),
                              UpdateSelected([Resolve(old(eventsById), events, first)]),
                              UpdateNarrative(narrative)]
    {
      if narrative.Some? {
        log := log + [ClearFilter(Tags)];
        log := log + [ClearFilter(Categories)];
        outcome := SelectOne(StepAt(narrative.value.steps, 0));
        if outcome == Threw {
          return;
        }
      }
      log := log + [UpdateNarrative(narrative)];
      outcome := Returned;
    }

    /** `moveInNarrative(amt)` with the cursor read from the props: the
        active `narrative` and its `current` step. A step of 1 selects the
        next step and then increments the cursor, a step of -1 selects the
        previous one and then decrements it; any other amount does nothing.
        Nothing checks the bounds: a target outside the steps (or no active
        narrative) throws before anything is dispatched. */
    method MoveInNarrative(amt: int, narrative: Option<Narrative>, current: int) returns (outcome: Outcome)
      requires Valid()
      modifies this`eventsById, this`log
      ensures Valid()
      ensures amt != 1 && amt != -1 ==>
        outcome == Returned && eventsById == old(eventsById) && log == old(log)
      ensures amt == 1 || amt == -1 ==>
        var target := current + amt;
        if narrative.None? || !(0 <= target < |narrative.value.steps|) then
          outcome == Threw && eventsById == old(eventsById) && log == old(log)
        else
          var id := narrative.value.steps[target].id;
          && outcome == Returned
          && eventsById == Remember(old(eventsById), events, id)
          && log == old(log) + [UpdateSelected([Resolve(old(eventsById), events, id)]),
                                if amt == 1 then IncrementNarrativeCurrent else DecrementNarrativeCurrent]
    {
      if amt == 1 {
        if narrative.None? {
          return Threw;
        }
        outcome := SelectOne(StepAt(narrative.value.steps, current + 1));
        if outcome == Threw {
          return;
        }
        log := log + [IncrementNarrativeCurrent];
      }
      if amt == -1 {
        if narrative.None? {
          return Threw;
        }
        outcome := SelectOne(StepAt(narrative.value.steps, current - 1));
        if outcome == Threw {
          return;
        }
        log := log + [DecrementNarrativeCurrent];
      }
      outcome := Returned;
    }

    /** The toolbar's tag filter callback. */
    method OnTagFilter(tag: string)
      modifies this`log
      ensures log == old(log) + [ToggleFilter(Tags, tag)]
    {
      log := log + [ToggleFilter(Tags, tag)];
    }

    /** The toolbar's category filter callback. */
    method OnCategoryFilter(category: string)
      modifies this`log
      ensures log == old(log) + [ToggleFilter(Categories, category)]
    {
      log := log + [ToggleFilter(Categories, category)];
    }

    /** Closing the card stack empties the selection. */
    method OnToggleCardstack()
      modifies this`log
      ensures log == old(log) + [UpdateSelected([])]
    {
      log := log + [UpdateSelected([])];
    }

    /** Cancelling the media overlay clears the source. */
    method OnCancelSource()
      modifies this`log
      ensures log == old(log) + [UpdateSource(Null)]
    {
      log := log + [UpdateSource(Null)];
    }
  }

  // ---------------------------------------------------------------------
  // Interactions across several calls

  /** A component looks an id up, receives a new domain, and looks the same
      id up again. A hit is kept for good, so the second answer is the first
      one even if the new events differ; a miss is searched again in the new
      events. */
  method LookupAcrossDomains(before: seq<Event>, after: seq<Event>, id: EventId)
    returns (first: Option<Event>, second: Option<Event>)
    ensures first == FindEvent(before, id)
    ensures first.Some? ==> second == first
    ensures first.None? ==> second == FindEvent(after, id)
  {
    var d := new Dashboard(before, []);
    first := d.GetEventById(id);
    d.ReceiveDomain(after, []);
    second := d.GetEventById(id);
  }

  /** Choosing a narrative and pressing "next" until the last step: every
      move dispatches a selection and an increment, and one more "next" at
      the last step throws without dispatching anything. */
  method NarrativeTour(events: seq<Event>, n: Narrative)
    returns (log: seq<Intent>, pastEnd: Outcome)
    requires |n.steps| == 2
    ensures log == [ClearFilter(Tags), ClearFilter(Categories),
                    UpdateSelected([FindEvent(events, n.steps[0].id)]), UpdateNarrative(Some(n)),
                    UpdateSelected([FindEvent(events, n.steps[1].id)]), IncrementNarrativeCurrent]
    ensures pastEnd == Threw
  {
    var d := new Dashboard(events, [n]);
    var outcome := d.SetNarrative(Some(n));
    ghost var chosen := d.log;
    assert chosen == [ClearFilter(Tags), ClearFilter(Categories),
                      UpdateSelected([FindEvent(events, n.steps[0].id)]), UpdateNarrative(Some(n))];
    ResolveAfterRemember(map[], events, n.steps[0].id, n.steps[1].id);
    outcome := d.MoveInNarrative(1, Some(n), 0);
    assert d.log == chosen + [UpdateSelected([FindEvent(events, n.steps[1].id)]), IncrementNarrativeCurrent];
    pastEnd := d.MoveInNarrative(1, Some(n), 1);
    log := d.log;
  }
}

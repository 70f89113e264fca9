/**
 The domain snapshot the dashboard reads from its props: events, narratives
 and the few JavaScript values the controller passes through untouched.
 */
module Domain {

  /** `None` stands for JavaScript's `undefined` (or `null`) where the source
      may produce one. */
  datatype Option<+T> = None | Some(value: T)

  type EventId = string
  type NarrativeId = string

  /** An event of the domain. `timestamp` is the value `parseDate` yields for
      the event's raw timestamp, taken as an integer sort key. */
  datatype Event = Event(id: EventId, timestamp: int, category: string, narrative: Option<NarrativeId>)

  /** What the selection handlers receive: any object carrying an event id
      (an event from the map or timeline, a narrative step). */
  datatype Ref = Ref(id: EventId)

  /** The per-step metadata a narrative keeps in `byId`; the controller only
      hands it on. */
  datatype StepLinks = StepLinks(prev: Option<Ref>, next: Option<Ref>)

  datatype Narrative = Narrative(id: NarrativeId, steps: seq<Ref>, byId: map<EventId, StepLinks>)

  /** A JavaScript value as far as truthiness is concerned (numbers are taken
      as integers, so NaN does not arise). `Obj` is any object, by reference. */
  datatype JsValue = Undefined | Null | Bool(b: bool) | Num(n: int) | Str(s: string) | Obj(handle: nat)

  predicate Truthy(v: JsValue)
  {
    match v
    case Undefined => false
    case Null => false
    case Bool(b) => b
    case Num(n) => n != 0
    case Str(s) => s != ""
    case Obj(_) => true
  }

  /** `Array.prototype.find`: the first element that matches, or undefined. */
  function Find<T>(s: seq<T>, matches: T -> bool): (r: Option<T>)
    ensures r.None? <==> forall i :: 0 <= i < |s| ==> !matches(s[i])
    ensures r.Some? ==> exists i :: 0 <= i < |s| && s[i] == r.value && matches(s[i]) &&
                                    forall j :: 0 <= j < i ==> !matches(s[j])
  {
    if s == [] then None
    else if matches(s[0]) then Some(s[0])
    else
      var r := Find(s[1..], matches);
      assert forall i :: 1 <= i < |s| ==> s[i] == s[1..][i - 1];
      assert r.Some? ==> exists i :: 1 <= i < |s| && s[i] == r.value && matches(s[i]) &&
                                     forall j :: 1 <= j < i ==> !matches(s[j]);
      r
  }

  /** The search in `getEventById`: the first event of the domain whose id
      is strictly equal to the requested one, or undefined. */
  function FindEvent(events: seq<Event>, id: EventId): (r: Option<Event>)
    ensures r.Some? ==> r.value in events && r.value.id == id
    ensures r.None? <==> forall e :: e in events ==> e.id != id
  {
    Find(events, (e: Event) => e.id == id)
  }

  /** The search in `getNarrativeLinks`: the first narrative whose id is
      strictly equal to the event's narrative. An event without a narrative
      (`undefined`) matches none. */
  function FindNarrative(narratives: seq<Narrative>, owner: Option<NarrativeId>): (r: Option<Narrative>)
    ensures r.Some? ==> r.value in narratives && owner == Some(r.value.id)
    ensures r.None? <==> forall nv :: nv in narratives ==> owner != Some(nv.id)
  {
    Find(narratives, (nv: Narrative) => owner == Some(nv.id))
  }

  /** `steps[k]`: JavaScript yields undefined for an index outside the array,
      negative ones included. */
  function StepAt(steps: seq<Ref>, k: int): Option<Ref>
  {
    if 0 <= k < |steps| then Some(steps[k]) else None
  }

  /** First-match semantics of `FindEvent`: an earlier event with the same id wins. */
  lemma FindEventFirst(events: seq<Event>, id: EventId, i: nat)
    requires i < |events| && events[i].id == id
    requires forall j :: 0 <= j < i ==> events[j].id != id
    ensures FindEvent(events, id) == Some(events[i])
  {
  }
}

# Dashboard controller of ukraine-timemap, modelled in Dafny

This project models the logic of the `Dashboard` component in
`src/components/Layout.js`, leaving out rendering. The component holds
the domain (timestamped events and narratives) in its props and turns user
interactions into dispatched actions. The model covers:

- **The memoised event lookup.** `getEventById` keeps an `eventsById` table.
  The table starts empty in the constructor and is never reset. An entry
  holding an event is returned without searching. A miss stores
  `undefined`, which is falsy, so the next lookup of that id searches again.
- **The selection builder.** `handleSelect` looks every element up in turn,
  sorts the result by timestamp and dispatches one `updateSelected`.
- **Narrative entry and stepping.** `setNarrative` and `moveInNarrative`
  dispatch fixed, ordered sequences of actions.
- **The small handlers.** These are `getNarrativeLinks`, `handleHighlight`,
  `handleViewSource`, and the closures passed to the toolbar, card stack
  and media overlay.

Files and modules:

- `domain.dfy` (`Domain`): events, step references, narratives, JavaScript
  truthiness, and `Array.prototype.find`.
- `ordering.dfy` (`Ordering`): the result of the stable sort by parsed
  timestamp in `handleSelect`.
- `cache.dfy` (`EventCache`): the lookup table as a value, and what a
  lookup and a run of lookups do to it.
- `layout.dfy` (`Layout`): the `Dashboard` class. Its fields are `events`,
  `narratives`, `eventsById` and `log`, the list of dispatched intents. It
  also holds two multi-call scenarios.

Modelling choices:

- Dispatching an action appends an `Intent` to `log`.
- A JavaScript exception inside a handler is modelled as the outcome
  `Threw`. What was dispatched or cached before the throw stays, and
  nothing after the throw happens.
- `parseDate` is a call into `../js/utilities`. Timestamps are therefore the
  integers it would produce.
- The narrative cursor (`app.narrative`, `app.narrativeState.current`) is an
  input of `MoveInNarrative`. The reducers that move it are not in
  `Layout.js`.
- Object identity is value equality. "The same cached object" is therefore
  "the same event value as when the entry was stored".
- `props.domain` changing (a new domain arriving) is
  `Dashboard.ReceiveDomain`. It replaces `events` and `narratives` and keeps
  the cache. A ghost field, `fromCurrentDomain`, records whether every
  cache entry was filled from the current events. It is true from
  construction until a different set of events arrives.

### Behaviour of the code a reader might not expect

- `handleSelect` neither deduplicates nor drops unresolved ids. A miss
  stays in the payload as `undefined`, and `sort` moves it to the end.
- `handleSelect([])` dispatches `updateSelected([])`.
- Stepping past either end of a narrative is not clamped. The target step
  is `undefined`, reading its `id` throws, and nothing is dispatched, so the
  cursor is never moved out of range.
- The cache is not reset when a new domain arrives, so a cached event can
  outlive the domain it came from.
- A narrative step whose id is missing from the events is not reported.
  It is selected as `undefined`.
- A narrative with no steps throws in `setNarrative` after the two
  `clearFilter` actions have been dispatched, so `updateNarrative` is never
  dispatched.

## Model

Three helpers have no row of their own because they only define a piece
of JavaScript:
- `Domain.StepAt` defines array indexing, which gives `undefined` outside
  `0 <= k < steps.length`. The contracts of `Layout.Dashboard.SetNarrative`
  and `Layout.Dashboard.MoveInNarrative` state what that means for
  narratives.
- `EventCache.Hit` defines the truthiness test on a table entry, and
  `EventCache.Read` defines the entry read as a JavaScript value.
  `EventCache.HitIsTruthy` relates the two. `EventCache.HitIsSticky`,
  `EventCache.MissIsSearchedAgain` and `EventCache.AgreesResolve` state
  what the test means for lookups.

| member | source | states |
|---|---|---|
| `Domain.Find` | src/components/Layout.js:50 | `Array.prototype.find`: undefined exactly when no element matches; otherwise an element that matches and that no earlier element precedes in matching |
| `Domain.FindEvent` | src/components/Layout.js:50 | the search in `getEventById`: a found event is in the events and has the id; undefined exactly when no event has it |
| `Domain.FindEventFirst` | src/components/Layout.js:50 | when several events share an id, the first one is returned |
| `Domain.FindNarrative` | src/components/Layout.js:72 | the narrative search in `getNarrativeLinks`: a found narrative is in the list with the event's narrative id; none exactly when no narrative has that id, which includes an event without a narrative |
| `EventCache.HitIsTruthy` | src/components/Layout.js:49 | the test before searching is JavaScript truthiness of the entry as read from the table: a property never written and a stored `undefined` both fail it, a stored event passes |
| `EventCache.Resolve` | src/components/Layout.js:48-52 | a lookup in a consistent cache returns an event with the requested id, and it returns undefined only when no current event has that id |
| `EventCache.Remember` | src/components/Layout.js:49-50 | a lookup writes the entry for its id and no other; on a hit it leaves the cache unchanged; the stored entry is the lookup's result; the cache stays consistent |
| `EventCache.AgreesResolve` | src/components/Layout.js:48-52 | when every entry of the cache was filled from the events being searched, a lookup gives exactly what a search of those events gives |
| `EventCache.AgreesRemember` | src/components/Layout.js:49-50 | a lookup against the events the cache was filled from keeps every entry equal to a search of those events |
| `EventCache.FirstLookupSearches` | src/components/Layout.js:34 | with the cache as the constructor leaves it, a lookup is a search of the events |
| `EventCache.ResolveAfterRemember` | src/components/Layout.js:48-52 | against unchanged events, a lookup changes the result of no later lookup of any id |
| `EventCache.HitIsSticky` | src/components/Layout.js:49 | once an id has resolved to an event, later lookups return that event even after the events are replaced |
| `EventCache.MissIsSearchedAgain` | src/components/Layout.js:49-50 | a miss stores undefined, and the next lookup of that id searches the events as they are then |
| `EventCache.MapLookups` | src/components/Layout.js:60 | the lookups of the `map`, left to right, each seeing the cache the previous one left: without a throw there is one result per element; the cache ends up with exactly the old keys plus the ids looked up before the first undefined element |
| `EventCache.AgreesMapLookups` | src/components/Layout.js:60 | a run of lookups against the events the cache was filled from keeps every entry equal to a search of those events |
| `EventCache.MapLookupsThrows` | src/components/Layout.js:60 | the `map` throws exactly when some element is undefined |
| `EventCache.MapLookupsResults` | src/components/Layout.js:60 | with no undefined element the `map` does not throw, yields one entry per element, and each entry is the lookup result against the cache as it was before the call |
| `EventCache.MapLookupsCache` | src/components/Layout.js:60 | after the `map`, every id looked up holds its lookup result, every other entry is kept, and a consistent cache stays consistent |
| `EventCache.MapLookupsSpec` | src/components/Layout.js:60 | the `map` throws exactly when some element is undefined; otherwise it yields one entry per element, each the lookup result against the cache as it was before the call; either way every id looked up gets an entry holding its lookup result, and all other entries are kept |
| `Ordering.ArraySort` | src/components/Layout.js:61 | the array after `sort`: a rearrangement of the input, with the same length and the same entries, none dropped or deduplicated |
| `Ordering.ArraySortSpec` | src/components/Layout.js:61 | `sort` returns a permutation of the array, with the same length and the same entries; the result is ordered by timestamp with undefined entries last, and events with equal timestamps keep their input order |
| `Ordering.StableSortUnique` | src/components/Layout.js:61 | two arrays of one length that are both ordered and have the same equal-timestamp groups are equal |
| `Ordering.ArraySortUnique` | src/components/Layout.js:61 | any array a conforming stable `sort` may return is exactly `ArraySort`'s result |
| `Ordering.ArraySortSingleton` | src/components/Layout.js:61 | sorting a one-element array leaves it unchanged |
| `Layout.SelectionPayload` | src/components/Layout.js:58-63 | with no undefined element, the `updateSelected` payload has one entry per input element, each resolved against the cache as it was before the call; it is a permutation of the resolved entries that is ordered, stable and has undefined entries last; when the cache was filled from the current events, each entry is exactly a search of them |
| `Layout.NarrativeLinks` | src/components/Layout.js:71-75 | null exactly when no narrative has the event's narrative id; otherwise the first such narrative's `byId` entry for the event, undefined when it has none |
| `Layout.Dashboard.GetNarrativeLinks` | src/components/Layout.js:71-75 | `getNarrativeLinks` against the component's current narratives: null exactly when none of them has the event's narrative id |
| `Layout.HighlightValue` | src/components/Layout.js:45 | `highlighted \|\| null`: a truthy value is passed on unchanged; the result is falsy only when the input is, and then it is `null` |
| `Layout.Dashboard.constructor` | src/components/Layout.js:24-35 | the cache starts empty, so it is filled from the current events, and nothing has been dispatched |
| `Layout.Dashboard.ReceiveDomain` | src/components/Layout.js:34 | new domain props replace the events and narratives; the cache and the log are untouched; the cache counts as filled from the current events only if it did before and the events are unchanged |
| `Layout.Dashboard.GetEventById` | src/components/Layout.js:48-52 | returns `Resolve` of the cache before the call, and leaves the cache as `Remember` describes; while the cache is filled from the current events, the result is exactly a search of them |
| `Layout.Dashboard.HandleHighlight` | src/components/Layout.js:44-46 | dispatches exactly one `updateHighlighted` carrying the normalised value |
| `Layout.Dashboard.HandleViewSource` | src/components/Layout.js:54-56 | dispatches exactly one `updateSource(source)` |
| `Layout.Dashboard.MapGetEventById` | src/components/Layout.js:60 | the loop that maps `getEventById` over the elements leaves the cache as `MapLookups` says; it reports a throw exactly when `MapLookups` does, and otherwise returns its results |
| `Layout.Dashboard.HandleSelect` | src/components/Layout.js:58-65 | a falsy argument dispatches nothing and touches no cache entry; an array performs the lookups of `MapLookups`, and unless they throw it dispatches exactly one `updateSelected` with the sorted result; the empty array is included |
| `Layout.Dashboard.SelectOne` | src/components/Layout.js:58-65 | `handleSelect([ref])`: an undefined element throws with nothing dispatched and the cache untouched; otherwise it dispatches `updateSelected([lookup result])` and caches that one id |
| `Layout.Dashboard.SetNarrative` | src/components/Layout.js:77-85 | a falsy narrative (`null`, `undefined`, any other falsy value) dispatches only `updateNarrative`, with the falsy value modelled as `None`. A narrative dispatches `clearFilter('tags')`, `clearFilter('categories')`, `updateSelected([first step resolved])` and `updateNarrative(narrative)`, in that order. With no steps it throws after the two `clearFilter` actions |
| `Layout.Dashboard.MoveInNarrative` | src/components/Layout.js:87-99 | 1 dispatches `updateSelected([steps[current+1] resolved])` then `incrementNarrativeCurrent()`. -1 dispatches `updateSelected([steps[current-1] resolved])` then `decrementNarrativeCurrent()`. Another amount does nothing. A target outside the steps, or no active narrative, throws with nothing dispatched and the cache unchanged |
| `Layout.Dashboard.OnTagFilter` | src/components/Layout.js:127 | dispatches exactly `toggleFilter('tags', tag)` |
| `Layout.Dashboard.OnCategoryFilter` | src/components/Layout.js:128 | dispatches exactly `toggleFilter('categories', category)` |
| `Layout.Dashboard.OnToggleCardstack` | src/components/Layout.js:150 | closing the card stack dispatches exactly `updateSelected([])` |
| `Layout.Dashboard.OnCancelSource` | src/components/Layout.js:180-182 | cancelling the media overlay dispatches exactly `updateSource(null)` |
| `Layout.LookupAcrossDomains` | src/components/Layout.js:34 | across a change of domain, a hit keeps being returned even if the new events differ, and a miss is searched again in the new events |
| `Layout.NarrativeTour` | src/components/Layout.js:77-99 | choosing a two-step narrative and pressing "next" yields the six intents in order; pressing "next" again at the last step throws and dispatches nothing more |

## Left out

- `render` and every JSX component (map, timeline, card stack, toolbar, overlays, covers): presentation only.
- The mobile and window-width check (`isMobile`, `window.innerWidth`): environment and layout.
- `componentDidMount` and the `fetchDomain` promise: network I/O and asynchrony. Only the arrival of new props is modelled, as `ReceiveDomain`.
- The Redux wiring (`bindActionCreators`, `connect`) and the reducers behind the actions: library code, and code that is not in this file. Dispatch is only an append to `log`.
- The callbacks passed straight through to the store (`updateTimeRange`, `toggleInfoPopup`, `markNotificationsRead`, `toggleCover`): bound action creators with no logic in this file.
- `getCategoryColor`: a style lookup with a `'default'` fallback that no other part of the controller uses.
- `parseDate`: a call into `../js/utilities`. Timestamps are taken as the integers it yields, so an unparseable date (NaN, which makes the comparator inconsistent) is not modelled.
- The string conversion of keys in `eventsById`: ids are one type here, so the ids `1` and `"1"` never collide. Ids that name inherited object properties (such as `"constructor"`) would also hit the prototype chain; that is not modelled either.
- `Layout.Dashboard.SetNarrative`: every falsy argument is one value, `None`. The model therefore does not tell `updateNarrative(null)` from `updateNarrative(undefined)`.
- The lookup `narrative.byId[event.id]` in `getNarrativeLinks`: `byId` is a map here. An event id naming an inherited object property would reach the prototype chain. That is not modelled, as for `eventsById`.
- Numbers other than integers: a `JsValue` number is an integer, so NaN, `-0` and fractions cannot be passed to `handleHighlight` or `handleViewSource`. For example, `NaN || null` gives `null` in the source, and the model cannot express that call.
- Malformed arguments to `handleSelect`: the argument is either falsy or an array of possibly undefined elements that carry an id. A truthy value that is not an array (which throws at `.map`) cannot be expressed. Neither can an element without an `id` property (which looks up `undefined`).
- Object identity: events are values, so two distinct objects with equal fields cannot be told apart.
- Bound-method binding in the constructor (`.bind(this)`): JavaScript plumbing with no behaviour of its own.

# vue-ios-sheet event bus, in Dafny

This project models the event bus of the vue-ios-sheet widget library. The bus
is the object `iosBottomSheetEventBus`, and `pushSheet(component)` uses it to
open a bottom sheet from anywhere in an application. It is a publish/subscribe
registry. A field `events` maps an event name (only `'push'` exists) to an
ordered list of callbacks:

- `on(event, callback)` creates the list if it is missing, then appends the callback.
- `emit(event, data)` calls every callback in list order with `data`. If the
  event has no list, it does nothing.
- `off(event, callback)` replaces a present list with a filtered copy that
  drops every entry identical to the callback.
- `pushSheet(component)` is `emit('push', component)`.

The project has two modules:

- `Registry` (registry.dfy) is the value-level specification:
  - the datatypes `Event`, `Callback` and `Invocation`;
  - the effect of `on` and `off` on the table (`AfterOn`, `AfterOff`);
  - the filter used by `off` (`Without`);
  - the calls made by `emit` (`Trace`);
  - lemmas about sequences of these operations.
- `EventBus` (event_bus.dfy) is the object. The class `SheetEventBus` has the
  mutable field `events: map<Event, seq<Callback>>`:
  - `On` and `Off` change the field (`modifies this`) and are tied to
    `AfterOn` and `AfterOff`.
  - `Emit` is the `forEach` loop. It returns the trace of calls it made.
  - `PushSheet` takes the bus as a parameter.

A callback is an opaque identity, `Callback(id)`. Two callbacks are equal
exactly when their ids are; this stands for `===` on JavaScript function
references. A call `callback(data)` is recorded as `Invocation(callback, data)`
in the trace that `Emit` returns. The payload type is a type parameter, because
the source's payload is `any`. `Emit` has no `modifies` clause, so the verifier
checks that emitting leaves the registry unchanged.

The methods accept a table in which `push` has no entry, because the source's
`events` field is public and may be reassigned. The constructor installs an
empty `push` list, as the source's object literal does. Because `'push'` is the
only event, a table has no entries besides the one an operation touches.

## Model

| member | source | states |
|---|---|---|
| `Registry.AfterOn` | src/index.ts:15-20 | after `on(e, cb)` the table has an entry for `e`, and it equals the old list (empty if it was missing) with `cb` appended at the end |
| `Registry.OnFresh` | src/index.ts:16-17 | `on` for an event that has no list leaves exactly `[cb]` |
| `Registry.OnThenEmit` | src/index.ts:15-26 | after `on(e, cb)`, emitting `e` makes the earlier calls in their old order, then one call to `cb` |
| `Registry.OnTwiceCallsTwice` | src/index.ts:19 | nothing is deduplicated: registering `cb` twice makes `emit` call it exactly two more times |
| `Registry.Without` | src/index.ts:30 | the filtered list has no entry equal to `cb`, holds exactly the other members of the old list, and keeps each other callback's multiplicity |
| `Registry.WithoutConcat` | src/index.ts:30 | the filter keeps relative order: it distributes over concatenation |
| `Registry.WithoutAbsent` | src/index.ts:30 | filtering out a callback that is not in the list returns the list unchanged |
| `Registry.WithoutIdempotent` | src/index.ts:30 | filtering twice equals filtering once |
| `Registry.AfterOff` | src/index.ts:28-31 | `off` keeps the set of events with a list, and the list for `e` becomes the filtered copy (an absent list stays absent) |
| `Registry.OffIdempotent` | src/index.ts:28-31 | applying `off(e, cb)` twice gives the same table as applying it once |
| `Registry.OffAbsent` | src/index.ts:28-31 | `off` of a callback that is not registered leaves the table unchanged |
| `Registry.OffThenEmit` | src/index.ts:21-31 | after `off(e, cb)`, emitting `e` never calls `cb`, and it calls the remaining callbacks in their original order |
| `Registry.OnThenOff` | src/index.ts:15-31 | `on(e, cb)` followed by `off(e, cb)` leaves the old list with every `cb` removed |
| `Registry.Trace` | src/index.ts:22-26 | the calls for a list: one per entry, in list order, each with the same payload |
| `Registry.TraceConcat` | src/index.ts:23-25 | emitting a concatenated list makes the first part's calls, then the second part's |
| `Registry.TraceCount` | src/index.ts:23-25 | a callback is called exactly as many times as it is registered |
| `EventBus.SheetEventBus.constructor` | src/index.ts:11-13 | the bus starts with an empty `push` list |
| `EventBus.SheetEventBus.On` | src/index.ts:15-20 | the new table is `AfterOn` of the old one, and the list for `e` is the old list plus `cb` |
| `EventBus.SheetEventBus.Emit` | src/index.ts:21-26 | the trace has one call per registered callback, in registration order, each with `data`; it is empty when the event has no list or an empty one; the registry is not modified |
| `EventBus.SheetEventBus.Off` | src/index.ts:28-31 | the new table is `AfterOff` of the old one, and the list for `e` is the old list without `cb` |
| `EventBus.PushSheet` | src/index.ts:34-36 | the trace is the trace `emit(Push, component)` makes; every call receives `component`; the bus is not modified |
| `EventBus.RegisterTwoThenPush` | src/index.ts:15-36 | on a new bus, registering `a` and then `b` and pushing `data` calls `a` with `data`, then `b` with `data`, and nothing else |

## Left out

- `usePush` (src/core/index.ts:5-9) is not modelled. It looks up a value through the framework's `inject` dependency injection, which is outside this model.
- The `iosBottomSheet` symbols are not modelled. They are opaque injection keys for the framework.
- `SheetWrapper.vue` and the `uno.css` import are not modelled. They are UI rendering and styling, and `SheetWrapper.vue` is not part of this model.
- vite.config.ts is not modelled. It is build configuration.
- Callback side effects are not modelled. Neither are exceptions thrown by a callback during `emit`, or callbacks that call `on` or `off` while `forEach` runs. These depend on the JavaScript runtime, and the source leaves them unspecified. Each call is recorded in the trace instead.
- Aliasing of the arrays is not modelled. `on` pushes into the existing array in place, and `off` installs a new array. Code that held the old array would see these differently, but the model treats lists as values.
- The singleton is not modelled as global state. `iosBottomSheetEventBus` is a module-level object; Dafny has no mutable globals, so `PushSheet` takes the bus as a parameter.
- The payload's structure is not modelled. The payload is an opaque type parameter.
- JavaScript truthiness is reduced to presence of the key. `if (this.events[event])` is modelled as "the key is present": the table only ever holds arrays, and an array is always truthy, even when empty.

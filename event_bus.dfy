/**
 The event bus object `iosBottomSheetEventBus` of src/index.ts and its wrapper
 `pushSheet`. The bus keeps its table of listeners in a mutable field; `on`
 and `off` change it in place, `emit` walks the list for an event and calls
 each callback. Callbacks are opaque: they neither throw nor touch the bus, so
 a call is modelled by recording it in the returned trace.
 */
module EventBus {
  import opened Registry

  class SheetEventBus {
    /** The `events` field: event name to the callbacks registered under it. */
    var events: Events

    /** The object literal starts with an empty list under `push`. */
    constructor ()
      ensures events == map[Push := []]
    {
      events := map[Push := []];
    }

    /** The callbacks `emit(e, ...)` would call, in order. */
    function Listeners(e: Event): seq<Callback>
      reads this
    {
      Registered(events, e)
    }

    /** `on(event, callback)`: create the list if it is missing, then append. */
    method On(e: Event, cb: Callback)
      modifies this
      ensures events == AfterOn(old(events), e, cb)
      ensures Listeners(e) == old(Listeners(e)) + [cb]
    {
      if e !in events {
        events := events[e := []];
      }
      events := events[e := events[e] + [cb]];
    }

    /** `emit(event, data)`: call every registered callback once, in
        registration order, with `data`; nothing if the event has no list.
        Without a modifies clause the method cannot change the registry. */
    method Emit<P>(e: Event, data: P) returns (trace: seq<Invocation<P>>)
      ensures |trace| == |Listeners(e)|
      ensures forall i :: 0 <= i < |trace| ==> trace[i] == Invocation(Listeners(e)[i], data)
      ensures trace == Trace(Listeners(e), data)
    {
      trace := [];
      if e in events {
        var callbacks := events[e];
        var i := 0;
        while i < |callbacks|
          invariant 0 <= i <= |callbacks|
          invariant trace == Trace(callbacks[..i], data)
        {
          // callback(data)
          TraceConcat(callbacks[..i], [callbacks[i]], data);
          assert callbacks[..i + 1] == callbacks[..i] + [callbacks[i]];
          trace := trace + [Invocation(callbacks[i], data)];
          i := i + 1;
        }
        assert callbacks[..i] == callbacks;
      }
    }

    /** `off(event, callback)`: replace a present list by the copy that keeps
        every entry not identical to `callback`. */
    method Off(e: Event, cb: Callback)
      modifies this
      ensures events == AfterOff(old(events), e, cb)
      ensures Listeners(e) == Without(old(Listeners(e)), cb)
    {
      if e in events {
        events := events[e := Without(events[e], cb)];
      }
    }
  }

  /** `pushSheet(component)`: emit `push` with the component as payload. The
      module-level bus of the source is passed in as `bus`. */
  method PushSheet<P>(bus: SheetEventBus, component: P) returns (trace: seq<Invocation<P>>)
    ensures trace == Trace(bus.Listeners(Push), component)
    ensures forall i :: 0 <= i < |trace| ==> trace[i].payload == component
  {
    trace := bus.Emit(Push, component);
  }

  /** Register `a` and then `b` on a new bus and push `data`: `a` is called
      with `data`, then `b` with `data`, and nothing else is called. */
  method RegisterTwoThenPush<P>(a: Callback, b: Callback, data: P) returns (trace: seq<Invocation<P>>)
    ensures trace == [Invocation(a, data), Invocation(b, data)]
  {
    var bus := new SheetEventBus();
    bus.On(Push, a);
    bus.On(Push, b);
    trace := PushSheet(bus, data);
  }
}

/**
 The value-level specification of the bottom-sheet event bus: the registry is a
 table from event name to the ordered list of callbacks registered under it.
 The functions here say what `on`, `off` and `emit` of src/index.ts do to that
 table; the lemmas state the properties the bus promises across several calls.
 */
module Registry {

  /** The only event the bus knows: the string type `'push'`. */
  datatype Event = Push

  /** A callback stands for a JavaScript function reference; two callbacks are
      the same exactly when their ids are, which models `===` on references. */
  datatype Callback = Callback(id: nat)

  /** One call `callback(payload)` made while an event is emitted. */
  datatype Invocation<P> = Invocation(callback: Callback, payload: P)

  type Events = map<Event, seq<Callback>>

  /** The list registered under `e`; a missing entry reads as no listeners. */
  function Registered(m: Events, e: Event): seq<Callback>
  {
    if e in m then m[e] else []
  }

  /** The table after `on(e, cb)`: the list for `e`, created empty if missing,
      gets `cb` appended at its end. */
  function AfterOn(m: Events, e: Event, cb: Callback): (r: Events)
    ensures r.Keys == m.Keys + {e}
    ensures e in r && r[e] == Registered(m, e) + [cb]
  {
    m[e := Registered(m, e) + [cb]]
  }

  /** The list `s` without any entry identical to `cb`, in the original order
      (the `filter(cb => cb !== callback)` of `off`). */
  function Without(s: seq<Callback>, cb: Callback): (r: seq<Callback>)
    ensures |r| <= |s|
    ensures cb !in r
    ensures forall x :: x in r <==> x in s && x != cb
    ensures multiset(r) == multiset(s)[cb := 0]
  {
    if s == [] then []
    else
      assert s == [s[0]] + s[1..];
      if s[0] == cb then Without(s[1..], cb) else [s[0]] + Without(s[1..], cb)
  }

  /** The table after `off(e, cb)`: a present list for `e` is replaced by its
      filtered copy; a missing one stays missing. */
  function AfterOff(m: Events, e: Event, cb: Callback): (r: Events)
    ensures r.Keys == m.Keys
    ensures Registered(r, e) == Without(Registered(m, e), cb)
  {
    if e in m then m[e := Without(m[e], cb)] else m
  }

  /** The calls `emit` makes for the list `s` and payload `data`: one call per
      entry, in list order, each with `data`. */
  function Trace<P>(s: seq<Callback>, data: P): (r: seq<Invocation<P>>)
    ensures |r| == |s|
    ensures forall i :: 0 <= i < |s| ==> r[i] == Invocation(s[i], data)
  {
    if s == [] then [] else [Invocation(s[0], data)] + Trace(s[1..], data)
  }

  // ---------------------------------------------------------------------
  // Properties of the filter used by `off`

  /** Filtering keeps relative order: it distributes over concatenation. */
  lemma {:induction false} WithoutConcat(a: seq<Callback>, b: seq<Callback>, cb: Callback)
    ensures Without(a + b, cb) == Without(a, cb) + Without(b, cb)
  {
    if a == [] {
      assert a + b == b;
    } else {
      assert (a + b)[0] == a[0];
      assert (a + b)[1..] == a[1..] + b;
      WithoutConcat(a[1..], b, cb);
    }
  }

  /** A callback that is not registered leaves the list exactly as it was. */
  lemma {:induction false} WithoutAbsent(s: seq<Callback>, cb: Callback)
    requires cb !in s
    ensures Without(s, cb) == s
  {
    if s != [] {
      assert s == [s[0]] + s[1..];
      WithoutAbsent(s[1..], cb);
    }
  }

  /** Removing twice is removing once. */
  lemma WithoutIdempotent(s: seq<Callback>, cb: Callback)
    ensures Without(Without(s, cb), cb) == Without(s, cb)
  {
    WithoutAbsent(Without(s, cb), cb);
  }

  // ---------------------------------------------------------------------
  // Properties of the emitted trace

  /** Emitting a concatenated list calls the first part, then the second. */
  lemma {:induction false} TraceConcat<P>(a: seq<Callback>, b: seq<Callback>, data: P)
    ensures Trace(a + b, data) == Trace(a, data) + Trace(b, data)
  {
    if a == [] {
      assert a + b == b;
    } else {
      assert (a + b)[0] == a[0];
      assert (a + b)[1..] == a[1..] + b;
      TraceConcat(a[1..], b, data);
    }
  }

  /** A callback is called exactly as many times as it is registered. */
  lemma {:induction false} TraceCount<P>(s: seq<Callback>, cb: Callback, data: P)
    ensures multiset(Trace(s, data))[Invocation(cb, data)] == multiset(s)[cb]
  {
    if s != [] {
      assert s == [s[0]] + s[1..];
      assert Trace(s, data) == [Invocation(s[0], data)] + Trace(s[1..], data);
      TraceCount(s[1..], cb, data);
    }
  }

  // ---------------------------------------------------------------------
  // Properties of sequences of bus operations

  /** After `on(e, cb)`, emitting `e` makes the old calls, in the old order,
      and then one more call to `cb`. */
  lemma OnThenEmit<P>(m: Events, e: Event, cb: Callback, data: P)
    ensures Trace(Registered(AfterOn(m, e, cb), e), data)
         == Trace(Registered(m, e), data) + [Invocation(cb, data)]
  {
    TraceConcat(Registered(m, e), [cb], data);
  }

  /** `on` does no duplicate detection: registering `cb` twice makes `emit`
      call it twice more than before. */
  lemma OnTwiceCallsTwice<P>(m: Events, e: Event, cb: Callback, data: P)
    ensures var twice := AfterOn(AfterOn(m, e, cb), e, cb);
      multiset(Trace(Registered(twice, e), data))[Invocation(cb, data)]
      == multiset(Trace(Registered(m, e), data))[Invocation(cb, data)] + 2
  {
    var twice := AfterOn(AfterOn(m, e, cb), e, cb);
    assert Registered(twice, e) == Registered(m, e) + [cb, cb];
    TraceCount(Registered(twice, e), cb, data);
    TraceCount(Registered(m, e), cb, data);
  }

  /** `on` applied to an event without a list leaves exactly `[cb]`. */
  lemma OnFresh(m: Events, e: Event, cb: Callback)
    requires e !in m
    ensures AfterOn(m, e, cb)[e] == [cb]
  {
    assert Registered(m, e) == [];
  }

  /** After `off(e, cb)`, emitting `e` never calls `cb`, and calls the other
      callbacks in their original order. */
  lemma OffThenEmit<P>(m: Events, e: Event, cb: Callback, data: P)
    ensures Invocation(cb, data) !in Trace(Registered(AfterOff(m, e, cb), e), data)
    ensures Trace(Registered(AfterOff(m, e, cb), e), data)
         == Trace(Without(Registered(m, e), cb), data)
  {
  }

  /** `off` is idempotent on the whole table. */
  lemma OffIdempotent(m: Events, e: Event, cb: Callback)
    ensures AfterOff(AfterOff(m, e, cb), e, cb) == AfterOff(m, e, cb)
  {
    if e in m {
      WithoutIdempotent(m[e], cb);
    }
  }

  /** `off` of a callback that is not registered changes nothing. */
  lemma OffAbsent(m: Events, e: Event, cb: Callback)
    requires cb !in Registered(m, e)
    ensures AfterOff(m, e, cb) == m
  {
    if e in m {
      WithoutAbsent(m[e], cb);
    }
  }

  /** Registering `cb` and then removing it leaves the old list without `cb`. */
  lemma OnThenOff(m: Events, e: Event, cb: Callback)
    ensures Registered(AfterOff(AfterOn(m, e, cb), e, cb), e) == Without(Registered(m, e), cb)
  {
    WithoutConcat(Registered(m, e), [cb], cb);
  }
}

// The event executor of pubSub.c (eventExecutor, runAllEvents) run by a single worker.
// A drain is specified by the functions Drain and RunAll over a Config (the event stack's
// value and the trace of what has been done so far); the methods at the end of the
// module do the same work step by step on an EventStack and a SubscriberSet.
module Executor {
  import opened Events
  import opened EventStacks
  import opened Subscribers

  /** One call of a subscriber function, with the data it was handed. */
  datatype Call = Call(handler: HandlerId, data: Payload)

  /** What a drain has done so far: one sequence per kind of action, each in the order done. */
  datatype Trace = Trace(
    calls: seq<Call>,       // subscriber functions called
    published: seq<Event>,  // publishes made by subscribers, pushed or refused
    dropped: seq<Event>,    // publishes refused: "tick publishing limit reached"
    badTypes: seq<Event>,   // popped events whose type is out of range
    released: seq<Event>,   // popped events freed together with their data
    freedAt: seq<nat>)      // for each free, how many subscriber calls had been made by then

  const EmptyTrace: Trace := Trace([], [], [], [], [], [])

  /** What a subscriber function publishes, in order, when it is called with a datum. */
  type Behaviour = (HandlerId, Payload) -> seq<Event>

  /** The event stack's value together with the trace so far. */
  datatype Config = Config(queue: StackValue, trace: Trace)

  // ---------- Views of a trace ----------

  /** Everything the calls publish, call after call. */
  function Emitted(calls: seq<Call>, behaviour: Behaviour): seq<Event> {
    if calls == [] then []
    else
      var last := calls[|calls| - 1];
      Emitted(calls[..|calls| - 1], behaviour) + behaviour(last.handler, last.data)
  }

  /** The calls of handlers hs, in order, each handed the same datum. */
  function CallsOf(hs: seq<HandlerId>, data: Payload): (calls: seq<Call>)
    ensures |calls| == |hs|
  {
    if hs == [] then [] else [Call(hs[0], data)] + CallsOf(hs[1..], data)
  }

  /** The calls owed to a sequence of handled events: for each in-range event, its
      bucket's handlers in list order. */
  function CallsFor(handled: seq<Event>, buckets: seq<seq<HandlerId>>): seq<Call>
    requires |buckets| == EVENT_TYPES
  {
    if handled == [] then []
    else
      var e := handled[|handled| - 1];
      CallsFor(handled[..|handled| - 1], buckets)
        + if e.kind < EVENT_TYPES then CallsOf(buckets[e.kind], e.data) else []
  }

  /** For each handled event, the number of calls owed to it and to the events handled
      before it: the point of the call sequence at which it is to be freed. */
  function FreeMarks(handled: seq<Event>, buckets: seq<seq<HandlerId>>): (marks: seq<nat>)
    requires |buckets| == EVENT_TYPES
    ensures |marks| == |handled|
  {
    if handled == [] then []
    else FreeMarks(handled[..|handled| - 1], buckets) + [|CallsFor(handled, buckets)|]
  }

  /** The handled events whose type is out of range, in order. */
  function OutOfRange(handled: seq<Event>): seq<Event> {
    if handled == [] then []
    else
      var e := handled[|handled| - 1];
      OutOfRange(handled[..|handled| - 1]) + if e.kind < EVENT_TYPES then [] else [e]
  }

  /** Every publish in the trace was made by a recorded call, in call order. */
  predicate Attributed(t: Trace, behaviour: Behaviour) {
    t.published == Emitted(t.calls, behaviour)
  }

  /** Between two events: the calls, the bad-type reports and the points at which events
      were freed are exactly those owed to the events released so far. */
  predicate Matches(t: Trace, buckets: seq<seq<HandlerId>>)
    requires |buckets| == EVENT_TYPES
  {
    && t.calls == CallsFor(t.released, buckets)
    && t.badTypes == OutOfRange(t.released)
    && t.freedAt == FreeMarks(t.released, buckets)
  }

  /** Every event handed to the stack is exactly one of: released, dropped, still queued. */
  function Accounted(c: Config): multiset<Event> {
    multiset(c.trace.released) + multiset(c.trace.dropped) + multiset(c.queue.stack)
  }

  function Reverse(s: seq<Event>): seq<Event> {
    if s == [] then [] else Reverse(s[1..]) + [s[0]]
  }

  function Min(a: nat, b: nat): nat {
    if a < b then a else b
  }

  // ---------- The drain, as functions ----------

  /** One publish from inside a subscriber; a refusal is reported in the trace. */
  function Emit(c: Config, e: Event): (r: Config)
    ensures r.queue.Measure() == c.queue.Measure()
  {
    var t := c.trace;
    var dropped := if c.queue.Admits() then t.dropped else t.dropped + [e];
    Config(c.queue.Push(e), Trace(t.calls, t.published + [e], dropped, t.badTypes, t.released, t.freedAt))
  }

  /** The publishes of es, first to last. */
  function EmitAll(c: Config, es: seq<Event>): (r: Config)
    ensures r.queue.Measure() == c.queue.Measure()
    decreases |es|
  {
    if es == [] then c else EmitAll(Emit(c, es[0]), es[1..])
  }

  /** The record of calling subscriber h with data, before it publishes anything. */
  function Called(c: Config, h: HandlerId, data: Payload): Config {
    Config(c.queue, c.trace.(calls := c.trace.calls + [Call(h, data)]))
  }

  /** The walk down a bucket's list: each subscriber is called with the event's data and
      makes its publications before the next one is called. */
  function InvokeAll(c: Config, hs: seq<HandlerId>, e: Event, behaviour: Behaviour): (r: Config)
    ensures r.queue.Measure() == c.queue.Measure()
    decreases |hs|
  {
    if hs == [] then c
    else InvokeAll(EmitAll(Called(c, hs[0], e.data), behaviour(hs[0], e.data)), hs[1..], e, behaviour)
  }

  /** Handling of one popped event: an out-of-range type is reported and nothing is called;
      otherwise the bucket's subscribers run; then the event and its data are freed. */
  function Dispatch(c: Config, e: Event, buckets: seq<seq<HandlerId>>, behaviour: Behaviour): (r: Config)
    requires |buckets| == EVENT_TYPES
    ensures r.queue.Measure() == c.queue.Measure()
  {
    var d :=
      if e.kind >= EVENT_TYPES then Config(c.queue, c.trace.(badTypes := c.trace.badTypes + [e]))
      else InvokeAll(c, buckets[e.kind], e, behaviour);
    Config(d.queue, d.trace.(released := d.trace.released + [e], freedAt := d.trace.freedAt + [|d.trace.calls|]))
  }

  /** One worker's do-while loop: pop and handle until a pop finds the stack empty. It
      terminates because every pop lowers Measure and no publish raises it. */
  function Drain(c: Config, buckets: seq<seq<HandlerId>>, behaviour: Behaviour): (r: Config)
    requires |buckets| == EVENT_TYPES
    ensures r.queue.stack == []
    decreases c.queue.Measure()
  {
    var (top, rest) := c.queue.Pop();
    if top.None? then c
    else Drain(Dispatch(Config(rest, c.trace), top.value, buckets, behaviour), buckets, behaviour)
  }

  /** runAllEvents with one worker: reset the tick counter, then drain. */
  function RunAll(q: StackValue, buckets: seq<seq<HandlerId>>, behaviour: Behaviour): (r: Config)
    requires |buckets| == EVENT_TYPES
    ensures r.queue.stack == []
  {
    Drain(Config(StackValue(q.stack, 0), EmptyTrace), buckets, behaviour)
  }

  // ---------- Publishing: the tick limit ----------

  lemma {:induction false} ReverseKeepsElements(s: seq<Event>)
    ensures multiset(Reverse(s)) == multiset(s)
    decreases |s|
  {
    if s != [] {
      ReverseKeepsElements(s[1..]);
      assert s == [s[0]] + s[1..];
    }
  }

  /** Pushing the first of the k events and then the other k - 1 stacks them reversed. */
  lemma ReverseFirst(es: seq<Event>, k: nat, stack: seq<Event>)
    requires 1 <= k <= |es|
    ensures Reverse(es[1..][..k - 1]) + ([es[0]] + stack) == Reverse(es[..k]) + stack
  {
    assert es[..k][1..] == es[1..][..k - 1];
    AppendCons(Reverse(es[1..][..k - 1]), es[0], stack);
  }

  /** A run of publishes pushes the first k events, k being the remaining budget or |es|
      if smaller, so they end up newest-first on top of the old list; the counter
      advances once per publish. */
  lemma {:induction false} EmitAllQueue(c: Config, es: seq<Event>, k: nat)
    requires k == Min(|es|, c.queue.Budget())
    ensures EmitAll(c, es).queue == StackValue(Reverse(es[..k]) + c.queue.stack, c.queue.count + |es|)
    decreases |es|
  {
    if es == [] {
      assert es[..k] == [] && [] + c.queue.stack == c.queue.stack;
    } else if c.queue.Admits() {
      var c1 := Emit(c, es[0]);
      assert c1.queue.Budget() + 1 == c.queue.Budget();
      EmitAllQueue(c1, es[1..], k - 1);
      AdmittedStep(c, es, k);
    } else {
      var c1 := Emit(c, es[0]);
      assert c1.queue == StackValue(c.queue.stack, c.queue.count + 1);
      EmitAllQueue(c1, es[1..], 0);
      assert es[..k] == [] && es[1..][..0] == [];
    }
  }

  /** The step of EmitAllQueue for an admitted publish: pushing the first event and then
      the rest as the induction hypothesis describes gives the first k events reversed. */
  lemma AdmittedStep(c: Config, es: seq<Event>, k: nat)
    requires es != [] && c.queue.Admits()
    requires 1 <= k <= |es|
    requires var c1 := Emit(c, es[0]);
      EmitAll(c1, es[1..]).queue == StackValue(Reverse(es[1..][..k - 1]) + c1.queue.stack, c1.queue.count + |es| - 1)
    ensures EmitAll(c, es).queue == StackValue(Reverse(es[..k]) + c.queue.stack, c.queue.count + |es|)
  {
    var c1 := Emit(c, es[0]);
    assert c1.queue == StackValue([es[0]] + c.queue.stack, c.queue.count + 1);
    ReverseFirst(es, k, c.queue.stack);
  }

  /** The publishes beyond those k are each refused and reported, in order. */
  lemma {:induction false} EmitAllDrops(c: Config, es: seq<Event>, k: nat)
    requires k == Min(|es|, c.queue.Budget())
    ensures EmitAll(c, es).trace.dropped == c.trace.dropped + es[k..]
    decreases |es|
  {
    if es == [] {
      assert es[k..] == [] && c.trace.dropped + [] == c.trace.dropped;
    } else if c.queue.Admits() {
      var c1 := Emit(c, es[0]);
      assert c1.trace.dropped == c.trace.dropped && c1.queue.count == c.queue.count + 1;
      EmitAllDrops(c1, es[1..], k - 1);
      LaterSlice(es, k);
    } else {
      var c1 := Emit(c, es[0]);
      assert c1.trace.dropped == c.trace.dropped + [es[0]] && !c1.queue.Admits();
      EmitAllDrops(c1, es[1..], 0);
      LaterSlice(es, 1);
      AppendCons(c.trace.dropped, es[0], es[1..]);
      FirstAndRestSeq(es);
    }
  }

  /** Right after the counter is reset, 513 publishes are pushed and the 514th is the
      first one refused (`count++ > MAX_PUBLISHABLE_EVENTS` lets MAX + 1 through). */
  lemma OverflowBoundary(stack: seq<Event>, t: Trace, es: seq<Event>)
    requires |es| == MAX_PUBLISHABLE_EVENTS + 2
    ensures var r := EmitAll(Config(StackValue(stack, 0), t), es);
      && |r.queue.stack| == |stack| + MAX_PUBLISHABLE_EVENTS + 1
      && r.queue.stack == Reverse(es[..MAX_PUBLISHABLE_EVENTS + 1]) + stack
      && r.trace.dropped == t.dropped + [es[MAX_PUBLISHABLE_EVENTS + 1]]
  {
    var c := Config(StackValue(stack, 0), t);
    EmitAllQueue(c, es, Min(|es|, c.queue.Budget()));
    EmitAllDrops(c, es, Min(|es|, c.queue.Budget()));
    ReverseKeepsElements(es[..MAX_PUBLISHABLE_EVENTS + 1]);
    assert |multiset(Reverse(es[..MAX_PUBLISHABLE_EVENTS + 1]))| == MAX_PUBLISHABLE_EVENTS + 1;
    assert es[MAX_PUBLISHABLE_EVENTS + 1..] == [es[MAX_PUBLISHABLE_EVENTS + 1]];
  }

  /** One publish: the event is now queued or dropped. */
  lemma EmitAccounts(c: Config, e: Event)
    ensures Accounted(Emit(c, e)) == Accounted(c) + multiset{e}
  {
    var r := Emit(c, e);
    if c.queue.Admits() {
      assert r.trace.dropped == c.trace.dropped && r.queue.stack == [e] + c.queue.stack;
    } else {
      assert r.trace.dropped == c.trace.dropped + [e] && r.queue.stack == c.queue.stack;
    }
  }

  /** A run of publishes records every event as published; nothing is called, reported
      or released. */
  lemma {:induction false} EmitAllTrace(c: Config, es: seq<Event>)
    ensures var r := EmitAll(c, es);
      && r.trace.published == c.trace.published + es
      && r.trace.calls == c.trace.calls
      && r.trace.badTypes == c.trace.badTypes
      && r.trace.released == c.trace.released && r.trace.freedAt == c.trace.freedAt
    decreases |es|
  {
    if es == [] {
      assert c.trace.published + es == c.trace.published;
    } else {
      var c1 := Emit(c, es[0]);
      assert c1.trace.published == c.trace.published + [es[0]];
      EmitAllTrace(c1, es[1..]);
      assert es == [es[0]] + es[1..];
      AppendCons(c.trace.published, es[0], es[1..]);
    }
  }

  /** A run of publishes leaves each of its events queued or dropped. */
  lemma {:induction false} EmitAllAccounts(c: Config, es: seq<Event>)
    ensures Accounted(EmitAll(c, es)) == Accounted(c) + multiset(es)
    decreases |es|
  {
    if es != [] {
      var c1 := Emit(c, es[0]);
      assert EmitAll(c, es) == EmitAll(c1, es[1..]);
      EmitAccounts(c, es[0]);
      EmitAllAccounts(c1, es[1..]);
      FirstAndRest(es);
      Regroup(Accounted(c), multiset{es[0]}, multiset(es[1..]));
    }
  }

  // ---------- Handling one event ----------

  /** Walking a bucket calls exactly its handlers, in list order, once per registration,
      each with this event's data, and reports or releases nothing. */
  lemma {:induction false} InvokeAllCalls(c: Config, hs: seq<HandlerId>, e: Event, behaviour: Behaviour)
    ensures var r := InvokeAll(c, hs, e, behaviour);
      && r.trace.calls == c.trace.calls + CallsOf(hs, e.data)
      && r.trace.badTypes == c.trace.badTypes
      && r.trace.released == c.trace.released && r.trace.freedAt == c.trace.freedAt
    decreases |hs|
  {
    if hs == [] {
      assert c.trace.calls + CallsOf(hs, e.data) == c.trace.calls;
    } else {
      var called := Called(c, hs[0], e.data);
      EmitAllTrace(called, behaviour(hs[0], e.data));
      InvokeAllCalls(EmitAll(called, behaviour(hs[0], e.data)), hs[1..], e, behaviour);
      AppendCons(c.trace.calls, Call(hs[0], e.data), CallsOf(hs[1..], e.data));
    }
  }

  /** Sequence bookkeeping, kept apart from the drain's definitions. */
  lemma AppendCons<T>(p: seq<T>, x: T, s: seq<T>)
    ensures p + [x] + s == p + ([x] + s)
  {
    assert (p + [x] + s)[..|p|] == p;
  }

  lemma FirstAndRestSeq<T>(s: seq<T>)
    requires s != []
    ensures [s[0]] + s[1..] == s && s[0..] == s
  {
  }

  lemma LaterSlice<T>(s: seq<T>, k: nat)
    requires 1 <= k <= |s|
    ensures s[1..][k - 1..] == s[k..]
  {
  }

  lemma FirstAndRest(es: seq<Event>)
    requires es != []
    ensures multiset(es) == multiset{es[0]} + multiset(es[1..])
  {
    assert es == [es[0]] + es[1..];
  }

  lemma Regroup(a: multiset<Event>, x: multiset<Event>, y: multiset<Event>)
    ensures a + x + y == a + (x + y)
  {
    forall z: Event
      ensures (a + x + y)[z] == (a + (x + y))[z]
    {
    }
  }

  /** Multiset bookkeeping for one event added to a balanced account. */
  lemma AddBoth(r: multiset<Event>, d: multiset<Event>, p: multiset<Event>, a: multiset<Event>,
                x: multiset<Event>, q: multiset<Event>)
    requires d + p == a + q
    requires r == d + x
    ensures r + p == a + x + q
  {
    forall y: Event
      ensures (r + p)[y] == (a + x + q)[y]
    {
      assert (d + p)[y] == (a + q)[y];
    }
    assert r + p == a + x + q;
  }

  /** Multiset bookkeeping for chaining two accounting steps: x is counted on both
      sides of the second step and cancels out. */
  lemma Chain(r: multiset<Event>, n: multiset<Event>, p: multiset<Event>, c: multiset<Event>,
              q: multiset<Event>, x: multiset<Event>)
    requires n + p == c + x
    requires r + x == n + q
    ensures r + p == c + q
  {
    forall y: Event
      ensures (r + p)[y] == (c + q)[y]
    {
      assert (r + x)[y] == (n + q)[y] && (n + p)[y] == (c + x)[y];
    }
    assert r + p == c + q;
  }

  /** While a bucket is walked, what its handlers publish is queued or dropped. */
  lemma {:induction false} InvokeAllAccounts(c: Config, hs: seq<HandlerId>, e: Event, behaviour: Behaviour)
    ensures var r := InvokeAll(c, hs, e, behaviour);
      Accounted(r) + multiset(c.trace.published) == Accounted(c) + multiset(r.trace.published)
    decreases |hs|
  {
    if hs != [] {
      var called := Called(c, hs[0], e.data);
      var pubs := behaviour(hs[0], e.data);
      var next := EmitAll(called, pubs);
      var r := InvokeAll(next, hs[1..], e, behaviour);
      assert Accounted(next) + multiset(c.trace.published) == Accounted(c) + multiset(next.trace.published) by {
        assert Accounted(called) == Accounted(c);
        EmitAllAccounts(called, pubs);
        EmitAllTrace(called, pubs);
      }
      InvokeAllAccounts(next, hs[1..], e, behaviour);
      Chain(Accounted(r), Accounted(next), multiset(c.trace.published), Accounted(c),
            multiset(r.trace.published), multiset(next.trace.published));
    }
  }

  /** While a bucket is walked, each publish is attributed to the call that made it. */
  lemma {:induction false} InvokeAllAttributed(c: Config, hs: seq<HandlerId>, e: Event, behaviour: Behaviour)
    requires Attributed(c.trace, behaviour)
    ensures Attributed(InvokeAll(c, hs, e, behaviour).trace, behaviour)
    decreases |hs|
  {
    if hs != [] {
      var called := Called(c, hs[0], e.data);
      var pubs := behaviour(hs[0], e.data);
      EmitAllTrace(called, pubs);
      var next := EmitAll(called, pubs);
      var calls := called.trace.calls;
      assert calls[..|calls| - 1] == c.trace.calls;
      assert Attributed(next.trace, behaviour);
      InvokeAllAttributed(next, hs[1..], e, behaviour);
    }
  }

  /** Handling one event releases it exactly once, after its handlers have run (the free
      is stamped with the number of calls made once the whole bucket has been walked); an
      out-of-range type is reported and calls nothing; an in-range type calls every
      registration of its bucket, in list order, with the event's data. */
  lemma DispatchTrace(c: Config, e: Event, buckets: seq<seq<HandlerId>>, behaviour: Behaviour)
    requires |buckets| == EVENT_TYPES
    ensures var r := Dispatch(c, e, buckets, behaviour);
      && r.trace.released == c.trace.released + [e]
      && r.trace.calls == c.trace.calls + (if e.kind < EVENT_TYPES then CallsOf(buckets[e.kind], e.data) else [])
      && r.trace.badTypes == c.trace.badTypes + (if e.kind < EVENT_TYPES then [] else [e])
      && r.trace.freedAt == c.trace.freedAt + [|r.trace.calls|]
    ensures e.kind >= EVENT_TYPES ==>
      Dispatch(c, e, buckets, behaviour) == Config(c.queue, c.trace.(badTypes := c.trace.badTypes + [e],
        released := c.trace.released + [e], freedAt := c.trace.freedAt + [|c.trace.calls|]))
  {
    if e.kind < EVENT_TYPES {
      InvokeAllCalls(c, buckets[e.kind], e, behaviour);
    } else {
      assert c.trace.calls + [] == c.trace.calls;
    }
  }

  /** Handling one event frees it and accounts for what its handlers published. */
  lemma DispatchAccounts(c: Config, e: Event, buckets: seq<seq<HandlerId>>, behaviour: Behaviour)
    requires |buckets| == EVENT_TYPES
    ensures var r := Dispatch(c, e, buckets, behaviour);
      Accounted(r) + multiset(c.trace.published) == Accounted(c) + multiset{e} + multiset(r.trace.published)
  {
    var r := Dispatch(c, e, buckets, behaviour);
    var d :=
      if e.kind >= EVENT_TYPES then Config(c.queue, c.trace.(badTypes := c.trace.badTypes + [e]))
      else InvokeAll(c, buckets[e.kind], e, behaviour);
    assert Accounted(d) + multiset(c.trace.published) == Accounted(c) + multiset(d.trace.published) by {
      if e.kind < EVENT_TYPES {
        InvokeAllAccounts(c, buckets[e.kind], e, behaviour);
      }
    }
    assert Accounted(r) == Accounted(d) + multiset{e} && r.trace.published == d.trace.published;
    AddBoth(Accounted(r), Accounted(d), multiset(c.trace.published), Accounted(c),
            multiset{e}, multiset(r.trace.published));
  }

  /** Handling one event keeps every publish attributed to the call that made it. */
  lemma DispatchAttributed(c: Config, e: Event, buckets: seq<seq<HandlerId>>, behaviour: Behaviour)
    requires |buckets| == EVENT_TYPES
    requires Attributed(c.trace, behaviour)
    ensures Attributed(Dispatch(c, e, buckets, behaviour).trace, behaviour)
  {
    if e.kind < EVENT_TYPES {
      InvokeAllAttributed(c, buckets[e.kind], e, behaviour);
    }
  }

  /** Handling one event keeps the calls and reports in step with the released events. */
  lemma DispatchMatches(c: Config, e: Event, buckets: seq<seq<HandlerId>>, behaviour: Behaviour)
    requires |buckets| == EVENT_TYPES
    requires Matches(c.trace, buckets)
    ensures Matches(Dispatch(c, e, buckets, behaviour).trace, buckets)
  {
    var released := c.trace.released + [e];
    DispatchTrace(c, e, buckets, behaviour);
    assert released[..|released| - 1] == c.trace.released;
  }

  // ---------- The whole drain ----------

  /** No event is lost or handled twice: what a drain releases or drops is exactly what
      was queued when it started plus what its subscribers published. */
  lemma {:induction false} DrainConserves(c: Config, buckets: seq<seq<HandlerId>>, behaviour: Behaviour)
    requires |buckets| == EVENT_TYPES
    ensures var r := Drain(c, buckets, behaviour);
      Accounted(r) + multiset(c.trace.published) == Accounted(c) + multiset(r.trace.published)
    decreases c.queue.Measure()
  {
    var (top, rest) := c.queue.Pop();
    if top.Some? {
      var popped := Config(rest, c.trace);
      var next := Dispatch(popped, top.value, buckets, behaviour);
      var r := Drain(next, buckets, behaviour);
      assert Accounted(next) + multiset(c.trace.published) == Accounted(c) + multiset(next.trace.published) by {
        assert Accounted(popped) + multiset{top.value} == Accounted(c);
        DispatchAccounts(popped, top.value, buckets, behaviour);
      }
      DrainConserves(next, buckets, behaviour);
      Chain(Accounted(r), Accounted(next), multiset(c.trace.published), Accounted(c),
            multiset(r.trace.published), multiset(next.trace.published));
    }
  }

  /** Every publish of a drain is attributed to the subscriber call that made it. */
  lemma {:induction false} DrainAttributed(c: Config, buckets: seq<seq<HandlerId>>, behaviour: Behaviour)
    requires |buckets| == EVENT_TYPES
    requires Attributed(c.trace, behaviour)
    ensures Attributed(Drain(c, buckets, behaviour).trace, behaviour)
    decreases c.queue.Measure()
  {
    var (top, rest) := c.queue.Pop();
    if top.Some? {
      var popped := Config(rest, c.trace);
      DispatchAttributed(popped, top.value, buckets, behaviour);
      DrainAttributed(Dispatch(popped, top.value, buckets, behaviour), buckets, behaviour);
    }
  }

  /** Every handled event got exactly its bucket's calls, in order, or a bad-type report. */
  lemma {:induction false} DrainMatches(c: Config, buckets: seq<seq<HandlerId>>, behaviour: Behaviour)
    requires |buckets| == EVENT_TYPES
    requires Matches(c.trace, buckets)
    ensures Matches(Drain(c, buckets, behaviour).trace, buckets)
    decreases c.queue.Measure()
  {
    var (top, rest) := c.queue.Pop();
    if top.Some? {
      var popped := Config(rest, c.trace);
      DispatchMatches(popped, top.value, buckets, behaviour);
      DrainMatches(Dispatch(popped, top.value, buckets, behaviour), buckets, behaviour);
    }
  }

  /** runAllEvents: the stack ends empty, and every event queued at the start or published
      by a subscriber during the run is released exactly once or dropped exactly once. */
  lemma RunAllConserves(q: StackValue, buckets: seq<seq<HandlerId>>, behaviour: Behaviour)
    requires |buckets| == EVENT_TYPES
    ensures var r := RunAll(q, buckets, behaviour);
      && r.queue.stack == []
      && multiset(r.trace.released) + multiset(r.trace.dropped)
        == multiset(q.stack) + multiset(Emitted(r.trace.calls, behaviour))
  {
    var start := Config(StackValue(q.stack, 0), EmptyTrace);
    DrainConserves(start, buckets, behaviour);
    DrainAttributed(start, buckets, behaviour);
    assert Accounted(start) == multiset(q.stack);
  }

  /** runAllEvents: the calls made are, event by handled event, exactly the handlers of the
      event's bucket in list order, and the out-of-range events are exactly those reported. */
  lemma RunAllMatches(q: StackValue, buckets: seq<seq<HandlerId>>, behaviour: Behaviour)
    requires |buckets| == EVENT_TYPES
    ensures var r := RunAll(q, buckets, behaviour);
      && r.trace.calls == CallsFor(r.trace.released, buckets)
      && r.trace.badTypes == OutOfRange(r.trace.released)
      && r.trace.freedAt == FreeMarks(r.trace.released, buckets)
  {
    DrainMatches(Config(StackValue(q.stack, 0), EmptyTrace), buckets, behaviour);
  }

  lemma {:induction false} FreeMarkAt(handled: seq<Event>, buckets: seq<seq<HandlerId>>, i: nat)
    requires |buckets| == EVENT_TYPES
    requires i < |handled|
    ensures FreeMarks(handled, buckets)[i] == |CallsFor(handled[..i + 1], buckets)|
    decreases |handled|
  {
    var n := |handled|;
    var p := handled[..n - 1];
    assert FreeMarks(handled, buckets) == FreeMarks(p, buckets) + [|CallsFor(handled, buckets)|];
    if i == n - 1 {
      assert handled[..i + 1] == handled;
    } else {
      FreeMarkAt(p, buckets, i);
      assert p[..i + 1] == handled[..i + 1];
    }
  }

  /** The calls owed to a prefix of the handled events begin the calls owed to them all. */
  lemma {:induction false} CallsForPrefix(handled: seq<Event>, buckets: seq<seq<HandlerId>>, j: nat)
    requires |buckets| == EVENT_TYPES
    requires j <= |handled|
    ensures |CallsFor(handled[..j], buckets)| <= |CallsFor(handled, buckets)|
    ensures CallsFor(handled, buckets)[..|CallsFor(handled[..j], buckets)|] == CallsFor(handled[..j], buckets)
    decreases |handled|
  {
    if j == |handled| {
      assert handled[..j] == handled;
    } else {
      var p := handled[..|handled| - 1];
      var e := handled[|handled| - 1];
      var owed := if e.kind < EVENT_TYPES then CallsOf(buckets[e.kind], e.data) else [];
      assert CallsFor(handled, buckets) == CallsFor(p, buckets) + owed;
      CallsForPrefix(p, buckets, j);
      assert p[..j] == handled[..j];
      PrefixOfAppend(CallsFor(p, buckets), owed, |CallsFor(handled[..j], buckets)|);
    }
  }

  lemma PrefixOfAppend<T>(a: seq<T>, b: seq<T>, k: nat)
    requires k <= |a|
    ensures (a + b)[..k] == a[..k]
  {
  }

  /** The i-th freed event is freed right after the calls owed to the events before it and
      then every registration of its own bucket: none of its calls comes after its free. */
  lemma FreedAfterItsCalls(handled: seq<Event>, buckets: seq<seq<HandlerId>>, i: nat)
    requires |buckets| == EVENT_TYPES
    requires i < |handled|
    ensures var e := handled[i];
      && FreeMarks(handled, buckets)[i]
        == |CallsFor(handled[..i], buckets)| + (if e.kind < EVENT_TYPES then |buckets[e.kind]| else 0)
      && FreeMarks(handled, buckets)[i] <= |CallsFor(handled, buckets)|
      && CallsFor(handled, buckets)[..FreeMarks(handled, buckets)[i]]
        == CallsFor(handled[..i], buckets) + (if e.kind < EVENT_TYPES then CallsOf(buckets[e.kind], e.data) else [])
  {
    FreeMarkAt(handled, buckets, i);
    assert handled[..i + 1][..i] == handled[..i];
    CallsForPrefix(handled, buckets, i + 1);
  }

  /** runAllEvents frees each event only once all its subscribers have returned: the calls
      made before the i-th free are those owed to the earlier events followed by the whole
      bucket of the i-th. */
  lemma RunAllFreesAfterCalls(q: StackValue, buckets: seq<seq<HandlerId>>, behaviour: Behaviour, i: nat)
    requires |buckets| == EVENT_TYPES
    requires i < |RunAll(q, buckets, behaviour).trace.released|
    ensures var t := RunAll(q, buckets, behaviour).trace;
      var e := t.released[i];
      && |t.freedAt| == |t.released|
      && t.freedAt[i] == |CallsFor(t.released[..i], buckets)| + (if e.kind < EVENT_TYPES then |buckets[e.kind]| else 0)
      && t.freedAt[i] <= |t.calls|
      && t.calls[..t.freedAt[i]]
        == CallsFor(t.released[..i], buckets) + (if e.kind < EVENT_TYPES then CallsOf(buckets[e.kind], e.data) else [])
  {
    var t := RunAll(q, buckets, behaviour).trace;
    RunAllMatches(q, buckets, behaviour);
    FreedAfterItsCalls(t.released, buckets, i);
  }

  // ---------- Termination bound ----------

  /** Each handled event uses up one unit of Measure, so a drain handles exactly the
      queued events plus the pushes the counter still admitted. */
  lemma {:induction false} DrainBound(c: Config, buckets: seq<seq<HandlerId>>, behaviour: Behaviour)
    requires |buckets| == EVENT_TYPES
    ensures var r := Drain(c, buckets, behaviour);
      |r.trace.released| + r.queue.Budget() == |c.trace.released| + c.queue.Measure()
    decreases c.queue.Measure()
  {
    var (top, rest) := c.queue.Pop();
    if top.Some? {
      var popped := Config(rest, c.trace);
      DispatchTrace(popped, top.value, buckets, behaviour);
      DrainBound(Dispatch(popped, top.value, buckets, behaviour), buckets, behaviour);
    }
  }

  /** After the reset, a run handles at most the queued events plus MAX + 1 more, however
      the subscribers republish. */
  lemma RunAllBound(q: StackValue, buckets: seq<seq<HandlerId>>, behaviour: Behaviour)
    requires |buckets| == EVENT_TYPES
    ensures |RunAll(q, buckets, behaviour).trace.released| <= |q.stack| + MAX_PUBLISHABLE_EVENTS + 1
  {
    DrainBound(Config(StackValue(q.stack, 0), EmptyTrace), buckets, behaviour);
  }

  // ---------- Order ----------

  /** Subscribers that publish nothing leave the stack alone. */
  lemma {:induction false} SilentInvokeAll(c: Config, hs: seq<HandlerId>, e: Event, behaviour: Behaviour)
    requires forall h, d :: behaviour(h, d) == []
    ensures InvokeAll(c, hs, e, behaviour).queue == c.queue
    decreases |hs|
  {
    if hs != [] {
      var called := Called(c, hs[0], e.data);
      assert EmitAll(called, behaviour(hs[0], e.data)) == called;
      SilentInvokeAll(called, hs[1..], e, behaviour);
    }
  }

  /** When no subscriber publishes, events are handled strictly in stack order, head first. */
  lemma {:induction false} DrainInStackOrder(c: Config, buckets: seq<seq<HandlerId>>, behaviour: Behaviour)
    requires |buckets| == EVENT_TYPES
    requires forall h, d :: behaviour(h, d) == []
    ensures Drain(c, buckets, behaviour).trace.released == c.trace.released + c.queue.stack
    decreases c.queue.Measure()
  {
    var (top, rest) := c.queue.Pop();
    if top.None? {
      assert c.trace.released + c.queue.stack == c.trace.released;
    } else {
      var e := top.value;
      var popped := Config(rest, c.trace);
      var next := Dispatch(popped, e, buckets, behaviour);
      DispatchTrace(popped, e, buckets, behaviour);
      if e.kind < EVENT_TYPES {
        SilentInvokeAll(popped, buckets[e.kind], e, behaviour);
      }
      assert next.queue.stack == rest.stack;
      DrainInStackOrder(next, buckets, behaviour);
      AppendCons(c.trace.released, e, rest.stack);
    }
  }

  /** LIFO law: publishing e1 .. en on a fresh stack and running it with silent subscribers
      handles them in the reverse order. */
  lemma LifoLaw(es: seq<Event>, buckets: seq<seq<HandlerId>>, behaviour: Behaviour)
    requires |buckets| == EVENT_TYPES
    requires |es| <= MAX_PUBLISHABLE_EVENTS + 1
    requires forall h, d :: behaviour(h, d) == []
    ensures var q := EmitAll(Config(StackValue([], 0), EmptyTrace), es).queue;
      RunAll(q, buckets, behaviour).trace.released == Reverse(es)
  {
    var q := EmitAll(Config(StackValue([], 0), EmptyTrace), es).queue;
    EmitAllQueue(Config(StackValue([], 0), EmptyTrace), es, |es|);
    assert es[..|es|] == es;
    DrainInStackOrder(Config(StackValue(q.stack, 0), EmptyTrace), buckets, behaviour);
  }

  // ---------- A sample run ----------

  /** Subscriber 3 publishes a type-2 event carrying the datum 32; every other subscriber
      publishes nothing. */
  function SampleBehaviour(h: HandlerId, d: Payload): seq<Event> {
    if h == 3 then [Event(2, Datum(32))] else []
  }

  /** Subscriber 2 listens to type 2 and subscriber 3 to type 3. */
  function SampleBuckets(): (b: seq<seq<HandlerId>>)
    ensures |b| == EVENT_TYPES
  {
    seq(EVENT_TYPES, t requires 0 <= t => if t == 2 then [2] else if t == 3 then [3] else [])
  }

  /** A type-3 event with no data: its subscriber runs with no data and publishes; the new
      event is handled next and its subscriber is handed the datum 32; both are freed. */
  lemma SampleRun()
    ensures var r := RunAll(StackValue([Event(3, NoData)], 7), SampleBuckets(), SampleBehaviour);
      && r.trace.calls == [Call(3, NoData), Call(2, Datum(32))]
      && r.trace.released == [Event(3, NoData), Event(2, Datum(32))]
      && r.trace.dropped == [] && r.trace.badTypes == []
  {
    var buckets := SampleBuckets();
    var first := Event(3, NoData);
    var second := Event(2, Datum(32));
    var c0 := Config(StackValue([first], 0), EmptyTrace);
    var called := Called(Config(StackValue([], 0), EmptyTrace), 3, NoData);
    var c1 := Dispatch(Config(StackValue([], 0), EmptyTrace), first, buckets, SampleBehaviour);
    assert buckets[3] == [3] && buckets[2] == [2] && SampleBehaviour(3, NoData) == [second];
    assert EmitAll(called, [second]) == Config(StackValue([second], 1), called.trace.(published := [second]));
    assert InvokeAll(Config(StackValue([], 0), EmptyTrace), [3], first, SampleBehaviour) == EmitAll(called, [second]);
    assert c1 == Config(StackValue([second], 1), Trace([Call(3, NoData)], [second], [], [], [first], [1]));
    var c2 := Dispatch(Config(StackValue([], 1), c1.trace), second, buckets, SampleBehaviour);
    var called2 := Called(Config(StackValue([], 1), c1.trace), 2, Datum(32));
    assert SampleBehaviour(2, Datum(32)) == [] && EmitAll(called2, []) == called2;
    assert InvokeAll(Config(StackValue([], 1), c1.trace), [2], second, SampleBehaviour) == called2;
    assert c2 == Config(StackValue([], 1), Trace([Call(3, NoData), Call(2, Datum(32))], [second], [], [], [first, second], [1, 2]));
    assert Drain(c0, buckets, SampleBehaviour) == Drain(c1, buckets, SampleBehaviour);
    assert Drain(c1, buckets, SampleBehaviour) == Drain(c2, buckets, SampleBehaviour);
  }

  // ---------- The imperative worker ----------

  /** One call of subscriber h with data: h's publications, each through publish. */
  method CallSubscriber(es: EventStack, h: HandlerId, data: Payload, behaviour: Behaviour, trace: Trace)
    returns (trace': Trace)
    modifies es
    ensures Config(es.State(), trace')
      == EmitAll(Called(Config(old(es.State()), trace), h, data), behaviour(h, data))
  {
    trace' := trace.(calls := trace.calls + [Call(h, data)]);
    ghost var start := Config(es.State(), trace');
    var pubs := behaviour(h, data);
    var j := 0;
    while j < |pubs|
      invariant 0 <= j <= |pubs|
      invariant EmitAll(Config(es.State(), trace'), pubs[j..]) == EmitAll(start, pubs)
    {
      assert pubs[j..][0] == pubs[j] && pubs[j..][1..] == pubs[j + 1..];
      var admitted := es.Publish(pubs[j].kind, pubs[j].data);
      trace' := trace'.(published := trace'.published + [pubs[j]]);
      if !admitted {
        trace' := trace'.(dropped := trace'.dropped + [pubs[j]]);
      }
      j := j + 1;
    }
    assert pubs[j..] == [];
  }

  /** eventExecutor with one worker: pops until the stack is empty, calling the bucket of
      each in-range event in list order and freeing every popped event. */
  method EventExecutor(es: EventStack, subs: SubscriberSet, behaviour: Behaviour) returns (trace: Trace)
    requires subs.Valid()
    modifies es
    ensures Config(es.State(), trace) == Drain(Config(old(es.State()), EmptyTrace), subs.buckets[..], behaviour)
  {
    ghost var buckets := subs.buckets[..];
    ghost var goal := Drain(Config(es.State(), EmptyTrace), buckets, behaviour);
    trace := EmptyTrace;
    var current := es.PopEvent();
    while current.Some?
      invariant current.Some? ==>
        Drain(Dispatch(Config(es.State(), trace), current.value, buckets, behaviour), buckets, behaviour) == goal
      invariant current.None? ==> Config(es.State(), trace) == goal
      decreases es.State().Measure() + if current.Some? then 1 else 0
    {
      var e := current.value;
      ghost var before := Config(es.State(), trace);
      if e.kind >= EVENT_TYPES {
        trace := trace.(badTypes := trace.badTypes + [e]);
      } else {
        var sub := subs.buckets[e.kind];
        while sub != []
          invariant InvokeAll(Config(es.State(), trace), sub, e, behaviour)
            == InvokeAll(before, buckets[e.kind], e, behaviour)
          decreases |sub|
        {
          trace := CallSubscriber(es, sub[0], e.data, behaviour, trace);
          sub := sub[1..];
        }
      }
      trace := trace.(released := trace.released + [e], freedAt := trace.freedAt + [|trace.calls|]);
      assert Config(es.State(), trace) == Dispatch(before, e, buckets, behaviour);
      current := es.PopEvent();
    }
  }

  /** runAllEvents with one worker: resets the tick counter, then drains. */
  method RunAllEvents(es: EventStack, subs: SubscriberSet, behaviour: Behaviour) returns (trace: Trace)
    requires subs.Valid()
    modifies es
    ensures Config(es.State(), trace) == RunAll(old(es.State()), subs.buckets[..], behaviour)
    ensures es.stack == []
  {
    es.count := 0;
    trace := EventExecutor(es, subs, behaviour);
  }
}

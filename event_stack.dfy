// The event stack of pubSub.c (eventStack_t, eventStack_init, publish, popEvent).
// The mutex is left out: Publish and PopEvent are the bodies of the critical sections.
module EventStacks {
  import opened Events

  /** The value an eventStack_t holds: the list from `head` down (head at index 0)
      and the per-tick publish counter. */
  datatype StackValue = StackValue(stack: seq<Event>, count: nat) {

    /** `count++ > MAX_PUBLISHABLE_EVENTS` is false, so the next publish pushes. */
    predicate Admits() {
      count <= MAX_PUBLISHABLE_EVENTS
    }

    /** How many further publishes this tick will still push. */
    function Budget(): (b: nat)
      ensures b > 0 <==> Admits()
      ensures count == 0 ==> b == MAX_PUBLISHABLE_EVENTS + 1
    {
      if Admits() then MAX_PUBLISHABLE_EVENTS + 1 - count else 0
    }

    /** Queued events plus the pushes still admitted: no publish raises it,
        every successful pop lowers it. */
    function Measure(): nat {
      |stack| + Budget()
    }

    /** One publish: the counter always advances; the event becomes the new head
        only while the pre-increment counter is at most MAX_PUBLISHABLE_EVENTS. */
    function Push(e: Event): (r: StackValue)
      ensures r.count == count + 1
      ensures |r.stack| == |stack| + 1 <==> Admits()
      ensures |stack| <= |r.stack| && r.stack[|r.stack| - |stack|..] == stack
      ensures Admits() ==> r.stack[0] == e
      ensures Admits() ==> r.Budget() + 1 == Budget()
      ensures !Admits() ==> r.Budget() == 0
      ensures r.Measure() == Measure()
    {
      StackValue(if Admits() then [e] + stack else stack, count + 1)
    }

    /** One pop: the head and the rest of the list, or nothing on an empty stack;
        the counter is never touched. */
    function Pop(): (r: (Option<Event>, StackValue))
      ensures r.1.count == count
      ensures r.0.None? <==> stack == []
      ensures r.0.None? ==> r.1 == this
      ensures r.0.Some? ==> [r.0.value] + r.1.stack == stack
      ensures r.1.Measure() + (if r.0.Some? then 1 else 0) == Measure()
    {
      if stack == [] then (None, this) else (Some(stack[0]), StackValue(stack[1..], count))
    }
  }

  /** LIFO round trip: an admitted publish followed by a pop hands back exactly that
      event and restores the previous list; only the counter remembers the publish. */
  lemma PushThenPop(q: StackValue, e: Event)
    requires q.Admits()
    ensures q.Push(e).Pop() == (Some(e), StackValue(q.stack, q.count + 1))
  {
  }

  /** A refused publish leaves the list as it was, so a pop sees the old head. */
  lemma RefusedPushThenPop(q: StackValue, e: Event)
    requires !q.Admits()
    ensures q.Push(e).Pop().0 == q.Pop().0
  {
  }

  /** eventStack_t, updated in place by publish and popEvent. */
  class EventStack {
    var stack: seq<Event>
    var count: nat

    function State(): StackValue
      reads this
    {
      StackValue(stack, count)
    }

    /** eventStack_init: empty list, counter zero. */
    constructor ()
      ensures State() == StackValue([], 0)
    {
      stack := [];
      count := 0;
    }

    /** publish: returns whether the event was pushed (false is the
        "tick publishing limit reached" diagnostic). */
    method Publish(kind: nat, data: Payload) returns (admitted: bool)
      modifies this
      ensures admitted == old(State()).Admits()
      ensures State() == old(State()).Push(Event(kind, data))
    {
      var previous := count;
      count := count + 1;
      if previous > MAX_PUBLISHABLE_EVENTS {
        admitted := false;
      } else {
        admitted := true;
        stack := [Event(kind, data)] + stack;
      }
    }

    /** popEvent: detaches and returns the head, or None when the list is empty. */
    method PopEvent() returns (e: Option<Event>)
      modifies this
      ensures (e, State()) == old(State()).Pop()
    {
      if stack == [] {
        e := None;
      } else {
        e := Some(stack[0]);
        stack := stack[1..];
      }
    }
  }
}

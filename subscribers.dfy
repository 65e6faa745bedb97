// The subscriber registry of pubSub.c (subscriberSet_t, initSubscriberSet,
// destroySubscriberSet, subscribe). Each bucket's linked list is the sequence of its
// handlers from the list head onwards.
module Subscribers {
  import opened Events

  /** Number of list nodes held by the buckets, one per registration. */
  function Registrations(buckets: seq<seq<HandlerId>>): (n: nat)
    ensures n == 0 <==> forall t :: 0 <= t < |buckets| ==> buckets[t] == []
  {
    if buckets == [] then 0
    else Registrations(buckets[..|buckets| - 1]) + |buckets[|buckets| - 1]|
  }

  /** subscriberSet_t: one list of subscriber functions per event type. */
  class SubscriberSet {
    const buckets: array<seq<HandlerId>>

    ghost predicate Valid() {
      buckets.Length == EVENT_TYPES
    }

    /** Storage for a set whose buckets hold whatever the memory held: Init must run first. */
    constructor ()
      ensures Valid() && fresh(buckets)
    {
      buckets := new seq<HandlerId>[EVENT_TYPES];
    }

    /** initSubscriberSet: nulls every bucket. */
    method Init()
      requires Valid()
      modifies buckets
      ensures forall t :: 0 <= t < EVENT_TYPES ==> buckets[t] == []
    {
      var i := 0;
      while i < EVENT_TYPES
        invariant 0 <= i <= EVENT_TYPES
        invariant forall t :: 0 <= t < i ==> buckets[t] == []
      {
        buckets[i] := [];
        i := i + 1;
      }
    }

    /** destroySubscriberSet: unlinks and frees every node of every bucket;
        returns how many nodes were freed. */
    method Destroy() returns (freed: nat)
      requires Valid()
      modifies buckets
      ensures forall t :: 0 <= t < EVENT_TYPES ==> buckets[t] == []
      ensures freed == Registrations(old(buckets[..]))
    {
      ghost var before := buckets[..];
      freed := 0;
      var i := 0;
      while i < EVENT_TYPES
        invariant 0 <= i <= EVENT_TYPES
        invariant forall t :: 0 <= t < i ==> buckets[t] == []
        invariant forall t :: i <= t < EVENT_TYPES ==> buckets[t] == before[t]
        invariant freed == Registrations(before[..i])
      {
        while buckets[i] != []
          invariant forall t :: 0 <= t < i ==> buckets[t] == []
          invariant forall t :: i < t < EVENT_TYPES ==> buckets[t] == before[t]
          invariant freed + |buckets[i]| == Registrations(before[..i]) + |before[i]|
          decreases |buckets[i]|
        {
          buckets[i] := buckets[i][1..];
          freed := freed + 1;
        }
        assert before[..i + 1][..i] == before[..i];
        i := i + 1;
      }
      assert before[..EVENT_TYPES] == before;
    }

    /** subscribe: prepends f to the bucket of eventType without looking for duplicates.
        The source does not check eventType; an out-of-range type writes outside the array. */
    method Subscribe(eventType: nat, f: HandlerId)
      requires Valid() && eventType < EVENT_TYPES
      modifies buckets
      ensures buckets[eventType] == [f] + old(buckets[eventType])
      ensures multiset(buckets[eventType])[f] == multiset(old(buckets[eventType]))[f] + 1
      ensures forall t :: 0 <= t < EVENT_TYPES && t != eventType ==> buckets[t] == old(buckets[t])
    {
      buckets[eventType] := [f] + buckets[eventType];
    }
  }
}

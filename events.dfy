// Values shared by the registry, the event stack and the executor of pubSub.c.
module Events {

  /** Number of event types; valid types are 0 .. EVENT_TYPES - 1. */
  const EVENT_TYPES: nat := 26

  /** Per-tick publishing limit, "a primitive guard against infinite recursions". */
  const MAX_PUBLISHABLE_EVENTS: nat := 512

  /** A subscriber function, identified abstractly (it stands for the function pointer). */
  type HandlerId = nat

  /** The opaque `void *` attached to an event: either NULL or an owned datum. */
  datatype Payload = NoData | Datum(value: int)

  /** An event: its (unsigned, unchecked) type and its payload. */
  datatype Event = Event(kind: nat, data: Payload)

  datatype Option<T> = None | Some(value: T)
}

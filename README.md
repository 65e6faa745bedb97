# pubSub.c in Dafny

A verified model of the sequential core of `pubSub.c`, a small publish/subscribe event
engine in C:

- **Subscriber registry** (`subscriberSet_t`, module `Subscribers`): 26 buckets, one per event
  type, each a singly linked list of subscriber functions. `initSubscriberSet` nulls every
  bucket, `destroySubscriberSet` unlinks and frees every node, `subscribe` prepends a
  subscriber without looking for duplicates. The class `SubscriberSet` keeps the buckets in
  an array of length 26; each list is the sequence of its handlers from the head onwards.
- **Event stack** (`eventStack_t`, module `EventStacks`): a LIFO linked list plus the
  per-tick `count`. `publish` always increments `count` and pushes only while the
  pre-increment value is at most `MAX_PUBLISHABLE_EVENTS` (512), so 513 publishes are
  accepted after a reset; `popEvent` detaches the head or returns nothing. The class
  `EventStack` holds the list and the counter; its methods `Publish` and `PopEvent` are
  the bodies of the critical sections and are proved against the pure operations
  `StackValue.Push` and `StackValue.Pop`.
- **Executor** (`eventExecutor` run by one worker, and the counter reset of
  `runAllEvents`; module `Executor`): pop an event; an out-of-range type is reported and
  calls nothing, otherwise every subscriber of the event's bucket is called with the
  event's data, in list order; then the event and its data are freed; repeat until a pop
  finds the stack empty. Subscriber functions are modelled by a `Behaviour`: for a
  subscriber and the data it is handed, the events it publishes, in order. So re-entrant
  publishing into the stack is explicit. The drain is specified by the functions
  `Dispatch`, `Drain` and `RunAll` over a `Config` (the stack's value and a `Trace`
  recording, per kind of action, the calls made, the publishes, the refused publishes,
  the bad-type reports, the freed events and, for each free, how many calls had been made
  by then). The methods `CallSubscriber`, `EventExecutor` and `RunAllEvents` do the same
  work step by step on an `EventStack` and a `SubscriberSet` and are proved equal to those
  functions.

Termination of a drain, even with subscribers that republish forever, follows from the
counter guard: `StackValue.Measure` (events on the stack plus pushes the counter still admits)
never grows on a publish and drops by one on every pop.

The source's comment on line 90 says no more than the maximum is published, but
`count++ > MAX_PUBLISHABLE_EVENTS` admits MAX + 1 = 513 pushes per tick. The model keeps
the code's behaviour and `OverflowBoundary` pins it down. Also, the source's drop path
reports the refused event but does not free its data; the model records a refused
publish as dropped and never as freed, following the code.

## Model

| member | source | states |
|---|---|---|
| `EventStacks.StackValue.Admits` | pubSub.c:91 | the negation of publish's refusal guard: a push is admitted exactly while the pre-increment counter is at most 512 |
| `EventStacks.StackValue.Budget` | pubSub.c:91 | pushes still admitted this tick: positive exactly while the counter admits, MAX + 1 right after a reset |
| `EventStacks.StackValue.Push` | pubSub.c:91-101 | publish: the counter goes up by one on every call; the list grows by one exactly when the pre-increment counter is at most 512; the old list stays below the new head, which is the published event when admitted; an admitted push uses up one unit of the budget and a refused one leaves none; Measure is unchanged |
| `EventStacks.StackValue.Pop` | pubSub.c:117-120 | popEvent: nothing exactly when the list is empty, and then nothing changes; otherwise head and tail that make up the old list; the counter is never touched; Measure drops by one per event popped |
| `EventStacks.PushThenPop` | pubSub.c:97-100 | an admitted publish followed by a pop returns that event and restores the previous list |
| `EventStacks.RefusedPushThenPop` | pubSub.c:91-93 | a refused publish leaves the list alone, so the next pop sees the old head |
| `EventStacks.EventStack.constructor` | pubSub.c:77-81 | eventStack_init: empty list, counter zero |
| `EventStacks.EventStack.Publish` | pubSub.c:84-107 | the new state is Push of the old one; the result says whether the event was pushed |
| `EventStacks.EventStack.PopEvent` | pubSub.c:110-127 | the returned event and the new state are Pop of the old state |
| `Subscribers.Registrations` | pubSub.c:43-47 | the number of list nodes is zero exactly when every bucket is empty |
| `Subscribers.SubscriberSet.constructor` | pubSub.c:26-29 | a fresh array of 26 buckets |
| `Subscribers.SubscriberSet.Init` | pubSub.c:32-36 | every one of the 26 buckets is empty |
| `Subscribers.SubscriberSet.Destroy` | pubSub.c:39-49 | every bucket is empty and one node was freed per registration held before |
| `Subscribers.SubscriberSet.Subscribe` | pubSub.c:52-57 | bucket t becomes f followed by the old bucket, so a duplicate registration appears once more; every other bucket is unchanged |
| `Executor.Emit` | pubSub.c:91-101 | a publish from inside a subscriber leaves Measure unchanged |
| `Executor.EmitAll` | pubSub.c:91-101 | a run of publishes leaves Measure unchanged |
| `Executor.InvokeAll` | pubSub.c:157-162 | walking a bucket leaves Measure unchanged, however much its subscribers publish |
| `Executor.Dispatch` | pubSub.c:150-169 | handling one event leaves Measure unchanged |
| `Executor.Drain` | pubSub.c:145-171 | the do-while loop terminates, with the stack empty |
| `Executor.EmitAllQueue` | pubSub.c:91-101 | a run of publishes pushes the first events, as many as the budget admits, newest on top of the old list, and advances the counter once per publish |
| `Executor.EmitAllDrops` | pubSub.c:91-93 | every publish beyond the budget is refused and reported, in order |
| `Executor.OverflowBoundary` | pubSub.c:91-101 | right after the reset, 514 publishes push exactly the first 513 and refuse the 514th |
| `Executor.EmitAccounts` | pubSub.c:91-101 | one publish leaves the event either queued or dropped |
| `Executor.EmitAllTrace` | pubSub.c:91-101 | a run of publishes is recorded as published, in order, and calls, reports and frees nothing |
| `Executor.EmitAllAccounts` | pubSub.c:91-101 | a run of publishes leaves each of its events queued or dropped |
| `Executor.InvokeAllCalls` | pubSub.c:157-162 | a bucket walk calls exactly the bucket's subscribers, in list order, once per registration, each with the event's data, and frees nothing |
| `Executor.InvokeAllAccounts` | pubSub.c:157-162 | what the subscribers publish during a bucket walk ends up queued or dropped |
| `Executor.InvokeAllAttributed` | pubSub.c:158-162 | every publish during a bucket walk is that of the call that made it, in call order |
| `Executor.DispatchTrace` | pubSub.c:150-169 | one event is freed exactly once, and its free is stamped with the call count reached after its whole bucket has been walked, so it comes after its subscribers; a type of 26 or more is reported and calls nothing and changes nothing else; an in-range type calls its whole bucket in list order |
| `Executor.DispatchAccounts` | pubSub.c:150-169 | handling one event frees it and accounts for everything its subscribers publish |
| `Executor.DispatchAttributed` | pubSub.c:150-169 | handling one event keeps every publish attributed to its call |
| `Executor.DispatchMatches` | pubSub.c:150-169 | after each event, the calls, the bad-type reports and the call count at each free are exactly those owed to the freed events |
| `Executor.DrainConserves` | pubSub.c:145-171 | a drain loses no event and handles none twice: freed plus dropped equals queued plus published |
| `Executor.DrainAttributed` | pubSub.c:145-171 | every publish of a drain is attributed to the subscriber call that made it |
| `Executor.DrainMatches` | pubSub.c:145-171 | over a whole drain, the calls are the buckets of the freed in-range events in order, the reports are the freed out-of-range events, and each free comes once the calls owed up to its event are made |
| `Executor.DrainBound` | pubSub.c:145-171 | a drain frees exactly the events queued plus the pushes the counter still admitted, less the budget left over |
| `Executor.RunAll` | pubSub.c:176-180 | runAllEvents with one worker: the counter is reset and the drain ends with the stack empty |
| `Executor.RunAllConserves` | pubSub.c:176-179 | after the reset and the drain the stack is empty, and the freed and dropped events are exactly the queued ones plus everything the subscribers published |
| `Executor.RunAllMatches` | pubSub.c:176-179 | a run calls, event by freed event, exactly the subscribers of its bucket in list order, reports exactly the out-of-range events, and stamps each free with the calls owed up to its event |
| `Executor.FreeMarkAt` | pubSub.c:157-168 | the i-th free is stamped with the number of calls owed to the first i + 1 freed events |
| `Executor.FreedAfterItsCalls` | pubSub.c:157-168 | the calls owed up to the i-th free are, in order, those owed to the earlier events followed by one call per registration of its own bucket with its data, and the free is stamped with their number |
| `Executor.RunAllFreesAfterCalls` | pubSub.c:145-180 | in a run, no event is freed before all of its subscribers have been called: the calls made before the i-th free are, in order, those owed to the earlier events followed by its whole bucket with its data |
| `Executor.RunAllBound` | pubSub.c:176-179 | a run frees at most the queued events plus 513, however the subscribers republish |
| `Executor.SilentInvokeAll` | pubSub.c:157-162 | subscribers that publish nothing leave the stack alone |
| `Executor.DrainInStackOrder` | pubSub.c:145-171 | with silent subscribers, events are freed strictly in stack order, head first |
| `Executor.LifoLaw` | pubSub.c:97-100 | with silent subscribers (every subscriber publishes nothing for every datum) and at most 513 events published on a fresh stack, the events are handled in the reverse order of publication |
| `Executor.SampleRun` | pubSub.c:235-240 | with the sample subscribers of types 2 and 3, a type-3 event makes its subscriber publish a type-2 event whose subscriber is handed the datum 32; both are freed and nothing is dropped |
| `Executor.CallSubscriber` | pubSub.c:158-162 | one subscriber call and its publishes, each through publish, equal one step of InvokeAll |
| `Executor.EventExecutor` | pubSub.c:139-173 | the worker's loop leaves the stack and the trace as Drain says |
| `Executor.RunAllEvents` | pubSub.c:176-180 | resets the counter, then drains; the stack ends empty and the result is RunAll of the old state |

## Left out

- Threads, mutexes and the worker pool (`pthread_*`, pubSub.c:182-201): one sequential
  worker is modelled; `Publish` and `PopEvent` are the critical sections' bodies.
- The race in which a worker exits while another is still handling an event that may
  publish: it exists only with several workers.
- `exit(2)` after a failed lock or unlock, and the `perror`/`fprintf` output: locking
  cannot fail in the model; the two diagnostics become the `dropped` and `badTypes`
  sequences of the trace and the result of `Publish`.
- `malloc`/`free`: memory is not modelled; freeing an event and its data is the
  `released` sequence of the trace. A failed `malloc` is not modelled (the source does
  not check it either).
- Unsigned wrap-around of `count` and of the event type: both are unbounded naturals, so
  a negative type from the test harness's `controlChar - 'a'` appears only as a type of
  26 or more.
- `Subscribers.SubscriberSet.Subscribe`: requires a type below 26, which the source does
  not check (a larger type writes outside the array).
- Subscriber functions: what a subscriber publishes depends only on its id and the data it
  is handed, so a subscriber with state of its own (one that publishes only on its first
  call, say) cannot be expressed. Writes through the shared `void *` data, which later
  subscribers of the same event would see (pubSub.c:160), are not modelled: every
  subscriber of an event is handed the same value. Other effects (printing) are left out,
  and a subscriber that touches the subscriber set or the stack other than through
  `publish` is not modelled. `Behaviour` is total and yields a finite sequence, so every
  subscriber call is taken to return after finitely many publishes: the termination of
  `Drain` assumes subscribers that terminate, and a subscriber that never returns hangs
  the source whatever the counter does.
- The relative order of different kinds of action: the trace holds one sequence per kind
  of action; only frees are placed among the calls (the call count stamped on each free).
  Where a publish or a bad-type report falls relative to the frees is not recorded.
- The test harness (pubSub.c:213-285) beyond the sample run: `getchar` input, the
  printing subscribers and the global set and stack.

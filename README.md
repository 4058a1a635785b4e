# RCL-like wrapper for Fast DDS: dispatch bookkeeping in Dafny

This project models the sequential bookkeeping inside the dispatch layer of
the RCL-like publish/subscribe wrapper over Fast DDS, and proves properties of
that model:

- `Rate`, the periodic deadline scheduler (`rate.dfy`, module `Rates`). Time
  is an integer tick count. `Sleep` advances the deadline by whole periods
  until it lies strictly after the clock reading. The proofs show the result
  is the earliest grid deadline after `now`, that it never moves backward,
  and that missed ticks are skipped rather than burst.
- The `Executor` (`executor.dfy`, module `Executors`). It is a class over the
  list of node handles and the running flag. `AddNode`, `RemoveNode`, `Stop`,
  one round of `Spin`, and `Spin` itself are modelled. The calls an executor
  makes into its nodes are returned as a list of `Call`s. The proofs are
  against `Without` (the erase/remove idiom) and `Round` (one pass over the
  list).
- The C API's free functions (`wrapper.dfy`, module `RclLikeWrapper`): the
  null-handle guards, `create_publisher` and `create_subscription` with their
  three failure cases and the `rt/` topic prefix, and `rcl_like_wrapper_init`.
  The init loop is modelled over a `Registry` class that holds the global
  type table, and is proved against `Registered`.
- One `lwrcl` subscriber's message path (`subscriber.dfy`, module `Lwrcl`):
  - the message buffer;
  - the subscription callback's `Invoke`;
  - the listener's `OnDataAvailable` and `OnSubscriptionMatched`;
  - `GetPublisherCount`.

  An event-trace model (`Step`/`Run`) uses the same step functions as the
  class methods. Each notification and each dispatch is one atomic step in
  it. Under that assumption it proves FIFO delivery, and that tokens and
  buffered messages stay matched while no callback throws.

Handles are integers, and 0 stands for the null pointer. What a node,
publisher or user callback does behind a handle is not visible. It enters the
model as a parameter: the handle a node returns from a create call, the count
a reader reports, or whether a user callback returned or threw.

Behaviour of the code worth noting:
- `add_node` with a null handle only logs and returns
  (libraries/src/rcl_like_wrapper.cpp:113-120).
- Each round of `Executor::spin` calls `spin_some` on every non-null node, in
  list order (libraries/src/rcl_like_wrapper.cpp:159-169).
- `Executor::spin` leaves `running_` set when the process-wide stop flag ends
  it (libraries/src/rcl_like_wrapper.cpp:152-173). A later `stop` therefore
  still sends `stop_spin` to every node.
- `SubscriptionCallback::invoke` erases the front message only after the user
  callback returns (lwrcl/libraries/src/lwrcl/include/subscriber.hpp:29-30).
  When the callback throws, its token in the channel is used up but the
  message stays in the buffer. From then on the buffer holds at least one
  message more than there are tokens, and exactly one as long as no other
  callback throws (each further throw adds one more): the newest message is
  handed over only after another one arrives. For example, m1, m2, m3 arrive, each gets one dispatch, and
  m1's callback throws. The handler then sees m1, m1, m2, and m3 stays
  buffered with no token (`Lwrcl.ThreeArrivalsOneThrow`,
  `Lwrcl.ThrowStrandsMessage`).

## Model

| member | source | states |
|---|---|---|
| `Rates.Rate.constructor` | libraries/src/rcl_like_wrapper.cpp:176-177 | the first deadline is the construction time plus one period |
| `Rates.Rate.Sleep` | libraries/src/rcl_like_wrapper.cpp:180-195 | a deadline still in the future is kept; a missed one becomes `NextDeadline` of the old deadline; the method waits until the new deadline; termination needs a positive period when the deadline was missed |
| `Rates.NextDeadlineBounds` | libraries/src/rcl_like_wrapper.cpp:182-193 | the new deadline is strictly after `now` and never before the old one; it is unchanged when `now` is earlier; after a miss it is at most one period past `now` |
| `Rates.NextDeadlineAtGridPoint` | libraries/src/rcl_like_wrapper.cpp:189-192 | when `now` is exactly a grid deadline, the new deadline is exactly one period past `now`, so the bound of `NextDeadlineBounds` is reached |
| `Rates.NextDeadlineOnGrid` | libraries/src/rcl_like_wrapper.cpp:189-192 | the new deadline is the old one plus a whole number k of periods, with k = 0 exactly when the deadline was not missed |
| `Rates.NextDeadlineIsEarliest` | libraries/src/rcl_like_wrapper.cpp:189-192 | no grid deadline after `now` is earlier than the one chosen: missed ticks are skipped |
| `Rates.NextDeadlineNoBurst` | libraries/src/rcl_like_wrapper.cpp:187-193 | after a stall the next wake-up is at least one whole period past the missed deadline |
| `RclLikeWrapper.Forward` | libraries/src/rcl_like_wrapper.cpp:247-297 | `spin`, `spin_once`, `spin_some` and `stop_spin` call nothing for a null handle, and otherwise make exactly the requested call on that handle (`publish` at lines 326-336 is modelled by the same guard) |
| `RclLikeWrapper.SubscriberCount` | libraries/src/rcl_like_wrapper.cpp:339-349 | 0 for a null publisher handle, otherwise the publisher's own count |
| `RclLikeWrapper.PublisherCount` | libraries/src/rcl_like_wrapper.cpp:380-390 | 0 for a null subscriber handle, otherwise the subscriber's own count |
| `RclLikeWrapper.CreateTimer` | libraries/src/rcl_like_wrapper.cpp:393-412 | the result is non-zero exactly when the node handle is non-null and the node created a timer, and then it is that timer |
| `RclLikeWrapper.Registered` | libraries/src/rcl_like_wrapper.cpp:415-428 | after registration every given name is present; names already present keep their first value; no other name is added |
| `RclLikeWrapper.RegisteredIdempotent` | libraries/src/rcl_like_wrapper.cpp:418-427 | registering the same types again leaves the table unchanged |
| `RclLikeWrapper.RegisteredFirstWins` | libraries/src/rcl_like_wrapper.cpp:421-426 | a name registered by one call keeps that type through any later call |
| `RclLikeWrapper.Registry.constructor` | libraries/src/rcl_like_wrapper.cpp:224-225 | the global type table starts empty |
| `RclLikeWrapper.Registry.Init` | libraries/src/rcl_like_wrapper.cpp:415-428 | the loop leaves the global table equal to `Registered(old table, types)`, whatever order it visits the names in |
| `RclLikeWrapper.TransportTopic` | libraries/src/rcl_like_wrapper.cpp:315 | the transport topic is `rt/` followed by the user topic, which can be read back from it |
| `RclLikeWrapper.TransportTopicInjective` | libraries/src/rcl_like_wrapper.cpp:369 | distinct user topics map to distinct transport topics |
| `RclLikeWrapper.PublisherRequest` | libraries/src/rcl_like_wrapper.cpp:300-315 | the node is asked to create a publisher exactly when the handle is non-null and the type name is registered, with the registered type and the prefixed topic |
| `RclLikeWrapper.CreatePublisher` | libraries/src/rcl_like_wrapper.cpp:300-323 | the result is 0 exactly when the node handle is null, the type name is unknown, or the node returned null; otherwise it is the node's publisher |
| `RclLikeWrapper.SubscriptionRequest` | libraries/src/rcl_like_wrapper.cpp:352-369 | the node is asked to create a subscription exactly when the handle is non-null and the type name is registered, with the registered type, the prefixed topic and the user callback |
| `RclLikeWrapper.CreateSubscription` | libraries/src/rcl_like_wrapper.cpp:352-377 | the result is 0 exactly when the node handle is null, the type name is unknown, or the node returned null; otherwise it is the node's subscriber |
| `RclLikeWrapper.RegisteredTypeReachesNode` | libraries/src/rcl_like_wrapper.cpp:310-315 | after `init`, creating a publisher of a given type on a valid node reaches the node, with the type registered first |
| `Executors.Executor.constructor` | libraries/src/rcl_like_wrapper.cpp:99-102 | a new executor is not running and manages no node |
| `Executors.Executor.AddNode` | libraries/src/rcl_like_wrapper.cpp:110-121 | a null handle leaves the list unchanged; any other handle is appended at the tail, duplicates included, and earlier entries are untouched; the list never holds a null handle |
| `Executors.Executor.RemoveNode` | libraries/src/rcl_like_wrapper.cpp:124-128 | the list becomes `Without(old list, handle)`: the compaction loop drops every occurrence and keeps the rest in order |
| `Executors.WithoutSpec` | libraries/src/rcl_like_wrapper.cpp:127 | after removal the handle does not occur; every other handle occurs as often as before; removing an absent handle is a no-op |
| `Executors.WithoutConcat` | libraries/src/rcl_like_wrapper.cpp:127 | removal distributes over concatenation, so survivors keep their relative order |
| `Executors.RemovedNodeNotSpun` | libraries/src/rcl_like_wrapper.cpp:124-128 | after `remove_node`, a round of spinning makes no call on the removed node |
| `Executors.Executor.Stop` | libraries/src/rcl_like_wrapper.cpp:131-149 | when running, clears the flag and sends `stop_spin` to every non-null node in list order, one call per entry when the list holds no null handle; when not running, sends nothing; either way it ends stopped and leaves the list unchanged |
| `Executors.StopTwice` | libraries/src/rcl_like_wrapper.cpp:131-149 | a second `stop` sends no call: stop is idempotent |
| `Executors.Executor.SpinRound` | libraries/src/rcl_like_wrapper.cpp:157-170 | one round's calls are `Round(nodes, SpinSome)`, one call per entry when the list holds no null handle |
| `Executors.RoundVisitsNonNull` | libraries/src/rcl_like_wrapper.cpp:159-169 | a round makes exactly one call per non-null entry, in list order, and none for a null entry |
| `Executors.OnePerEntry` | libraries/src/rcl_like_wrapper.cpp:159-169 | over a list with no null handle, which `add_node` guarantees, a pass calls every entry exactly once |
| `Executors.FirstRaised` | libraries/src/rcl_like_wrapper.cpp:155 | the loop exit is the first reading at which the process-wide stop flag is raised |
| `Executors.Executor.Spin` | libraries/src/rcl_like_wrapper.cpp:152-173 | sets the running flag, runs one round per loop test until the first raised stop-flag reading, and makes exactly that many rounds of calls: `spin_some` once per non-null node per round |
| `Lwrcl.Accepted` | lwrcl/libraries/src/lwrcl/include/subscriber.hpp:68-71 | a notification adds one message exactly when the take succeeded and the data is valid, and that message is the sample taken |
| `Lwrcl.Front` | lwrcl/libraries/src/lwrcl/include/subscriber.hpp:27-29 | the callback receives the oldest message, and nothing when the buffer is empty |
| `Lwrcl.AfterInvoke` | lwrcl/libraries/src/lwrcl/include/subscriber.hpp:25-44 | a returning callback removes exactly the front message and keeps the rest in order; an empty buffer or a callback that throws leaves the buffer unchanged |
| `Lwrcl.SubscriptionCallback.constructor` | lwrcl/libraries/src/lwrcl/include/subscriber.hpp:18-19 | the callback is bound to the buffer it is given |
| `Lwrcl.SubscriptionCallback.Invoke` | lwrcl/libraries/src/lwrcl/include/subscriber.hpp:23-45 | hands over `Front` of the old buffer and leaves `AfterInvoke` of it; no exception escapes |
| `Lwrcl.SubscriberListener.constructor` | lwrcl/libraries/src/lwrcl/include/subscriber.hpp:76-80 | the listener's callback is bound to the listener's own empty buffer, and the matched count starts at 0 |
| `Lwrcl.SubscriberListener.OnDataAvailable` | lwrcl/libraries/src/lwrcl/include/subscriber.hpp:65-74 | appends `Accepted(take)` at the buffer tail, and produces the listener's own callback into the channel exactly once when a message was appended, otherwise nothing |
| `Lwrcl.SubscriberListener.OnSubscriptionMatched` | lwrcl/libraries/src/lwrcl/include/subscriber.hpp:60-63 | the count is overwritten with the status's current count |
| `Lwrcl.Subscriber.constructor` | lwrcl/libraries/src/lwrcl/include/subscriber.hpp:103-107 | builds a fresh listener on the given channel: its callback is bound to its own empty buffer and its matched count is 0 |
| `Lwrcl.Subscriber.GetPublisherCount` | lwrcl/libraries/src/lwrcl/include/subscriber.hpp:165-168 | returns the listener's count |
| `Lwrcl.ArriveThenDispatch` | lwrcl/libraries/src/lwrcl/include/subscriber.hpp:25-81 | on a fresh listener, one arrival and one invocation of the listener's own callback hand over exactly the accepted sample, and leave `AfterInvoke` of it: the token drains the buffer the listener filled |
| `Lwrcl.MatchedThenCount` | lwrcl/libraries/src/lwrcl/include/subscriber.hpp:60-63 | the publisher count reported is the one the latest match notification wrote |
| `Lwrcl.DeliveredThenBufferedIsArrived` | lwrcl/libraries/src/lwrcl/include/subscriber.hpp:29-30 | at every point, the delivered messages followed by the buffered ones are exactly the accepted messages, in arrival order |
| `Lwrcl.DeliveredIsPrefixOfArrivals` | lwrcl/libraries/src/lwrcl/include/subscriber.hpp:27-31 | successive invocations deliver messages in the order `on_data_available` appended them |
| `Lwrcl.NoThrowKeepsTokensWithMessages` | lwrcl/libraries/src/lwrcl/include/subscriber.hpp:68-72 | when every callback returns, the pending tokens equal the buffer length, and every message handed over is delivered exactly once |
| `Lwrcl.TokensNeverOutnumberMessages` | lwrcl/libraries/src/lwrcl/include/subscriber.hpp:27-35 | pending tokens never exceed the buffered messages, so for a subscriber alone on its channel the empty-buffer branch is unreachable |
| `Lwrcl.NoThrowKeepsGap` | lwrcl/libraries/src/lwrcl/include/subscriber.hpp:27-31 | while no callback throws, the number of buffered messages without a token stays the same |
| `Lwrcl.ThrowStrandsMessage` | lwrcl/libraries/src/lwrcl/include/subscriber.hpp:29-30 | a throw uses up a token but keeps its message, so with no further throws the buffer holds one message more than there are tokens and never drains |
| `Lwrcl.ThreeArrivalsOneThrow` | lwrcl/libraries/src/lwrcl/include/subscriber.hpp:25-44 | m1, m2, m3 arrive, each gets one dispatch, and m1's callback throws: the handler sees m1, m1, m2; m1 and m2 are delivered; m3 stays buffered with no token |
| `Lwrcl.ThrowRedelivers` | lwrcl/libraries/src/lwrcl/include/subscriber.hpp:25-44 | a callback that throws leaves its message at the front, so the next invocation hands the same message over again |

## Left out

- Signal handling (`signal_handler`, `register_signal_handler`, the global mutex): this is OS plumbing. The process-wide stop flag appears only as the readings `Spin` receives.
- `RCLWNode` (constructor, destructor, `spin` with its thread and 10 µs polling, `stop`, `get_node_pointer`): these are thread management around one node, outside the sequential core.
- `create_node` and `destroy_node`: raw pointer round-trips. Handles are opaque integers where 0 is null.
- The `Executor` destructor, which only calls `stop`, and the executor's lock: the model has no concurrency. Each method is one sequential step.
- `Executors.Executor.Spin`: does not model a `stop` called concurrently from another thread, which clears `running_` between rounds. Only the process-wide flag ends the loop, and that flag must be raised at some reading, because the source loops forever otherwise. The 1 µs sleeps are not modelled.
- `Rates.Rate.Sleep`: the blocking `sleep_until` is represented only by the deadline it waits for. The clock reading is a parameter, and time is an integer in the unit of the period.
- `MessageType` copy semantics and what the nodes, publishers and subscribers do behind their handles (the `Node::create_*` delegates, `publish`, the readers' counts): these are Fast DDS calls. Their answers are parameters.
- `RclLikeWrapper.Forward`: `publish`'s message argument is dropped, because only the guard is modelled.
- The `Subscriber<T>` constructor's creation of the transport topic, subscriber and data reader, the registration of the message type with the participant (`register_type`), and its four failure exceptions (`register_type`, `create_topic`, `create_subscriber`, `create_datareader` failing; lwrcl/libraries/src/lwrcl/include/subscriber.hpp:109-146), and its destructor: these are Fast DDS calls. The model's constructor only builds the listener.
- Thread interleaving on the subscriber buffer: `on_data_available` (on the transport thread) and `invoke` (on the spin thread) share `message_ptr_buffer_` without a lock (lwrcl/libraries/src/lwrcl/include/subscriber.hpp:29-30, 71). The model runs each listener and callback method as one atomic step, so the FIFO and token lemmas hold only under that assumption.
- `channel.hpp` is not part of this model. A channel is only the sequence of tokens produced into it (`Channel.Produce` appends). Consuming a token is seen only in the event-trace model, for a channel that carries one subscriber's tokens.
- The user callbacks' bodies: each invocation is told whether the callback returned or threw. Log output is not modelled.
- `transform_listener.h` only wires nodes, subscriptions and an executor together on a thread. It has no logic of its own.
- Integer widths (`int32_t` counts, `intptr_t` handles) are unbounded integers. No arithmetic is done on them, so no wrap-around arises.
- `Rates.Rate.Sleep`, `Rates.NextDeadline`: the clock is a `steady_clock::time_point` over a 64-bit tick count, and `next_time_ += period_` (libraries/src/rcl_like_wrapper.cpp:191) can overflow it in principle. The model's time is unbounded, so that overflow is not modelled; it would need a deadline close to the end of the 64-bit range.

# cmsg event bus — a Dafny model

This project models the deferred event-delivery core of the `cmsg` library
(namespace `ncore::nevent`) and the two small support pieces beside it:

- **Callbacks** (`c_delegate.h`). `Callback1<R, T0>` stands in for every arity.
  Its storage holds one of three bindings: unset, a free function, or an
  object with a member function. Module `Delegate` models the binding as the
  datatype `Binding`. Equality, ordering, `IsSet` and invocation are functions
  on that datatype. Invocation is the list of calls it makes (`Invoke`). The
  class `Delegate.Callback` holds the binding and overwrites it in its
  constructors, `Reset` and assignment. Module `Memory` holds the byte helpers
  `compare_mem` and `copy_mem` as loops over arrays. They are proved against
  `Memory.Compare` and against the old contents of the array.
- **Event channels** (`c_event_bus.h`, `c_event_bus.cpp`). A typed channel is a
  class `EventChannel.TypedChannel`. It has a subscriber list and a base part.
  The subscriber list (`SubscriberList`) is a doubly linked list of
  `DelegateNode` objects with push-front insertion. The base part (`Channel`)
  holds the record-block chain and the two arenas. Its methods relink nodes and
  bump block counters in place. They are proved against the sequence the list
  stands for (`Subscribers()`) and the records the chain buffers
  (`ChainRecords()`, `Records()`). Module `Delivery` defines, on values:
  - the list after an add (`Added`) and after a remove (`RemoveFirst`);
  - the calls a dispatch makes (`Deliveries`, `FireCalls`, `ChainCalls`).

  It proves what these promise: the list stays duplicate-free, firing is
  subscriber-major, every subscriber gets one call per record in record order,
  and a removed callback gets none.
- **Record blocks and arenas** (`c_event_bus.cpp`). Module `EventBlocks` has the
  stride arithmetic, the block class `EventBlock` and the bump arena `Arena`.
- **The bus** (`c_event_bus.cpp`, `c_event_bus.h`). `EventBus.Bus` holds the
  channel table, the channel count and both arenas. It implements
  `create_event_bus`, `set_event_channel`, `get_event_channel`,
  `alloc_event_channel` and `process_events(bus)`. It also holds the typed
  front ends `register_event_subscriber`, `unregister_event_subscriber` and
  `post_event`. An event type `T` is the class `EventType`: its `sizeof` values
  and its static `s_event_id`.
  Module `Scenarios` runs these front ends on a new bus (subscribe, post,
  unsubscribe, process) and proves which calls each callback receives, on
  any bus (`ProcessBus`) and in runs with one type and with two types. It also
  covers repeated passes: a pass after a pass makes no calls (`ProcessTwice`),
  and with post, process, post, process each pass delivers exactly the value
  posted since the previous one (`PostProcessTwice`).
- **Bounded array and name index** (`c_msg.cpp`). `Msg.BoundedArray` is
  `array_t` with `initialize`, `add` and `insert` (with its `memmove` shift).
  `Msg.NamesDb` is `names_db_t` with `binary_search` and `register_name`.

Several lines of the source do not do what they evidently intend. For each of
them, module `AsWritten` (and a few members of `EventBlocks` and `Msg`) model
the code exactly as written and exhibit the input that goes wrong. The rest of
the model uses the corrected behaviour (see "## Findings"). The block chain is
the main case. The source links blocks into a list and walks it as a circular
list, but the first block gets null links. The model therefore keeps the chain
as the sequence of its blocks in visit order. A new block goes at the end, which
is where inserting before the head puts it in a circular list. Records are
allocated in the last block.

Departures from the source, each deliberate:
- `set_event_channel` (`c_event_bus.cpp:131-137`) does not touch the channel
  count. `EventBus.Bus.SetEventChannel` raises the count to cover the slot.
- `alloc_event_channel` sets the count to `event_id + 1` (`c_event_bus.cpp:149`).
  `EventBus.Bus.AllocEventChannel` raises the count to cover the slot and never
  lowers it.
- `alloc_event` (`c_event_bus.cpp:30-54`): see the chain model above.
  - The block is sized with the rounded stride, not with the unrounded record
    size of line 34.
  - Records come from the last block of the chain, not from the head of line 53.
- `register_name` (`c_msg.cpp:176-187`) differs in four places:
  - the source returns early on every search result (lines 180-181);
    `Msg.NamesDb.RegisterName` goes on to the lookup and the insert;
  - on a hit the source returns the search position, a place in the sorted
    index array; the model returns the id the index stores there, which is
    the name's place in the name array;
  - line 182 reads the name array at the search position,
    `m_name_pointer_array.m_data[index]`; the model reads it through the
    index array, `names.data[index.data[pos]]`, as `binary_search` does at
    line 197;
  - on a miss the source inserts and then leaves the function without a
    `return`; the model returns the new name's id.
- `names_db_t::init` (`c_msg.cpp:174`): `Msg.NamesDb.Init` gives both arrays
  storage. The source gives storage to the name array only.
- Code that does not compile is read as its evident meaning:
  - `add_delegate` is `void` but returns `true` at `c_event_bus.h:70`;
  - `register_event_subscriber` uses an undeclared `id` at `c_event_bus.h:158`,
    read here as `T::s_event_id`;
  - `array_t::add` asserts on an undeclared `index` at `c_msg.cpp:144`. That
    assertion is dropped;
  - `create_event_bus` is declared with four parameters in `c_event_bus.h:20`
    and defined with one in `c_event_bus.cpp:95`. The definition is modelled;
  - `event_channel_t::teardown()` is defined twice. The header defines it
    inline as `{ v_teardown(); }` at `c_event_bus.h:36`, and
    `c_event_bus.cpp:73-85` defines it again as the walk that returns every
    block to the event arena. The override `v_teardown` calls
    `event_channel_t::teardown()` first (`c_event_bus.h:115`), so with the
    header's body the two would call each other without end. The model takes
    the `.cpp` body: `EventChannel.Channel.TeardownBlocks` releases the blocks,
    and `EventChannel.TypedChannel.Teardown` calls it before it releases the
    subscriber nodes;
  - the header's `event_channel_t` declares only `m_bus` and `m_events`
    (`c_event_bus.h:44-45`), while the `.cpp` uses `m_heap_allocator`,
    `m_event_allocator` and `m_event_block_head` on it. The model gives
    `EventChannel.Channel` the fields the `.cpp` uses: `heap`, `events` and
    `chain`.

## Model

| member | source | states |
|---|---|---|
| Memory.CompareMem | source/main/include/cmsg/c_delegate.h:15-27 | the loop returns `Compare` of the first `size` bytes of each side |
| Memory.CompareRange | source/main/include/cmsg/c_delegate.h:15-27 | the result is -1, 0 or 1 |
| Memory.CompareZeroIffEqual | source/main/include/cmsg/c_delegate.h:15-27 | the result is 0 iff all `size` bytes are equal |
| Memory.CompareAntisymmetric | source/main/include/cmsg/c_delegate.h:15-27 | swapping the arguments negates the result |
| Memory.CompareFirstDifference | source/main/include/cmsg/c_delegate.h:19-25 | -1 iff a common prefix is followed by a smaller left byte; 1 iff by a larger one |
| Memory.CompareTransitive | source/main/include/cmsg/c_delegate.h:15-27 | a negative result is transitive, so method-pointer bytes are strictly ordered |
| Memory.CopyMem | source/main/include/cmsg/c_delegate.h:29-35 | afterwards `dst[i]` is the old `src[i]` for every `i < size`; the rest of `dst` is unchanged |
| Delegate.Equal | source/main/include/cmsg/c_delegate.h:304-309 | two callbacks are equal iff their bindings are the same |
| Delegate.EqualCases | source/main/include/cmsg/c_delegate.h:364-406 | free bindings are equal iff their functions are; method bindings iff object and method are; free never equals method; unset equals only unset |
| Delegate.LessCases | source/main/include/cmsg/c_delegate.h:372-418 | unset orders before set; free bindings by function address; every free binding before every method binding; methods by object, then by `compare_mem` of the method bytes |
| Delegate.LessIrreflexive | source/main/include/cmsg/c_delegate.h:315-320 | no callback is less than itself |
| Delegate.LessAsymmetric | source/main/include/cmsg/c_delegate.h:408-418 | `a < b` excludes `b < a`, using the antisymmetry of `compare_mem` on method bytes |
| Delegate.LessTransitive | source/main/include/cmsg/c_delegate.h:408-418 | `<` is transitive |
| Delegate.LessTotal | source/main/include/cmsg/c_delegate.h:315-320 | two unequal callbacks are ordered one way or the other |
| Delegate.Invoke | source/main/include/cmsg/c_delegate.h:326-339 | an unset callback makes no call; a set one makes exactly one call, to its own target, with the argument |
| Delegate.CallResult | source/main/include/cmsg/c_delegate.h:326-331 | an unset callback returns `R()`; a set one returns what its target's call returns |
| Delegate.Callback.constructor | source/main/include/cmsg/c_delegate.h:262-265 | a default-constructed callback is unset |
| Delegate.Callback.FromFunction | source/main/include/cmsg/c_delegate.h:256-259 | a callback built from a function is set and bound to it |
| Delegate.Callback.FromMethod | source/main/include/cmsg/c_delegate.h:248-252 | a callback built from an object and method is set and bound to them |
| Delegate.Callback.Copy | source/main/include/cmsg/c_delegate.h:267-275 | the copy equals its source and invokes the same target for every argument |
| Delegate.Callback.Assign | source/main/include/cmsg/c_delegate.h:277-287 | after assignment the callback equals the right-hand side |
| Delegate.Callback.ResetMethod | source/main/include/cmsg/c_delegate.h:294 | afterwards the callback is set and invoking it calls that method on that object with the argument |
| Delegate.Callback.ResetFunction | source/main/include/cmsg/c_delegate.h:298 | afterwards the callback is set and invoking it calls that function with the argument |
| Delegate.Callback.Reset | source/main/include/cmsg/c_delegate.h:301 | afterwards the callback is unset and invoking it calls nothing |
| Delivery.Added | source/main/include/cmsg/c_event_bus.h:63-83 | after an add the callback is subscribed |
| Delivery.RemoveFirst | source/main/include/cmsg/c_event_bus.h:85-104 | a remove shortens the list by one exactly when the callback was subscribed |
| Delivery.AddedUnique | source/main/include/cmsg/c_event_bus.h:63-83 | adding keeps the list duplicate-free |
| Delivery.AddedIdempotent | source/main/include/cmsg/c_event_bus.h:65-72 | adding the same callback twice is adding it once |
| Delivery.RemoveFirstAt | source/main/include/cmsg/c_event_bus.h:87-99 | a remove unlinks exactly the first matching node and keeps the order of the rest |
| Delivery.RemoveAbsent | source/main/include/cmsg/c_event_bus.h:101-103 | removing an unsubscribed callback leaves the list unchanged |
| Delivery.RemoveFirstUnique | source/main/include/cmsg/c_event_bus.h:85-104 | on a duplicate-free list a remove keeps it duplicate-free and takes out that callback and no other |
| Delivery.AddRemoveRoundTrip | source/main/include/cmsg/c_event_bus.h:63-104 | subscribing a new callback and unsubscribing it restores the list |
| Delivery.Deliveries | source/main/include/cmsg/c_event_bus.h:133-138 | one subscriber makes one call per record when set, none when unset |
| Delivery.DeliveriesAt | source/main/include/cmsg/c_event_bus.h:133-138 | the `i`-th call of a subscriber goes to its target with record `i` |
| Delivery.FireCallsRun | source/main/include/cmsg/c_event_bus.h:128-141 | when every subscriber is set, firing is subscriber-major: call `k * n + i` is subscriber `k` with record `i` |
| Delivery.FireCallsTo | source/main/include/cmsg/c_event_bus.h:128-141 | firing one block gives a subscribed callback one call per record, in order, and an unsubscribed one none |
| Delivery.ChainCallsTo | source/main/cpp/c_event_bus.cpp:58-71 | dispatching a chain gives a subscribed callback one call per buffered record, in chain order, and an unsubscribed one none |
| Delivery.RemovedGetsNothing | source/main/include/cmsg/c_event_bus.h:163-173 | a callback removed before dispatch gets no call, not even for records already buffered |
| EventBlocks.StrideBounds | source/main/cpp/c_event_bus.cpp:35 | the stride is a multiple of 8, at least `size` and less than `size + 8`; for the last seven `u32` values it wraps to 0 |
| EventBlocks.AsWrittenLastSlotOverruns | source/main/cpp/c_event_bus.cpp:34-35 | as written, a full block's last slot ends past the block whenever `size` is not a multiple of 8 |
| EventBlocks.AsWrittenOverrunExample | source/main/cpp/c_event_bus.cpp:34-35 | 4-byte records: stride 8, payload 4096 bytes, last slot at offset 8184 |
| EventBlocks.SlotFitsBlock | source/main/cpp/c_event_bus.cpp:34-35 | sized with the stride, every slot ends inside the block |
| EventBlocks.SlotsDisjoint | source/main/cpp/c_event_bus.cpp:23-27 | slots `i < j` do not overlap |
| EventBlocks.RecordsAtIndex | source/main/cpp/c_event_bus.cpp:21-27 | record `i` of a block is the `size` bytes at payload offset `i * stride` |
| EventBlocks.Arena.Allocate | source/main/cpp/c_event_bus.cpp:140-141 | hands out the current end and bumps the counter by exactly `n` |
| EventBlocks.Arena.Deallocate | source/main/cpp/c_event_bus.cpp:82 | the release is logged; nothing is reclaimed before a reset |
| EventBlocks.EventBlock.constructor | source/main/cpp/c_event_bus.cpp:34-37 | a new block has the rounded stride, capacity `s_max_event_count` and no records |
| EventBlocks.EventBlock.AllocEvent | source/main/cpp/c_event_bus.cpp:23-27 | returns offset `count * stride` and bumps the `u16` count by one |
| EventBlocks.IsFullIgnoresSize | source/main/cpp/c_event_bus.cpp:22 | `is_full` holds iff `count >= max`, whatever size it is given |
| EventChannel.Deliver | source/main/include/cmsg/c_event_bus.h:133-138 | the inner loop makes `Deliveries` of the records at offsets `i * eventSize` |
| EventChannel.SubscriberList.Fire | source/main/include/cmsg/c_event_bus.h:128-141 | the outer loop makes `FireCalls` of the list from the head |
| EventChannel.SubscriberList.Find | source/main/include/cmsg/c_event_bus.h:66-72 | returns the first node equal to the callback, or null iff none is |
| EventChannel.SubscriberList.Push | source/main/include/cmsg/c_event_bus.h:75-82 | the new node becomes the head with a null `prev`, the old list follows unchanged, links stay consistent |
| EventChannel.SubscriberList.Unlink | source/main/include/cmsg/c_event_bus.h:92-97 | the node at index `k` leaves the list; the rest stay doubly linked in order |
| EventChannel.SubscriberList.ReleaseAll | source/main/include/cmsg/c_event_bus.h:119-125 | every node goes back to the heap arena in list order and the head ends null |
| EventChannel.SubscriberList.Clear | source/main/include/cmsg/c_event_bus.h:107-111 | the list is empty |
| EventChannel.Channel.Attach | source/main/cpp/c_event_bus.cpp:131-136 | the bus's arenas are wired in and the chain is emptied |
| EventChannel.Channel.AllocEvent | source/main/cpp/c_event_bus.cpp:30-54 | a block is added only when the chain is empty or its last block is full; the slot is the new last record; earlier records are unchanged |
| EventChannel.Channel.AllocFresh | source/main/cpp/c_event_bus.cpp:32-50 | a block of `BlockBytes` goes at the end of the chain and its first slot is handed out |
| EventChannel.Channel.FillLast | source/main/cpp/c_event_bus.cpp:53 | the last block hands out its next slot, which becomes its last record |
| EventChannel.Channel.WriteRecord | source/main/include/cmsg/c_event_bus.h:181-182 | the value's bytes replace the last record and nothing else |
| EventChannel.Channel.Post | source/main/include/cmsg/c_event_bus.h:181-182 | the buffered records gain exactly the posted value at the end |
| EventChannel.Channel.TeardownBlocks | source/main/cpp/c_event_bus.cpp:73-85 | every block goes back to the event arena, in chain order; with no blocks nothing goes back |
| EventChannel.TypedChannel.constructor | source/main/include/cmsg/c_event_bus.h:155-157 | a zeroed channel has no arenas, no blocks and no subscribers |
| EventChannel.TypedChannel.Attach | source/main/cpp/c_event_bus.cpp:131-135 | arenas wired, chain emptied, subscribers kept |
| EventChannel.TypedChannel.Post | source/main/include/cmsg/c_event_bus.h:179-183 | one copy of the value is appended to the buffered records |
| EventChannel.TypedChannel.Setup | source/main/include/cmsg/c_event_bus.h:107-111 | the subscriber list starts empty |
| EventChannel.TypedChannel.AddDelegate | source/main/include/cmsg/c_event_bus.h:63-83 | the list becomes `Added(old list, d)`: unchanged if an equal callback is there, otherwise `d` in front; one node taken from the heap arena; nothing is released |
| EventChannel.TypedChannel.Link | source/main/include/cmsg/c_event_bus.h:74-82 | a node from the heap arena is linked in front of the old head; nothing is released |
| EventChannel.TypedChannel.RemoveDelegate | source/main/include/cmsg/c_event_bus.h:85-104 | returns whether the callback was subscribed; the list becomes `RemoveFirst(old list, d)`; a found node goes back to the heap arena |
| EventChannel.TypedChannel.Teardown | source/main/include/cmsg/c_event_bus.h:113-126 | every block goes back to the event arena and every node to the heap arena, in order (nothing for an empty chain or list); the head ends null |
| EventChannel.TypedChannel.FireEvents | source/main/include/cmsg/c_event_bus.h:128-141 | makes `FireCalls` of the subscribers over the block's records |
| EventChannel.TypedChannel.ProcessEvents | source/main/cpp/c_event_bus.cpp:58-71 | no calls on an empty chain; otherwise `ChainCalls` of every block in order; the chain ends empty |
| EventChannel.TypedChannel.FireChain | source/main/cpp/c_event_bus.cpp:63-68 | each block is fired exactly once, in chain order |
| EventBus.Bus.constructor | source/main/cpp/c_event_bus.cpp:95-112 | channel count 0, every slot null, an 8 MiB event arena and a 1 MiB heap arena |
| EventBus.Bus.GetEventChannel | source/main/cpp/c_event_bus.cpp:138 | returns the slot's channel; a channel found lies below the channel count |
| EventBus.Bus.SetEventChannel | source/main/cpp/c_event_bus.cpp:131-137 | the channel takes the slot with the bus's arenas, its own subscribers and no records; no other slot changes, in its channel, subscribers or records |
| EventBus.Bus.AllocEventChannel | source/main/cpp/c_event_bus.cpp:143-151 | a zeroed channel of `size` heap bytes takes the slot; no other slot changes |
| EventBus.Bus.PendingJoin | source/main/cpp/c_event_bus.cpp:153-162 | the calls of the slots below `n` are the slot calls joined in ascending order |
| EventBus.Bus.ProcessEvents | source/main/cpp/c_event_bus.cpp:153-162 | the calls are every slot's calls in ascending slot order; every chain ends empty; it writes only the channels' chains (`event_channel_t::process_events` nulls only `m_event_block_head`, c_event_bus.cpp:58-71), so every channel keeps its subscribers and its two arenas |
| EventBus.Bus.DrainSlots | source/main/cpp/c_event_bus.cpp:155-161 | the loop drains every slot below the count in ascending order, and its calls are those slots' calls joined in that order |
| EventBus.Bus.DrainSlot | source/main/cpp/c_event_bus.cpp:158-160 | a null slot is skipped; a channel is dispatched once |
| EventBus.Bus.Dispatch | source/main/cpp/c_event_bus.cpp:160 | the slot's channel makes its pending calls; later slots keep theirs |
| EventBus.EventType.constructor | source/main/include/cmsg/c_event_bus.h:146 | a message type starts without an id (-1) |
| EventBus.Bus.RegisterEventSubscriber | source/main/include/cmsg/c_event_bus.h:147-161 | the id is assigned only when negative; a channel is created only if the slot is empty, wired to both bus arenas; the subscribers become `Added(old, d)`; heap use grows by the channel and node taken; every other slot keeps its channel, that channel's arenas and its subscribers; every slot's records are unchanged |
| EventBus.Bus.ChannelFor | source/main/include/cmsg/c_event_bus.h:149-159 | an existing channel is kept as it is; an empty slot gets a zeroed channel from the heap arena, wired to both bus arenas; no slot's subscribers or records change |
| EventBus.Bus.NewChannel | source/main/include/cmsg/c_event_bus.h:153-159 | the empty slot gets a fresh channel wired to both bus arenas, with no subscribers and no records; heap use grows by the channel size; no other slot changes |
| EventBus.Bus.Subscribe | source/main/include/cmsg/c_event_bus.h:160 | `add_delegate` on the slot's channel; no node is taken for a callback already there; other slots' subscribers and every slot's records are unchanged |
| EventBus.Bus.UnregisterEventSubscriber | source/main/include/cmsg/c_event_bus.h:163-173 | nothing happens without an id or a channel; otherwise the subscribers become `RemoveFirst(old, d)`; other slots' subscribers and arenas, every slot's records, the table and the heap use are unchanged; a slot wired to the bus stays wired |
| EventBus.Bus.PostEvent | source/main/include/cmsg/c_event_bus.h:175-184 | an empty slot drops the event; otherwise exactly one copy is appended to that channel's records, taking a new block only when one is needed; every slot's subscribers and other slots' records and arenas are unchanged; a slot wired to the bus stays wired |
| EventBus.Bus.Append | source/main/include/cmsg/c_event_bus.h:179-183 | the value becomes the channel's last record; the channel keeps its arenas; other slots' records and every slot's subscribers are unchanged |
| Scenarios.SoleSlotCalls | source/main/cpp/c_event_bus.cpp:153-162 | when every other slot is empty, processing the bus makes exactly the calls of that slot |
| Scenarios.SlotCallsTo | source/main/include/cmsg/c_event_bus.h:128-141 | a callback gets every record of a slot, in posting order, when subscribed there, and nothing otherwise |
| Scenarios.PendingCallsToStep | source/main/cpp/c_event_bus.cpp:153-162 | processing one more slot adds to a callback's calls exactly the records of that slot, in order, when it is subscribed there, and nothing otherwise |
| Scenarios.PendingCallsTo | source/main/cpp/c_event_bus.cpp:153-162 | the calls processing addresses to a callback are, slot by slot in ascending order, every record of each slot it is subscribed to |
| Scenarios.ReceivedEmptyTail | source/main/cpp/c_event_bus.cpp:158-160 | empty slots add nothing to what a callback receives |
| Scenarios.TwoSlotsReceived | source/main/cpp/c_event_bus.cpp:153-162 | with only slots 0 and 1 occupied, a callback receives slot 0's records, then slot 1's, each only where it is subscribed |
| Scenarios.ProcessBus | source/main/cpp/c_event_bus.cpp:153-162 | processing any bus gives each callback exactly the records of the slots it is subscribed to, in slot order |
| Scenarios.ProcessSoleSlot | source/main/cpp/c_event_bus.cpp:153-162 | processing a bus with one channel gives each callback that channel's records if it is subscribed, and nothing otherwise; the channel keeps its subscribers and holds no records afterwards |
| Scenarios.DrainedNoCalls | source/main/cpp/c_event_bus.cpp:58-71 | a bus whose every chain is empty makes no calls when processed |
| Scenarios.ProcessTwice | source/main/cpp/c_event_bus.cpp:153-162 | of two passes with no post between them, the first makes the pending calls and the second makes none |
| Scenarios.SubscribedBus | source/main/include/cmsg/c_event_bus.h:147-161 | subscribing on a new bus gives the type id 0 and a wired channel with that one subscriber and no records |
| Scenarios.SubscribedTwice | source/main/include/cmsg/c_event_bus.h:147-161 | a second subscriber joins the same channel, in front of the first |
| Scenarios.PostedTwice | source/main/include/cmsg/c_event_bus.h:175-184 | two posts to a subscribed type leave both values buffered in posting order |
| Scenarios.PostedOnce | source/main/include/cmsg/c_event_bus.h:175-184 | one post to a subscribed type buffers that value and leaves the channel wired, using at most one block of the event arena |
| Scenarios.PostedThenUnsubscribed | source/main/include/cmsg/c_event_bus.h:163-184 | a post, then an unsubscribe: the value stays buffered and only the other callback is left |
| Scenarios.SubscribePostTwice | source/main/include/cmsg/c_event_bus.h:147-184 | subscribe, post twice, process: the subscriber is called with the first value and then the second |
| Scenarios.PostedProcessed | source/main/cpp/c_event_bus.cpp:153-162 | after a post and a pass the subscriber has been called with the value, and the channel is still wired and subscribed, with no records |
| Scenarios.PostProcessTwice | source/main/include/cmsg/c_event_bus.h:175-184 | post, process, post, process: each pass calls the subscriber with exactly the value posted since the previous pass |
| Scenarios.TwoTypesBus | source/main/include/cmsg/c_event_bus.h:147-161 | two types subscribed on a new bus take ids 0 and 1; the second subscription leaves the first channel wired and subscribed |
| Scenarios.PostedToFirst | source/main/include/cmsg/c_event_bus.h:175-184 | a post to the first type buffers its value there and leaves the second type's channel wired and empty |
| Scenarios.PostedToBoth | source/main/include/cmsg/c_event_bus.h:175-184 | after one post to each type, each channel holds its own value and keeps its subscriber |
| Scenarios.EachGetsItsOwnType | source/main/include/cmsg/c_event_bus.h:147-184 | two callbacks on two types: each is called once, with its own type's value only |
| Scenarios.UnsubscribeBeforeProcess | source/main/include/cmsg/c_event_bus.h:147-184 | a callback removed before processing gets no call; the callback still subscribed gets the value |
| AsWritten.Bump | source/main/cpp/c_event_bus.cpp:23-27 | the slot is the head's old count; the head stays |
| AsWritten.AllocEvent | source/main/cpp/c_event_bus.cpp:30-54 | as written, a non-crashing allocation leaves a well-formed chain with a non-null head |
| AsWritten.FirstBlockNotCircular | source/main/cpp/c_event_bus.cpp:45-68 | the first block gets null links, so the do-while walk steps onto null |
| AsWritten.FillFirstBlock | source/main/cpp/c_event_bus.cpp:30-53 | `n` allocations into an empty chain fill one block that still has null links |
| AsWritten.SecondBlockDerefsNull | source/main/cpp/c_event_bus.cpp:38-43 | allocation `s_max_event_count + 1` dereferences the head's null `m_prev` |
| AsWritten.FullHeadReused | source/main/cpp/c_event_bus.cpp:53 | even with a circular first block, the slot comes from the full head, past its capacity |
| AsWritten.SetChannel | source/main/cpp/c_event_bus.cpp:131-137 | as written, the channel count is unchanged |
| AsWritten.AllocChannel | source/main/cpp/c_event_bus.cpp:143-151 | as written, the channel count becomes `id + 1` whatever it was |
| AsWritten.SubscribedChannelUnreached | source/main/include/cmsg/c_event_bus.h:153-158 | on any table, a slot at or above the count that subscription fills is occupied but not dispatched |
| AsWritten.SetChannels | source/main/include/cmsg/c_event_bus.h:153-158 | filling slots one after another keeps the table's size |
| AsWritten.SetChannelsKeepsCount | source/main/cpp/c_event_bus.cpp:131-137 | any number of `set_event_channel` calls leave the count where it was |
| AsWritten.SubscribedChannelsNeverReached | source/main/cpp/c_event_bus.cpp:95-137 | from `create_event_bus`, no slot filled by subscription is ever dispatched |
| AsWritten.AllocLowersCount | source/main/cpp/c_event_bus.cpp:149 | allocating channel 2 after channel 7 lowers the count to 3 and hides channel 7 |
| Msg.BoundedArray.Initialize | source/main/cpp/c_msg.cpp:135-140 | size 0, the given capacity, fresh storage |
| Msg.BoundedArray.Add | source/main/cpp/c_msg.cpp:142-147 | requires room; the value is appended and earlier elements are unchanged |
| Msg.BoundedArray.Insert | source/main/cpp/c_msg.cpp:149-159 | requires `index <= size < capacity`; the value sits at `index`, the old tail one place up, the head unchanged, size one more |
| Msg.ShiftUp | source/main/cpp/c_msg.cpp:154-155 | the `memmove`: `a[lo..hi]` moves to `a[lo+1..hi+1]`; the rest is unchanged |
| Msg.NamesDb.BinarySearch | source/main/cpp/c_msg.cpp:189-208 | never negative and at most `size`; the position of `value` iff present; otherwise the insertion point with smaller keys before and larger after |
| Msg.NamesDb.RegisterNameAsWritten | source/main/cpp/c_msg.cpp:176-187 | as written, the early return is always taken and the name is never added |
| Msg.RegisterAsWrittenCollides | source/main/cpp/c_msg.cpp:179-181 | two different names registered into an empty registry both get 0 |
| Msg.NamesDb.RegisterName | source/main/cpp/c_msg.cpp:176-187 | a known name keeps its id; a new name is added with the next id; the index stays sorted |
| Msg.RegistryInsert | source/main/cpp/c_msg.cpp:185-186 | putting the new position at the insertion point keeps the index sorted and complete |
| Msg.NamesDb.InitAsWritten | source/main/cpp/c_msg.cpp:174 | as written, only the name array gets storage |
| Msg.InitAsWrittenLeavesNoRoom | source/main/cpp/c_msg.cpp:174 | after `init` as written, the index array has no room for an insert |
| Msg.NamesDb.Init | source/main/cpp/c_msg.cpp:174 | both arrays get storage for `max_names` entries |

## Findings

| source | as written | input that shows it | evidently intended | confidence | as-written member | corrected member |
|---|---|---|---|---|---|---|
| source/main/cpp/c_event_bus.cpp:45-48 | the first block gets null `m_next`/`m_prev`, but the do-while loops walk the chain as a circular list | one post, then `process_events`: the walk steps onto null | the first block links to itself | high (not executed) | AsWritten.FirstBlockNotCircular | EventChannel.TypedChannel.ProcessEvents |
| source/main/cpp/c_event_bus.cpp:42 | a full one-block chain dereferences `m_event_block_head->m_prev`, which is null | `s_max_event_count + 1` posts | the new block joins the chain | high (not executed) | AsWritten.SecondBlockDerefsNull | EventChannel.Channel.AllocEvent |
| source/main/cpp/c_event_bus.cpp:53 | `head` is never moved to the new block, so the slot comes from the full head | a full head with circular links | the slot comes from the new block | high (not executed) | AsWritten.FullHeadReused | EventChannel.Channel.FillLast |
| source/main/cpp/c_event_bus.cpp:34 | a block is sized with the unrounded `size` but strided by the rounded one | `size = 4`: slot 1023 starts at payload offset 8184 of 4096 bytes | the block is sized with the stride | high (not executed) | EventBlocks.AsWrittenLastSlotOverruns | EventBlocks.SlotFitsBlock |
| source/main/cpp/c_event_bus.cpp:131-137 | `set_event_channel` leaves `m_channel_count` at 0 | subscribe to a type, post, `process_events(bus)`: no delivery | the count covers every occupied slot | high (not executed) | AsWritten.SubscribedChannelsNeverReached | EventBus.Bus.SetEventChannel |
| source/main/cpp/c_event_bus.cpp:149 | `alloc_event_channel` sets the count to `event_id + 1` | channel 7, then channel 2: count 3, channel 7 never dispatched | the count never drops | medium (not executed) | AsWritten.AllocLowersCount | EventBus.Bus.AllocEventChannel |
| source/main/cpp/c_msg.cpp:180-181 | `binary_search` is never negative, so `register_name` always returns early | names 100 then 200 into an empty registry: both get 0 | a new name is added and gets the next id | high (not executed) | Msg.RegisterAsWrittenCollides | Msg.NamesDb.RegisterName |
| source/main/cpp/c_msg.cpp:174 | `init` gives storage to the name array only | `init(32768)`, then register a new name: the index array has capacity 0 | both arrays get storage | high (not executed) | Msg.InitAsWrittenLeavesNoRoom | Msg.NamesDb.Init |

## Left out

- `destroy_event_bus`: handing memory back to the outer allocator is not modelled.
- `alloc_buffer_t` and `alloc_t` are not part of this model. The event arena and
  the heap arena are bump counters (`EventBlocks.Arena`) with a capacity.
  `deallocate` and `dealloc_heap` only log the address, since a bump arena
  reclaims nothing before a reset.
- Arena exhaustion is a precondition of each allocating operation
  (`AllocEvent`, `AddDelegate`, `AllocEventChannel`, `RegisterEventSubscriber`,
  `PostEvent`). The source has no error path for it, since the allocator is not
  part of this model.
- `new_global_event_id` is not defined in the source. It is the parameter
  `freshId` of `RegisterEventSubscriber`. `clear_memory` and placement new
  appear as the zeroed channel of `TypedChannel`'s constructor.
- `s_max_event_count` is not defined in the source. It is the constant
  `MaxEventCount = 1024`, which fits the `u16` block fields.
- The `sizeof` values of a message type, its channel and its node are fields of
  `EventBus.EventType`.
- Records are the bytes of the posted value. Invocation is the list of calls
  made. What the called functions do to their objects is not modelled.
- `EventBus.Bus.PostEvent`: requires the type to have an id. As written, posting
  a type that was never subscribed reads `m_channels[-1]`, which is out of
  bounds. The model does not represent that read.
- `EventBus.Bus.PostEvent`: requires the slot's channel to have an event arena
  (`c_event_bus.h:179`). A channel made by `alloc_event_channel` has none, and
  `alloc_event` on it dereferences a null `m_event_allocator` in the source.
  The model does not represent that crash.
- `EventBus.Bus.AllocEventChannel`: the zeroed channel it sets into the table
  has null arenas and is never wired by `set_event_channel`. Subscribing to it
  or posting to it crashes in the source (null `m_heap_allocator`, null
  `m_event_allocator`). The model keeps such a channel but does not represent
  the crash; the next lines exclude it by precondition.
- `EventBus.Bus.RegisterEventSubscriber`: requires a channel already in the
  slot to have a heap arena (`c_event_bus.h:160`). A channel from
  `alloc_event_channel` has none, and `add_delegate` on it dereferences a null
  `m_heap_allocator` in the source.
- `EventBus.Bus.RegisterEventSubscriber`: requires the id to be below
  `MaxEventCount`, for an id the type already has and for the one
  `new_global_event_id` hands out. The source indexes `m_channels` without a
  bound check, so a larger id reads and writes past the table.
- `EventBus.Bus.UnregisterEventSubscriber`: requires the id to be below
  `MaxEventCount`. The source reads `m_channels` without a bound check.
- `EventBus.Bus.UnregisterEventSubscriber`: does not state which node goes back
  to the heap arena when the callback is found. `TypedChannel.RemoveDelegate`
  states it.
- `Callback0` and `Callback2` to `Callback9` repeat the logic of `Callback1` at
  other arities.
- Virtual dispatch through `Base`, `reinterpret_cast`, placement new into
  `mMem` and the `DCORE_CLASS_PLACEMENT_NEW_DELETE` macros are C++ mechanics.
  The binding is a datatype instead.
- `c_msg.h` holds declarations only, with no bodies. The ECS scaffolding of
  `c_msg.cpp` (`use_case`, the systems, `typeinfo_t`/`type_t`, the data
  structs, `register_id`/`nameof_id`) is not part of this model.
- `c_delegate.cpp`, the tests and the build scripts are not modelled.
- There is no concurrency in the source, and none is modelled.

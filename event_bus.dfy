/** The event bus (`event_bus_t` of `c_event_bus.cpp`) and the typed front
    ends of `c_event_bus.h` that subscribe, unsubscribe and post through it.
    A bus owns a heap arena of 1 MiB for channels and subscriber nodes, an
    event arena of 8 MiB for record blocks, and a table of
    `s_max_event_count` channel slots indexed by event id. `process_events`
    dispatches the slots below the channel count in ascending order. */
module EventBus {
  import opened Delegate
  import opened Delivery
  import opened EventBlocks
  import opened EventChannel

  const HeapBytes: nat := 1 * 1024 * 1024
  const EventBytes: nat := 8 * 1024 * 1024

  /** What the templates know about a message type `T`: `sizeof(T)`,
      `sizeof(event_channel_typed_t<T>)`, `sizeof(delegate_node_t)`, and the
      static member `s_event_id`, which is -1 until the type is first
      subscribed. */
  class EventType {
    const recordSize: nat
    const channelSize: nat
    const nodeSize: nat
    var id: int

    constructor (recordSize: nat, channelSize: nat, nodeSize: nat)
      ensures this.recordSize == recordSize && this.channelSize == channelSize
      ensures this.nodeSize == nodeSize && id == -1
    {
      this.recordSize := recordSize;
      this.channelSize := channelSize;
      this.nodeSize := nodeSize;
      id := -1;
    }
  }

  /** The id `register_event_subscriber` works with: the type's own once it
      has one, otherwise the one `new_global_event_id` hands out. */
  function AssignedId(id: int, freshId: int): int {
    if id < 0 then freshId else id
  }

  /** A channel as the bus keeps it: valid, using no arenas yet or the bus's
      own, and holding subscribers only once it has a heap arena. */
  ghost predicate Wired(c: TypedChannel, heap: Arena, events: Arena)
    reads c, c.Repr
  {
    && c.Valid() && heap !in c.Repr && events !in c.Repr
    && (c.base.heap == null || c.base.heap == heap)
    && (c.base.events == null || c.base.events == events)
    && (c.Subscribers() != [] ==> c.base.heap != null)
  }

  /** The calls a channel makes when it is dispatched: every buffered record
      to every subscriber, block after block. */
  ghost function ChannelCalls(c: TypedChannel): seq<Call>
    requires c.Valid()
    reads c, c.Repr
  {
    ChainCalls(c.Subscribers(), c.base.ChainRecords())
  }

  /** Only slot `id` of the table changed: every other slot holds the same
      channel, none of whose objects changed, and the channel now in slot
      `id`, if any, is wired, lies below the count and shares no object with
      the others. Then the bus is valid again. */
  twostate lemma SlotChanged(b: Bus, new id: nat)
    requires old(b.Valid()) && id < MaxEventCount
    requires b in b.Repr && b.channels in b.Repr && b.heap !in b.Repr && b.events !in b.Repr
    requires old(b.Repr) <= b.Repr
    requires old(b.channelCount) <= b.channelCount <= MaxEventCount
    requires forall i | 0 <= i < MaxEventCount && i != id :: b.channels[i] == old(b.channels[i])
    requires forall i | 0 <= i < MaxEventCount && i != id && b.channels[i] != null :: unchanged(old(b.channels[i].Repr))
    requires b.channels[id] != null ==>
      && id < b.channelCount && b.channels[id] in b.Repr && b.channels[id].Repr <= b.Repr
      && b !in b.channels[id].Repr && b.channels !in b.channels[id].Repr
      && Wired(b.channels[id], b.heap, b.events)
      && forall i | 0 <= i < MaxEventCount && i != id && b.channels[i] != null :: b.channels[i].Repr !! b.channels[id].Repr
    ensures b.Valid()
    ensures forall i | 0 <= i < MaxEventCount && i != id ::
      b.SubscribersAt(i) == old(b.SubscribersAt(i)) && b.BufferedAt(i) == old(b.BufferedAt(i))
    ensures forall i | 0 <= i < MaxEventCount && i != id && b.channels[i] != null ::
      b.channels[i].base.heap == old(b.channels[i].base.heap) && b.channels[i].base.events == old(b.channels[i].base.events)
  {
    forall i | 0 <= i < MaxEventCount && i != id && b.channels[i] != null
      ensures Wired(b.channels[i], b.heap, b.events)
    {
      assert old(Wired(b.channels[i], b.heap, b.events));
    }
  }

  /** The concatenation of `parts`, first to last. */
  function Join(parts: seq<seq<Call>>): (r: seq<Call>)
  {
    if parts == [] then [] else Join(parts[..|parts| - 1]) + parts[|parts| - 1]
  }

  lemma JoinSnoc(parts: seq<seq<Call>>, i: nat)
    requires i < |parts|
    ensures Join(parts[..i + 1]) == Join(parts[..i]) + parts[i]
  {
    assert parts[..i + 1][..i] == parts[..i];
  }

  class Bus {
    const heap: Arena
    const events: Arena
    /** `m_channel_count`, an `s32`. */
    var channelCount: int
    /** `m_channels`. */
    const channels: array<TypedChannel?>
    ghost var Repr: set<object>

    /** The table has `MaxEventCount` slots, every slot at or above the count
        is empty, and the channels in the slots are wired to this bus and own
        disjoint objects. */
    ghost predicate Valid()
      reads this, Repr
    {
      && this in Repr && channels in Repr
      && heap != events && heap !in Repr && events !in Repr
      && channels.Length == MaxEventCount
      && 0 <= channelCount <= MaxEventCount
      && (forall i | 0 <= i < MaxEventCount && channels[i] != null ::
            && channels[i] in Repr && channels[i].Repr <= Repr && this !in channels[i].Repr && channels !in channels[i].Repr
            && Wired(channels[i], heap, events))
      && (forall i | channelCount <= i < MaxEventCount :: channels[i] == null)
      && (forall i, j | 0 <= i < MaxEventCount && 0 <= j < MaxEventCount && i != j
            && channels[i] != null && channels[j] != null :: channels[i].Repr !! channels[j].Repr)
    }

    /** The subscribers of slot `i`; none for an empty slot. */
    ghost function SubscribersAt(i: nat): seq<Binding>
      requires Valid() && i < MaxEventCount
      reads this, Repr
    {
      if channels[i] == null then [] else channels[i].Subscribers()
    }

    /** The records buffered in slot `i`; none for an empty slot. */
    ghost function BufferedAt(i: nat): seq<Record>
      requires Valid() && i < MaxEventCount
      reads this, Repr
    {
      if channels[i] == null then [] else channels[i].base.Records()
    }

    /** Slot `id` holds a channel wired to both arenas of this bus, for
        records of `recordSize` bytes and subscriber nodes of `nodeSize`
        bytes: a channel that `post_event` can append to. */
    ghost predicate Ready(id: nat, recordSize: nat, nodeSize: nat)
      requires Valid() && id < MaxEventCount
      reads this, Repr
    {
      && channels[id] != null && channels[id].base.heap == heap && channels[id].base.events == events
      && channels[id].base.recordSize == recordSize && channels[id].nodeSize == nodeSize
    }

    /** The calls slot `i` makes when it is dispatched. */
    ghost function SlotCalls(i: nat): seq<Call>
      requires Valid() && i < MaxEventCount
      reads this, Repr
    {
      if channels[i] == null then [] else ChannelCalls(channels[i])
    }

    /** The calls of the slots below `n`, in ascending slot order. */
    ghost function PendingCalls(n: nat): seq<Call>
      requires Valid() && n <= MaxEventCount
      reads this, Repr
    {
      if n == 0 then [] else PendingCalls(n - 1) + SlotCalls(n - 1)
    }

    /** The calls of each slot below `n`, slot by slot. */
    ghost function CallsBelow(n: nat): (r: seq<seq<Call>>)
      requires Valid() && n <= MaxEventCount
      reads this, Repr
      ensures |r| == n && forall j | 0 <= j < n :: r[j] == SlotCalls(j)
    {
      if n == 0 then [] else CallsBelow(n - 1) + [SlotCalls(n - 1)]
    }

    /** The chains of the slots below `n` are empty. */
    ghost predicate DrainedBelow(n: nat)
      requires Valid() && n <= MaxEventCount
      reads this, Repr
    {
      forall j | 0 <= j < n && channels[j] != null :: channels[j].base.chain == []
    }

    /** The slots from `n` on make the calls recorded for them in `pending`. */
    ghost predicate PendingFrom(n: nat, pending: seq<seq<Call>>)
      requires Valid() && n <= MaxEventCount
      reads this, Repr
    {
      |pending| == MaxEventCount && forall j | n <= j < MaxEventCount :: SlotCalls(j) == pending[j]
    }

    /** An empty slot needs no dispatch: it makes no calls and has no chain. */
    lemma SkipEmpty(i: nat, pending: seq<seq<Call>>)
      requires Valid() && i < MaxEventCount && channels[i] == null
      requires DrainedBelow(i) && PendingFrom(i, pending)
      ensures DrainedBelow(i + 1) && PendingFrom(i + 1, pending) && pending[i] == []
    {
    }

    /** Slots at or above the count are empty, so draining the slots below
        it drains every channel of the table. */
    lemma DrainedAll()
      requires Valid() && DrainedBelow(channelCount)
      ensures forall i | 0 <= i < MaxEventCount && channels[i] != null :: channels[i].base.chain == []
    {
    }

    /** The pending calls are the slot calls joined in slot order. */
    lemma {:induction false} PendingJoin(n: nat)
      requires Valid() && n <= MaxEventCount
      ensures PendingCalls(n) == Join(CallsBelow(MaxEventCount)[..n])
    {
      if n > 0 {
        PendingJoin(n - 1);
        JoinSnoc(CallsBelow(MaxEventCount), n - 1);
      }
    }

    /** `create_event_bus`: an 8 MiB event arena, a 1 MiB heap arena, a
        channel count of 0 and every slot null. */
    constructor ()
      ensures Valid() && fresh(Repr) && fresh(heap) && fresh(events)
      ensures heap.capacity == HeapBytes && heap.used == 0
      ensures events.capacity == EventBytes && events.used == 0
      ensures channelCount == 0
      ensures forall i | 0 <= i < MaxEventCount :: channels[i] == null
    {
      channelCount := 0;
      channels := new TypedChannel?[MaxEventCount];
      events := new Arena(EventBytes);
      heap := new Arena(HeapBytes);
      new;
      var i := 0;
      while i < MaxEventCount
        invariant 0 <= i <= MaxEventCount
        invariant forall j | 0 <= j < i :: channels[j] == null
        modifies channels
      {
        channels[i] := null;
        i := i + 1;
      }
      Repr := {this, channels};
    }

    /** `get_event_channel`: the channel in slot `id`, or null. A channel
        found is wired to this bus and lies below the channel count, so
        `process_events` reaches it. */
    function GetEventChannel(id: int): (c: TypedChannel?)
      requires Valid() && 0 <= id < MaxEventCount
      reads this, Repr
      ensures c == channels[id]
      ensures c != null ==> id < channelCount && Wired(c, heap, events)
    {
      channels[id]
    }

    /** `set_event_channel`: the bus's arenas are wired into the channel, its
        chain is emptied and it takes slot `id`. The channel count is raised
        to cover the slot, which the source does not do. */
    method SetEventChannel(id: int, c: TypedChannel)
      requires Valid() && 0 <= id < MaxEventCount
      requires c.Valid() && c.Repr !! Repr && heap !in c.Repr && events !in c.Repr
      modifies this`channelCount, this`Repr, channels, c.base`heap, c.base`events, c.base`chain
      ensures Valid() && Repr == old(Repr) + c.Repr
      ensures channels[id] == c && c.base.heap == heap && c.base.events == events && c.base.chain == []
      ensures c.Subscribers() == old(c.Subscribers()) && BufferedAt(id) == []
      ensures channelCount == if id < old(channelCount) then old(channelCount) else id + 1
      ensures forall i | 0 <= i < MaxEventCount && i != id :: channels[i] == old(channels[i])
      ensures forall i | 0 <= i < MaxEventCount && i != id ::
        SubscribersAt(i) == old(SubscribersAt(i)) && BufferedAt(i) == old(BufferedAt(i))
    {
      c.Attach(heap, events);
      channels[id] := c;
      if channelCount <= id {
        channelCount := id + 1;
      }
      Repr := Repr + c.Repr;
      SlotChanged(this, id);
    }

    /** `alloc_event_channel`: `size` bytes of the heap arena, zeroed, take
        slot `id`. A zeroed typed channel has no arenas, no blocks and no
        subscribers. The channel count is raised to cover the slot and never
        lowered; the source sets it to `id + 1`. */
    method AllocEventChannel(id: int, t: EventType) returns (c: TypedChannel)
      requires Valid() && 0 <= id < MaxEventCount && t.recordSize <= U32 - 8
      requires heap.used + t.channelSize <= heap.capacity
      modifies this`channelCount, this`Repr, channels, heap
      ensures Valid() && fresh(c) && fresh(Repr - old(Repr))
      ensures channels[id] == c && c.Subscribers() == []
      ensures c.base.heap == null && c.base.events == null && c.base.chain == []
      ensures c.base.recordSize == t.recordSize && c.nodeSize == t.nodeSize
      ensures heap.used == old(heap.used) + t.channelSize
      ensures channelCount == if id < old(channelCount) then old(channelCount) else id + 1
      ensures forall i | 0 <= i < MaxEventCount && i != id :: channels[i] == old(channels[i])
    {
      var _ := heap.Allocate(t.channelSize);
      c := new TypedChannel(t.recordSize, t.nodeSize);
      channels[id] := c;
      if channelCount <= id {
        channelCount := id + 1;
      }
      Repr := Repr + c.Repr;
      SlotChanged(this, id);
    }

    /** `process_events(bus)`: every non-null slot below the channel count is
        dispatched once, in ascending slot order, and its chain is dropped. */
    method ProcessEvents() returns (calls: seq<Call>)
      requires Valid()
      modifies (set i | 0 <= i < channels.Length && channels[i] != null :: channels[i].base)`chain
      ensures Valid()
      ensures calls == old(PendingCalls(channelCount))
      ensures forall i | 0 <= i < MaxEventCount && channels[i] != null ::
        && channels[i].base.chain == [] && channels[i].Subscribers() == old(channels[i].Subscribers())
        && channels[i].base.heap == old(channels[i].base.heap) && channels[i].base.events == old(channels[i].base.events)
    {
      ghost var pending := CallsBelow(MaxEventCount);
      PendingJoin(channelCount);
      calls := DrainSlots(pending);
      DrainedAll();
    }

    /** The loop of `process_events(bus)`: the slots below the count are
        drained in ascending order, and their calls are joined in that order. */
    method DrainSlots(ghost pending: seq<seq<Call>>) returns (calls: seq<Call>)
      requires Valid() && PendingFrom(0, pending)
      modifies (set i | 0 <= i < channels.Length && channels[i] != null :: channels[i].base)`chain
      ensures Valid() && calls == Join(pending[..channelCount]) && DrainedBelow(channelCount)
    {
      var n := channelCount;
      calls := [];
      var i := 0;
      while i < n
        invariant 0 <= i <= n == channelCount
        invariant Valid()
        invariant calls == Join(pending[..i])
        invariant DrainedBelow(i)
        invariant PendingFrom(i, pending)
      {
        JoinSnoc(pending, i);
        var k := DrainSlot(i, pending);
        calls := calls + k;
        i := i + 1;
      }
    }

    /** One step of `process_events(bus)`: slot `id` is dispatched when it
        holds a channel and skipped when it is null. */
    method DrainSlot(id: int, ghost pending: seq<seq<Call>>) returns (calls: seq<Call>)
      requires Valid() && 0 <= id < MaxEventCount
      requires PendingFrom(id, pending) && DrainedBelow(id)
      modifies (set j | 0 <= j < channels.Length && j == id && channels[j] != null :: channels[j].base)`chain
      ensures Valid() && calls == pending[id]
      ensures PendingFrom(id + 1, pending) && DrainedBelow(id + 1)
    {
      var c := channels[id];
      if c != null {
        calls := Dispatch(id, c, pending);
      } else {
        SkipEmpty(id, pending);
        calls := [];
      }
    }

    /** The dispatch of a slot that holds a channel: the channel `c` in slot `id` fires
        its records and drops its chain. The slots above it keep the calls
        recorded for them in `pending`, and the chains of the slots below it
        stay empty. */
    method Dispatch(id: int, c: TypedChannel, ghost pending: seq<seq<Call>>) returns (calls: seq<Call>)
      requires Valid() && 0 <= id < MaxEventCount && channels[id] == c
      requires PendingFrom(id, pending) && DrainedBelow(id)
      modifies c.base`chain
      ensures Valid() && c.base.chain == []
      ensures calls == pending[id]
      ensures PendingFrom(id + 1, pending) && DrainedBelow(id + 1)
    {
      assert SlotCalls(id) == ChannelCalls(c);
      calls := c.ProcessEvents();
      SlotChanged(this, id);
      forall j | id < j < MaxEventCount
        ensures SlotCalls(j) == pending[j]
      {
        assert old(SlotCalls(j)) == pending[j];
      }
    }

    /** `register_event_subscriber<T>`: the type takes an id the first time
        only; a zeroed channel is made and set into its slot only when the
        slot is empty; then the callback is added to that channel. */
    method RegisterEventSubscriber(t: EventType, d: Binding, freshId: int)
      requires Valid() && t !in Repr && t.id < MaxEventCount && t.recordSize <= U32 - 8
      requires t.id < 0 ==> 0 <= freshId < MaxEventCount
      requires var id := AssignedId(t.id, freshId);
        && (channels[id] != null ==>
              && channels[id].base.heap != null
              && channels[id].base.recordSize == t.recordSize && channels[id].nodeSize == t.nodeSize)
        && heap.used + (if channels[id] == null then t.channelSize else 0)
                     + (if d in SubscribersAt(id) then 0 else t.nodeSize) <= heap.capacity
      modifies t`id, this`channelCount, this`Repr, channels, heap, Repr
      ensures Valid() && fresh(Repr - old(Repr))
      ensures t.id == AssignedId(old(t.id), freshId)
      ensures channels[t.id] != null && t.id < channelCount
      ensures old(channels[AssignedId(t.id, freshId)]) != null ==> channels[t.id] == old(channels[AssignedId(t.id, freshId)])
      ensures SubscribersAt(t.id) == Added(old(SubscribersAt(AssignedId(t.id, freshId))), d)
      ensures old(channels[AssignedId(t.id, freshId)]) == null
              || old(Ready(AssignedId(t.id, freshId), t.recordSize, t.nodeSize)) ==>
        Ready(t.id, t.recordSize, t.nodeSize)
      ensures heap.used == old(heap.used) + (if old(channels[AssignedId(t.id, freshId)]) == null then t.channelSize else 0)
                                          + (if d in old(SubscribersAt(AssignedId(t.id, freshId))) then 0 else t.nodeSize)
      ensures forall i | 0 <= i < MaxEventCount && i != t.id :: channels[i] == old(channels[i])
      ensures forall i | 0 <= i < MaxEventCount && i != t.id && old(channels[i]) != null ::
        channels[i].base.heap == old(channels[i].base.heap) && channels[i].base.events == old(channels[i].base.events)
      ensures forall i | 0 <= i < MaxEventCount && i != t.id :: SubscribersAt(i) == old(SubscribersAt(i))
      ensures forall i | 0 <= i < MaxEventCount :: BufferedAt(i) == old(BufferedAt(i))
    {
      var c := ChannelFor(t, freshId);
      Subscribe(t.id, c, d);
    }

    /** The first steps of `register_event_subscriber<T>`: the id is taken
        when the type has none, and an empty slot gets a zeroed channel from
        the heap arena, set into the slot with `set_event_channel`. A slot
        that holds a channel keeps it as it is. */
    method ChannelFor(t: EventType, freshId: int) returns (c: TypedChannel)
      requires Valid() && t !in Repr && t.id < MaxEventCount && t.recordSize <= U32 - 8
      requires t.id < 0 ==> 0 <= freshId < MaxEventCount
      requires channels[AssignedId(t.id, freshId)] == null ==> heap.used + t.channelSize <= heap.capacity
      modifies t`id, this`channelCount, this`Repr, channels, heap
      ensures Valid() && fresh(Repr - old(Repr))
      ensures t.id == AssignedId(old(t.id), freshId) && channels[t.id] == c && t.id < channelCount
      ensures SubscribersAt(t.id) == old(SubscribersAt(AssignedId(t.id, freshId)))
      ensures old(channels[AssignedId(t.id, freshId)]) != null ==>
        c == old(channels[AssignedId(t.id, freshId)]) && heap.used == old(heap.used)
      ensures old(channels[AssignedId(t.id, freshId)]) == null ==>
        && fresh(c) && Ready(t.id, t.recordSize, t.nodeSize)
        && heap.used == old(heap.used) + t.channelSize
      ensures forall i | 0 <= i < MaxEventCount && i != t.id :: channels[i] == old(channels[i])
      ensures forall i | 0 <= i < MaxEventCount && i != t.id && old(channels[i]) != null ::
        channels[i].base.heap == old(channels[i].base.heap) && channels[i].base.events == old(channels[i].base.events)
      ensures forall i | 0 <= i < MaxEventCount :: SubscribersAt(i) == old(SubscribersAt(i)) && BufferedAt(i) == old(BufferedAt(i))
    {
      if t.id < 0 {
        t.id := freshId;
      }
      var found := GetEventChannel(t.id);
      if found != null {
        return found;
      }
      c := NewChannel(t.id, t);
    }

    /** The last step of `register_event_subscriber<T>`: `add_delegate` on the
        channel `c` in slot `id`. */
    method Subscribe(id: int, c: TypedChannel, d: Binding)
      requires Valid() && 0 <= id < MaxEventCount && channels[id] == c && c.base.heap != null
      requires d !in c.Subscribers() ==> heap.used + c.nodeSize <= heap.capacity
      modifies this`Repr, heap, c`Repr, c.list`head, c.list`nodes, c.list`Repr, c.list.Repr
      ensures Valid() && fresh(Repr - old(Repr))
      ensures c.Subscribers() == Added(old(c.Subscribers()), d)
      ensures heap.used == old(heap.used) + if d in old(c.Subscribers()) then 0 else c.nodeSize
      ensures forall i | 0 <= i < MaxEventCount :: channels[i] == old(channels[i])
      ensures forall i | 0 <= i < MaxEventCount && i != id :: SubscribersAt(i) == old(SubscribersAt(i))
      ensures forall i | 0 <= i < MaxEventCount :: BufferedAt(i) == old(BufferedAt(i))
      ensures forall i | 0 <= i < MaxEventCount && channels[i] != null ::
        channels[i].base.heap == old(channels[i].base.heap) && channels[i].base.events == old(channels[i].base.events)
    {
      c.AddDelegate(d);
      Repr := Repr + c.Repr;
      SlotChanged(this, id);
    }

    /** `unregister_event_subscriber<T>`: nothing happens when the type has no
        id or its slot is empty; otherwise the first equal callback is
        removed from the channel. */
    method UnregisterEventSubscriber(t: EventType, d: Binding)
      requires Valid() && t !in Repr && t.id < MaxEventCount
      modifies heap, Repr
      ensures Valid() && Repr == old(Repr) && channelCount == old(channelCount)
      ensures t.id < 0 || channels[t.id] == null ==> heap.released == old(heap.released)
      ensures heap.used == old(heap.used)
      ensures t.id >= 0 ==> SubscribersAt(t.id) == RemoveFirst(old(SubscribersAt(t.id)), d)
      ensures forall i | 0 <= i < MaxEventCount :: channels[i] == old(channels[i])
      ensures forall i | 0 <= i < MaxEventCount && i != t.id && old(channels[i]) != null ::
        channels[i].base.heap == old(channels[i].base.heap) && channels[i].base.events == old(channels[i].base.events)
      ensures forall i | 0 <= i < MaxEventCount && i != t.id :: SubscribersAt(i) == old(SubscribersAt(i))
      ensures forall i | 0 <= i < MaxEventCount :: BufferedAt(i) == old(BufferedAt(i))
      ensures t.id >= 0 && old(Ready(t.id, t.recordSize, t.nodeSize)) ==> Ready(t.id, t.recordSize, t.nodeSize)
    {
      if t.id < 0 {
        return;
      }
      var c := GetEventChannel(t.id);
      if c == null {
        return;
      }
      var found := c.RemoveDelegate(d);
      SlotChanged(this, t.id);
    }

    /** `post_event<T>`: the event is dropped when its slot is empty;
        otherwise one copy of it becomes the last record of the channel. */
    method PostEvent(t: EventType, record: Record)
      requires Valid() && t !in Repr && 0 <= t.id < MaxEventCount && |record| == t.recordSize
      requires channels[t.id] != null ==>
        && channels[t.id].base.recordSize == t.recordSize && channels[t.id].base.events != null
        && (channels[t.id].base.NeedsBlock() ==> events.used + BlockBytes(t.recordSize) <= events.capacity)
      modifies this`Repr, events, Repr
      ensures Valid() && fresh(Repr - old(Repr))
      ensures forall i | 0 <= i < MaxEventCount :: channels[i] == old(channels[i])
      ensures forall i | 0 <= i < MaxEventCount && i != t.id && old(channels[i]) != null ::
        channels[i].base.heap == old(channels[i].base.heap) && channels[i].base.events == old(channels[i].base.events)
      ensures events.used == old(events.used)
        + if old(channels[t.id]) != null && old(channels[t.id].base.NeedsBlock()) then BlockBytes(t.recordSize) else 0
      ensures BufferedAt(t.id) == old(BufferedAt(t.id)) + if channels[t.id] == null then [] else [record]
      ensures forall i | 0 <= i < MaxEventCount && i != t.id :: BufferedAt(i) == old(BufferedAt(i))
      ensures forall i | 0 <= i < MaxEventCount :: SubscribersAt(i) == old(SubscribersAt(i))
      ensures old(Ready(t.id, t.recordSize, t.nodeSize)) ==> Ready(t.id, t.recordSize, t.nodeSize)
    {
      var c := GetEventChannel(t.id);
      if c != null {
        Append(t.id, c, record);
      }
    }

    /** The posting step of `post_event<T>`: the value goes to the channel `c`
        in slot `id` as its last record. */
    method Append(id: int, c: TypedChannel, record: Record)
      requires Valid() && 0 <= id < MaxEventCount && channels[id] == c
      requires c.base.events != null && |record| == c.base.recordSize
      requires c.base.NeedsBlock() ==> events.used + BlockBytes(c.base.recordSize) <= events.capacity
      modifies this`Repr, events, c`Repr, c.base`chain, c.base`Repr, c.base.chain
      ensures Valid() && fresh(Repr - old(Repr))
      ensures c.base.Records() == old(c.base.Records()) + [record]
      ensures c.base.heap == old(c.base.heap) && c.base.events == old(c.base.events)
      ensures events.used == old(events.used) + if old(c.base.NeedsBlock()) then BlockBytes(c.base.recordSize) else 0
      ensures forall i | 0 <= i < MaxEventCount :: channels[i] == old(channels[i])
      ensures forall i | 0 <= i < MaxEventCount :: SubscribersAt(i) == old(SubscribersAt(i))
      ensures forall i | 0 <= i < MaxEventCount && i != id :: BufferedAt(i) == old(BufferedAt(i))
    {
      c.Post(record);
      Repr := Repr + c.Repr;
      SlotChanged(this, id);
    }

    /** The fresh-channel step of `register_event_subscriber<T>`: a zeroed
        channel taken from the heap arena is set into the empty slot `id`
        with `set_event_channel`. */
    method NewChannel(id: int, t: EventType) returns (c: TypedChannel)
      requires Valid() && 0 <= id < MaxEventCount && channels[id] == null && t.recordSize <= U32 - 8
      requires heap.used + t.channelSize <= heap.capacity
      modifies this`channelCount, this`Repr, channels, heap
      ensures Valid() && fresh(Repr - old(Repr)) && fresh(c)
      ensures channels[id] == c && id < channelCount && Ready(id, t.recordSize, t.nodeSize)
      ensures heap.used == old(heap.used) + t.channelSize
      ensures forall i | 0 <= i < MaxEventCount && i != id :: channels[i] == old(channels[i])
      ensures forall i | 0 <= i < MaxEventCount :: SubscribersAt(i) == old(SubscribersAt(i)) && BufferedAt(i) == old(BufferedAt(i))
    {
      var _ := heap.Allocate(t.channelSize);
      c := new TypedChannel(t.recordSize, t.nodeSize);
      SetEventChannel(id, c);
    }
  }
}

/** Whole-bus runs of the typed front ends: subscribe, post and dispatch on
    a freshly created bus, with what each subscriber receives stated as the
    calls addressed to it. */
module Scenarios {
  import opened Delegate
  import opened Delivery
  import opened EventBlocks
  import opened EventChannel
  import opened EventBus

  /** With every other slot empty, dispatching the slots below `n` is
      dispatching slot `id` alone, or nothing when `id` is not below `n`. */
  lemma {:induction false} SoleSlotCalls(b: Bus, n: nat, id: nat)
    requires b.Valid() && n <= MaxEventCount && id < MaxEventCount
    requires forall i | 0 <= i < MaxEventCount && i != id :: b.channels[i] == null
    ensures b.PendingCalls(n) == if id < n then b.SlotCalls(id) else []
  {
    if n > 0 {
      SoleSlotCalls(b, n - 1, id);
    }
  }

  /** What one callback receives when slot `id` is dispatched: every
      buffered record, in posting order, when it is subscribed there, and
      nothing otherwise. */
  lemma SlotCallsTo(b: Bus, id: nat, d: Binding)
    requires b.Valid() && id < MaxEventCount
    ensures CallsTo(b.SlotCalls(id), d) == if d in b.SubscribersAt(id) then Deliveries(d, b.BufferedAt(id)) else []
    ensures CallsTo(b.SlotCalls(id), d) == SlotReceived(b, id, d)
  {
    var c := b.channels[id];
    if c != null {
      ChainCallsTo(c.Subscribers(), c.base.ChainRecords(), d);
    }
  }

  /** What callback `d` receives from slot `i`: every record buffered there
      when it is subscribed to that slot, and nothing otherwise. */
  ghost function SlotReceived(b: Bus, i: nat, d: Binding): seq<Call>
    requires b.Valid() && i < MaxEventCount
    reads b, b.Repr
  {
    if d in b.SubscribersAt(i) then Deliveries(d, b.BufferedAt(i)) else []
  }

  /** What callback `d` receives from the slots below `n`, slot by slot in
      ascending order. */
  ghost function Received(b: Bus, n: nat, d: Binding): seq<Call>
    requires b.Valid() && n <= MaxEventCount
    reads b, b.Repr
  {
    if n == 0 then [] else Received(b, n - 1, d) + SlotReceived(b, n - 1, d)
  }

  /** One more slot adds to the calls addressed to `d` what `d` receives
      from that slot. */
  lemma PendingCallsToStep(b: Bus, n: nat, d: Binding)
    requires b.Valid() && 0 < n <= MaxEventCount
    ensures CallsTo(b.PendingCalls(n), d) == CallsTo(b.PendingCalls(n - 1), d) + SlotReceived(b, n - 1, d)
  {
    SlotCallsTo(b, n - 1, d);
    CallsToJoined(b.PendingCalls(n), b.PendingCalls(n - 1), b.SlotCalls(n - 1), SlotReceived(b, n - 1, d), d);
  }

  /** A call log made of `before` followed by `slot`, where `slot` addresses
      `got` to `d`, addresses to `d` what `before` does and then `got`. */
  lemma CallsToJoined(whole: seq<Call>, before: seq<Call>, slot: seq<Call>, got: seq<Call>, d: Binding)
    requires whole == before + slot && CallsTo(slot, d) == got
    ensures CallsTo(whole, d) == CallsTo(before, d) + got
  {
    CallsToAppend(before, slot, d);
  }

  /** The calls processing the slots below `n` addresses to `d` are what `d`
      receives from those slots. */
  lemma {:induction false} PendingCallsTo(b: Bus, n: nat, d: Binding)
    requires b.Valid() && n <= MaxEventCount
    ensures CallsTo(b.PendingCalls(n), d) == Received(b, n, d)
  {
    if n > 0 {
      PendingCallsTo(b, n - 1, d);
      PendingCallsToStep(b, n, d);
      assert Received(b, n, d) == Received(b, n - 1, d) + SlotReceived(b, n - 1, d);
    }
  }

  /** Empty slots from `m` up to `n` add nothing to what a callback receives. */
  lemma {:induction false} ReceivedEmptyTail(b: Bus, m: nat, n: nat, d: Binding)
    requires b.Valid() && m <= n <= MaxEventCount
    requires forall i | m <= i < n :: b.channels[i] == null
    ensures Received(b, n, d) == Received(b, m, d)
  {
    if m < n {
      ReceivedEmptyTail(b, m, n - 1, d);
    }
  }

  /** With every slot from 2 on empty, a callback receives the records of
      slot 0 if subscribed there, then those of slot 1 if subscribed there. */
  lemma TwoSlotsReceived(b: Bus, d: Binding)
    requires b.Valid() && forall i | 2 <= i < MaxEventCount :: b.channels[i] == null
    ensures Received(b, b.channelCount, d)
      == (if d in b.SubscribersAt(0) then Deliveries(d, b.BufferedAt(0)) else [])
       + (if d in b.SubscribersAt(1) then Deliveries(d, b.BufferedAt(1)) else [])
  {
    var first := if d in b.SubscribersAt(0) then Deliveries(d, b.BufferedAt(0)) else [];
    var second := if d in b.SubscribersAt(1) then Deliveries(d, b.BufferedAt(1)) else [];
    assert Received(b, 1, d) == first;
    assert Received(b, 2, d) == first + second;
    if b.channelCount < 2 {
      ReceivedEmptyTail(b, b.channelCount, 2, d);
    } else {
      ReceivedEmptyTail(b, 2, b.channelCount, d);
    }
  }

  /** `process_events(bus)` on any bus: each callback receives, slot by slot,
      the records of the slots it is subscribed to. */
  method ProcessBus(bus: Bus) returns (calls: seq<Call>)
    requires bus.Valid()
    modifies (set i | 0 <= i < bus.channels.Length && bus.channels[i] != null :: bus.channels[i].base)`chain
    ensures forall d: Binding :: CallsTo(calls, d) == old(Received(bus, bus.channelCount, d))
  {
    ghost var expected := bus.PendingCalls(bus.channelCount);
    forall d: Binding
      ensures CallsTo(expected, d) == Received(bus, bus.channelCount, d)
    {
      PendingCallsTo(bus, bus.channelCount, d);
    }
    calls := bus.ProcessEvents();
  }

  /** A new bus on which callback `f` has subscribed to a fresh type of
      16-byte records: the type has taken id 0, slot 0 holds a channel wired
      to the bus with `f` as its only subscriber and no records, and every
      other slot is empty. */
  method SubscribedBus(f: Address) returns (bus: Bus, t: EventType)
    ensures bus.Valid() && fresh(bus) && fresh(bus.Repr) && fresh(bus.heap) && fresh(bus.events) && fresh(t)
    ensures t !in bus.Repr && t.id == 0 && t.recordSize == 16 && t.nodeSize == 32
    ensures bus.Ready(0, 16, 32) && bus.SubscribersAt(0) == [Free(f)] && bus.BufferedAt(0) == []
    ensures forall i | 0 < i < MaxEventCount :: bus.channels[i] == null
    ensures bus.heap.used == 96 && bus.heap.capacity == HeapBytes
    ensures bus.events.used == 0 && bus.events.capacity == EventBytes
  {
    bus := new Bus();
    t := new EventType(16, 64, 32);
    bus.RegisterEventSubscriber(t, Free(f), 0);
  }

  /** Processing a bus whose only channel is in slot `id`: each callback
      receives what that slot holds for it, and nothing else. */
  method ProcessSoleSlot(bus: Bus, id: nat) returns (calls: seq<Call>)
    requires bus.Valid() && id < MaxEventCount
    requires forall i | 0 <= i < MaxEventCount && i != id :: bus.channels[i] == null
    modifies (set i | 0 <= i < bus.channels.Length && bus.channels[i] != null :: bus.channels[i].base)`chain
    ensures forall d: Binding ::
      CallsTo(calls, d) == if d in old(bus.SubscribersAt(id)) then Deliveries(d, old(bus.BufferedAt(id))) else []
    ensures bus.Valid() && bus.SubscribersAt(id) == old(bus.SubscribersAt(id)) && bus.BufferedAt(id) == []
  {
    SoleSlotCalls(bus, bus.channelCount, id);
    ghost var expected := bus.PendingCalls(bus.channelCount);
    forall d: Binding
      ensures CallsTo(expected, d) == if d in bus.SubscribersAt(id) then Deliveries(d, bus.BufferedAt(id)) else []
    {
      SlotCallsTo(bus, id, d);
    }
    calls := bus.ProcessEvents();
    assert bus.channels[id] != null ==> bus.channels[id].base.chain == [];
  }

  /** A bus whose every chain is empty has nothing to dispatch. */
  lemma {:induction false} DrainedNoCalls(b: Bus, n: nat)
    requires b.Valid() && n <= MaxEventCount
    requires forall i | 0 <= i < MaxEventCount && b.channels[i] != null :: b.channels[i].base.chain == []
    ensures b.PendingCalls(n) == []
  {
    if n > 0 {
      DrainedNoCalls(b, n - 1);
      var c := b.channels[n - 1];
      if c != null {
        assert c.base.ChainRecords() == [];
        assert b.SlotCalls(n - 1) == ChainCalls(c.Subscribers(), []);
      }
    }
  }

  /** Two passes of `process_events(bus)` with no post in between: the first
      makes the pending calls and the second makes none. */
  method ProcessTwice(bus: Bus) returns (first: seq<Call>, second: seq<Call>)
    requires bus.Valid()
    modifies (set i | 0 <= i < bus.channels.Length && bus.channels[i] != null :: bus.channels[i].base)`chain
    ensures first == old(bus.PendingCalls(bus.channelCount)) && second == []
  {
    first := bus.ProcessEvents();
    DrainedNoCalls(bus, bus.channelCount);
    second := bus.ProcessEvents();
  }

  /** Block sizes of the record sizes used below: two blocks of the larger
      one, or one of each, fit in the event arena. */
  lemma BlocksFit()
    ensures BlockBytes(16) == 16408 && BlockBytes(8) == 8216
    ensures 2 * BlockBytes(16) <= EventBytes && BlockBytes(16) + BlockBytes(8) <= EventBytes
  {
  }

  /** A bus fed by subscribing `f`, then posting `r1` and `r2`: slot 0 is
      the only channel, `f` is subscribed to it and it holds both values in
      posting order. */
  method PostedTwice(f: Address, r1: Record, r2: Record) returns (bus: Bus)
    requires |r1| == 16 && |r2| == 16
    ensures bus.Valid() && fresh(bus) && fresh(bus.Repr)
    ensures forall i | 0 < i < MaxEventCount :: bus.channels[i] == null
    ensures bus.SubscribersAt(0) == [Free(f)] && bus.BufferedAt(0) == [r1, r2]
  {
    var t;
    bus, t := PostedOnce(f, r1);
    BlocksFit();
    bus.PostEvent(t, r2);
  }

  /** The first half of `PostedTwice`: after one post, slot 0 is still wired
      and holds `r1`, and at most one block of the event arena is in use. */
  method PostedOnce(f: Address, r1: Record) returns (bus: Bus, t: EventType)
    requires |r1| == 16
    ensures bus.Valid() && fresh(bus) && fresh(bus.Repr) && fresh(bus.events) && fresh(t)
    ensures t !in bus.Repr && t.id == 0 && t.recordSize == 16 && t.nodeSize == 32
    ensures bus.Ready(0, 16, 32) && bus.SubscribersAt(0) == [Free(f)] && bus.BufferedAt(0) == [r1]
    ensures forall i | 0 < i < MaxEventCount :: bus.channels[i] == null
    ensures bus.events.used <= BlockBytes(16) && bus.events.capacity == EventBytes
  {
    bus, t := SubscribedBus(f);
    BlocksFit();
    bus.PostEvent(t, r1);
  }

  /** `PostedOnce` followed by a pass: `f` is called with `r1`, and slot 0
      is left wired, subscribed and empty. */
  method PostedProcessed(f: Address, r1: Record) returns (bus: Bus, t: EventType, first: seq<Call>)
    requires |r1| == 16
    ensures bus.Valid() && fresh(bus) && fresh(bus.Repr) && fresh(bus.events) && fresh(t)
    ensures t !in bus.Repr && t.id == 0 && t.recordSize == 16 && t.nodeSize == 32
    ensures bus.Ready(0, 16, 32) && bus.SubscribersAt(0) == [Free(f)] && bus.BufferedAt(0) == []
    ensures forall i | 0 < i < MaxEventCount :: bus.channels[i] == null
    ensures bus.events.used <= BlockBytes(16) && bus.events.capacity == EventBytes
    ensures CallsTo(first, Free(f)) == [FreeCall(f, r1)]
  {
    bus, t := PostedOnce(f, r1);
    assert bus.channels[0].base in bus.Repr;
    first := ProcessSoleSlot(bus, 0);
    assert [r1][1..] == [];
  }

  /** Post, process, post, process: each pass delivers exactly the value
      posted since the previous one. */
  method PostProcessTwice(f: Address, r1: Record, r2: Record) returns (first: seq<Call>, second: seq<Call>)
    requires |r1| == 16 && |r2| == 16
    ensures CallsTo(first, Free(f)) == [FreeCall(f, r1)]
    ensures CallsTo(second, Free(f)) == [FreeCall(f, r2)]
  {
    var bus, t;
    bus, t, first := PostedProcessed(f, r1);
    BlocksFit();
    bus.PostEvent(t, r2);
    assert bus.channels[0].base in bus.Repr;
    second := ProcessSoleSlot(bus, 0);
    assert [r2][1..] == [];
  }

  /** Subscribing `f` to a type, posting two values of it and processing
      the bus calls `f` with the first value and then the second. */
  method SubscribePostTwice(f: Address, r1: Record, r2: Record) returns (calls: seq<Call>)
    requires |r1| == 16 && |r2| == 16
    ensures CallsTo(calls, Free(f)) == [FreeCall(f, r1), FreeCall(f, r2)]
  {
    var bus := PostedTwice(f, r1, r2);
    assert bus.channels[0].base in bus.Repr;
    calls := ProcessSoleSlot(bus, 0);
    assert [r1, r2][1..] == [r2] && [r2][1..] == [];
    assert CallsTo(calls, Free(f)) == Deliveries(Free(f), [r1, r2]) == [FreeCall(f, r1)] + Deliveries(Free(f), [r2]);
  }

  /** A new bus on which `f` and then `g` have subscribed to a fresh type
      of 16-byte records: slot 0 is the only channel, it lists `g` before
      `f` and holds no records. */
  method SubscribedTwice(f: Address, g: Address) returns (bus: Bus, t: EventType)
    requires f != g
    ensures bus.Valid() && fresh(bus) && fresh(bus.Repr) && fresh(bus.heap) && fresh(bus.events) && fresh(t)
    ensures t !in bus.Repr && t.id == 0 && t.recordSize == 16 && t.nodeSize == 32
    ensures bus.Ready(0, 16, 32) && bus.SubscribersAt(0) == [Free(g), Free(f)] && bus.BufferedAt(0) == []
    ensures forall i | 0 < i < MaxEventCount :: bus.channels[i] == null
    ensures bus.events.used == 0 && bus.events.capacity == EventBytes
  {
    bus, t := SubscribedBus(f);
    bus.RegisterEventSubscriber(t, Free(g), 0);
  }

  /** A bus fed by subscribing `f` and `g`, posting `r` and unsubscribing
      `f`: slot 0 is the only channel, `g` alone is subscribed to it and it
      holds `r`. */
  method PostedThenUnsubscribed(f: Address, g: Address, r: Record) returns (bus: Bus)
    requires f != g && |r| == 16
    ensures bus.Valid() && fresh(bus) && fresh(bus.Repr)
    ensures forall i | 0 < i < MaxEventCount :: bus.channels[i] == null
    ensures bus.SubscribersAt(0) == [Free(g)] && bus.BufferedAt(0) == [r]
  {
    var t;
    bus, t := SubscribedTwice(f, g);
    BlocksFit();
    bus.PostEvent(t, r);
    assert [Free(g), Free(f)][1..] == [Free(f)];
    assert RemoveFirst([Free(g), Free(f)], Free(f)) == [Free(g)];
    bus.UnregisterEventSubscriber(t, Free(f));
  }

  /** Two callbacks subscribe to a type, a value is posted, and the first
      one unsubscribes before the bus is processed: the removed callback
      receives nothing, the other receives the value. */
  method UnsubscribeBeforeProcess(f: Address, g: Address, r: Record) returns (calls: seq<Call>)
    requires f != g && |r| == 16
    ensures CallsTo(calls, Free(f)) == []
    ensures CallsTo(calls, Free(g)) == [FreeCall(g, r)]
  {
    var bus := PostedThenUnsubscribed(f, g, r);
    assert bus.channels[0].base in bus.Repr;
    calls := ProcessSoleSlot(bus, 0);
  }

  /** A new bus on which `x` has subscribed to one type and `y` to another:
      the types take ids 0 and 1, each slot holds a wired channel with its
      one subscriber and no records, and every other slot is empty. */
  method TwoTypesBus(x: Address, y: Address) returns (bus: Bus, ta: EventType, tb: EventType)
    ensures bus.Valid() && fresh(bus) && fresh(bus.Repr) && fresh(bus.events) && fresh(ta) && fresh(tb)
    ensures ta !in bus.Repr && ta.id == 0 && ta.recordSize == 16 && ta.nodeSize == 32
    ensures tb !in bus.Repr && tb.id == 1 && tb.recordSize == 8 && tb.nodeSize == 32
    ensures bus.Ready(0, 16, 32) && bus.SubscribersAt(0) == [Free(x)] && bus.BufferedAt(0) == []
    ensures bus.Ready(1, 8, 32) && bus.SubscribersAt(1) == [Free(y)] && bus.BufferedAt(1) == []
    ensures forall i | 1 < i < MaxEventCount :: bus.channels[i] == null
    ensures bus.events.used == 0 && bus.events.capacity == EventBytes
  {
    bus, ta := SubscribedBus(x);
    tb := new EventType(8, 48, 32);
    bus.RegisterEventSubscriber(tb, Free(y), 1);
  }

  /** The two-type bus after posting `a` to the first type: slot 0 holds
      `a`, and slot 1 is still wired and holds nothing. */
  method PostedToFirst(x: Address, y: Address, a: Record) returns (bus: Bus, tb: EventType)
    requires |a| == 16
    ensures bus.Valid() && fresh(bus) && fresh(bus.Repr) && fresh(bus.events) && fresh(tb)
    ensures tb !in bus.Repr && tb.id == 1 && tb.recordSize == 8
    ensures forall i | 1 < i < MaxEventCount :: bus.channels[i] == null
    ensures bus.SubscribersAt(0) == [Free(x)] && bus.BufferedAt(0) == [a]
    ensures bus.Ready(1, 8, 32) && bus.SubscribersAt(1) == [Free(y)] && bus.BufferedAt(1) == []
    ensures bus.events.used + BlockBytes(8) <= bus.events.capacity
  {
    var ta;
    bus, ta, tb := TwoTypesBus(x, y);
    BlocksFit();
    bus.PostEvent(ta, a);
  }

  /** The two-type bus after posting `a` to the first type and `b` to the
      second: each slot keeps its subscriber and holds its own value. */
  method PostedToBoth(x: Address, y: Address, a: Record, b: Record) returns (bus: Bus)
    requires |a| == 16 && |b| == 8
    ensures bus.Valid() && fresh(bus) && fresh(bus.Repr)
    ensures forall i | 1 < i < MaxEventCount :: bus.channels[i] == null
    ensures bus.SubscribersAt(0) == [Free(x)] && bus.BufferedAt(0) == [a]
    ensures bus.SubscribersAt(1) == [Free(y)] && bus.BufferedAt(1) == [b]
  {
    var tb;
    bus, tb := PostedToFirst(x, y, a);
    bus.PostEvent(tb, b);
  }

  /** `x` subscribes to one type and `y` to another, one value of each is
      posted and the bus is processed: each callback is called once, with
      the value of its own type only. */
  method EachGetsItsOwnType(x: Address, y: Address, a: Record, b: Record) returns (calls: seq<Call>)
    requires x != y && |a| == 16 && |b| == 8
    ensures CallsTo(calls, Free(x)) == [FreeCall(x, a)]
    ensures CallsTo(calls, Free(y)) == [FreeCall(y, b)]
  {
    var bus := PostedToBoth(x, y, a, b);
    assert bus.channels[0] != null && bus.channels[1] != null;
    assert bus.channels[0].base in bus.Repr && bus.channels[1].base in bus.Repr;
    TwoSlotsReceived(bus, Free(x));
    TwoSlotsReceived(bus, Free(y));
    assert [a][1..] == [] && [b][1..] == [];
    ghost var rx, ry := Received(bus, bus.channelCount, Free(x)), Received(bus, bus.channelCount, Free(y));
    assert rx == [FreeCall(x, a)] && ry == [FreeCall(y, b)];
    calls := ProcessBus(bus);
    assert CallsTo(calls, Free(x)) == rx && CallsTo(calls, Free(y)) == ry;
  }
}

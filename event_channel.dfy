/** An event channel for one event type: the doubly linked list of
    subscribed callbacks (`event_channel_typed_t<T>`) and the chain of record
    blocks it buffers posted events in (`event_channel_t`).

    The chain is kept as the sequence of its blocks in visit order. The
    source links blocks into a list that its loops walk as a circular one;
    the first block's links are null, so none of those walks works as
    written (see module AsWritten). Here a new block goes at the end of the
    visit order, which is where inserting before the head puts it in a
    circular list, and records are allocated in the last block. */
module EventChannel {
  import opened Delegate
  import opened Delivery
  import opened EventBlocks

  /** `delegate_node_t`: one subscribed callback and its links. */
  class DelegateNode {
    const delegate: Binding
    const address: nat
    var next: DelegateNode?
    var prev: DelegateNode?

    constructor (delegate: Binding, address: nat)
      ensures this.delegate == delegate && this.address == address
      ensures next == null && prev == null
    {
      this.delegate := delegate;
      this.address := address;
      next := null;
      prev := null;
    }
  }

  /** A block of at most `MaxEventCount` records of `size` bytes, with a
      payload of `MaxEventCount` strides. */
  ghost predicate Fits(b: EventBlock, size: nat)
    reads b
  {
    size <= b.eventSize && b.eventCount <= MaxEventCount && |b.data| == MaxEventCount * b.eventSize
  }

  /** The records of a block that fits lie inside its payload. */
  lemma FitsRoom(b: EventBlock, size: nat)
    requires Fits(b, size)
    ensures b.eventCount * b.eventSize <= |b.data|
  {
    MulMono(b.eventCount, MaxEventCount, b.eventSize);
  }

  /** The records of one block as the channel's record type sees them. */
  ghost function BlockRecords(b: EventBlock, size: nat): (r: seq<Record>)
    requires Fits(b, size)
    reads b
    ensures |r| == b.eventCount
  {
    FitsRoom(b, size);
    RecordsAt(b.data, b.eventSize, size, b.eventCount)
  }

  /** The records of each block of `blocks`, in order. */
  ghost function BlocksRecords(blocks: seq<EventBlock>, size: nat): (r: seq<seq<Record>>)
    requires forall i | 0 <= i < |blocks| :: Fits(blocks[i], size)
    reads blocks
    ensures |r| == |blocks|
  {
    if blocks == [] then []
    else BlocksRecords(blocks[..|blocks| - 1], size) + [BlockRecords(blocks[|blocks| - 1], size)]
  }

  /** Entry `i` of `BlocksRecords` holds the records of block `i`. */
  lemma {:induction false} BlocksRecordsAt(blocks: seq<EventBlock>, size: nat, i: nat)
    requires forall j | 0 <= j < |blocks| :: Fits(blocks[j], size)
    requires i < |blocks|
    ensures BlocksRecords(blocks, size)[i] == BlockRecords(blocks[i], size)
  {
    if i < |blocks| - 1 {
      BlocksRecordsAt(blocks[..|blocks| - 1], size, i);
    }
  }

  /** One more block at the end adds its records as the last entry. */
  lemma BlocksRecordsSnoc(blocks: seq<EventBlock>, b: EventBlock, size: nat)
    requires forall i | 0 <= i < |blocks| :: Fits(blocks[i], size)
    requires Fits(b, size)
    ensures BlocksRecords(blocks + [b], size) == BlocksRecords(blocks, size) + [BlockRecords(b, size)]
  {
    assert (blocks + [b])[..|blocks|] == blocks;
  }

  /** A block holding one record holds the bytes at the start of its payload. */
  lemma FirstRecord(b: EventBlock, size: nat)
    requires Fits(b, size) && b.eventCount == 1
    ensures size <= |b.data| && BlockRecords(b, size) == [b.data[0 .. size]]
  {
    MulMono(1, MaxEventCount, b.eventSize);
    assert RecordsAt(b.data, b.eventSize, size, 0) == [];
  }

  /** Writing `record` over the last of `count` slots changes the last
      record of the payload to `record` and no other. */
  lemma SlotRewritten(before: seq<bv8>, after: seq<bv8>, stride: nat, size: nat, count: nat, offset: nat, record: seq<bv8>)
    requires size <= stride && 0 < count && |record| == size
    requires offset == (count - 1) * stride && count * stride <= |before|
    requires after == before[..offset] + record + before[offset + size..]
    ensures count * stride <= |after|
    ensures RecordsAt(after, stride, size, count) == RecordsAt(before, stride, size, count)[..count - 1] + [record]
  {
    MulStep(count, stride);
    assert after[offset .. offset + size] == record;
    assert before[..offset] == after[..offset];
    RecordsAtAgree(before, after, stride, size, count - 1, offset);
    var pre := RecordsAt(before, stride, size, count - 1);
    assert RecordsAt(before, stride, size, count) == pre + [before[offset .. offset + size]];
    assert (pre + [before[offset .. offset + size]])[..count - 1] == pre;
  }

  /** The callbacks held by a run of nodes. */
  function Callbacks(ns: seq<DelegateNode>): (s: seq<Binding>)
    ensures |s| == |ns|
    ensures forall i | 0 <= i < |ns| :: s[i] == ns[i].delegate
  {
    seq(|ns|, i requires 0 <= i < |ns| => ns[i].delegate)
  }

  /** Unlinking node `k` takes callback `k` out of the list. */
  lemma CallbacksWithout(ns: seq<DelegateNode>, k: nat)
    requires k < |ns|
    ensures Callbacks(ns[..k] + ns[k + 1..]) == Callbacks(ns)[..k] + Callbacks(ns)[k + 1..]
  {
  }

  /** Record `i` of a payload holding `count` records starts at `offset`,
      which is `i * stride`, and ends inside the payload; the next starts one
      stride further; and it is the record the first `i + 1` add to the
      first `i`. */
  lemma NextRecord(mem: seq<bv8>, stride: nat, size: nat, count: nat, i: nat, offset: nat)
    requires size <= stride && count * stride <= |mem| && i < count && offset == i * stride
    ensures offset + size <= |mem| && offset + stride == (i + 1) * stride
    ensures RecordsAt(mem, stride, size, i + 1) == RecordsAt(mem, stride, size, i) + [mem[offset .. offset + size]]
  {
    SlotWithin(i, stride, size, count);
    MulStep(i + 1, stride);
    MulMono(i + 1, count, stride);
  }

  /** The inner loop of `v_fire_events`: one subscriber invoked once per
      record, record `i` being the `size` bytes at offset `i * eventSize`. */
  method Deliver(d: Binding, data: seq<bv8>, eventSize: nat, size: nat, eventCount: nat)
    returns (calls: seq<Call>)
    requires size <= eventSize && eventCount * eventSize <= |data|
    ensures calls == Deliveries(d, RecordsAt(data, eventSize, size, eventCount))
  {
    calls := [];
    var eventData := 0;
    var i := 0;
    while i < eventCount
      invariant 0 <= i <= eventCount
      invariant eventData == i * eventSize
      invariant calls == Deliveries(d, RecordsAt(data, eventSize, size, i))
    {
      NextRecord(data, eventSize, size, eventCount, i, eventData);
      var record := data[eventData .. eventData + size];
      DeliveriesSnoc(d, RecordsAt(data, eventSize, size, i), record);
      calls := calls + Invoke(d, record);
      eventData := eventData + eventSize;
      i := i + 1;
    }
  }

  /** `ns` is a doubly linked list through `m_next` and `m_prev`: the first
      node has no predecessor, the last no successor, and neighbours point at
      each other. */
  ghost predicate Linked(ns: seq<DelegateNode>)
    reads ns
  {
    && (ns != [] ==> ns[0].prev == null && ns[|ns| - 1].next == null)
    && (forall i, j | 0 <= i && j == i + 1 && j < |ns| :: ns[i].next == ns[j] && ns[j].prev == ns[i])
  }

  /** Different indices hold different nodes. */
  ghost predicate Distinct(ns: seq<DelegateNode>) {
    forall i, j | 0 <= i < j < |ns| :: ns[i] != ns[j]
  }

  /** The relinking of `remove_delegate` leaves the other nodes a doubly
      linked list: the predecessor of node `k` now points at its successor
      and back, and no other link changed. */
  twostate lemma UnlinkedLinked(ns: seq<DelegateNode>, new k: nat)
    requires k < |ns| && Distinct(ns) && old(Linked(ns))
    requires k > 0 ==> ns[k - 1].next == old(ns[k].next)
    requires k + 1 < |ns| ==> ns[k + 1].prev == old(ns[k].prev)
    requires forall o | o in ns && o != old(ns[k].prev) :: o.next == old(o.next)
    requires forall o | o in ns && o != old(ns[k].next) :: o.prev == old(o.prev)
    ensures Linked(ns[..k] + ns[k + 1..])
  {
    forall i | 0 <= i < |ns| && i + 1 != k ensures ns[i].next == old(ns[i].next) {
      assert ns[i] in ns;
      if k > 0 {
        assert old(ns[k].prev) == ns[k - 1];
      } else {
        assert old(ns[k].prev) == null;
      }
    }
    forall i | 0 <= i < |ns| && i != k + 1 ensures ns[i].prev == old(ns[i].prev) {
      assert ns[i] in ns;
      if k + 1 < |ns| {
        assert old(ns[k].next) == ns[k + 1];
      } else {
        assert old(ns[k].next) == null;
      }
    }
    var r := ns[..k] + ns[k + 1..];
    forall i, j | 0 <= i && j == i + 1 && j < |r|
      ensures r[i].next == r[j] && r[j].prev == r[i]
    {
      if j < k {
        assert r[i] == ns[i] && r[j] == ns[j];
        assert old(ns[i].next) == ns[j] && old(ns[j].prev) == ns[i];
      } else if j == k {
        assert r[i] == ns[k - 1] && r[j] == ns[k + 1];
        assert old(ns[k - 1].next) == ns[k] && old(ns[k].next) == ns[k + 1];
        assert old(ns[k].prev) == ns[k - 1] && old(ns[k + 1].prev) == ns[k];
      } else {
        assert r[i] == ns[i + 1] && r[j] == ns[j + 1];
        assert old(ns[i + 1].next) == ns[j + 1] && old(ns[j + 1].prev) == ns[i + 1];
      }
    }
    if r != [] {
      if k == 0 {
        assert r[0] == ns[1];
        assert old(ns[0].next) == ns[1] && old(ns[1].prev) == ns[0];
      } else {
        assert r[0] == ns[0];
      }
      if k == |ns| - 1 {
        assert r[|r| - 1] == ns[k - 1];
        assert old(ns[k - 1].next) == ns[k];
      } else {
        assert r[|r| - 1] == ns[|ns| - 1];
      }
    }
  }

  /** Linking a new node in front of the head, as `add_delegate` does, keeps
      a doubly linked list: the new node has no predecessor and points at
      the old head, the old head points back, and no other link changed. */
  twostate lemma PushedLinked(ns: seq<DelegateNode>, new n: DelegateNode)
    requires old(Linked(ns)) && n !in ns
    requires n.prev == null && n.next == (if ns == [] then null else ns[0])
    requires ns != [] ==> ns[0].prev == n
    requires forall o | o in ns :: o.next == old(o.next)
    requires forall o | o in ns && o != ns[0] :: o.prev == old(o.prev)
    ensures Linked([n] + ns)
  {
    var r := [n] + ns;
    forall i, j | 0 <= i && j == i + 1 && j < |r|
      ensures r[i].next == r[j] && r[j].prev == r[i]
    {
      if i > 0 {
        assert r[i] == ns[i - 1] && r[j] == ns[j - 1];
        assert ns[i - 1] in ns && ns[j - 1] in ns;
        assert old(ns[i - 1].next) == ns[j - 1] && old(ns[j - 1].prev) == ns[i - 1];
      }
    }
    if ns != [] {
      assert r[|r| - 1] == ns[|ns| - 1] && ns[|ns| - 1] in ns;
    }
  }

  /** Only the subscriber list of `c` changed, into a valid list whose new
      objects are all fresh: then `c` is valid again. */
  twostate lemma ListChanged(c: TypedChannel)
    requires old(c.Valid()) && c.list.Valid() && unchanged(old(c.base.Repr))
    requires fresh(c.list.Repr - old(c.list.Repr)) && c.Repr == old(c.Repr) + c.list.Repr
    ensures c.Valid()
  {
    assert old(c.base.Valid());
  }

  /** `event_channel_t`: the part of a channel that does not depend on the
      event type, namely the two arenas and the chain of record blocks.
      `recordSize` is `sizeof(T)` of the typed channel built on it, the size
      every `alloc_event` call on this channel passes. */
  class Channel {
    const recordSize: nat
    /** The stride of every block, `recordSize` rounded up to a multiple of 8. */
    const stride: nat
    /** `m_heap_allocator` and `m_event_allocator`; null until the bus wires them. */
    var heap: Arena?
    var events: Arena?
    /** The blocks reachable from `m_event_block_head`, in visit order. */
    var chain: seq<EventBlock>
    ghost var Repr: set<object>

    /** Every block has the channel's stride, at most `MaxEventCount`
        records and a payload of `MaxEventCount` strides; the block records
        go into is none of the others; the two arenas are different objects. */
    ghost predicate Valid()
      reads this, Repr
    {
      && this in Repr
      && heap !in Repr && events !in Repr
      && (heap == null || heap != events)
      && (chain != [] ==> events != null)
      && recordSize <= U32 - 8 && stride == Stride(recordSize) && recordSize <= stride
      && (forall i | 0 <= i < |chain| ::
            && chain[i] in Repr
            && chain[i].eventSize == stride && chain[i].eventMax == MaxEventCount
            && Fits(chain[i], recordSize))
      && (forall i | 0 <= i < |chain| - 1 :: chain[i] != chain[|chain| - 1])
    }

    /** The records buffered in each block of the chain, in chain order. */
    ghost function ChainRecords(): (r: seq<seq<Record>>)
      requires Valid()
      reads this, Repr
      ensures |r| == |chain|
    {
      BlocksRecords(chain, recordSize)
    }

    /** All buffered records, in the order they will be dispatched. */
    ghost function Records(): seq<Record>
      requires Valid()
      reads this, Repr
    {
      Flatten(ChainRecords())
    }

    /** Whether the next record needs a new block: the chain is empty or the
        block records go into is full. */
    ghost predicate NeedsBlock()
      reads this, chain
    {
      chain == [] || chain[|chain| - 1].IsFull(recordSize)
    }

    /** The zeroed channel `clear_memory` and placement new produce: no
        arenas and no blocks. */
    constructor (recordSize: nat)
      requires recordSize <= U32 - 8
      ensures Valid() && fresh(Repr)
      ensures this.recordSize == recordSize
      ensures heap == null && events == null && chain == []
    {
      this.recordSize := recordSize;
      stride := Stride(recordSize);
      StrideBounds(recordSize);
      heap := null;
      events := null;
      chain := [];
      Repr := {this};
    }

    /** The channel side of `set_event_channel`: the bus's two arenas become
        the channel's, and the block chain is emptied. */
    method Attach(heap: Arena, events: Arena)
      requires Valid() && heap != events && heap !in Repr && events !in Repr
      modifies this`heap, this`events, this`chain
      ensures Valid() && this.heap == heap && this.events == events && chain == []
    {
      this.heap := heap;
      this.events := events;
      chain := [];
    }

    /** `alloc_event(sizeof(T))`: when the chain is empty or its last block is
        full, a block of `BlockBytes` is taken from the event arena and added
        at the end of the chain; then the next slot of the last block is
        handed out. The slot is the new last record of the channel. */
    method AllocEvent() returns (block: EventBlock, offset: nat)
      requires Valid() && events != null
      requires NeedsBlock() ==> events.used + BlockBytes(recordSize) <= events.capacity
      modifies this`chain, this`Repr, events, chain
      ensures Valid() && fresh(Repr - old(Repr))
      ensures chain != [] && block == chain[|chain| - 1]
      ensures 0 < block.eventCount && offset == (block.eventCount - 1) * block.eventSize
      ensures offset + recordSize <= |block.data|
      ensures old(NeedsBlock()) ==>
        && chain == old(chain) + [block] && fresh(block) && block.eventCount == 1
        && block.address == old(events.used) && events.used == old(events.used) + BlockBytes(recordSize)
        && ChainRecords() == old(ChainRecords()) + [[block.data[offset .. offset + recordSize]]]
      ensures !old(NeedsBlock()) ==>
        && chain == old(chain) && events.used == old(events.used)
        && ChainRecords() == old(ChainRecords())[..|chain| - 1]
                             + [old(ChainRecords())[|chain| - 1] + [block.data[offset .. offset + recordSize]]]
      ensures Records() == old(Records()) + [block.data[offset .. offset + recordSize]]
    {
      ghost var blocks := ChainRecords();
      if chain == [] || chain[|chain| - 1].IsFull(recordSize) {
        ghost var prefix := chain;
        block, offset := AllocFresh();
        assert chain[|chain| - 1] == block && chain[..|chain| - 1] == prefix;
        BlocksRecordsSnoc(prefix, block, recordSize);
        FirstRecord(block, recordSize);
        FlattenSnoc(blocks, [block.data[offset .. offset + recordSize]]);
      } else {
        block := chain[|chain| - 1];
        offset := FillLast(block);
        LastGrows(blocks, block.data[offset .. offset + recordSize]);
      }
    }

    /** The branch of `alloc_event` that needs a block: a block of
        `BlockBytes` from the event arena goes at the end of the chain, and
        its first slot is handed out. */
    method AllocFresh() returns (block: EventBlock, offset: nat)
      requires Valid() && events != null
      requires events.used + BlockBytes(recordSize) <= events.capacity
      modifies this`chain, this`Repr, events
      ensures Valid() && fresh(Repr - old(Repr))
      ensures chain == old(chain) + [block] && fresh(block) && block.eventCount == 1 && offset == 0
      ensures block.address == old(events.used) && events.used == old(events.used) + BlockBytes(recordSize)
    {
      StrideBounds(recordSize);
      var address := events.Allocate(BlockBytes(recordSize));
      block := new EventBlock(address, recordSize);
      offset := block.AllocEvent();
      chain := chain + [block];
      Repr := Repr + {block};
    }

    /** `alloc_event(sizeof(T))` followed by the placement new of
        `post_event`, which copies the posted value into the slot. */
    method Post(record: Record)
      requires Valid() && events != null && |record| == recordSize
      requires NeedsBlock() ==> events.used + BlockBytes(recordSize) <= events.capacity
      modifies this`chain, this`Repr, events, chain
      ensures Valid() && fresh(Repr - old(Repr))
      ensures Records() == old(Records()) + [record]
      ensures |chain| == |old(chain)| + (if old(NeedsBlock()) then 1 else 0)
      ensures events.used == old(events.used) + (if old(NeedsBlock()) then BlockBytes(recordSize) else 0)
    {
      ghost var before := Records();
      var block, offset := AllocEvent();
      WriteRecord(block, offset, record);
      assert (before + [block.data[offset .. offset + recordSize]])[..|before|] == before;
    }

    /** The slot step of `alloc_event`: the last block, which is not full,
        hands out its next slot, which becomes its last record. */
    method FillLast(block: EventBlock) returns (offset: nat)
      requires Valid() && chain != [] && block == chain[|chain| - 1] && !block.IsFull(recordSize)
      modifies block`eventCount
      ensures Valid() && chain == old(chain) && block.eventCount == old(block.eventCount) + 1
      ensures offset == (block.eventCount - 1) * block.eventSize
      ensures offset + recordSize <= |block.data|
      ensures ChainRecords() == old(ChainRecords())[..|chain| - 1]
                                + [old(ChainRecords())[|chain| - 1] + [block.data[offset .. offset + recordSize]]]
    {
      ghost var blocks := ChainRecords();
      ghost var last := blocks[|chain| - 1];
      ghost var prefix := chain[..|chain| - 1];
      offset := block.AllocEvent();
      SlotWithin(block.eventCount - 1, block.eventSize, block.eventSize, MaxEventCount);
      SlotWithin(block.eventCount - 1, block.eventSize, recordSize, MaxEventCount);
      assert BlockRecords(block, recordSize) == last + [block.data[offset .. offset + recordSize]];
      assert BlocksRecords(prefix, recordSize) == blocks[..|chain| - 1];
      assert chain[..|chain| - 1] == prefix;
    }

    /** The placement new of `post_event`: the posted value's bytes are
        written into the slot `alloc_event` handed out, which becomes the
        channel's last record. */
    method WriteRecord(block: EventBlock, offset: nat, record: Record)
      requires Valid() && chain != [] && block == chain[|chain| - 1]
      requires 0 < block.eventCount && offset == (block.eventCount - 1) * block.eventSize
      requires |record| == recordSize
      modifies block`data
      ensures Valid() && old(Records()) != []
      ensures Records() == old(Records())[..|old(Records())| - 1] + [record]
    {
      ghost var blocks := ChainRecords();
      ghost var prefix := chain[..|chain| - 1];
      FitsRoom(block, recordSize);
      SlotWithin(block.eventCount - 1, block.eventSize, recordSize, block.eventCount);
      ghost var before := block.data;
      block.data := block.data[..offset] + record + block.data[offset + recordSize..];
      SlotRewritten(before, block.data, block.eventSize, recordSize, block.eventCount, offset, record);
      assert chain[..|chain| - 1] == prefix;
      assert BlocksRecords(prefix, recordSize) == blocks[..|chain| - 1];
      LastRecordReplaced(blocks, ChainRecords(), record);
    }

    /** `event_channel_t::teardown`: gives every block back to the event
        arena, in chain order. The chain itself is left as it is. */
    method TeardownBlocks()
      requires Valid()
      modifies events
      ensures Valid()
      ensures events != null ==> events.released == old(events.released) + BlockAddresses(chain)
    {
      var b := 0;
      while b < |chain|
        invariant 0 <= b <= |chain|
        invariant events == old(events)
        invariant events != null ==> events.released == old(events.released) + BlockAddresses(chain[..b])
      {
        assert chain[..b + 1] == chain[..b] + [chain[b]];
        BlockAddressesSnoc(chain[..b], chain[b]);
        events.Deallocate(chain[b].address);
        b := b + 1;
      }
      assert chain[..b] == chain;
    }
  }

  /** The addresses of a run of blocks, in order. */
  function BlockAddresses(blocks: seq<EventBlock>): (r: seq<nat>)
    ensures |r| == |blocks|
    ensures forall i | 0 <= i < |blocks| :: r[i] == blocks[i].address
  {
    seq(|blocks|, i requires 0 <= i < |blocks| => blocks[i].address)
  }

  lemma BlockAddressesSnoc(blocks: seq<EventBlock>, b: EventBlock)
    ensures BlockAddresses(blocks + [b]) == BlockAddresses(blocks) + [b.address]
  {
  }

  /** The addresses of a run of nodes, in order. */
  function NodeAddresses(ns: seq<DelegateNode>): (r: seq<nat>)
    ensures |r| == |ns|
    ensures forall i | 0 <= i < |ns| :: r[i] == ns[i].address
  {
    seq(|ns|, i requires 0 <= i < |ns| => ns[i].address)
  }

  /** `m_head` of `event_channel_typed_t<T>` and the doubly linked list of
      `delegate_node_t` it heads. */
  class SubscriberList {
    /** `m_head`. */
    var head: DelegateNode?
    /** The nodes from `m_head` along `m_next`. */
    ghost var nodes: seq<DelegateNode>
    ghost var Repr: set<object>

    /** `nodes` is a doubly linked list headed by `m_head`, and no callback
        occurs in it twice. */
    ghost predicate Valid()
      reads this, Repr
    {
      && this in Repr
      && (forall n | n in nodes :: n in Repr)
      && (head == null <==> nodes == [])
      && (nodes != [] ==> head == nodes[0])
      && Linked(nodes)
      && Unique(Subscribers())
    }

    /** The callbacks of the list, from the head. */
    ghost function Subscribers(): (s: seq<Binding>)
      reads this
      ensures |s| == |nodes|
    {
      Callbacks(nodes)
    }

    /** The zeroed list: no head. */
    constructor ()
      ensures Valid() && fresh(Repr) && head == null && nodes == []
    {
      head := null;
      nodes := [];
      Repr := {this};
    }

    /** `v_setup`: starts with an empty list. */
    method Clear()
      requires Valid()
      modifies this`head, this`nodes
      ensures Valid() && head == null && nodes == []
    {
      head := null;
      nodes := [];
    }

    /** Node `k` links to node `k + 1`, the last node to nothing. */
    lemma NextNode(k: nat)
      requires Valid() && k < |nodes|
      ensures nodes[k].next == if k + 1 < |nodes| then nodes[k + 1] else null
    {
    }

    /** The walk of `v_fire_events` over the list: every callback from the
        head, each invoked once per record. */
    method Fire(data: seq<bv8>, eventSize: nat, size: nat, eventCount: nat) returns (calls: seq<Call>)
      requires Valid()
      requires size <= eventSize && eventCount * eventSize <= |data|
      ensures calls == FireCalls(Subscribers(), RecordsAt(data, eventSize, size, eventCount))
    {
      ghost var subs := Subscribers();
      ghost var records := RecordsAt(data, eventSize, size, eventCount);
      calls := [];
      var node := head;
      ghost var k := 0;
      while node != null
        invariant 0 <= k <= |nodes|
        invariant node == if k < |nodes| then nodes[k] else null
        invariant calls == FireCalls(subs[..k], records)
        decreases |nodes| - k
      {
        var c := Deliver(node.delegate, data, eventSize, size, eventCount);
        calls := calls + c;
        FireCallsPrefix(subs, k, records);
        NextNode(k);
        node := node.next;
        k := k + 1;
      }
      assert subs[..k] == subs;
    }

    /** The scan `add_delegate` and `remove_delegate` share: the first node
        from the head whose callback equals `d`, or null when there is none. */
    method Find(d: Binding) returns (node: DelegateNode?, ghost k: nat)
      requires Valid()
      ensures node == null <==> d !in Subscribers()
      ensures node != null ==> k < |nodes| && node == nodes[k] && Subscribers()[k] == d && d !in Subscribers()[..k]
    {
      node := head;
      k := 0;
      while node != null
        invariant 0 <= k <= |nodes|
        invariant node == if k < |nodes| then nodes[k] else null
        invariant d !in Subscribers()[..k]
        decreases |nodes| - k
      {
        if Equal(node.delegate, d) {
          return;
        }
        assert Subscribers()[..k + 1] == Subscribers()[..k] + [node.delegate];
        node := node.next;
        k := k + 1;
      }
      assert Subscribers()[..k] == Subscribers();
    }

    /** The linking step of `add_delegate`: a new node for `d`, at `address`,
        goes in front of the old head and becomes the head. */
    method Push(d: Binding, address: nat)
      requires Valid() && d !in Subscribers()
      modifies this`head, this`nodes, this`Repr, Repr
      ensures Valid() && head != null && fresh(head) && Repr == old(Repr) + {head}
      ensures head.address == address && nodes == [head] + old(nodes)
      ensures Subscribers() == [d] + old(Subscribers())
    {
      ghost var before := nodes;
      var n := new DelegateNode(d, address);
      n.prev := null;
      n.next := head;
      if head != null {
        head.prev := n;
      }
      head := n;
      nodes := [n] + nodes;
      Repr := Repr + {n};
      PushedLinked(before, n);
      assert Subscribers() == [d] + old(Subscribers());
      AddedUnique(old(Subscribers()), d);
    }

    /** The relinking step of `remove_delegate` for the node at index `k`:
        its predecessor, or `m_head` when it has none, now points at its
        successor, and its successor back at its predecessor. */
    method Unlink(node: DelegateNode, ghost k: nat)
      requires Valid() && k < |nodes| && node == nodes[k]
      modifies this`head, this`nodes, Repr
      ensures Valid() && Repr == old(Repr)
      ensures nodes == old(nodes[..k] + nodes[k + 1..])
      ensures Subscribers() == old(Subscribers()[..k] + Subscribers()[k + 1..])
    {
      ghost var before := nodes;
      ghost var subs := Subscribers();
      NodesDistinct();
      assert k > 0 ==> node.prev == before[k - 1] && before[k - 1] in before;
      assert k + 1 < |before| ==> node.next == before[k + 1] && before[k + 1] in before;
      assert head == node ==> k == 0;
      if node.prev != null {
        node.prev.next := node.next;
      }
      if node.next != null {
        node.next.prev := node.prev;
      }
      if head == node {
        head := node.next;
      }
      nodes := nodes[..k] + nodes[k + 1..];
      UnlinkedLinked(before, k);
      CallbacksWithout(before, k);
      UniqueWithout(subs, k);
      if nodes != [] {
        assert nodes[0] == if k == 0 then before[1] else before[0];
      }
    }

    /** The loop of `v_teardown`: the head node is unlinked and given back
        to `heap` until the list is empty, so the nodes go back in list order. */
    method ReleaseAll(heap: Arena)
      requires Valid() && heap !in Repr
      modifies this`head, this`nodes, heap
      ensures Valid() && head == null && nodes == []
      ensures heap.released == old(heap.released) + NodeAddresses(old(nodes))
    {
      ghost var all := nodes;
      var node := head;
      ghost var k := 0;
      while node != null
        invariant 0 <= k <= |all|
        invariant node == head && head == if k < |all| then all[k] else null
        invariant heap.released == old(heap.released) + NodeAddresses(all[..k])
        decreases |all| - k
      {
        head := node.next;
        assert NodeAddresses(all[..k + 1]) == NodeAddresses(all[..k]) + [node.address];
        heap.Deallocate(node.address);
        node := head;
        k := k + 1;
      }
      assert all[..k] == all;
      nodes := [];
    }

    /** Different indices of the list hold different nodes, since they hold
        different callbacks. */
    lemma NodesDistinct()
      requires Unique(Subscribers())
      ensures Distinct(nodes)
    {
      forall i, j | 0 <= i < j < |nodes| ensures nodes[i] != nodes[j] {
        assert Subscribers()[i] != Subscribers()[j];
      }
    }
  }

  /** `event_channel_typed_t<T>`: the channel of one event type, made of its
      `event_channel_t` part and its subscriber list. */
  class TypedChannel {
    /** The `event_channel_t` part. */
    const base: Channel
    /** `m_head` and the nodes it reaches. */
    const list: SubscriberList
    /** `sizeof(delegate_node_t)`. */
    const nodeSize: nat
    ghost var Repr: set<object>

    /** Both parts are valid and own disjoint objects, neither of which is
        an arena of the channel. */
    ghost predicate Valid()
      reads this, Repr
    {
      && this in Repr && base in Repr && list in Repr
      && base.Repr <= Repr && list.Repr <= Repr
      && this !in base.Repr && this !in list.Repr && base.Repr !! list.Repr
      && base.heap !in list.Repr && base.events !in list.Repr
      && base.Valid() && list.Valid()
    }

    /** The callbacks of the list, from the head. */
    ghost function Subscribers(): (s: seq<Binding>)
      reads list
    {
      list.Subscribers()
    }

    /** A zeroed typed channel: no subscribers, and a zeroed base. */
    constructor (recordSize: nat, nodeSize: nat)
      requires recordSize <= U32 - 8
      ensures Valid() && fresh(Repr)
      ensures base.recordSize == recordSize && this.nodeSize == nodeSize
      ensures base.heap == null && base.events == null && base.chain == []
      ensures list.head == null && Subscribers() == []
    {
      base := new Channel(recordSize);
      list := new SubscriberList();
      this.nodeSize := nodeSize;
      new;
      Repr := {this} + base.Repr + list.Repr;
    }

    /** `set_event_channel` on this channel: the bus's arenas are wired in
        and the chain is emptied; the subscriber list is left as it is. */
    method Attach(heap: Arena, events: Arena)
      requires Valid() && heap != events && heap !in Repr && events !in Repr
      modifies base`heap, base`events, base`chain
      ensures Valid() && base.heap == heap && base.events == events && base.chain == []
    {
      base.Attach(heap, events);
    }

    /** The channel side of `post_event`: `alloc_event(sizeof(T))`, then the
        copy of the value into the slot handed out. The value becomes the
        channel's last record; the subscribers stay as they are. */
    method Post(record: Record)
      requires Valid() && base.events != null && |record| == base.recordSize
      requires base.NeedsBlock() ==> base.events.used + BlockBytes(base.recordSize) <= base.events.capacity
      modifies this`Repr, base`chain, base`Repr, base.events, base.chain
      ensures Valid() && fresh(Repr - old(Repr))
      ensures base.Records() == old(base.Records()) + [record]
      ensures |base.chain| == |old(base.chain)| + (if old(base.NeedsBlock()) then 1 else 0)
      ensures base.events.used == old(base.events.used) + (if old(base.NeedsBlock()) then BlockBytes(base.recordSize) else 0)
    {
      base.Post(record);
      Repr := Repr + base.Repr;
    }

    /** `v_setup`: starts with an empty subscriber list. */
    method Setup()
      requires Valid()
      modifies list`head, list`nodes
      ensures Valid() && list.head == null && Subscribers() == []
    {
      list.Clear();
    }

    /** `add_delegate`: does nothing when an equal callback is subscribed;
        otherwise takes a node from the heap arena and links it in front of
        the old head. */
    method AddDelegate(d: Binding)
      requires Valid() && base.heap != null
      requires d !in Subscribers() ==> base.heap.used + nodeSize <= base.heap.capacity
      modifies this`Repr, base.heap, list`head, list`nodes, list`Repr, list.Repr
      ensures Valid() && fresh(Repr - old(Repr))
      ensures Subscribers() == Added(old(Subscribers()), d)
      ensures base.heap.released == old(base.heap.released)
      ensures d in old(Subscribers()) ==> base.heap.used == old(base.heap.used)
      ensures d !in old(Subscribers()) ==>
        && base.heap.used == old(base.heap.used) + nodeSize
        && list.head.address == old(base.heap.used)
    {
      var node, k := list.Find(d);
      if node != null {
        return;
      }
      Link(d);
    }

    /** The allocating step of `add_delegate`: a node for `d` from the heap
        arena, linked in front of the old head. */
    method Link(d: Binding)
      requires Valid() && base.heap != null && d !in Subscribers()
      requires base.heap.used + nodeSize <= base.heap.capacity
      modifies this`Repr, base.heap, list`head, list`nodes, list`Repr, list.Repr
      ensures Valid() && fresh(Repr - old(Repr))
      ensures Subscribers() == [d] + old(Subscribers())
      ensures base.heap.used == old(base.heap.used) + nodeSize && list.head.address == old(base.heap.used)
      ensures base.heap.released == old(base.heap.released)
    {
      var address := base.heap.Allocate(nodeSize);
      list.Push(d, address);
      Repr := Repr + {list.head};
      ListChanged(this);
    }

    /** `remove_delegate`: unlinks the first node whose callback equals `d`,
        gives the node back to the heap arena and returns true; returns false
        and changes nothing when no node matches. */
    method RemoveDelegate(d: Binding) returns (found: bool)
      requires Valid() && (base.heap != null || Subscribers() == [])
      modifies base.heap, list`head, list`nodes, list.Repr
      ensures Valid()
      ensures found <==> d in old(Subscribers())
      ensures Subscribers() == RemoveFirst(old(Subscribers()), d)
      ensures found ==> exists k :: 0 <= k < |old(list.nodes)| && old(list.nodes)[k].delegate == d
                               && base.heap.released == old(base.heap.released) + [old(list.nodes)[k].address]
      ensures !found && base.heap != null ==> base.heap.released == old(base.heap.released)
      ensures base.heap != null ==> base.heap.used == old(base.heap.used)
    {
      var node, k := list.Find(d);
      if node != null {
        RemoveFirstAt(Subscribers(), d, k);
        list.Unlink(node, k);
        base.heap.Deallocate(node.address);
        return true;
      }
      RemoveAbsent(Subscribers(), d);
      return false;
    }

    /** `v_teardown`: the base part's teardown, then every node is unlinked
        from the head and given back to the heap arena, in list order. */
    method Teardown()
      requires Valid()
      requires list.nodes != [] ==> base.heap != null
      modifies base.heap, base.events, list`head, list`nodes
      ensures Valid() && list.head == null && Subscribers() == []
      ensures base.events != null ==> base.events.released == old(base.events.released) + BlockAddresses(base.chain)
      ensures base.heap != null ==> base.heap.released == old(base.heap.released) + NodeAddresses(old(list.nodes))
    {
      base.TeardownBlocks();
      if list.head != null {
        list.ReleaseAll(base.heap);
      }
    }

    /** `v_fire_events`: every subscriber in list order is invoked once per
        record, record `i` being the bytes at offset `i * eventSize`. */
    method FireEvents(data: seq<bv8>, eventSize: nat, eventCount: nat) returns (calls: seq<Call>)
      requires list.Valid()
      requires base.recordSize <= eventSize && eventCount * eventSize <= |data|
      ensures calls == FireCalls(Subscribers(), RecordsAt(data, eventSize, base.recordSize, eventCount))
    {
      calls := list.Fire(data, eventSize, base.recordSize, eventCount);
    }

    /** `event_channel_t::process_events`, whose `fire_events` call dispatches
        to this channel's `v_fire_events`: nothing on an empty chain;
        otherwise every block is fired once, in chain order, and the chain is
        dropped (its memory stays with the arena). */
    method ProcessEvents() returns (calls: seq<Call>)
      requires Valid()
      modifies base`chain
      ensures Valid() && base.chain == []
      ensures calls == ChainCalls(Subscribers(), old(base.ChainRecords()))
    {
      calls := [];
      if base.chain == [] {
        return;
      }
      calls := FireChain();
      base.chain := [];
    }

    /** The walk of `process_events` over the chain: each block, in chain
        order, fired with its own payload, stride and record count. */
    method FireChain() returns (calls: seq<Call>)
      requires base.Valid() && list.Valid()
      ensures calls == ChainCalls(Subscribers(), base.ChainRecords())
    {
      ghost var blocks := base.ChainRecords();
      calls := [];
      var b := 0;
      while b < |base.chain|
        invariant 0 <= b <= |base.chain|
        invariant calls == ChainCalls(Subscribers(), blocks[..b])
      {
        var block := base.chain[b];
        FitsRoom(block, base.recordSize);
        BlocksRecordsAt(base.chain, base.recordSize, b);
        var c := FireEvents(block.data, block.eventSize, block.eventCount);
        ChainCallsPrefix(Subscribers(), blocks, b);
        calls := calls + c;
        b := b + 1;
      }
      assert blocks[..b] == blocks;
    }
  }
}

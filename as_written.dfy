/** The block chain of `event_channel_t` and the channel count of the bus
    exactly as `c_event_bus.cpp` writes them, on values: pointers are
    indices into the blocks allocated so far, `Null` is the null pointer.
    The lemmas here show where the written code departs from what it is
    evidently meant to do; modules EventChannel and EventBus model the
    intended behaviour. */
module AsWritten {
  import opened EventBlocks

  const Null: int := -1

  /** An `event_block_t` as far as the links go: `m_event_count`, `m_next`
      and `m_prev`. */
  datatype Block = Block(count: nat, next: int, prev: int)

  /** Every block allocated so far, in allocation order, and
      `m_event_block_head`. */
  datatype Chain = Chain(blocks: seq<Block>, head: int)

  /** The chain `clear_memory` leaves: no blocks, a null head. */
  const Empty: Chain := Chain([], Null)

  /** What a call ends in: the slot handed out (block and record index) and
      the chain afterwards, or a dereference of a null pointer. */
  datatype Outcome = Allocated(chain: Chain, block: nat, slot: nat) | NullDeref

  predicate Ref(c: Chain, p: int) {
    p == Null || 0 <= p < |c.blocks|
  }

  /** Every pointer of the chain is null or names an allocated block. */
  predicate WellFormed(c: Chain) {
    Ref(c, c.head) && forall i | 0 <= i < |c.blocks| :: Ref(c, c.blocks[i].next) && Ref(c, c.blocks[i].prev)
  }

  /** `event_block_t::alloc_event` on the head block: the slot is the old
      count, and the `u16` count goes up by one. */
  function Bump(c: Chain): (r: Outcome)
    requires WellFormed(c) && c.head != Null
    ensures r.Allocated? && r.block == c.head && r.slot == c.blocks[c.head].count
    ensures WellFormed(r.chain) && r.chain.head == c.head && |r.chain.blocks| == |c.blocks|
  {
    var h := c.blocks[c.head];
    Allocated(c.(blocks := c.blocks[c.head := h.(count := (h.count + 1) % U16)]), c.head, h.count)
  }

  /** `event_channel_t::alloc_event` as written. A new block is linked in
      when the head is null or full: before a non-null head through
      `m_head->m_prev->m_next`, or as the head with both links null. The
      slot is then always taken from the head. */
  function AllocEvent(c: Chain): (r: Outcome)
    requires WellFormed(c)
    ensures r.Allocated? ==> WellFormed(r.chain) && r.chain.head != Null
  {
    if c.head == Null then
      Bump(Chain(c.blocks + [Block(0, Null, Null)], |c.blocks|))
    else if c.blocks[c.head].count >= MaxEventCount then
      var b := |c.blocks|;
      var h := c.blocks[c.head];
      if h.prev == Null then NullDeref
      else
        var linked := c.blocks + [Block(0, c.head, h.prev)];
        var relinked := linked[h.prev := linked[h.prev].(next := b)];
        Bump(Chain(relinked[c.head := relinked[c.head].(prev := b)], c.head))
    else
      Bump(c)
  }

  /** `n` calls of `alloc_event` in a row, stopping at a null dereference. */
  function AllocMany(c: Chain, n: nat): (r: Outcome)
    requires WellFormed(c)
    ensures r.Allocated? ==> WellFormed(r.chain)
    decreases n
  {
    if n == 0 then Allocated(c, 0, 0)
    else
      match AllocEvent(c)
      case NullDeref => NullDeref
      case Allocated(next, _, _) => AllocMany(next, n - 1)
  }

  /** Where the do-while walks of `process_events` and `teardown` end: back
      at the head having visited `order`, on a null pointer that the next
      iteration dereferences, or in a cycle that misses the head. */
  datatype WalkEnd = Visited(order: seq<nat>) | WalkDerefsNull | MissesHead

  /** The walk from block `b`: visit it, step to `m_next`, stop on the head. */
  function WalkFrom(c: Chain, b: nat, fuel: nat): (w: WalkEnd)
    requires WellFormed(c) && b < |c.blocks|
    decreases fuel
  {
    var next := c.blocks[b].next;
    if next == c.head then Visited([b])
    else if next == Null then WalkDerefsNull
    else if fuel == 0 then MissesHead
    else match WalkFrom(c, next, fuel - 1)
      case Visited(rest) => Visited([b] + rest)
      case w => w
  }

  /** Both walks as written: nothing on a null head, otherwise from the head. */
  function Walk(c: Chain): (w: WalkEnd)
    requires WellFormed(c)
  {
    if c.head == Null then Visited([]) else WalkFrom(c, c.head, |c.blocks|)
  }

  /** The first block gets null links from lines 47-48, so a walk over a
      one-block chain steps to null and dereferences it on the next turn. */
  lemma FirstBlockNotCircular()
    ensures AllocEvent(Empty) == Allocated(Chain([Block(1, Null, Null)], 0), 0, 0)
    ensures Walk(AllocEvent(Empty).chain) == WalkDerefsNull
  {
  }

  /** `n` allocations into an empty chain, for `1 <= n <= MaxEventCount`,
      leave one block holding `n` records, still with null links. */
  lemma {:induction false} FillFirstBlock(n: nat)
    requires 1 <= n <= MaxEventCount
    ensures AllocMany(Empty, n) == Allocated(Chain([Block(n, Null, Null)], 0), 0, 0)
  {
    if n > 1 {
      FillFirstBlock(n - 1);
      AllocManyStep(Empty, n - 1);
      assert AllocEvent(Chain([Block(n - 1, Null, Null)], 0)) == Allocated(Chain([Block(n, Null, Null)], 0), 0, n - 1);
    }
  }

  /** One more allocation after `n` of them. */
  lemma {:induction false} AllocManyStep(c: Chain, n: nat)
    requires WellFormed(c)
    ensures AllocMany(c, n + 1) ==
      match AllocMany(c, n)
      case NullDeref => NullDeref
      case Allocated(next, _, _) => match AllocEvent(next) case NullDeref => NullDeref case Allocated(last, _, _) => Allocated(last, 0, 0)
    decreases n
  {
    if n > 0 {
      match AllocEvent(c)
      case NullDeref =>
      case Allocated(next, _, _) => AllocManyStep(next, n - 1);
    }
  }

  /** Once the first block is full, the next `alloc_event` reaches line 42
      with a null `m_prev` on the head and dereferences it. */
  lemma SecondBlockDerefsNull()
    ensures AllocMany(Empty, MaxEventCount + 1) == NullDeref
  {
    FillFirstBlock(MaxEventCount);
    AllocManyStep(Empty, MaxEventCount);
  }

  /** Even with a circular first block, as the walks expect, a full head
      stays the head: the new block is linked in but the slot comes from the
      full head, one past its capacity, which lies outside its payload. */
  lemma FullHeadReused()
    ensures AllocEvent(Chain([Block(MaxEventCount, 0, 0)], 0))
         == Allocated(Chain([Block(MaxEventCount + 1, 1, 1), Block(0, 0, 0)], 0), 0, MaxEventCount)
  {
  }

  /** The bus's channel table as far as dispatch goes: `m_channel_count`
      and which slots hold a channel. */
  datatype Table = Table(count: int, occupied: seq<bool>)

  /** The table `create_event_bus` sets up. */
  const NewTable: Table := Table(0, seq(MaxEventCount, _ => false))

  /** `set_event_channel` as written: the slot is filled, the count stays. */
  function SetChannel(t: Table, id: nat): (r: Table)
    requires id < |t.occupied|
    ensures r.count == t.count && r.occupied == t.occupied[id := true]
  {
    t.(occupied := t.occupied[id := true])
  }

  /** `alloc_event_channel` as written: the slot is filled and the count
      becomes `id + 1`, whatever it was. */
  function AllocChannel(t: Table, id: nat): (r: Table)
    requires id < |t.occupied|
    ensures r.count == id + 1 && r.occupied == t.occupied[id := true]
  {
    Table(id + 1, t.occupied[id := true])
  }

  /** Whether `process_events(bus)` dispatches slot `i`. */
  predicate Reached(t: Table, i: nat) {
    i < t.count && i < |t.occupied| && t.occupied[i]
  }

  /** On any table, a slot at or above the count that `set_event_channel`
      fills is occupied but not dispatched. */
  lemma SubscribedChannelUnreached(t: Table, id: nat)
    requires id < |t.occupied| && t.count <= id
    ensures SetChannel(t, id).occupied[id] && !Reached(SetChannel(t, id), id)
  {
  }

  /** The table after `set_event_channel` fills the slots `ids` in order, as
      `register_event_subscriber` does for new types. */
  function SetChannels(t: Table, ids: seq<nat>): (r: Table)
    requires forall k | 0 <= k < |ids| :: ids[k] < |t.occupied|
    ensures |r.occupied| == |t.occupied|
    decreases ids
  {
    if ids == [] then t else SetChannels(SetChannel(t, ids[0]), ids[1..])
  }

  /** Setting channels never moves the count. */
  lemma {:induction false} SetChannelsKeepsCount(t: Table, ids: seq<nat>)
    requires forall k | 0 <= k < |ids| :: ids[k] < |t.occupied|
    ensures SetChannels(t, ids).count == t.count
    decreases ids
  {
    if ids != [] {
      SetChannelsKeepsCount(SetChannel(t, ids[0]), ids[1..]);
    }
  }

  /** From `create_event_bus`, however many channels subscription sets into
      the table, `process_events(bus)` dispatches none of them. */
  lemma SubscribedChannelsNeverReached(ids: seq<nat>)
    requires forall k | 0 <= k < |ids| :: ids[k] < MaxEventCount
    ensures forall i: nat :: !Reached(SetChannels(NewTable, ids), i)
  {
    SetChannelsKeepsCount(NewTable, ids);
  }

  /** Allocating channel 2 after channel 7 lowers the count to 3, and
      channel 7 is no longer dispatched. */
  lemma AllocLowersCount()
    ensures var t := AllocChannel(AllocChannel(NewTable, 7), 2);
      t.count == 3 && t.occupied[7] && !Reached(t, 7)
  {
  }
}

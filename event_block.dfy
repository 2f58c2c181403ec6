/** Record blocks of an event channel (`event_block_t`) and the bump arenas
    the bus hands out memory from. A block is a header followed by room for
    `s_max_event_count` records of one event type; records are placed at a
    fixed stride, the record size rounded up to a multiple of 8. */
module EventBlocks {

  /** `s_max_event_count`: records per block and slots of the bus's channel
      table. Its definition is not part of this model; 1024 fits the `u16`
      fields of a block. */
  const MaxEventCount: nat := 1024

  /** `sizeof(event_block_t)` on a 64-bit target: one `u32`, two `u16`, two pointers. */
  const BlockHeaderSize: nat := 24

  const U16: nat := 0x1_0000
  const U32: nat := 0x1_0000_0000

  /** The stride `(size + (8 - 1)) & ~(8 - 1)` in `u32` arithmetic: the sum
      wraps modulo 2^32 and the mask clears the three low bits. */
  function Stride(size: nat): nat
    requires size < U32
  {
    var t := (size + 7) % 0x1_0000_0000;
    t - t % 8
  }

  /** Without wrap-around the stride is the least multiple of 8 that is at
      least `size`; for the last seven `u32` values the sum wraps and the
      stride is 0. */
  lemma StrideBounds(size: nat)
    requires size < U32
    ensures size <= U32 - 8 ==> Stride(size) % 8 == 0 && size <= Stride(size) < size + 8
    ensures size > U32 - 8 ==> Stride(size) == 0
  {
  }

  /** Bytes `alloc_event` asks the event arena for, as written: the payload
      is sized with the unrounded record size. */
  function BlockBytesAsWritten(size: nat): nat {
    BlockHeaderSize + MaxEventCount * size
  }

  /** Bytes a block needs for `MaxEventCount` records at the rounded stride. */
  function BlockBytes(size: nat): nat
    requires size < U32
  {
    BlockHeaderSize + MaxEventCount * Stride(size)
  }

  /** With the as-written size, the last slot of a full block ends past the
      block whenever the record size is not a multiple of 8. */
  lemma AsWrittenLastSlotOverruns(size: nat)
    requires size <= U32 - 8 && size % 8 != 0
    ensures BlockHeaderSize + (MaxEventCount - 1) * Stride(size) + size > BlockBytesAsWritten(size)
  {
    StrideBounds(size);
    var s := Stride(size);
    assert s >= size + 1;
    assert (MaxEventCount - 1) * s >= (MaxEventCount - 1) * (size + 1);
  }

  /** The concrete case: 4-byte records are strided by 8, so record 1023 starts
      at payload offset 8184 of a payload of 4096 bytes. */
  lemma AsWrittenOverrunExample()
    ensures Stride(4) == 8
    ensures BlockBytesAsWritten(4) == BlockHeaderSize + 4096
    ensures (MaxEventCount - 1) * Stride(4) == 8184
  {
  }

  /** Sized with the stride, every slot of a block ends inside the block. */
  lemma SlotFitsBlock(size: nat, i: nat)
    requires size <= U32 - 8 && i < MaxEventCount
    ensures BlockHeaderSize + i * Stride(size) + size <= BlockBytes(size)
  {
    StrideBounds(size);
    SlotWithin(i, Stride(size), size, MaxEventCount);
  }

  /** Slot `i` of a block lies inside its payload of `MaxEventCount` strides,
      and slots `i < j` do not overlap. */
  lemma SlotWithin(i: nat, stride: nat, size: nat, count: nat)
    requires i < count && size <= stride
    ensures i * stride + size <= count * stride
  {
    assert (i + 1) * stride == i * stride + stride;
    assert (i + 1) * stride <= count * stride;
  }

  lemma MulMono(a: nat, b: nat, c: nat)
    requires a <= b
    ensures a * c <= b * c
  {
  }

  lemma SlotsDisjoint(i: nat, j: nat, stride: nat, size: nat)
    requires i < j && size <= stride
    ensures i * stride + size <= j * stride
  {
    SlotWithin(i, stride, size, j);
  }

  /** The records of a block: record `i` is the `size` bytes at offset
      `i * stride` of the payload `mem`. */
  ghost function RecordsAt(mem: seq<bv8>, stride: nat, size: nat, count: nat): (r: seq<seq<bv8>>)
    requires size <= stride && count * stride <= |mem|
    ensures |r| == count
  {
    if count == 0 then []
    else
      SlotWithin(count - 1, stride, size, count);
      assert (count - 1) * stride <= count * stride;
      RecordsAt(mem, stride, size, count - 1) + [mem[(count - 1) * stride .. (count - 1) * stride + size]]
  }

  /** Record `i` of a block is the `size` bytes at payload offset `i * stride`. */
  lemma {:induction false} RecordsAtIndex(mem: seq<bv8>, stride: nat, size: nat, count: nat, i: nat)
    requires size <= stride && count * stride <= |mem| && i < count
    ensures i * stride + size <= |mem|
    ensures RecordsAt(mem, stride, size, count)[i] == mem[i * stride .. i * stride + size]
  {
    SlotWithin(i, stride, size, count);
    SlotWithin(count - 1, stride, size, count);
    if i < count - 1 {
      RecordsAtIndex(mem, stride, size, count - 1, i);
    }
  }

  /** The records of a block depend only on the bytes of their slots: two
      payloads that agree on their first `n` bytes hold the same records in
      the slots that end by `n`. */
  lemma {:induction false} RecordsAtAgree(m1: seq<bv8>, m2: seq<bv8>, stride: nat, size: nat, count: nat, n: nat)
    requires size <= stride && count * stride <= n <= |m1| && n <= |m2|
    requires m1[..n] == m2[..n]
    ensures RecordsAt(m1, stride, size, count) == RecordsAt(m2, stride, size, count)
  {
    if count > 0 {
      SlotWithin(count - 1, stride, size, count);
      assert (count - 1) * stride <= count * stride;
      RecordsAtAgree(m1, m2, stride, size, count - 1, n);
      var lo := (count - 1) * stride;
      assert m1[lo .. lo + size] == m1[..n][lo .. lo + size];
      assert m2[lo .. lo + size] == m2[..n][lo .. lo + size];
    }
  }

  /** A bump arena (`alloc_buffer_t`): a counter of bytes handed out against
      a fixed capacity, and a log of the addresses given back to it. */
  class Arena {
    const capacity: nat
    var used: nat
    var released: seq<nat>

    constructor (capacity: nat)
      ensures this.capacity == capacity && used == 0 && released == []
    {
      this.capacity := capacity;
      used := 0;
      released := [];
    }

    /** Hands out `n` bytes at the current end. */
    method Allocate(n: nat) returns (address: nat)
      requires used + n <= capacity
      modifies this`used
      ensures address == old(used) && used == old(used) + n
    {
      address := used;
      used := used + n;
    }

    /** Gives the allocation at `address` back; a bump arena reclaims nothing
      before a reset, so only the call is recorded. */
    method Deallocate(address: nat)
      modifies this`released
      ensures released == old(released) + [address]
    {
      released := released + [address];
    }
  }

  /** `event_block_t`. `data` is the payload that follows the header,
      `base()` in the source, as the bytes it holds. */
  class EventBlock {
    const address: nat
    const eventSize: nat
    const eventMax: nat
    var eventCount: nat
    var data: seq<bv8>

    /** A block set up as `alloc_event` does: stride from the record size,
      capacity `s_max_event_count`, no records yet. */
    constructor (address: nat, size: nat)
      requires size < U32
      ensures this.address == address && eventSize == Stride(size)
      ensures eventMax == MaxEventCount && eventCount == 0
      ensures |data| == MaxEventCount * eventSize
    {
      this.address := address;
      eventSize := Stride(size);
      eventMax := MaxEventCount;
      eventCount := 0;
      data := seq(MaxEventCount * Stride(size), _ => 0);
    }

    /** `is_full(size)`: the size argument plays no part. */
    predicate IsFull(size: nat)
      reads this
    {
      eventCount >= eventMax
    }

    /** `alloc_event()`: returns the payload offset `m_event_count * m_event_size`
      and bumps the `u16` counter. */
    method AllocEvent() returns (offset: nat)
      modifies this`eventCount
      ensures offset == old(eventCount) * eventSize
      ensures eventCount == (old(eventCount) + 1) % U16
      ensures old(eventCount) + 1 < U16 ==> eventCount == old(eventCount) + 1
      ensures old(eventCount) == 0 ==> offset == 0
    {
      offset := eventCount * eventSize;
      eventCount := (eventCount + 1) % U16;
    }
  }

  /** `is_full` holds exactly at capacity, whatever size it is asked about. */
  lemma IsFullIgnoresSize(b: EventBlock, s1: nat, s2: nat)
    ensures b.IsFull(s1) == b.IsFull(s2)
    ensures b.IsFull(s1) <==> b.eventCount >= b.eventMax
  {
  }
}

/** The single-queue layout as an object: header fields, the message slots and the payload area behind them. */
module SimplifiedShmLayout {
  import opened Word64
  import opened Messages
  import Queue = SimplifiedRing
  import Monitor = ThreadMonitor

  type byte = bv8

  /** An 8-byte sequence id, a 4-byte function id and a 4-byte payload length. */
  const SLOT_SIZE: nat := 8 + 4 + 4
  const MAGIC_NUMBER: u32 := 0x50484E58
  const VERSION: u32 := 1

  // ---- Geometry, in bytes; `headerSize` is the size of the layout structure ----

  function CalculateSize(headerSize: u64, capacity: u64, payloadSize: u64): u64 {
    Wrap(headerSize + capacity * SLOT_SIZE + payloadSize)
  }

  function MessageOffset(queueOffset: u64, capacity: u64, index: u64): u64
    requires capacity > 0
  {
    Wrap(queueOffset + index % capacity * SLOT_SIZE)
  }

  function PayloadOffset(headerSize: u64, capacity: u64): u64 {
    Wrap(headerSize + capacity * SLOT_SIZE)
  }

  /** The size check lets a segment pass that is too small exactly when the sum of the parts wraps. */
  lemma SizeCheckExact(total: u64, headerSize: u64, capacity: u64, payloadSize: u64)
    ensures var needed := headerSize + 16 * capacity + payloadSize;
            CalculateSize(headerSize, capacity, payloadSize) <= total < needed
            <==> needed >= TWO64 && total >= needed % TWO64
  {
  }

  /** Where everything is when the sum does not wrap past the segment. */
  lemma OffsetsExact(total: u64, headerSize: u64, capacity: u64, payloadSize: u64, index: u64)
    requires capacity > 0 && headerSize + 16 * capacity + payloadSize <= total
    ensures CalculateSize(headerSize, capacity, payloadSize) == headerSize + 16 * capacity + payloadSize
    ensures PayloadOffset(headerSize, capacity) == headerSize + 16 * capacity
    ensures MessageOffset(headerSize, capacity, index) == headerSize + 16 * (index % capacity)
  {
    OffsetOf(headerSize, capacity, payloadSize, index % capacity);
  }

  lemma OffsetOf(headerSize: u64, capacity: u64, payloadSize: u64, r: nat)
    requires r < capacity && headerSize + 16 * capacity + payloadSize < TWO64
    ensures Wrap(headerSize + r * SLOT_SIZE) == headerSize + 16 * r
  {
  }

  /** Every 16-byte slot lies between the queue offset and the payload offset, and the payload area in the segment. */
  lemma SlotInside(total: u64, headerSize: u64, capacity: u64, payloadSize: u64, index: u64)
    requires capacity > 0 && headerSize + 16 * capacity + payloadSize <= total
    ensures headerSize <= MessageOffset(headerSize, capacity, index)
    ensures MessageOffset(headerSize, capacity, index) + 16 <= PayloadOffset(headerSize, capacity)
    ensures PayloadOffset(headerSize, capacity) + payloadSize <= total
  {
    hide MessageOffset, PayloadOffset, CalculateSize;
    OffsetsExact(total, headerSize, capacity, payloadSize, index);
  }

  /** Two indices share a slot or their slots do not overlap; neighbouring slots are 16 bytes apart. */
  lemma SlotsApart(total: u64, headerSize: u64, capacity: u64, payloadSize: u64, i: u64, j: u64)
    requires capacity > 0 && headerSize + 16 * capacity + payloadSize <= total
    requires i % capacity < j % capacity
    ensures MessageOffset(headerSize, capacity, i) + 16 <= MessageOffset(headerSize, capacity, j)
    ensures j % capacity == i % capacity + 1 ==>
              MessageOffset(headerSize, capacity, i) + 16 == MessageOffset(headerSize, capacity, j)
  {
    hide MessageOffset, PayloadOffset, CalculateSize;
    OffsetsExact(total, headerSize, capacity, payloadSize, i);
    OffsetsExact(total, headerSize, capacity, payloadSize, j);
  }

  class SimplifiedShmLayout {
    const slots: array<MsgHeader>
    const payload: array<byte>
    const monitor: Monitor.ThreadMonitor
    var magicNumber: u32
    var version: u32
    var shmSize: u64
    var headerSize: u64
    var queueOffset: u64
    var payloadOffset: u64
    var queueCapacity: u64
    var payloadSize: u64
    var producerPid: u64
    var creationTime: u64
    var writeIdx: u64
    var readIdx: u64

    /** What a layout that passes the consumer's validity check looks like. */
    ghost predicate Valid()
      reads this
    {
      0 < queueCapacity <= slots.Length && payloadSize <= payload.Length && (slots as object) != payload
    }

    ghost function Ring(): (r: Queue.Ring)
      requires Valid()
      reads this, slots
      ensures |r.slots| == queueCapacity && Queue.HasSlots(r)
    {
      Queue.Ring(slots[..queueCapacity], writeIdx, readIdx)
    }

    constructor (slotCount: nat, payloadBytes: nat)
      ensures fresh(slots) && slots.Length == slotCount && fresh(payload) && payload.Length == payloadBytes
      ensures (slots as object) != payload && fresh(monitor) && magicNumber == 0
    {
      slots := new MsgHeader[slotCount](_ => MsgHeader(0, 0, 0));
      payload := new byte[payloadBytes](_ => 0);
      monitor := new Monitor.ThreadMonitor();
      magicNumber, version, producerPid, creationTime := 0, 0, 0, 0;
      shmSize, headerSize, queueOffset, payloadOffset := 0, 0, 0, 0;
      queueCapacity, payloadSize, writeIdx, readIdx := 0, 0, 0, 0;
    }

    /** `header` is the size of the layout structure; the process id and the clock reading are cast to 64 bits. */
    method Initialize(total: u64, header: u64, capacity: u64, payloadBytes: u64, pid: int, now: int) returns (ok: bool)
      modifies this, monitor
      ensures ok <==> total >= (header + 16 * capacity + payloadBytes) % TWO64
      ensures !ok ==> unchanged(this) && unchanged(monitor)
      ensures ok ==> magicNumber == 0x50484E58 && version == 1
      ensures ok ==> queueCapacity == capacity && payloadSize == payloadBytes && shmSize == total
      ensures ok ==> headerSize == queueOffset == header && payloadOffset == (header + 16 * capacity) % TWO64
      ensures ok ==> producerPid == Wrap(pid) && creationTime == Wrap(now)
      ensures ok ==> writeIdx == readIdx == 0
      ensures ok ==> !monitor.Processing() && monitor.processingSeq == 0 && monitor.startTimestamp == 0
    {
      var minSize := CalculateSize(header, capacity, payloadBytes);
      if total < minSize {
        return false;
      }
      magicNumber, version := MAGIC_NUMBER, VERSION;
      shmSize, headerSize, queueOffset := total, header, header;
      payloadOffset := Wrap(queueOffset + capacity * SLOT_SIZE);
      payloadSize, queueCapacity := payloadBytes, capacity;
      producerPid, creationTime := Wrap(pid), Wrap(now);
      writeIdx, readIdx := 0, 0;
      monitor.Reset();
      ok := true;
    }

    method IsEmpty() returns (empty: bool)
      requires Valid()
      ensures empty == Queue.Empty(Ring())
    {
      empty := writeIdx == readIdx;
    }

    method IsFull() returns (full: bool)
      requires Valid()
      ensures full == Queue.Full(Ring())
    {
      full := Sub(writeIdx, readIdx) >= queueCapacity;
    }

    method GetMessage(index: u64) returns (slot: nat)
      requires Valid()
      ensures slot == Queue.Slot(Ring(), index)
    {
      slot := index % queueCapacity;
    }

    method Push(header: MsgHeader) returns (ok: bool)
      requires Valid()
      modifies this`writeIdx, slots
      ensures Valid() && Ring() == Queue.After(old(Ring()), Queue.Push(header))
      ensures Queue.Done(ok) == Queue.ReplyTo(old(Ring()), Queue.Push(header))
    {
      var currentWrite, currentRead := writeIdx, readIdx;
      if Sub(currentWrite, currentRead) >= queueCapacity {
        return false;
      }
      var slot := GetMessage(currentWrite);
      slots[slot] := header;
      writeIdx := Add(currentWrite, 1);
      ok := true;
    }

    /** The slot of the front message, or nothing. */
    method Peek() returns (slot: Option<nat>)
      requires Valid()
      ensures slot.Some? ==> slot.value < slots.Length
      ensures Queue.Front(if slot.Some? then Some(slots[slot.value]) else None) == Queue.ReplyTo(Ring(), Queue.Peek)
    {
      var currentRead, currentWrite := readIdx, writeIdx;
      if currentWrite == currentRead {
        return None;
      }
      var front := GetMessage(currentRead);
      slot := Some(front);
    }

    method Pop() returns (ok: bool)
      requires Valid()
      modifies this`readIdx
      ensures Valid() && Ring() == Queue.After(old(Ring()), Queue.Pop)
      ensures Queue.Done(ok) == Queue.ReplyTo(old(Ring()), Queue.Pop)
    {
      var currentRead, currentWrite := readIdx, writeIdx;
      if currentWrite == currentRead {
        return false;
      }
      readIdx := Add(currentRead, 1);
      ok := true;
    }
  }
}

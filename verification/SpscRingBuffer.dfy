/**
 * The ring buffer as an object over shared memory.  `memory` is the shared segment after the layout
 * header, one cell per element; the ring owns the cells from `bufferStart` on.
 */
module SpscRingBuffer {
  import opened Word64
  import opened Messages

  /** The queue held in the cells [start, start + capacity): `n` elements from count `first` on. */
  function Window<T>(memory: seq<T>, start: nat, capacity: nat, first: nat, n: nat): (q: seq<T>)
    requires capacity > 0 && start + capacity <= |memory|
    ensures |q| == n
    ensures forall k :: 0 <= k < n ==> q[k] == memory[start + (first + k) % capacity]
  {
    seq(n, k requires 0 <= k < n => memory[start + (first + k) % capacity])
  }

  /** A write outside the ring's cells does not change what it holds. */
  lemma WindowFrame<T>(memory: seq<T>, memory': seq<T>, start: nat, capacity: nat, first: nat, n: nat)
    requires capacity > 0 && start + capacity <= |memory| == |memory'|
    requires forall c :: start <= c < start + capacity ==> memory'[c] == memory[c]
    ensures Window(memory', start, capacity, first, n) == Window(memory, start, capacity, first, n)
  {
  }

  /** Writing the cell after the last element appends to the queue. */
  lemma WindowAppend<T>(memory: seq<T>, start: nat, capacity: nat, first: nat, n: nat, x: T)
    requires capacity > n && start + capacity <= |memory|
    ensures Window(memory[start + (first + n) % capacity := x], start, capacity, first, n + 1)
         == Window(memory, start, capacity, first, n) + [x]
  {
    var last := (first + n) % capacity;
    var memory' := memory[start + last := x];
    var q' := Window(memory', start, capacity, first, n + 1);
    forall k | 0 <= k < n ensures q'[k] == memory[start + (first + k) % capacity] {
      SlotsDistinct(first + k, first + n, capacity);
    }
  }

  lemma WindowDrop<T>(memory: seq<T>, start: nat, capacity: nat, first: nat, n: nat, d: nat)
    requires capacity > 0 && start + capacity <= |memory| && d <= n
    ensures Window(memory, start, capacity, first + d, n - d) == Window(memory, start, capacity, first, n)[d..]
  {
    var q, q' := Window(memory, start, capacity, first, n), Window(memory, start, capacity, first + d, n - d);
    forall k | 0 <= k < n - d ensures q'[k] == q[d..][k] {
      assert first + d + k == first + (d + k);
    }
  }

  class SpscRingBuffer<T> {
    const capacity: nat
    const memory: array<T>
    var bufferStart: nat
    var writeIdx: u64
    var readIdx: u64
    ghost var written: nat    // pushes so far, without wrapping
    ghost var consumed: nat   // pops and skips so far, without wrapping

    ghost predicate Valid()
      reads this
    {
      && PassesCapacityAssert(capacity) && capacity < TWO64
      && bufferStart + capacity <= memory.Length
      && consumed <= written <= consumed + capacity
      && writeIdx == Wrap(written) && readIdx == Wrap(consumed)
    }

    /** The cells of the shared memory this ring may read or write. */
    ghost predicate Owns(cell: int)
      reads this
    {
      bufferStart <= cell < bufferStart + capacity
    }

    ghost function Contents(): (q: seq<T>)
      requires Valid()
      reads this, memory
    {
      Window(memory[..], bufferStart, capacity, consumed, written - consumed)
    }

    lemma StoredDifference()
      requires Valid()
      ensures Sub(writeIdx, readIdx) == |Contents()| <= capacity
    {
      SubOfWrapped(written, consumed);
    }

    constructor (capacity: nat, memory: array<T>)
      requires PassesCapacityAssert(capacity) && capacity < TWO64
      ensures this.capacity == capacity && this.memory == memory
      ensures bufferStart == 0 && writeIdx == 0 && readIdx == 0 && written == 0 && consumed == 0
    {
      this.capacity, this.memory, this.bufferStart := capacity, memory, 0;
      writeIdx, readIdx, written, consumed := 0, 0, 0, 0;
    }

    /** The indices are at zero and the buffer starts here. */
    ghost predicate Placed(start: nat)
      reads this
    {
      bufferStart == start && writeIdx == readIdx == 0 && written == consumed == 0
    }

    /** A placed ring is an empty queue exactly when its cells exist. */
    lemma PlacedIsEmpty(start: nat)
      requires PassesCapacityAssert(capacity) && capacity < TWO64 && Placed(start)
      ensures Valid() <==> start + capacity <= memory.Length
      ensures Valid() ==> Contents() == []
    {
    }

    /** `size` counts cells, as `buffer_size / sizeof(T)`; that they exist is not tested. */
    method Initialize(start: nat, size: nat) returns (ok: bool)
      requires PassesCapacityAssert(capacity) && capacity < TWO64
      modifies this`bufferStart, this`writeIdx, this`readIdx, this`written, this`consumed
      ensures ok <==> size >= capacity
      ensures ok ==> Placed(start) && (Valid() <==> start + capacity <= memory.Length)
      ensures ok && Valid() ==> Contents() == []
      ensures !ok ==> unchanged(this)
    {
      if size < capacity {
        return false;
      }
      bufferStart := start;
      writeIdx, readIdx, written, consumed := 0, 0, 0, 0;
      ok := true;
    }

    method GetElementPtr(index: u64) returns (cell: nat)
      requires Valid()
      ensures Owns(cell) && cell == bufferStart + BitAnd(index, capacity - 1)
    {
      cell := bufferStart + BitAnd(index, capacity - 1);
    }

    method Push(item: T) returns (ok: bool)
      requires Valid()
      modifies this`writeIdx, this`written, memory
      ensures Valid()
      ensures ok <==> |old(Contents())| < capacity
      ensures Contents() == if ok then old(Contents()) + [item] else old(Contents())
      ensures forall c :: 0 <= c < memory.Length && !Owns(c) ==> memory[c] == old(memory[c])
    {
      var currentWrite, currentRead := writeIdx, readIdx;
      StoredDifference();
      if Sub(currentWrite, currentRead) >= capacity {
        return false;
      }
      var slot := GetElementPtr(currentWrite);
      MaskOfWrapped(written, capacity);
      WindowAppend(memory[..], bufferStart, capacity, consumed, written - consumed, item);
      AddOfWrapped(written, 1);
      ghost var before := memory[..];
      memory[slot] := item;
      assert memory[..] == before[slot := item];
      writeIdx, written := Add(currentWrite, 1), written + 1;
      ok := true;
    }

    /** The cell of the front element, or nothing. */
    method Peek() returns (cell: Option<nat>)
      requires Valid()
      ensures cell.None? <==> Contents() == []
      ensures cell.Some? ==> Owns(cell.value) && memory[cell.value] == Contents()[0]
    {
      var currentRead, currentWrite := readIdx, writeIdx;
      WrappedEqual(written, consumed);
      if currentWrite == currentRead {
        return None;
      }
      var slot := GetElementPtr(currentRead);
      MaskOfWrapped(consumed, capacity);
      cell := Some(slot);
    }

    method Pop() returns (ok: bool)
      requires Valid()
      modifies this`readIdx, this`consumed
      ensures Valid()
      ensures ok <==> old(Contents()) != []
      ensures Contents() == if ok then old(Contents())[1..] else []
    {
      var currentRead, currentWrite := readIdx, writeIdx;
      WrappedEqual(written, consumed);
      if currentWrite == currentRead {
        return false;
      }
      WindowDrop(memory[..], bufferStart, capacity, consumed, written - consumed, 1);
      AddOfWrapped(consumed, 1);
      readIdx, consumed := Add(currentRead, 1), consumed + 1;
      ok := true;
    }

    /**
     * There is no bounds check.  Within the queue it drops `count` elements; past its end the stored
     * indices no longer describe a queue: their difference exceeds the capacity.
     */
    method ForceAdvanceReadIndex(count: u64)
      requires Valid()
      modifies this`readIdx, this`consumed
      ensures readIdx == Add(old(readIdx), count)
      ensures Valid() <==> count <= |old(Contents())|
      ensures Valid() ==> Contents() == old(Contents())[count..]
      ensures |old(Contents())| < count < TWO64 - capacity ==> Sub(writeIdx, readIdx) > capacity
    {
      ghost var held := written - consumed;
      AddOfWrapped(consumed, count);
      if count <= held {
        WindowDrop(memory[..], bufferStart, capacity, consumed, held, count);
      } else if count < TWO64 - capacity {
        SubOfWrapped(written + TWO64, consumed + count);
        DivModUnique(written + TWO64, TWO64, written / TWO64 + 1, written % TWO64);
      }
      readIdx, consumed := Add(readIdx, count), consumed + count;
    }

    method Empty() returns (empty: bool)
      requires Valid()
      ensures empty <==> Contents() == []
    {
      WrappedEqual(written, consumed);
      empty := writeIdx == readIdx;
    }

    method Full() returns (full: bool)
      requires Valid()
      ensures full <==> |Contents()| == capacity
    {
      StoredDifference();
      full := Sub(writeIdx, readIdx) >= capacity;
    }

    method Size() returns (size: nat)
      requires Valid()
      ensures size == |Contents()|
    {
      StoredDifference();
      size := Sub(writeIdx, readIdx);
    }

    method FreeSpace() returns (free: u64)
      requires Valid()
      ensures free == capacity - |Contents()|
    {
      StoredDifference();
      free := Sub(capacity, Sub(writeIdx, readIdx));
    }
  }
}

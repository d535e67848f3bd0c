/** The circular buffer shared by labs/lab_22_condvar.c and labs/lab_23_mpmc_semaphore.c. */
module Ring {
  import opened Arithmetic


  /** The i-th slot after `start`. */
  function Slot(start: nat, i: nat, size: nat): (slot: nat)
    requires size > 0
    ensures slot < size
  {
    (start + i) % size
  }

  /** The queue held by `count` slots from `start` on, oldest first. */
  function Contents(buffer: seq<int>, start: nat, count: nat): seq<int>
    requires |buffer| > 0
  {
    seq(count, i requires 0 <= i < count => buffer[Slot(start, i, |buffer|)])
  }

  lemma SlotOnce(start: nat, i: nat, size: nat)
    requires start < size && i <= size
    ensures Slot(start, i, size) == if start + i < size then start + i else start + i - size
  {
    if start + i < size {
      DivModUnique(start + i, size, 0, start + i);
    } else if start + i < 2 * size {
      DivModUnique(start + i, size, 1, start + i - size);
    }
  }

  lemma SlotsOnce(start: nat, size: nat)
    requires start < size
    ensures forall i: nat {:trigger Slot(start, i, size)} :: i <= size ==>
              Slot(start, i, size) == if start + i < size then start + i else start + i - size
  {
    forall i: nat | i <= size
      ensures Slot(start, i, size) == if start + i < size then start + i else start + i - size
    {
      SlotOnce(start, i, size);
    }
  }

  /** Storing past the end of a queue that is not full appends to it. */
  lemma PutAppends(buffer: seq<int>, start: nat, count: nat, v: int)
    requires start < |buffer| && count < |buffer|
    ensures Contents(buffer[Slot(start, count, |buffer|) := v], start, count + 1) == Contents(buffer, start, count) + [v]
  {
    SlotsOnce(start, |buffer|);
  }

  /** Stepping the start of a queue that is not empty removes its oldest element. */
  lemma TakeRemoves(buffer: seq<int>, start: nat, count: nat)
    requires start < |buffer| && 0 < count <= |buffer|
    ensures Contents(buffer, start, count)
         == [buffer[start]] + Contents(buffer, Slot(start, 1, |buffer|), count - 1)
  {
    SlotsOnce(start, |buffer|);
    SlotsOnce(Slot(start, 1, |buffer|), |buffer|);
    var rest := Contents(buffer, Slot(start, 1, |buffer|), count - 1);
    forall i | 0 <= i < count - 1 ensures Contents(buffer, start, count)[i + 1] == rest[i] {
      assert Slot(Slot(start, 1, |buffer|), i, |buffer|) == Slot(start, i + 1, |buffer|);
    }
  }

  /** Stepping either end of the queue leaves the end where the next element goes. */
  lemma EndMoves(start: nat, count: nat, size: nat)
    requires start < size && count <= size
    ensures count < size ==> Slot(Slot(start, count, size), 1, size) == Slot(start, count + 1, size)
    ensures count > 0 ==> Slot(Slot(start, 1, size), count - 1, size) == Slot(start, count, size)
  {
    SlotsOnce(start, size);
    SlotsOnce(Slot(start, count, size), size);
    SlotsOnce(Slot(start, 1, size), size);
  }

  /** The buffer array and its indices, as the critical sections change them. */
  class CircularBuffer {
    var buffer: array<int>
    var count: nat
    var inIdx: nat
    var outIdx: nat

    ghost predicate Valid()
      reads this, buffer
    {
      && count <= buffer.Length && outIdx < buffer.Length
      && inIdx == Slot(outIdx, count, buffer.Length)
    }

    ghost function Queue(): seq<int>
      requires Valid()
      reads this, buffer
    {
      Contents(buffer[..], outIdx, count)
    }

    constructor (size: nat)
      requires size > 0
      ensures Valid() && fresh(buffer) && buffer.Length == size && Queue() == []
    {
      buffer := new int[size];
      count, inIdx, outIdx := 0, 0, 0;
    }

    /** What a producer does inside its critical section. */
    method Put(val: int)
      requires Valid() && count < buffer.Length
      modifies this`inIdx, this`count, buffer
      ensures Valid() && Queue() == old(Queue()) + [val]
      ensures buffer[..] == old(buffer[..])[old(inIdx) := val]
      ensures inIdx == Slot(old(inIdx), 1, buffer.Length) && count == old(count) + 1
    {
      PutAppends(buffer[..], outIdx, count, val);
      EndMoves(outIdx, count, buffer.Length);
      buffer[inIdx] := val;
      inIdx := (inIdx + 1) % buffer.Length;
      count := count + 1;
    }

    /** What a consumer does inside its critical section. */
    method Take() returns (val: int)
      requires Valid() && count > 0
      modifies this`outIdx, this`count
      ensures Valid() && old(Queue()) == [val] + Queue()
      ensures val == buffer[old(outIdx)]
      ensures outIdx == Slot(old(outIdx), 1, buffer.Length) && count == old(count) - 1
    {
      TakeRemoves(buffer[..], outIdx, count);
      EndMoves(outIdx, count, buffer.Length);
      val := buffer[outIdx];
      outIdx := (outIdx + 1) % buffer.Length;
      count := count - 1;
    }
  }
}

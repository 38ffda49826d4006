/** limonp's circular buffer, proved to be a first-in first-out queue. */
module BoundedQueue {
  /** The next slot of a ring. */
  function Next(i: nat, capacity: nat): (r: nat)
    requires i < capacity
    ensures r == if i + 1 == capacity then 0 else i + 1
  {
    (i + 1) % capacity
  }

  class BoundedQueue<T(0)> {
    var head: nat
    var tail: nat
    var size: nat
    const capacity: nat
    const circularBuffer: array<T>

    ghost predicate Valid()
      reads this, circularBuffer
    {
      && 0 < capacity == circularBuffer.Length
      && head < capacity && tail < capacity && size <= capacity
      && tail == Slot(size)
    }

    /** Where the i-th element from the front lies. */
    function Slot(i: nat): nat
      requires head < capacity && i <= capacity
      reads this
    {
      if head + i < capacity then head + i else head + i - capacity
    }

    /** The queued elements, oldest first. */
    ghost function Contents(): (s: seq<T>)
      requires Valid()
      reads this, circularBuffer
      ensures |s| == size
    {
      seq(size, i requires 0 <= i < size && Valid() reads this, circularBuffer => circularBuffer[Slot(i)])
    }

    constructor (capacity: nat)
      requires capacity > 0
      ensures Valid() && Contents() == [] && this.capacity == capacity && fresh(circularBuffer)
    {
      this.capacity := capacity;
      circularBuffer := new T[capacity];
      head, tail, size := 0, 0, 0;
    }

    method Clear()
      requires Valid()
      modifies this
      ensures Valid() && Contents() == []
    {
      head := 0;
      tail := 0;
      size := 0;
    }

    predicate Empty()
      requires Valid()
      reads this, circularBuffer
      ensures Empty() <==> Contents() == []
    {
      size == 0
    }

    predicate Full()
      requires Valid()
      reads this, circularBuffer
      ensures Full() <==> |Contents()| == capacity
    {
      capacity == size
    }

    method Push(t: T)
      requires Valid() && !Full()
      modifies this, circularBuffer
      ensures Valid() && Contents() == old(Contents()) + [t]
    {
      ghost var before := Contents();
      circularBuffer[tail] := t;
      tail := Next(tail, capacity);
      size := size + 1;
      assert forall i | 0 <= i < size - 1 :: Slot(i) != old(tail);
      assert forall i | 0 <= i < size - 1 :: Contents()[i] == before[i];
    }

    method Pop() returns (t: T)
      requires Valid() && !Empty()
      modifies this
      ensures Valid() && [t] + Contents() == old(Contents())
    {
      ghost var before := Contents();
      var oldPos := head;
      head := Next(head, capacity);
      size := size - 1;
      assert forall i | 0 <= i < size :: Slot(i) == old(Slot(i + 1));
      assert forall i | 0 <= i < size :: Contents()[i] == before[i + 1];
      return circularBuffer[oldPos];
    }
  }
}

/** limonp's blocking queue over the ring: every push signals not-empty, every pop not-full. */
module BoundedBlockingQueue {
  import opened Options
  import opened BoundedQueue

  class BoundedBlockingQueue<T(0)> {
    const queue: BoundedQueue<T>

    ghost predicate Valid()
      reads this, queue, queue.circularBuffer
    {
      queue.Valid()
    }

    ghost function Contents(): seq<T>
      requires Valid()
      reads this, queue, queue.circularBuffer
    {
      queue.Contents()
    }

    constructor (maxSize: nat)
      requires maxSize > 0
      ensures Valid() && Contents() == [] && queue.capacity == maxSize && fresh(queue) && fresh(queue.circularBuffer)
    {
      queue := new BoundedQueue<T>(maxSize);
    }

    /** One pass through the guard of `Push`; not done means wait on `notFull_`. */
    method PushSection(x: T) returns (done: bool)
      requires Valid()
      modifies queue, queue.circularBuffer
      ensures Valid() && (done <==> |old(Contents())| < queue.capacity)
      ensures Contents() == if done then old(Contents()) + [x] else old(Contents())
    {
      if queue.Full() {
        return false;
      }
      queue.Push(x);
      return true;
    }

    /** One pass through the guard of `Pop`; nothing returned means wait on `notEmpty_`. */
    method PopSection() returns (res: Option<T>)
      requires Valid()
      modifies queue
      ensures Valid() && (res.None? <==> old(Contents()) == [])
      ensures old(Contents()) == if res.None? then Contents() else [res.value] + Contents()
    {
      if queue.Empty() {
        return None;
      }
      var t := queue.Pop();
      return Some(t);
    }
  }
}

/**
  The pool's queue is the ring buffer: what a thread does with it under the lock is a step of the
  machine in `ThreadPool`, from every reachable state and for every choice of whom a signal wakes.
 */
module ThreadPoolQueue {
  import opened Options
  import opened BoundedBlockingQueue
  import opened TP = ThreadPool

  class ThreadPool {
    const queue: BoundedBlockingQueue<Item>

    /** The ring buffer holds the queue of s, a state of some run of the pool. */
    ghost predicate Shows(s: State)
      reads this, queue, queue.queue, queue.queue.circularBuffer
    {
      && queue.Valid() && Reachable(s)
      && queue.queue.capacity == |s.workers| && queue.Contents() == s.que
    }

    constructor (threadNum: nat)
      requires threadNum > 0
      ensures forall s | Start(s) && |s.workers| == threadNum :: Shows(s)
      ensures fresh(queue) && fresh(queue.queue) && fresh(queue.queue.circularBuffer)
    {
      queue := new BoundedBlockingQueue<Item>(threadNum);
      new;
      forall s | Start(s) && |s.workers| == threadNum ensures Reachable(s) {
        assert Runs(s, [], s);
      }
    }

    /** `Add` from taking the lock on: the closure goes in if there is room, else the client waits. */
    method AddSection(task: Closure, ghost s: State, ghost p: nat) returns (done: bool)
      requires Shows(s) && p < |s.clients| && s.clients[p] == Adding(task)
      modifies queue.queue, queue.queue.circularBuffer
      ensures done ==> forall woken | WakesWorker(s.workers, woken) ::
                Enabled(s, Add(p, woken)) && Shows(Do(s, Add(p, woken)))
      ensures !done ==> Enabled(s, BlockAdd(p)) && Shows(Do(s, BlockAdd(p)))
    {
      WithinCapacity(s);
      done := queue.PushSection(Some(task));
      if done {
        forall woken | WakesWorker(s.workers, woken) ensures Reachable(Do(s, Add(p, woken))) {
          ReachableStep(s, Add(p, woken));
        }
      } else {
        ReachableStep(s, BlockAdd(p));
      }
    }

    /** One turn of the first loop of `Stop`, from taking the lock on. */
    method NullSection(ghost s: State) returns (done: bool)
      requires Shows(s) && s.owner.PushingNull?
      modifies queue.queue, queue.queue.circularBuffer
      ensures done ==> forall woken | WakesWorker(s.workers, woken) ::
                Enabled(s, PushNull(woken)) && Shows(Do(s, PushNull(woken)))
      ensures !done ==> Enabled(s, BlockNull) && Shows(Do(s, BlockNull))
    {
      WithinCapacity(s);
      done := queue.PushSection(None);
      if done {
        forall woken | WakesWorker(s.workers, woken) ensures Reachable(Do(s, PushNull(woken))) {
          ReachableStep(s, PushNull(woken));
        }
      } else {
        ReachableStep(s, BlockNull);
      }
    }

    /** The `Pop` of `Worker::Run`: the worker runs what it got, exits on NULL, or waits. */
    method PopSection(ghost s: State, ghost w: nat) returns (item: Option<Item>)
      requires Shows(s) && w < |s.workers| && s.workers[w].Popping?
      modifies queue.queue
      ensures item.Some? ==> forall woken | WakesPusher(s.clients, s.owner, woken) ::
                && Enabled(s, Pop(w, woken)) && Shows(Do(s, Pop(w, woken)))
                && Do(s, Pop(w, woken)).workers[w] == AfterPop(item.value)
      ensures item.None? ==> Enabled(s, BlockPop(w)) && Shows(Do(s, BlockPop(w)))
    {
      item := queue.PopSection();
      if item.Some? {
        forall woken | WakesPusher(s.clients, s.owner, woken) ensures Reachable(Do(s, Pop(w, woken))) {
          ReachableStep(s, Pop(w, woken));
        }
      } else {
        ReachableStep(s, BlockPop(w));
      }
    }
  }

  lemma WithinCapacity(s: State)
    requires Reachable(s)
    ensures |s.que| <= |s.workers|
  {
    var start, schedule :| Start(start) && Runs(start, schedule, s);
    RunKeepsInvariant(start, schedule, s);
  }

  lemma ReachableStep(s: State, step: Step)
    requires Reachable(s) && Enabled(s, step)
    ensures Reachable(Do(s, step))
  {
    var start, schedule :| Start(start) && Runs(start, schedule, s);
    OneMoreStep(start, schedule, s, step);
  }
}

/**
  The server's bounded task queue. It signals only on edges: a push signals when the queue becomes
  non-empty, a pop when it stops being full. Threads are a state machine over critical sections:
  from taking the lock to either waiting or returning is one step. A signal wakes at least one
  waiter, and any waiter may also wake up for no reason.
 */
module TaskQue {
  import opened Options

  type Task = int

  /** A push onto this queue signals the consumers. */
  predicate SignalsEmpty(que: seq<Task>) { |que| + 1 == 1 }

  /** A pop from this queue signals the producers. */
  predicate SignalsFull(que: seq<Task>, cap: nat) { cap - 1 == |que| - 1 }

  // ----- threads

  datatype Producer = Idle | Pushing(elem: Task) | WaitingFull(elem: Task)

  datatype Consumer = Working | Popping | WaitingEmpty

  datatype State = State(que: seq<Task>, producers: seq<Producer>, consumers: seq<Consumer>,
                         pushed: seq<Task>, popped: seq<Task>)

  datatype Step =
    | StartPush(p: nat, elem: Task)
    | Push(p: nat, woken: set<nat>)
    | BlockPush(p: nat)
    | StartPop(c: nat)
    | Pop(c: nat, woken: set<nat>)
    | BlockPop(c: nat)
    | WakeProducer(p: nat)
    | WakeConsumer(c: nat)

  /** A signal wakes one waiter or more, when there are any. */
  ghost predicate WakesConsumers(consumers: seq<Consumer>, woken: set<nat>)
  {
    && (forall c | c in woken :: c < |consumers| && consumers[c].WaitingEmpty?)
    && ((exists c :: 0 <= c < |consumers| && consumers[c].WaitingEmpty?) ==> woken != {})
  }

  ghost predicate WakesProducers(producers: seq<Producer>, woken: set<nat>)
  {
    && (forall p | p in woken :: p < |producers| && producers[p].WaitingFull?)
    && ((exists p :: 0 <= p < |producers| && producers[p].WaitingFull?) ==> woken != {})
  }

  function WokenConsumers(consumers: seq<Consumer>, woken: set<nat>): (r: seq<Consumer>)
    ensures |r| == |consumers|
    ensures forall c | 0 <= c < |r| :: r[c] == if c in woken then Popping else consumers[c]
  {
    seq(|consumers|, c requires 0 <= c < |consumers| => if c in woken then Popping else consumers[c])
  }

  function Retry(p: Producer): Producer
  {
    if p.WaitingFull? then Pushing(p.elem) else p
  }

  function WokenProducers(producers: seq<Producer>, woken: set<nat>): (r: seq<Producer>)
    ensures |r| == |producers|
    ensures forall p | 0 <= p < |r| :: r[p] == if p in woken then Retry(producers[p]) else producers[p]
  {
    seq(|producers|, p requires 0 <= p < |producers| => if p in woken then Retry(producers[p]) else producers[p])
  }

  ghost predicate Enabled(s: State, cap: nat, step: Step)
  {
    match step
    case StartPush(p, _) => p < |s.producers| && s.producers[p].Idle?
    case Push(p, woken) =>
      && p < |s.producers| && s.producers[p].Pushing? && |s.que| != cap
      && if SignalsEmpty(s.que) then WakesConsumers(s.consumers, woken) else woken == {}
    case BlockPush(p) => p < |s.producers| && s.producers[p].Pushing? && |s.que| == cap
    case StartPop(c) => c < |s.consumers| && s.consumers[c].Working?
    case Pop(c, woken) =>
      && c < |s.consumers| && s.consumers[c].Popping? && s.que != []
      && if SignalsFull(s.que, cap) then WakesProducers(s.producers, woken) else woken == {}
    case BlockPop(c) => c < |s.consumers| && s.consumers[c].Popping? && s.que == []
    case WakeProducer(p) => p < |s.producers| && s.producers[p].WaitingFull?
    case WakeConsumer(c) => c < |s.consumers| && s.consumers[c].WaitingEmpty?
  }

  function Do(s: State, cap: nat, step: Step): State
    requires Enabled(s, cap, step)
  {
    match step
    case StartPush(p, elem) => s.(producers := s.producers[p := Pushing(elem)])
    case Push(p, woken) =>
      var elem := s.producers[p].elem;
      s.(que := s.que + [elem], pushed := s.pushed + [elem],
         producers := s.producers[p := Idle], consumers := WokenConsumers(s.consumers, woken))
    case BlockPush(p) => s.(producers := s.producers[p := WaitingFull(s.producers[p].elem)])
    case StartPop(c) => s.(consumers := s.consumers[c := Popping])
    case Pop(c, woken) =>
      s.(que := s.que[1..], popped := s.popped + [s.que[0]],
         consumers := s.consumers[c := Working], producers := WokenProducers(s.producers, woken))
    case BlockPop(c) => s.(consumers := s.consumers[c := WaitingEmpty])
    case WakeProducer(p) => s.(producers := s.producers[p := Pushing(s.producers[p].elem)])
    case WakeConsumer(c) => s.(consumers := s.consumers[c := Popping])
  }

  ghost predicate Start(s: State, cap: nat)
  {
    && s.que == [] && s.pushed == [] && s.popped == [] && 1 <= cap
    && s.producers != [] && s.consumers != []
    && (forall p | 0 <= p < |s.producers| :: s.producers[p].Idle?)
    && (forall c | 0 <= c < |s.consumers| :: s.consumers[c].Working?)
  }

  /** The states a schedule passes through, from s on. */
  ghost predicate Runs(s: State, cap: nat, schedule: seq<Step>, t: State)
  {
    if schedule == [] then s == t
    else
      var n := |schedule| - 1;
      exists u :: Runs(s, cap, schedule[..n], u) && Enabled(u, cap, schedule[n]) && t == Do(u, cap, schedule[n])
  }

  ghost predicate Reachable(t: State, cap: nat)
  {
    exists s, schedule :: Start(s, cap) && Runs(s, cap, schedule, t)
  }

  // ----- what every run keeps

  ghost predicate SomeConsumerAwake(s: State) { exists c :: 0 <= c < |s.consumers| && !s.consumers[c].WaitingEmpty? }

  ghost predicate SomeProducerAwake(s: State) { exists p :: 0 <= p < |s.producers| && !s.producers[p].WaitingFull? }

  ghost predicate Invariant(s: State, cap: nat)
  {
    && 1 <= cap && s.producers != [] && s.consumers != []
    && |s.que| <= cap
    && s.pushed == s.popped + s.que
    && (s.que != [] ==> SomeConsumerAwake(s))
    && (|s.que| < cap ==> SomeProducerAwake(s))
  }

  lemma StepKeepsQueue(s: State, cap: nat, step: Step)
    requires Invariant(s, cap) && Enabled(s, cap, step)
    ensures var t := Do(s, cap, step);
            |t.que| <= cap && t.pushed == t.popped + t.que && t.producers != [] && t.consumers != []
  {
    if step.Pop? {
      assert s.que == [s.que[0]] + s.que[1..];
    }
  }

  lemma AwakeConsumer(s: State, c: nat)
    requires c < |s.consumers| && !s.consumers[c].WaitingEmpty?
    ensures SomeConsumerAwake(s)
  {
  }

  lemma AwakeProducer(s: State, p: nat)
    requires p < |s.producers| && !s.producers[p].WaitingFull?
    ensures SomeProducerAwake(s)
  {
  }

  /** A consumer goes to sleep only on an empty queue, and the edge to non-empty wakes one. */
  lemma StepKeepsConsumerAwake(s: State, cap: nat, step: Step)
    requires Invariant(s, cap) && Enabled(s, cap, step)
    ensures var t := Do(s, cap, step); t.que != [] ==> SomeConsumerAwake(t)
  {
    var t := Do(s, cap, step);
    if step.Push? && s.que == [] {
      if exists c :: 0 <= c < |s.consumers| && s.consumers[c].WaitingEmpty? {
        var c :| c in step.woken;
        AwakeConsumer(t, c);
      } else {
        AwakeConsumer(t, 0);
      }
    } else if step.StartPop? || step.Pop? || step.WakeConsumer? {
      AwakeConsumer(t, step.c);
    } else if t.que != [] {
      var c :| 0 <= c < |s.consumers| && !s.consumers[c].WaitingEmpty?;
      AwakeConsumer(t, c);
    }
  }

  /** A producer goes to sleep only on a full queue, and the edge away from full wakes one. */
  lemma StepKeepsProducerAwake(s: State, cap: nat, step: Step)
    requires Invariant(s, cap) && Enabled(s, cap, step)
    ensures var t := Do(s, cap, step); |t.que| < cap ==> SomeProducerAwake(t)
  {
    var t := Do(s, cap, step);
    if step.Pop? && |s.que| == cap {
      if exists p :: 0 <= p < |s.producers| && s.producers[p].WaitingFull? {
        var p :| p in step.woken;
        AwakeProducer(t, p);
      } else {
        AwakeProducer(t, 0);
      }
    } else if step.StartPush? || step.Push? || step.WakeProducer? {
      AwakeProducer(t, step.p);
    } else if |t.que| < cap {
      var p :| 0 <= p < |s.producers| && !s.producers[p].WaitingFull?;
      AwakeProducer(t, p);
    }
  }

  lemma {:induction false} RunKeepsInvariant(s: State, cap: nat, schedule: seq<Step>, t: State)
    requires Start(s, cap) && Runs(s, cap, schedule, t)
    ensures Invariant(t, cap)
    decreases |schedule|
  {
    if schedule == [] {
      AwakeProducer(s, 0);
    } else {
      var n := |schedule| - 1;
      var u :| Runs(s, cap, schedule[..n], u) && Enabled(u, cap, schedule[n]) && t == Do(u, cap, schedule[n]);
      RunKeepsInvariant(s, cap, schedule[..n], u);
      StepKeepsQueue(u, cap, schedule[n]);
      StepKeepsConsumerAwake(u, cap, schedule[n]);
      StepKeepsProducerAwake(u, cap, schedule[n]);
    }
  }

  lemma ReachableKeeps(t: State, cap: nat)
    requires Reachable(t, cap)
    ensures Invariant(t, cap)
  {
    var s, schedule :| Start(s, cap) && Runs(s, cap, schedule, t);
    RunKeepsInvariant(s, cap, schedule, t);
  }

  lemma ReachableStep(s: State, cap: nat, step: Step)
    requires Reachable(s, cap) && Enabled(s, cap, step)
    ensures Reachable(Do(s, cap, step), cap)
  {
    var start, schedule :| Start(start, cap) && Runs(start, cap, schedule, s);
    var all := schedule + [step];
    assert all[..|all| - 1] == schedule && all[|all| - 1] == step;
    assert Runs(start, cap, all, Do(s, cap, step));
  }

  // ----- the two critical sections, as steps of the machine

  class TaskQue {
    const queSize: nat
    var que: seq<Task>

    /** The queue is that of s, a state of some run. */
    ghost predicate Shows(s: State)
      reads this
    {
      Reachable(s, queSize) && que == s.que
    }

    constructor (queSize: nat)
      requires queSize > 0
      ensures this.queSize == queSize && forall s | Start(s, queSize) :: Shows(s)
    {
      this.queSize := queSize;
      que := [];
      new;
      forall s | Start(s, queSize) ensures Reachable(s, queSize) {
        assert Runs(s, queSize, [], s);
      }
    }

    predicate IsFull()
      reads this
    {
      |que| == queSize
    }

    predicate IsEmpty()
      reads this
    {
      |que| == 0
    }

    /**
      One pass through the guard of `Push`: not done means wait on `cond_full_` and try again. Done
      is a push of the machine, with a signal to the consumers exactly when the code gives one.
     */
    method PushSection(elem: Task, ghost s: State, ghost p: nat) returns (done: bool, notify: bool)
      requires Shows(s) && p < |s.producers| && s.producers[p] == Pushing(elem)
      modifies this
      ensures !done ==> Enabled(s, queSize, BlockPush(p)) && Shows(Do(s, queSize, BlockPush(p)))
      ensures done ==> forall woken | (if notify then WakesConsumers(s.consumers, woken) else woken == {}) ::
                && Enabled(s, queSize, Push(p, woken)) && Shows(Do(s, queSize, Push(p, woken)))
                && |que| <= queSize
    {
      if IsFull() {
        ReachableStep(s, queSize, BlockPush(p));
        return false, false;
      }
      ReachableKeeps(s, queSize);
      que := que + [elem];
      done, notify := true, 1 == |que|;
      forall woken | (if notify then WakesConsumers(s.consumers, woken) else woken == {})
        ensures Enabled(s, queSize, Push(p, woken)) && Reachable(Do(s, queSize, Push(p, woken)), queSize)
      {
        ReachableStep(s, queSize, Push(p, woken));
      }
    }

    /**
      One pass through the guard of `Pop`: nothing returned means wait on `cond_empty_`. What is
      returned is the oldest element pushed and not yet popped.
     */
    method PopSection(ghost s: State, ghost c: nat) returns (elem: Option<Task>, notify: bool)
      requires Shows(s) && c < |s.consumers| && s.consumers[c].Popping?
      modifies this
      ensures elem.None? ==> Enabled(s, queSize, BlockPop(c)) && Shows(Do(s, queSize, BlockPop(c)))
      ensures elem.Some? ==> s.popped + [elem.value] <= s.pushed
      ensures elem.Some? ==> forall woken | (if notify then WakesProducers(s.producers, woken) else woken == {}) ::
                Enabled(s, queSize, Pop(c, woken)) && Shows(Do(s, queSize, Pop(c, woken)))
    {
      if IsEmpty() {
        ReachableStep(s, queSize, BlockPop(c));
        return None, false;
      }
      ReachableKeeps(s, queSize);
      var tmp := que[0];
      assert s.popped + s.que == (s.popped + [tmp]) + s.que[1..];
      que := que[1..];
      elem, notify := Some(tmp), queSize - 1 == |que|;
      forall woken | (if notify then WakesProducers(s.producers, woken) else woken == {})
        ensures Enabled(s, queSize, Pop(c, woken)) && Reachable(Do(s, queSize, Pop(c, woken)), queSize)
      {
        ReachableStep(s, queSize, Pop(c, woken));
      }
    }
  }

  /** In every run the queue stays within capacity and elements leave in the order they came. */
  lemma BoundedFifo(t: State, cap: nat)
    requires Reachable(t, cap)
    ensures |t.que| <= cap && t.popped <= t.pushed && t.pushed == t.popped + t.que
  {
    var s, schedule :| Start(s, cap) && Runs(s, cap, schedule, t);
    RunKeepsInvariant(s, cap, schedule, t);
  }

  /** Signalling on edges alone never leaves work with everyone asleep, nor room with everyone asleep. */
  lemma NeverAllAsleep(t: State, cap: nat)
    requires Reachable(t, cap)
    ensures t.que != [] ==> exists c :: 0 <= c < |t.consumers| && !t.consumers[c].WaitingEmpty?
    ensures |t.que| < cap ==> exists p :: 0 <= p < |t.producers| && !t.producers[p].WaitingFull?
    ensures (exists c :: 0 <= c < |t.consumers| && !t.consumers[c].WaitingEmpty?)
            || (exists p :: 0 <= p < |t.producers| && !t.producers[p].WaitingFull?)
  {
    var s, schedule :| Start(s, cap) && Runs(s, cap, schedule, t);
    RunKeepsInvariant(s, cap, schedule, t);
  }

  /**
    A queued element can always be popped next, without help from a spurious wake-up: by a consumer that
    is about to pop or by one that comes back from its work.
   */
  lemma NonEmptyCanPop(t: State, cap: nat) returns (c: nat, woken: set<nat>)
    requires Reachable(t, cap) && t.que != []
    ensures c < |t.consumers|
    ensures Enabled(t, cap, Pop(c, woken))
         || (Enabled(t, cap, StartPop(c)) && Enabled(Do(t, cap, StartPop(c)), cap, Pop(c, woken)))
  {
    NeverAllAsleep(t, cap);
    c :| c < |t.consumers| && !t.consumers[c].WaitingEmpty?;
    woken := {};
    if SignalsFull(t.que, cap) && exists p :: 0 <= p < |t.producers| && t.producers[p].WaitingFull? {
      var p: nat :| p < |t.producers| && t.producers[p].WaitingFull?;
      woken := {p};
    }
    if t.consumers[c].Popping? {
      assert Enabled(t, cap, Pop(c, woken));
    }
  }

  /**
    Room in the queue can always be used next, without help from a spurious wake-up: by a producer that is
    about to push or by an idle one that begins to. A producer that already waits is promised nothing
    here; `TaskQueSignals` says when it is served.
   */
  lemma NonFullCanPush(t: State, cap: nat, elem: Task) returns (p: nat, woken: set<nat>)
    requires Reachable(t, cap) && |t.que| < cap
    ensures p < |t.producers|
    ensures Enabled(t, cap, Push(p, woken))
         || (Enabled(t, cap, StartPush(p, elem)) && Enabled(Do(t, cap, StartPush(p, elem)), cap, Push(p, woken)))
  {
    NeverAllAsleep(t, cap);
    p :| p < |t.producers| && !t.producers[p].WaitingFull?;
    woken := {};
    if SignalsEmpty(t.que) && exists c :: 0 <= c < |t.consumers| && t.consumers[c].WaitingEmpty? {
      var c: nat :| c < |t.consumers| && t.consumers[c].WaitingEmpty?;
      woken := {c};
    }
    if t.producers[p].Pushing? {
      assert Enabled(t, cap, Push(p, woken));
    }
  }
}

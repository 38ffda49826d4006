/**
  What the edge signals of the task queue lose. `TaskQue` shows that threads never all sleep while there
  is work or room. It does not follow that a thread that already waits is served: a later push or pop off
  the edge gives no signal. A waiting producer is served whenever there is room exactly when the capacity
  is 1 or there is only one producer, and likewise for consumers.
 */
module TaskQueSignals {
  import opened TaskQue

  // ----- the property

  ghost predicate SomeProducerWaits(s: State) { exists p :: 0 <= p < |s.producers| && s.producers[p].WaitingFull? }

  ghost predicate SomeProducerPushes(s: State) { exists p :: 0 <= p < |s.producers| && s.producers[p].Pushing? }

  ghost predicate SomeConsumerWaits(s: State) { exists c :: 0 <= c < |s.consumers| && s.consumers[c].WaitingEmpty? }

  ghost predicate SomeConsumerPops(s: State) { exists c :: 0 <= c < |s.consumers| && s.consumers[c].Popping? }

  /** With room in the queue a producer waits only as long as another one is about to push. */
  ghost predicate NoLostPush(s: State, cap: nat) { |s.que| < cap && SomeProducerWaits(s) ==> SomeProducerPushes(s) }

  /** With work in the queue a consumer waits only as long as another one is about to pop. */
  ghost predicate NoLostPop(s: State) { s.que != [] && SomeConsumerWaits(s) ==> SomeConsumerPops(s) }

  // ----- where it holds

  lemma Pushes(s: State, p: nat)
    requires p < |s.producers| && s.producers[p].Pushing?
    ensures SomeProducerPushes(s)
  {
  }

  lemma Pops(s: State, c: nat)
    requires c < |s.consumers| && s.consumers[c].Popping?
    ensures SomeConsumerPops(s)
  {
  }

  /** The edge away from full wakes a producer, if one waits. */
  lemma EdgeServesProducer(s: State, cap: nat, step: Step)
    requires Enabled(s, cap, step) && step.Pop? && SignalsFull(s.que, cap) && SomeProducerWaits(s)
    ensures SomeProducerPushes(Do(s, cap, step))
  {
    var p :| p in step.woken;
    Pushes(Do(s, cap, step), p);
  }

  lemma EdgeServesConsumer(s: State, cap: nat, step: Step)
    requires Enabled(s, cap, step) && step.Push? && SignalsEmpty(s.que) && SomeConsumerWaits(s)
    ensures SomeConsumerPops(Do(s, cap, step))
  {
    var c :| c in step.woken;
    Pops(Do(s, cap, step), c);
  }

  /** While there is room nothing but a push takes a producer away from pushing. */
  lemma StillPushes(s: State, cap: nat, step: Step)
    requires |s.que| < cap && SomeProducerPushes(s) && Enabled(s, cap, step) && !step.Push?
    ensures SomeProducerPushes(Do(s, cap, step))
  {
    var q :| 0 <= q < |s.producers| && s.producers[q].Pushing?;
    Pushes(Do(s, cap, step), q);
  }

  lemma StillPops(s: State, cap: nat, step: Step)
    requires s.que != [] && SomeConsumerPops(s) && Enabled(s, cap, step) && !step.Pop?
    ensures SomeConsumerPops(Do(s, cap, step))
  {
    var d :| 0 <= d < |s.consumers| && s.consumers[d].Popping?;
    Pops(Do(s, cap, step), d);
  }

  lemma WaitedBefore(s: State, cap: nat, step: Step)
    requires Enabled(s, cap, step)
    ensures |s.que| < cap && SomeProducerWaits(Do(s, cap, step)) ==> SomeProducerWaits(s)
    ensures step.Pop? && SomeProducerWaits(Do(s, cap, step)) ==> SomeProducerWaits(s)
    ensures s.que != [] && SomeConsumerWaits(Do(s, cap, step)) ==> SomeConsumerWaits(s)
    ensures step.Push? && SomeConsumerWaits(Do(s, cap, step)) ==> SomeConsumerWaits(s)
  {
    var t := Do(s, cap, step);
    if p :| 0 <= p < |t.producers| && t.producers[p].WaitingFull? {
      assert s.producers[p].WaitingFull? || step == BlockPush(p);
    }
    if c :| 0 <= c < |t.consumers| && t.consumers[c].WaitingEmpty? {
      assert s.consumers[c].WaitingEmpty? || step == BlockPop(c);
    }
  }

  lemma StepKeepsPushes(s: State, cap: nat, step: Step)
    requires Invariant(s, cap) && NoLostPush(s, cap) && Enabled(s, cap, step)
    requires cap == 1 || |s.producers| == 1
    ensures NoLostPush(Do(s, cap, step), cap)
  {
    var t := Do(s, cap, step);
    if |t.que| < cap && SomeProducerWaits(t) {
      WaitedBefore(s, cap, step);
      if step.StartPush? || step.WakeProducer? {
        Pushes(t, step.p);
      } else if step.Pop? && SignalsFull(s.que, cap) {
        EdgeServesProducer(s, cap, step);
      } else if step.Push? {
        assert false;
      } else {
        StillPushes(s, cap, step);
      }
    }
  }

  lemma StepKeepsPops(s: State, cap: nat, step: Step)
    requires Invariant(s, cap) && NoLostPop(s) && Enabled(s, cap, step)
    requires cap == 1 || |s.consumers| == 1
    ensures NoLostPop(Do(s, cap, step))
  {
    var t := Do(s, cap, step);
    if t.que != [] && SomeConsumerWaits(t) {
      WaitedBefore(s, cap, step);
      if step.StartPop? || step.WakeConsumer? {
        Pops(t, step.c);
      } else if step.Push? && SignalsEmpty(s.que) {
        EdgeServesConsumer(s, cap, step);
      } else if step.Pop? {
        assert false;
      } else {
        StillPops(s, cap, step);
      }
    }
  }

  /** The number of threads stays, and waiting threads are served where the conditions hold. */
  ghost predicate Served(t: State, cap: nat, producers: nat, consumers: nat)
  {
    && |t.producers| == producers && |t.consumers| == consumers
    && (cap == 1 || producers == 1 ==> NoLostPush(t, cap))
    && (cap == 1 || consumers == 1 ==> NoLostPop(t))
  }

  lemma StepKeepsSizes(s: State, cap: nat, step: Step)
    requires Enabled(s, cap, step)
    ensures var t := Do(s, cap, step); |t.producers| == |s.producers| && |t.consumers| == |s.consumers|
  {
  }

  lemma StepKeepsServed(s: State, cap: nat, step: Step, producers: nat, consumers: nat)
    requires Invariant(s, cap) && Served(s, cap, producers, consumers) && Enabled(s, cap, step)
    ensures Served(Do(s, cap, step), cap, producers, consumers)
  {
    StepKeepsSizes(s, cap, step);
    if cap == 1 || producers == 1 {
      StepKeepsPushes(s, cap, step);
    }
    if cap == 1 || consumers == 1 {
      StepKeepsPops(s, cap, step);
    }
  }

  lemma {:induction false} RunKeepsServed(s: State, cap: nat, schedule: seq<Step>, t: State)
    requires Start(s, cap) && Runs(s, cap, schedule, t)
    ensures Served(t, cap, |s.producers|, |s.consumers|)
    decreases |schedule|
  {
    if schedule != [] {
      var n := |schedule| - 1;
      var u :| Runs(s, cap, schedule[..n], u) && Enabled(u, cap, schedule[n]) && t == Do(u, cap, schedule[n]);
      RunKeepsServed(s, cap, schedule[..n], u);
      RunKeepsInvariant(s, cap, schedule[..n], u);
      StepKeepsServed(u, cap, schedule[n], |s.producers|, |s.consumers|);
    }
  }

  // ----- small runs

  lemma Begin(cap: nat, producers: nat, consumers: nat) returns (t: State)
    requires 1 <= cap && 1 <= producers && 1 <= consumers
    ensures Reachable(t, cap) && t.que == [] && |t.producers| == producers && |t.consumers| == consumers
    ensures forall p | 0 <= p < producers :: t.producers[p].Idle?
    ensures forall c | 0 <= c < consumers :: t.consumers[c].Working?
  {
    t := State([], seq(producers, _ => Idle), seq(consumers, _ => Working), [], []);
    assert Start(t, cap) && Runs(t, cap, [], t);
  }

  /** A producer's whole push while no consumer waits for the signal. */
  lemma PushOne(s: State, cap: nat, p: nat, elem: Task) returns (t: State)
    requires Reachable(s, cap) && |s.que| < cap && p < |s.producers| && s.producers[p].Idle? && !SomeConsumerWaits(s)
    ensures Reachable(t, cap) && t.que == s.que + [elem]
    ensures t.producers == s.producers && t.consumers == s.consumers
  {
    var begun := Do(s, cap, StartPush(p, elem));
    ReachableStep(s, cap, StartPush(p, elem));
    t := FinishPush(begun, cap, p);
  }

  /** The push of a producer that holds the lock, off the edge or with nobody to wake. */
  lemma FinishPush(s: State, cap: nat, p: nat) returns (t: State)
    requires Reachable(s, cap) && |s.que| < cap && p < |s.producers| && s.producers[p].Pushing?
    requires s.que != [] || !SomeConsumerWaits(s)
    ensures Reachable(t, cap) && t.que == s.que + [s.producers[p].elem]
    ensures t.producers == s.producers[p := Idle] && t.consumers == s.consumers
  {
    t := Do(s, cap, Push(p, {}));
    ReachableStep(s, cap, Push(p, {}));
    assert WokenConsumers(s.consumers, {}) == s.consumers;
  }

  /** A consumer's whole pop off the edge: no producer is woken. */
  lemma PopOne(s: State, cap: nat, c: nat) returns (t: State)
    requires Reachable(s, cap) && 0 < |s.que| < cap && c < |s.consumers| && s.consumers[c].Working?
    ensures Reachable(t, cap) && t.que == s.que[1..]
    ensures t.producers == s.producers && t.consumers == s.consumers
  {
    var begun := Do(s, cap, StartPop(c));
    ReachableStep(s, cap, StartPop(c));
    t := Do(begun, cap, Pop(c, {}));
    ReachableStep(begun, cap, Pop(c, {}));
    assert WokenProducers(s.producers, {}) == s.producers;
  }

  lemma {:induction false} Fill(s: State, cap: nat, p: nat) returns (t: State)
    requires Reachable(s, cap) && |s.que| <= cap && p < |s.producers| && s.producers[p].Idle? && !SomeConsumerWaits(s)
    ensures Reachable(t, cap) && |t.que| == cap && t.producers == s.producers && t.consumers == s.consumers
    decreases cap - |s.que|
  {
    t := s;
    if |s.que| < cap {
      var more := PushOne(s, cap, p, 0);
      t := Fill(more, cap, p);
    }
  }

  lemma {:induction false} Drain(s: State, cap: nat, c: nat) returns (t: State)
    requires Reachable(s, cap) && |s.que| < cap && c < |s.consumers| && s.consumers[c].Working?
    ensures Reachable(t, cap) && t.que == [] && t.producers == s.producers && t.consumers == s.consumers
    decreases |s.que|
  {
    t := s;
    if s.que != [] {
      var less := PopOne(s, cap, c);
      t := Drain(less, cap, c);
    }
  }

  /** A producer finds the queue full and waits. */
  lemma WaitFull(s: State, cap: nat, p: nat, elem: Task) returns (t: State)
    requires Reachable(s, cap) && |s.que| == cap && p < |s.producers| && s.producers[p].Idle?
    ensures Reachable(t, cap) && t == s.(producers := s.producers[p := WaitingFull(elem)])
  {
    var begun := Do(s, cap, StartPush(p, elem));
    ReachableStep(s, cap, StartPush(p, elem));
    t := Do(begun, cap, BlockPush(p));
    ReachableStep(begun, cap, BlockPush(p));
  }

  /** The consumers from k on find the queue empty, one after the other, and wait. */
  lemma {:induction false} WaitEmpty(s: State, cap: nat, k: nat) returns (t: State)
    requires Reachable(s, cap) && s.que == [] && k <= |s.consumers|
    requires forall c | k <= c < |s.consumers| :: s.consumers[c].Working?
    ensures Reachable(t, cap) && t.que == [] && t.producers == s.producers && |t.consumers| == |s.consumers|
    ensures forall c | 0 <= c < k :: t.consumers[c] == s.consumers[c]
    ensures forall c | k <= c < |s.consumers| :: t.consumers[c].WaitingEmpty?
    decreases |s.consumers| - k
  {
    t := s;
    if k < |s.consumers| {
      var begun := Do(s, cap, StartPop(k));
      ReachableStep(s, cap, StartPop(k));
      var waiting := Do(begun, cap, BlockPop(k));
      ReachableStep(begun, cap, BlockPop(k));
      t := WaitEmpty(waiting, cap, k + 1);
    }
  }

  // ----- where it fails

  /** Nothing happens any more unless a thread begins something new or wakes up for no reason. */
  ghost predicate Stuck(s: State, cap: nat)
  {
    forall step | Enabled(s, cap, step) :: step.StartPush? || step.StartPop? || step.WakeProducer? || step.WakeConsumer?
  }

  /** The first pop off a full queue wakes one of two waiting producers; the next one wakes nobody. */
  lemma OneIsWoken(s: State, cap: nat) returns (t: State)
    requires Reachable(s, cap) && 2 <= cap == |s.que| && 2 <= |s.producers| && s.consumers != []
    requires s.producers[0].WaitingFull? && s.producers[1].WaitingFull? && s.consumers[0].Working?
    ensures Reachable(t, cap) && |t.que| == cap - 1 && t.consumers == s.consumers
    ensures t.producers == s.producers[0 := Pushing(s.producers[0].elem)]
  {
    var begun := Do(s, cap, StartPop(0));
    ReachableStep(s, cap, StartPop(0));
    assert begun.producers[0].WaitingFull?;
    t := Do(begun, cap, Pop(0, {0}));
    ReachableStep(begun, cap, Pop(0, {0}));
    assert t.producers == s.producers[0 := Pushing(s.producers[0].elem)];
    assert t.consumers == s.consumers;
  }

  /** Both of the first two producers wait at a full queue. */
  lemma TwoWait(cap: nat, producers: nat, consumers: nat) returns (t: State)
    requires 2 <= cap && 2 <= producers && 1 <= consumers
    ensures Reachable(t, cap) && |t.que| == cap && |t.producers| == producers && |t.consumers| == consumers
    ensures t.producers[0].WaitingFull? && t.producers[1].WaitingFull?
    ensures forall p | 2 <= p < producers :: t.producers[p].Idle?
    ensures forall c | 0 <= c < consumers :: t.consumers[c].Working?
  {
    var s := Begin(cap, producers, consumers);
    var full := Fill(s, cap, 0);
    var one := WaitFull(full, cap, 0, 0);
    t := WaitFull(one, cap, 1, 0);
  }

  /** The woken producer pushes again after the second pop, and the other one waits on in spite of the room. */
  lemma Overtaken(cap: nat, producers: nat, consumers: nat) returns (t: State)
    requires 2 <= cap && 2 <= producers && 1 <= consumers
    ensures Reachable(t, cap) && |t.que| == cap - 1 && |t.producers| == producers && |t.consumers| == consumers
    ensures t.producers[1].WaitingFull? && forall p | 0 <= p < producers && p != 1 :: t.producers[p].Idle?
    ensures forall c | 0 <= c < consumers :: t.consumers[c].Working?
  {
    var both := TwoWait(cap, producers, consumers);
    var woken := OneIsWoken(both, cap);
    var room := PopOne(woken, cap, 0);
    t := FinishPush(room, cap, 0);
  }

  /**
    A push is stranded: the queue is empty, every consumer waits, every other producer is idle, and a
    producer waits for room. It stays so until another push comes along or somebody wakes up for no reason.
   */
  lemma StrandedPush(cap: nat, producers: nat, consumers: nat) returns (t: State)
    requires 2 <= cap && 2 <= producers && 1 <= consumers
    ensures Reachable(t, cap) && |t.producers| == producers && |t.consumers| == consumers
    ensures t.que == [] && t.producers[1].WaitingFull? && forall p | 0 <= p < producers && p != 1 :: t.producers[p].Idle?
    ensures forall c | 0 <= c < consumers :: t.consumers[c].WaitingEmpty?
    ensures Stuck(t, cap) && !NoLostPush(t, cap)
  {
    var s := Overtaken(cap, producers, consumers);
    s := Drain(s, cap, 0);
    t := WaitEmpty(s, cap, 0);
    assert SomeProducerWaits(t);
  }

  /** The push onto an empty queue wakes one of two waiting consumers; the next push wakes nobody. */
  lemma OneIsServed(s: State, cap: nat) returns (t: State)
    requires Reachable(s, cap) && 2 <= cap && s.que == [] && s.producers != [] && 2 <= |s.consumers|
    requires s.producers[0].Idle? && s.consumers[0].WaitingEmpty?
    ensures Reachable(t, cap) && |t.que| == 1 && t.producers == s.producers && t.consumers == s.consumers[0 := Popping]
  {
    var begun := Do(s, cap, StartPush(0, 0));
    ReachableStep(s, cap, StartPush(0, 0));
    assert begun.consumers[0].WaitingEmpty?;
    t := Do(begun, cap, Push(0, {0}));
    ReachableStep(begun, cap, Push(0, {0}));
    assert t.consumers == s.consumers[0 := Popping];
    assert t.producers == s.producers;
  }

  /** The woken consumer takes one of two elements and goes to work. */
  lemma TakeOne(s: State, cap: nat) returns (t: State)
    requires Reachable(s, cap) && |s.que| == 2 <= cap && s.consumers != [] && s.consumers[0].Popping?
    requires !SomeProducerWaits(s)
    ensures Reachable(t, cap) && |t.que| == 1 && t.producers == s.producers && t.consumers == s.consumers[0 := Working]
  {
    t := Do(s, cap, Pop(0, {}));
    ReachableStep(s, cap, Pop(0, {}));
    assert WokenProducers(s.producers, {}) == s.producers;
  }

  /** A second push before the woken consumer has popped is off the edge. */
  lemma PushAnother(s: State, cap: nat) returns (t: State)
    requires Reachable(s, cap) && |s.que| == 1 && 2 <= cap && s.producers != [] && s.producers[0].Idle?
    ensures Reachable(t, cap) && |t.que| == 2 && t.producers == s.producers && t.consumers == s.consumers
  {
    var begun := Do(s, cap, StartPush(0, 0));
    ReachableStep(s, cap, StartPush(0, 0));
    t := FinishPush(begun, cap, 0);
    assert t.producers == s.producers;
  }

  /** Of all the waiting consumers one has been woken, and a second element has come without a signal. */
  lemma Unnoticed(cap: nat, producers: nat, consumers: nat) returns (t: State)
    requires 2 <= cap && 1 <= producers && 2 <= consumers
    ensures Reachable(t, cap) && |t.que| == 2 && |t.producers| == producers && |t.consumers| == consumers
    ensures t.consumers[0].Popping? && forall c | 1 <= c < consumers :: t.consumers[c].WaitingEmpty?
    ensures forall p | 0 <= p < producers :: t.producers[p].Idle?
  {
    var start := Begin(cap, producers, consumers);
    var waiting := WaitEmpty(start, cap, 0);
    var woken := OneIsServed(waiting, cap);
    t := PushAnother(woken, cap);
  }

  /**
    An element is stranded: one consumer is at work, all others wait although the queue is not empty, and
    nobody is about to push. It stays so until the busy consumer comes back or another push comes along.
   */
  lemma StrandedElement(cap: nat, producers: nat, consumers: nat) returns (t: State)
    requires 2 <= cap && 1 <= producers && 2 <= consumers
    ensures Reachable(t, cap) && |t.producers| == producers && |t.consumers| == consumers
    ensures t.que != [] && t.consumers[0].Working? && forall c | 1 <= c < consumers :: t.consumers[c].WaitingEmpty?
    ensures forall p | 0 <= p < producers :: t.producers[p].Idle?
    ensures Stuck(t, cap) && !NoLostPop(t)
  {
    var served := Unnoticed(cap, producers, consumers);
    t := TakeOne(served, cap);
    assert t.consumers[1].WaitingEmpty?;
    assert SomeConsumerWaits(t);
  }

  // ----- exactly when

  /** Waiting producers are served in every run if and only if the capacity is 1 or there is one producer. */
  lemma PushesServedIff(cap: nat, producers: nat, consumers: nat)
    requires 1 <= cap && 1 <= producers && 1 <= consumers
    ensures (forall t | Reachable(t, cap) && |t.producers| == producers && |t.consumers| == consumers :: NoLostPush(t, cap))
       <==> cap == 1 || producers == 1
  {
    if cap == 1 || producers == 1 {
      forall t | Reachable(t, cap) && |t.producers| == producers ensures NoLostPush(t, cap) {
        var s, schedule :| Start(s, cap) && Runs(s, cap, schedule, t);
        RunKeepsServed(s, cap, schedule, t);
      }
    } else {
      var t := StrandedPush(cap, producers, consumers);
    }
  }

  /** Waiting consumers are served in every run if and only if the capacity is 1 or there is one consumer. */
  lemma PopsServedIff(cap: nat, producers: nat, consumers: nat)
    requires 1 <= cap && 1 <= producers && 1 <= consumers
    ensures (forall t | Reachable(t, cap) && |t.producers| == producers && |t.consumers| == consumers :: NoLostPop(t))
       <==> cap == 1 || consumers == 1
  {
    if cap == 1 || consumers == 1 {
      forall t | Reachable(t, cap) && |t.consumers| == consumers ensures NoLostPop(t) {
        var s, schedule :| Start(s, cap) && Runs(s, cap, schedule, t);
        RunKeepsServed(s, cap, schedule, t);
      }
    } else {
      var t := StrandedElement(cap, producers, consumers);
    }
  }

  /** Then every push that has begun can be finished as soon as there is room, by it or another one first. */
  lemma BegunPushGoesOn(t: State, cap: nat, p: nat) returns (q: nat, woken: set<nat>)
    requires Reachable(t, cap) && |t.que| < cap && (cap == 1 || |t.producers| == 1)
    requires p < |t.producers| && !t.producers[p].Idle?
    ensures Enabled(t, cap, Push(q, woken))
  {
    ReachableKeeps(t, cap);
    PushesServedIff(cap, |t.producers|, |t.consumers|);
    q := p;
    if t.producers[p].WaitingFull? {
      assert SomeProducerWaits(t);
      q :| q < |t.producers| && t.producers[q].Pushing?;
    }
    woken := {};
    if c: nat :| c < |t.consumers| && t.consumers[c].WaitingEmpty? && SignalsEmpty(t.que) {
      woken := {c};
    }
  }

  /** And every pop that has begun, as soon as there is an element. */
  lemma BegunPopGoesOn(t: State, cap: nat, c: nat) returns (d: nat, woken: set<nat>)
    requires Reachable(t, cap) && t.que != [] && (cap == 1 || |t.consumers| == 1)
    requires c < |t.consumers| && !t.consumers[c].Working?
    ensures Enabled(t, cap, Pop(d, woken))
  {
    ReachableKeeps(t, cap);
    PopsServedIff(cap, |t.producers|, |t.consumers|);
    d := c;
    if t.consumers[c].WaitingEmpty? {
      assert SomeConsumerWaits(t);
      d :| d < |t.consumers| && t.consumers[d].Popping?;
    }
    woken := {};
    if p: nat :| p < |t.producers| && t.producers[p].WaitingFull? && SignalsFull(t.que, cap) {
      woken := {p};
    }
  }
}

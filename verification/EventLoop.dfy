/**
  The reactor's hand-off: workers append work to a list under a lock and then add one to an event
  counter; the reactor sleeps until the counter is positive, resets it, swaps the list out and
  executes the batch. One step is one locked section, one counter access, or one piece of work.
 */
module EventLoop {
  type Work = int

  // ----- threads

  /** A worker between its push and its write is in the middle of `SendToPending`. */
  datatype Worker = Outside | MustWake

  datatype Reactor = Polling | MustSwap | Executing(batch: seq<Work>)

  datatype State = State(pending: seq<Work>, counter: nat, workers: seq<Worker>, reactor: Reactor,
                         pushed: seq<Work>, executed: seq<Work>)

  datatype Step = Add(w: nat, fun: Work) | Wake(w: nat) | Read | Swap | Execute | Return

  ghost predicate Enabled(s: State, step: Step)
  {
    match step
    case Add(w, _) => w < |s.workers| && s.workers[w].Outside?
    case Wake(w) => w < |s.workers| && s.workers[w].MustWake?
    case Read => s.reactor.Polling? && s.counter > 0
    case Swap => s.reactor.MustSwap?
    case Execute => s.reactor.Executing? && s.reactor.batch != []
    case Return => s.reactor.Executing? && s.reactor.batch == []
  }

  function Do(s: State, step: Step): State
    requires Enabled(s, step)
  {
    match step
    case Add(w, fun) =>
      s.(pending := s.pending + [fun], pushed := s.pushed + [fun], workers := s.workers[w := MustWake])
    case Wake(w) => s.(counter := s.counter + 1, workers := s.workers[w := Outside])
    case Read => s.(counter := 0, reactor := MustSwap)
    case Swap => s.(pending := [], reactor := Executing(s.pending))
    case Execute =>
      s.(executed := s.executed + [s.reactor.batch[0]], reactor := Executing(s.reactor.batch[1..]))
    case Return => s.(reactor := Polling)
  }

  ghost predicate Start(s: State)
  {
    && s.pending == [] && s.counter == 0 && s.pushed == [] && s.executed == [] && s.reactor.Polling?
    && forall w | 0 <= w < |s.workers| :: s.workers[w].Outside?
  }

  ghost predicate Runs(s: State, schedule: seq<Step>, t: State)
  {
    if schedule == [] then s == t
    else
      var n := |schedule| - 1;
      exists u :: Runs(s, schedule[..n], u) && Enabled(u, schedule[n]) && t == Do(u, schedule[n])
  }

  ghost predicate Reachable(t: State) { exists s, schedule :: Start(s) && Runs(s, schedule, t) }

  // ----- what every run keeps

  function Batch(r: Reactor): seq<Work> { if r.Executing? then r.batch else [] }

  /** Somebody is bound to make the reactor look at the list. */
  ghost predicate SwapIsComing(s: State)
  {
    s.counter > 0 || s.reactor.MustSwap? || exists w :: 0 <= w < |s.workers| && s.workers[w].MustWake?
  }

  ghost predicate Invariant(s: State)
  {
    && s.pushed == s.executed + Batch(s.reactor) + s.pending
    && (s.pending != [] ==> SwapIsComing(s))
  }

  lemma KeepsOrder(s: State, step: Step)
    requires Invariant(s) && Enabled(s, step)
    ensures var t := Do(s, step); t.pushed == t.executed + Batch(t.reactor) + t.pending
  {
    if step.Add? {
      PushedLast(s.executed + Batch(s.reactor), s.pending, step.fun);
    } else if step.Swap? {
      BatchTaken(s.executed, s.pending);
    } else if step.Execute? {
      FirstDone(s.executed, s.reactor.batch, s.pending);
    }
  }

  lemma PushedLast(done: seq<Work>, pending: seq<Work>, fun: Work)
    ensures (done + pending) + [fun] == done + (pending + [fun])
  {
  }

  lemma BatchTaken(executed: seq<Work>, pending: seq<Work>)
    ensures executed + [] + pending == executed + pending + []
  {
  }

  lemma FirstDone(executed: seq<Work>, batch: seq<Work>, pending: seq<Work>)
    requires batch != []
    ensures executed + batch + pending == executed + [batch[0]] + batch[1..] + pending
  {
    assert batch == [batch[0]] + batch[1..];
  }

  lemma KeepsWakeUp(s: State, step: Step)
    requires Invariant(s) && Enabled(s, step)
    ensures var t := Do(s, step); t.pending != [] ==> SwapIsComing(t)
  {
    var t := Do(s, step);
    if step.Add? {
      assert t.workers[step.w].MustWake?;
    } else if s.pending != [] && exists w :: 0 <= w < |s.workers| && s.workers[w].MustWake? {
      var w :| 0 <= w < |s.workers| && s.workers[w].MustWake?;
      assert step == Wake(w) || t.workers[w].MustWake?;
    }
  }

  lemma {:induction false} RunKeepsInvariant(s: State, schedule: seq<Step>, t: State)
    requires Start(s) && Runs(s, schedule, t)
    ensures Invariant(t)
    decreases |schedule|
  {
    if schedule != [] {
      var n := |schedule| - 1;
      var u :| Runs(s, schedule[..n], u) && Enabled(u, schedule[n]) && t == Do(u, schedule[n]);
      RunKeepsInvariant(s, schedule[..n], u);
      KeepsOrder(u, schedule[n]);
      KeepsWakeUp(u, schedule[n]);
    }
  }

  /** In every interleaving the work is done in lock order, nothing twice and nothing out of turn. */
  lemma {:induction false} InLockOrder(t: State)
    requires Reachable(t)
    ensures t.pushed == t.executed + Batch(t.reactor) + t.pending
    ensures t.executed <= t.pushed
  {
    var s, schedule :| Start(s) && Runs(s, schedule, t);
    RunKeepsInvariant(s, schedule, t);
    assert t.pushed[..|t.executed|] == t.executed;
  }

  /** Pending work always has a wake-up on its way; at rest nothing is pending. */
  lemma NothingStranded(t: State)
    requires Reachable(t)
    ensures t.pending != [] ==>
              t.counter > 0 || t.reactor.MustSwap? || exists w :: 0 <= w < |t.workers| && t.workers[w].MustWake?
    ensures t.counter == 0 && t.reactor.Polling? && (forall w | 0 <= w < |t.workers| :: t.workers[w].Outside?) ==>
              t.executed == t.pushed
  {
    var s, schedule :| Start(s) && Runs(s, schedule, t);
    RunKeepsInvariant(s, schedule, t);
    if t.pending == [] && Batch(t.reactor) == [] {
      assert t.executed + [] + [] == t.executed;
    }
  }

  lemma ReachableKeeps(t: State)
    requires Reachable(t)
    ensures Invariant(t)
  {
    var s, schedule :| Start(s) && Runs(s, schedule, t);
    RunKeepsInvariant(s, schedule, t);
  }

  lemma ReachableStep(s: State, step: Step)
    requires Reachable(s) && Enabled(s, step)
    ensures Reachable(Do(s, step))
  {
    var start, schedule :| Start(start) && Runs(start, schedule, s);
    var all := schedule + [step];
    assert all[..|all| - 1] == schedule && all[|all| - 1] == step;
    assert Runs(start, all, Do(s, step));
  }

  // ----- the sections, as steps of the machine

  class EventLoop {
    var pendingList: seq<Work>
    /** The eventfd: a read returns the value and resets it, and blocks while it is zero. */
    var eventFd: nat

    /** The fields are those of s, a state of some run. */
    ghost predicate Shows(s: State)
      reads this
    {
      Reachable(s) && pendingList == s.pending && eventFd == s.counter
    }

    constructor ()
      ensures forall s | Start(s) :: Shows(s)
    {
      pendingList, eventFd := [], 0;
      new;
      forall s | Start(s) ensures Reachable(s) {
        assert Runs(s, [], s);
      }
    }

    /** A worker's push: the work is the last of what is pushed but not begun, and a wake-up is owed for it. */
    method AddPendingWork(fun: Work, ghost s: State, ghost w: nat)
      requires Shows(s) && Enabled(s, Add(w, fun))
      modifies this`pendingList
      ensures var t := Do(s, Add(w, fun));
              && Shows(t) && t.pushed == s.pushed + [fun]
              && t.pushed == t.executed + Batch(t.reactor) + pendingList
              && pendingList != [] && SwapIsComing(t)
    {
      pendingList := pendingList + [fun];
      ReachableStep(s, Add(w, fun));
      ReachableKeeps(Do(s, Add(w, fun)));
    }

    /** The worker's wake-up: whatever is pending, the reactor's next read will not block. */
    method EventWakeUp(ghost s: State, ghost w: nat)
      requires Shows(s) && Enabled(s, Wake(w))
      modifies this`eventFd
      ensures Shows(Do(s, Wake(w)))
      ensures s.reactor.Polling? ==> Enabled(Do(s, Wake(w)), Read)
    {
      eventFd := eventFd + 1;
      ReachableStep(s, Wake(w));
    }

    /** The reactor's read: all wake-ups so far are taken at once, but a swap is now due for them. */
    method ReadEventFD(ghost s: State)
      requires Shows(s) && Enabled(s, Read)
      modifies this`eventFd
      ensures Shows(Do(s, Read)) && Enabled(Do(s, Read), Swap)
    {
      eventFd := 0;
      ReachableStep(s, Read);
    }

    /** The locked part of `DoPendingWork`: the batch is exactly what was pushed and not yet executed. */
    method SwapPending(ghost s: State) returns (tmp: seq<Work>)
      requires Shows(s) && Enabled(s, Swap)
      modifies this`pendingList
      ensures Shows(Do(s, Swap)) && Do(s, Swap).reactor == Executing(tmp)
      ensures s.pushed == s.executed + tmp
    {
      ReachableKeeps(s);
      tmp := pendingList;
      pendingList := [];
      ReachableStep(s, Swap);
    }
  }

  // ----- everything pushed gets done

  function MustWakeCount(ws: seq<Worker>): (n: nat)
  {
    if ws == [] then 0 else MustWakeCount(ws[..|ws| - 1]) + if ws[|ws| - 1].MustWake? then 1 else 0
  }

  lemma {:induction false} WokenOnce(ws: seq<Worker>, w: nat)
    requires w < |ws| && ws[w].MustWake?
    ensures MustWakeCount(ws[w := Outside]) == MustWakeCount(ws) - 1
    decreases |ws|
  {
    var n := |ws| - 1;
    if w < n {
      WokenOnce(ws[..n], w);
      assert ws[w := Outside][..n] == ws[..n][w := Outside];
    } else {
      assert ws[w := Outside][..n] == ws[..n];
    }
  }

  /** What is left to do if nobody pushes anything more. */
  function Remaining(s: State): nat
  {
    10 * MustWakeCount(s.workers) + (if s.counter > 0 then 6 else 0)
    + (if s.reactor.MustSwap? then 4 else if s.reactor.Executing? then 2 else 0)
    + 2 * |s.pending| + |Batch(s.reactor)|
  }

  predicate AtRest(s: State)
  {
    s.counter == 0 && s.reactor.Polling? && forall w | 0 <= w < |s.workers| :: s.workers[w].Outside?
  }

  /** Every step other than a new push leaves less to do. */
  lemma EveryStepHelps(s: State, step: Step)
    requires Enabled(s, step) && !step.Add?
    ensures Remaining(Do(s, step)) < Remaining(s)
  {
    if step.Wake? {
      WokenOnce(s.workers, step.w);
    }
  }

  /** Short of rest something can be done. */
  lemma SomeStep(s: State) returns (step: Step)
    requires !AtRest(s)
    ensures Enabled(s, step) && !step.Add?
  {
    match s.reactor {
      case Executing(batch) =>
        step := if batch != [] then Execute else Return;
      case MustSwap =>
        step := Swap;
      case Polling =>
        if s.counter > 0 {
          step := Read;
        } else {
          var w: nat :| w < |s.workers| && !s.workers[w].Outside?;
          step := Wake(w);
        }
    }
  }

  /** No step of the schedule pushes new work. */
  ghost predicate NoAdds(schedule: seq<Step>) { forall i | 0 <= i < |schedule| :: !schedule[i].Add? }

  lemma {:induction false} RunHelps(s: State, schedule: seq<Step>, t: State)
    requires Runs(s, schedule, t) && NoAdds(schedule)
    ensures Remaining(t) + |schedule| <= Remaining(s)
    ensures t.pushed == s.pushed
    decreases |schedule|
  {
    if schedule != [] {
      var n := |schedule| - 1;
      var u :| Runs(s, schedule[..n], u) && Enabled(u, schedule[n]) && t == Do(u, schedule[n]);
      RunHelps(s, schedule[..n], u);
      EveryStepHelps(u, schedule[n]);
    }
  }

  /**
    However the threads are scheduled: without new pushes a run cannot go on for ever, and where it
    cannot go on everything pushed has been executed.
   */
  lemma {:induction false} EveryRunDrains(s: State, schedule: seq<Step>, t: State)
    requires Reachable(s) && Runs(s, schedule, t) && NoAdds(schedule)
    ensures |schedule| <= Remaining(s)
    ensures (forall step | Enabled(t, step) :: step.Add?) ==> t.executed == t.pushed == s.pushed
  {
    RunHelps(s, schedule, t);
    if forall step | Enabled(t, step) :: step.Add? {
      if !AtRest(t) {
        var step := SomeStep(t);
        assert false;
      }
      ReachableRun(s, schedule, t);
      NothingStranded(t);
    }
  }

  lemma {:induction false} ReachableRun(s: State, schedule: seq<Step>, t: State)
    requires Reachable(s) && Runs(s, schedule, t)
    ensures Reachable(t)
    decreases |schedule|
  {
    if schedule != [] {
      var n := |schedule| - 1;
      var u :| Runs(s, schedule[..n], u) && Enabled(u, schedule[n]) && t == Do(u, schedule[n]);
      ReachableRun(s, schedule[..n], u);
      ReachableStep(u, schedule[n]);
    }
  }

  lemma {:induction false} RunsJoin(s: State, step: Step, rest: seq<Step>, t: State)
    requires Enabled(s, step) && Runs(Do(s, step), rest, t)
    ensures Runs(s, [step] + rest, t)
    decreases |rest|
  {
    var all := [step] + rest;
    var n := |rest| - 1;
    if rest == [] {
      assert all == [step] && all[..|all| - 1] == [];
      assert Runs(s, all[..|all| - 1], s) && Enabled(s, all[|all| - 1]);
    } else {
      var u :| Runs(Do(s, step), rest[..n], u) && Enabled(u, rest[n]) && t == Do(u, rest[n]);
      RunsJoin(s, step, rest[..n], u);
      assert all[..|all| - 1] == [step] + rest[..n];
    }
  }

  /** From every reachable state, finishing what was begun executes all that was pushed. */
  lemma {:induction false} Drains(s: State) returns (schedule: seq<Step>, t: State)
    requires Invariant(s)
    ensures Runs(s, schedule, t) && NoAdds(schedule)
    ensures t.executed == t.pushed == s.pushed
    decreases Remaining(s)
  {
    if AtRest(s) {
      schedule, t := [], s;
      assert s.executed + [] + [] == s.executed;
    } else {
      var step := SomeStep(s);
      EveryStepHelps(s, step);
      KeepsOrder(s, step);
      KeepsWakeUp(s, step);
      var rest;
      rest, t := Drains(Do(s, step));
      RunsJoin(s, step, rest, t);
      schedule := [step] + rest;
    }
  }

  lemma {:induction false} ReachableDrains(s: State) returns (schedule: seq<Step>, t: State)
    requires Reachable(s)
    ensures Runs(s, schedule, t) && NoAdds(schedule)
    ensures t.executed == t.pushed == s.pushed
  {
    var start, before :| Start(start) && Runs(start, before, s);
    RunKeepsInvariant(start, before, s);
    schedule, t := Drains(s);
  }
}

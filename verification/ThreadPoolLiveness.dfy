/**
  However the threads of limonp's pool are scheduled, `Stop` returns: without spurious wake-ups and new
  `Add`s no run goes on for ever, and none ends before that return.
 */
module ThreadPoolLiveness {
  import opened Options
  import opened ThreadPool

  predicate Spurious(step: Step) { step.SpuriousClient? || step.SpuriousOwner? || step.SpuriousWorker? }

  /** Neither a spurious wake-up nor the beginning of another `Add`. */
  predicate IsCalm(step: Step) { !Spurious(step) && !step.StartAdd? }

  ghost predicate Calm(schedule: seq<Step>)
  {
    forall i | 0 <= i < |schedule| :: IsCalm(schedule[i])
  }

  // ----- what is left to do

  function ClientWeight(c: Client): nat { if c.Idle? then 0 else if c.Adding? then 6 else 5 }

  function WorkerWeight(w: Worker): nat { if w.Running? then 2 else if w.Popping? then 1 else 0 }

  function ClientWork(cs: seq<Client>): nat
  {
    if cs == [] then 0 else ClientWork(cs[..|cs| - 1]) + ClientWeight(cs[|cs| - 1])
  }

  function WorkerWork(ws: seq<Worker>): nat
  {
    if ws == [] then 0 else WorkerWork(ws[..|ws| - 1]) + WorkerWeight(ws[|ws| - 1])
  }

  function OwnerWork(owner: Owner, n: nat): int
  {
    match owner
    case NotStopped => 6 * n + n + 3
    case PushingNull(k) => 6 * (n - k) + n + 2
    case WaitingNull(k) => 6 * (n - k) + n + 1
    case Joining(k) => n - k
    case Stopped => 0
  }

  /** An upper bound on the steps that can follow, if nothing more is added and nobody wakes up for no reason. */
  function Remaining(s: State): int
  {
    ClientWork(s.clients) + WorkerWork(s.workers) + OwnerWork(s.owner, |s.workers|) + 3 * |s.que|
  }

  lemma RemainingIsNatural(s: State)
    requires OwnerInRange(s.owner, |s.workers|)
    ensures Remaining(s) >= 0
  {
  }

  lemma {:induction false} ClientWorkChanged(cs: seq<Client>, i: nat, c: Client)
    requires i < |cs|
    ensures ClientWork(cs[i := c]) == ClientWork(cs) - ClientWeight(cs[i]) + ClientWeight(c)
    decreases |cs|
  {
    var n := |cs| - 1;
    if i < n {
      ClientWorkChanged(cs[..n], i, c);
      assert cs[i := c][..n] == cs[..n][i := c];
    } else {
      assert cs[i := c][..n] == cs[..n];
    }
  }

  lemma {:induction false} WorkerWorkChanged(ws: seq<Worker>, i: nat, w: Worker)
    requires i < |ws|
    ensures WorkerWork(ws[i := w]) == WorkerWork(ws) - WorkerWeight(ws[i]) + WorkerWeight(w)
    decreases |ws|
  {
    var n := |ws| - 1;
    if i < n {
      WorkerWorkChanged(ws[..n], i, w);
      assert ws[i := w][..n] == ws[..n][i := w];
    } else {
      assert ws[i := w][..n] == ws[..n];
    }
  }

  lemma WokenWorkersWork(ws: seq<Worker>, woken: Option<nat>)
    requires WakesWorker(ws, woken)
    ensures WorkerWork(WokenWorkers(ws, woken)) <= WorkerWork(ws) + 1
  {
    if woken.Some? {
      WorkerWorkChanged(ws, woken.value, Popping);
    }
  }

  /** At most one pusher is woken. */
  lemma WokenPusherWork(cs: seq<Client>, owner: Owner, woken: Pusher, n: nat)
    requires WakesPusher(cs, owner, woken)
    ensures ClientWork(WokenClients(cs, woken)) + OwnerWork(WokenOwner(owner, woken), n)
         <= ClientWork(cs) + OwnerWork(owner, n) + 1
  {
    if woken.TheClient? {
      ClientWorkChanged(cs, woken.p, Adding(cs[woken.p].c));
    }
  }

  /** Every calm step, whoever takes it, leaves less to do. */
  lemma EveryStepHelps(s: State, step: Step)
    requires OwnerInRange(s.owner, |s.workers|) && Enabled(s, step) && IsCalm(step)
    ensures Remaining(Do(s, step)) < Remaining(s)
  {
    match step {
      case Add(p, woken) =>
        AddHelps(s, p, woken);
      case BlockAdd(p) =>
        ClientWorkChanged(s.clients, p, WaitingFull(s.clients[p].c));
      case PushNull(woken) =>
        WokenWorkersWork(s.workers, woken);
      case Pop(w, woken) =>
        PopHelps(s, w, woken);
      case BlockPop(w) =>
        WorkerWorkChanged(s.workers, w, WaitingEmpty);
      case Finish(w) =>
        WorkerWorkChanged(s.workers, w, Popping);
      case _ =>
    }
  }

  lemma AddHelps(s: State, p: nat, woken: Option<nat>)
    requires Enabled(s, Add(p, woken))
    ensures Remaining(Do(s, Add(p, woken))) < Remaining(s)
  {
    WokenWorkersWork(s.workers, woken);
    ClientWorkChanged(s.clients, p, Idle);
  }

  lemma PopHelps(s: State, w: nat, woken: Pusher)
    requires Enabled(s, Pop(w, woken))
    ensures Remaining(Do(s, Pop(w, woken))) < Remaining(s)
  {
    WokenPusherWork(s.clients, s.owner, woken, |s.workers|);
    WorkerWorkChanged(s.workers, w, AfterPop(s.que[0]));
  }

  // ----- something is left to do until `Stop` returns

  /** Some waiting worker to wake, or none when nobody waits. */
  lemma ChooseWorker(ws: seq<Worker>) returns (woken: Option<nat>)
    ensures WakesWorker(ws, woken)
  {
    if exists w :: 0 <= w < |ws| && ws[w].WaitingEmpty? {
      var w: nat :| w < |ws| && ws[w].WaitingEmpty?;
      woken := Some(w);
    } else {
      woken := None;
    }
  }

  lemma ChoosePusher(cs: seq<Client>, owner: Owner) returns (woken: Pusher)
    ensures WakesPusher(cs, owner, woken)
  {
    if owner.WaitingNull? {
      woken := TheOwner;
    } else if exists p :: 0 <= p < |cs| && cs[p].WaitingFull? {
      var p: nat :| p < |cs| && cs[p].WaitingFull?;
      woken := TheClient(p);
    } else {
      woken := Nobody;
    }
  }

  lemma {:induction false} SomePopping(ws: seq<Worker>) returns (w: nat)
    requires PoppingCount(ws) > 0
    ensures w < |ws| && ws[w].Popping?
  {
    if ws[|ws| - 1].Popping? {
      w := |ws| - 1;
    } else {
      w := SomePopping(ws[..|ws| - 1]);
    }
  }

  lemma {:induction false} SomeAdding(cs: seq<Client>) returns (p: nat)
    requires AddingCount(cs) > 0
    ensures p < |cs| && cs[p].Adding?
  {
    if cs[|cs| - 1].Adding? {
      p := |cs| - 1;
    } else {
      p := SomeAdding(cs[..|cs| - 1]);
    }
  }

  /** With work in the queue and no closure running, some worker is about to pop, unless all are gone. */
  lemma PopIsPossible(s: State) returns (w: nat)
    requires NoLostPop(s) && s.que != [] && !NoneLeft(s.workers)
    requires forall w | 0 <= w < |s.workers| :: !s.workers[w].Running?
    ensures w < |s.workers| && s.workers[w].Popping?
  {
    if SomeoneWaits(s.workers) {
      w := SomePopping(s.workers);
    } else {
      w :| w < |s.workers| && !s.workers[w].Exited?;
    }
  }

  /** With an empty queue and clients in the middle of adding, one of them or the owner is about to push. */
  lemma PushIsPossible(s: State, p: nat) returns (q: nat)
    requires NoLostPush(s) && s.workers != [] && s.que == []
    requires p < |s.clients| && !s.clients[p].Idle?
    ensures s.owner.PushingNull? || (q < |s.clients| && s.clients[q].Adding?)
  {
    q := p;
    if !s.clients[p].Adding? && !s.owner.PushingNull? {
      assert !NobodyWaitsFull(s.clients, s.owner);
      q := SomeAdding(s.clients);
    }
  }

  /** When no worker is left, all NULLs have been pushed. */
  lemma CanJoin(s: State)
    requires Invariant(s) && NoneLeft(s.workers)
    ensures s.owner.Joining? || s.owner.Stopped?
  {
    ExitedAll(s.workers);
    CountOfJoin(s.popped, s.que);
  }

  /** A calm step that can be taken now. */
  ghost predicate Useful(s: State, step: Step) { Enabled(s, step) && IsCalm(step) }

  /** Before the return of `Stop` somebody can take a step that brings it nearer. */
  lemma Progress(s: State) returns (step: Step)
    requires Invariant(s) && !s.owner.Stopped?
    ensures Enabled(s, step) && IsCalm(step) && Remaining(Do(s, step)) < Remaining(s)
  {
    if w: nat :| w < |s.workers| && s.workers[w].Running? {
      step := Finish(w);
    } else if NoneLeft(s.workers) {
      CanJoin(s);
      step := Join;
    } else if s.que != [] {
      step := ProgressByPop(s);
    } else if exists p :: 0 <= p < |s.clients| && !s.clients[p].Idle? {
      step := ProgressByPush(s);
    } else {
      step := ProgressByOwner(s);
    }
    EveryStepHelps(s, step);
  }

  lemma ProgressByPop(s: State) returns (step: Step)
    requires NoLostPop(s) && s.que != [] && !NoneLeft(s.workers)
    requires forall w | 0 <= w < |s.workers| :: !s.workers[w].Running?
    ensures Useful(s, step)
  {
    var w := PopIsPossible(s);
    var woken := ChoosePusher(s.clients, s.owner);
    step := Pop(w, woken);
  }

  lemma ProgressByPush(s: State) returns (step: Step)
    requires Invariant(s) && s.que == []
    requires exists p :: 0 <= p < |s.clients| && !s.clients[p].Idle?
    ensures Useful(s, step)
  {
    var p: nat :| p < |s.clients| && !s.clients[p].Idle?;
    var q := PushIsPossible(s, p);
    var woken := ChooseWorker(s.workers);
    step := if s.owner.PushingNull? then PushNull(woken) else Add(q, woken);
  }

  lemma ProgressByOwner(s: State) returns (step: Step)
    requires Invariant(s) && s.que == [] && !s.owner.Stopped? && !NoneLeft(s.workers)
    requires forall p | 0 <= p < |s.clients| :: s.clients[p].Idle?
    ensures Useful(s, step)
  {
    match s.owner {
      case NotStopped =>
        step := StartStop;
      case PushingNull(k) =>
        var woken := ChooseWorker(s.workers);
        step := PushNull(woken);
      case WaitingNull(k) =>
        OwnerDoesNotWait(s);
        assert false;
      case Joining(k) =>
        EveryoneExited(s);
        assert false;
    }
  }

  lemma OwnerDoesNotWait(s: State)
    requires NoLostPush(s) && s.workers != [] && s.que == []
    requires forall p | 0 <= p < |s.clients| :: s.clients[p].Idle?
    ensures !s.owner.WaitingNull?
  {
    if s.owner.WaitingNull? {
      assert !NobodyWaitsFull(s.clients, s.owner);
    }
    NobodyAdds(s.clients);
  }

  lemma {:induction false} NobodyAdds(cs: seq<Client>)
    requires forall p | 0 <= p < |cs| :: cs[p].Idle?
    ensures AddingCount(cs) == 0
  {
    if cs != [] {
      NobodyAdds(cs[..|cs| - 1]);
    }
  }

  lemma EveryoneExited(s: State)
    requires History(s) && Accounted(s) && s.que == [] && s.owner.Joining?
    ensures forall w | 0 <= w < |s.workers| :: s.workers[w].Exited?
  {
    assert s.popped + s.que == s.popped;
    AllExited(s.workers);
  }

  // ----- every run

  lemma {:induction false} RunHelps(s: State, schedule: seq<Step>, t: State)
    requires Invariant(s) && Runs(s, schedule, t) && Calm(schedule)
    ensures Invariant(t) && Remaining(t) + |schedule| <= Remaining(s)
    decreases |schedule|
  {
    if schedule != [] {
      var init, last, u := LastStep(s, schedule, t);
      assert schedule[|schedule| - 1] == last;
      assert Calm(init) by {
        assert forall i | 0 <= i < |init| :: init[i] == schedule[i];
      }
      RunHelps(s, init, u);
      EveryStepHelps(u, last);
      StepKeepsInvariant(u, last);
    }
  }

  /**
    Whatever the schedule: without spurious wake-ups and new `Add`s a run from a reachable state ends
    within a bound known beforehand, and where it cannot go on `Stop` has returned.
   */
  lemma EveryRunStops(s: State, schedule: seq<Step>, t: State)
    requires Reachable(s) && Runs(s, schedule, t) && Calm(schedule)
    ensures |schedule| <= Remaining(s)
    ensures (forall step | Enabled(t, step) :: !IsCalm(step)) ==> t.owner.Stopped?
  {
    var start, before :| Start(start) && Runs(start, before, s);
    RunKeepsInvariant(start, before, s);
    RunHelps(s, schedule, t);
    RemainingIsNatural(t);
    if !t.owner.Stopped? {
      var step := Progress(t);
      assert Enabled(t, step) && IsCalm(step);
    }
  }

  /** From every state of every run, `Stop` can still return, without a spurious wake-up or further `Add`s. */
  lemma {:induction false} StopCanReturn(s: State) returns (schedule: seq<Step>, t: State)
    requires Invariant(s)
    ensures Runs(s, schedule, t) && t.owner.Stopped?
    ensures Calm(schedule)
    decreases Remaining(s)
  {
    if s.owner.Stopped? {
      schedule, t := [], s;
    } else {
      var step, next := Advance(s);
      var rest;
      rest, t := StopCanReturn(next);
      RunsJoin(s, step, rest, t);
      CalmJoin(step, rest);
      schedule := [step] + rest;
    }
  }

  lemma Advance(s: State) returns (step: Step, t: State)
    requires Invariant(s) && !s.owner.Stopped?
    ensures Enabled(s, step) && t == Do(s, step) && IsCalm(step)
    ensures Invariant(t) && 0 <= Remaining(t) < Remaining(s)
  {
    step := Progress(s);
    t := Do(s, step);
    StepKeepsInvariant(s, step);
    RemainingIsNatural(t);
  }

  lemma CalmJoin(step: Step, rest: seq<Step>)
    requires IsCalm(step) && Calm(rest)
    ensures Calm([step] + rest)
  {
  }

  lemma LastStep(s: State, schedule: seq<Step>, t: State)
    returns (init: seq<Step>, last: Step, u: State)
    requires schedule != [] && Runs(s, schedule, t)
    ensures schedule == init + [last] && Runs(s, init, u) && Enabled(u, last) && t == Do(u, last)
  {
    var n := |schedule| - 1;
    init, last := schedule[..n], schedule[n];
    u :| Runs(s, schedule[..n], u) && Enabled(u, schedule[n]) && t == Do(u, schedule[n]);
  }

  lemma {:induction false} RunsJoin(s: State, step: Step, rest: seq<Step>, t: State)
    requires Enabled(s, step) && Runs(Do(s, step), rest, t)
    ensures Runs(s, [step] + rest, t)
    decreases |rest|
  {
    if rest == [] {
      OneStep(s, step);
      assert [step] + rest == [step];
    } else {
      var init, last, u := LastStep(Do(s, step), rest, t);
      RunsJoin(s, step, init, u);
      OneMoreStep(s, [step] + init, u, last);
      assert [step] + rest == ([step] + init) + [last];
    }
  }

  lemma OneStep(s: State, step: Step)
    requires Enabled(s, step)
    ensures Runs(s, [step], Do(s, step))
  {
    assert Runs(s, [], s);
    OneMoreStep(s, [], s, step);
    assert [] + [step] == [step];
  }

  /** No reachable state is deadlocked: every run can be continued until `Stop` returns. */
  lemma NeverDeadlocked(s: State) returns (schedule: seq<Step>, t: State)
    requires Reachable(s)
    ensures Runs(s, schedule, t) && t.owner.Stopped?
    ensures Calm(schedule)
  {
    var start, before :| Start(start) && Runs(start, before, s);
    RunKeepsInvariant(start, before, s);
    schedule, t := StopCanReturn(s);
  }
}

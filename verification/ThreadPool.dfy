/**
  limonp's thread pool over its blocking queue of capacity n, one worker per slot. Clients add
  closures at any time; the owner stops the pool by pushing one NULL per worker, in competition with
  the clients for the free slots, and then joins the workers.
  One step is one critical section of the queue, the end of a closure, or a join. A signal wakes one
  waiter if there is any; waking more than one is a signal followed by spurious wake-ups.
 */
module ThreadPool {
  import opened Facts
  import opened Options

  type Closure = int

  /** A queue element; None is the NULL pill. */
  type Item = Option<Closure>

  datatype Client = Idle | Adding(c: Closure) | WaitingFull(c: Closure)

  datatype Worker = Popping | WaitingEmpty | Running(c: Closure) | Exited

  /** The owner's progress through `Stop`: k NULLs pushed, or k workers joined. */
  datatype Owner = NotStopped | PushingNull(k: nat) | WaitingNull(k: nat) | Joining(k: nat) | Stopped

  /** before is what had been added when `Stop` began. */
  datatype State = State(que: seq<Item>, clients: seq<Client>, workers: seq<Worker>, owner: Owner,
                         added: seq<Closure>, before: seq<Closure>, popped: seq<Item>, ran: seq<Closure>)

  datatype Step =
    | StartAdd(p: nat, c: Closure)
    | Add(p: nat, woken: Option<nat>)
    | BlockAdd(p: nat)
    | StartStop
    | PushNull(woken: Option<nat>)
    | BlockNull
    | Join
    | Pop(w: nat, wokenPusher: Pusher)
    | BlockPop(w: nat)
    | Finish(w: nat)
    | SpuriousClient(p: nat)
    | SpuriousOwner
    | SpuriousWorker(w: nat)

  /** Who a pop wakes. */
  datatype Pusher = Nobody | TheOwner | TheClient(p: nat)

  // ----- signals

  ghost predicate WakesWorker(workers: seq<Worker>, woken: Option<nat>)
  {
    if woken.Some? then woken.value < |workers| && workers[woken.value].WaitingEmpty?
    else forall w | 0 <= w < |workers| :: !workers[w].WaitingEmpty?
  }

  ghost predicate NobodyWaitsFull(clients: seq<Client>, owner: Owner)
  {
    !owner.WaitingNull? && forall p | 0 <= p < |clients| :: !clients[p].WaitingFull?
  }

  ghost predicate WakesPusher(clients: seq<Client>, owner: Owner, woken: Pusher)
  {
    match woken
    case Nobody => NobodyWaitsFull(clients, owner)
    case TheOwner => owner.WaitingNull?
    case TheClient(p) => p < |clients| && clients[p].WaitingFull?
  }

  function WokenWorkers(workers: seq<Worker>, woken: Option<nat>): (r: seq<Worker>)
    requires woken.Some? ==> woken.value < |workers|
  {
    if woken.Some? then workers[woken.value := Popping] else workers
  }

  function WokenClients(clients: seq<Client>, woken: Pusher): (r: seq<Client>)
    requires woken.TheClient? ==> woken.p < |clients| && clients[woken.p].WaitingFull?
  {
    if woken.TheClient? then clients[woken.p := Adding(clients[woken.p].c)] else clients
  }

  function WokenOwner(owner: Owner, woken: Pusher): (r: Owner)
    requires woken.TheOwner? ==> owner.WaitingNull?
  {
    if woken.TheOwner? then PushingNull(owner.k) else owner
  }

  // ----- steps

  ghost predicate Enabled(s: State, step: Step)
  {
    var n := |s.workers|;
    match step
    case StartAdd(p, _) => p < |s.clients| && s.clients[p].Idle?
    case Add(p, woken) =>
      p < |s.clients| && s.clients[p].Adding? && |s.que| != n && WakesWorker(s.workers, woken)
    case BlockAdd(p) => p < |s.clients| && s.clients[p].Adding? && |s.que| == n
    case StartStop => s.owner.NotStopped?
    case PushNull(woken) => s.owner.PushingNull? && |s.que| != n && WakesWorker(s.workers, woken)
    case BlockNull => s.owner.PushingNull? && |s.que| == n
    case Join => s.owner.Joining? && s.owner.k < n && s.workers[s.owner.k].Exited?
    case Pop(w, woken) =>
      && w < n && s.workers[w].Popping? && s.que != []
      && WakesPusher(s.clients, s.owner, woken)
    case BlockPop(w) => w < n && s.workers[w].Popping? && s.que == []
    case Finish(w) => w < n && s.workers[w].Running?
    case SpuriousClient(p) => p < |s.clients| && s.clients[p].WaitingFull?
    case SpuriousOwner => s.owner.WaitingNull?
    case SpuriousWorker(w) => w < n && s.workers[w].WaitingEmpty?
  }

  function AfterNull(k: nat, n: nat): Owner { if k + 1 < n then PushingNull(k + 1) else Joining(0) }

  function AfterJoin(k: nat, n: nat): Owner { if k + 1 < n then Joining(k + 1) else Stopped }

  function AfterPop(item: Item): Worker { if item.None? then Exited else Running(item.value) }

  function Do(s: State, step: Step): State
    requires Enabled(s, step)
  {
    match step
    case StartAdd(p, c) => s.(clients := s.clients[p := Adding(c)])
    case Add(p, woken) =>
      var c := s.clients[p].c;
      s.(que := s.que + [Some(c)], added := s.added + [c], clients := s.clients[p := Idle],
         workers := WokenWorkers(s.workers, woken))
    case BlockAdd(p) => s.(clients := s.clients[p := WaitingFull(s.clients[p].c)])
    case StartStop => s.(owner := PushingNull(0), before := s.added)
    case PushNull(woken) =>
      s.(que := s.que + [None], owner := AfterNull(s.owner.k, |s.workers|),
         workers := WokenWorkers(s.workers, woken))
    case BlockNull => s.(owner := WaitingNull(s.owner.k))
    case Join => s.(owner := AfterJoin(s.owner.k, |s.workers|))
    case Pop(w, woken) =>
      s.(que := s.que[1..], popped := s.popped + [s.que[0]], workers := s.workers[w := AfterPop(s.que[0])],
         clients := WokenClients(s.clients, woken), owner := WokenOwner(s.owner, woken))
    case BlockPop(w) => s.(workers := s.workers[w := WaitingEmpty])
    case Finish(w) => s.(ran := s.ran + [s.workers[w].c], workers := s.workers[w := Popping])
    case SpuriousClient(p) => s.(clients := s.clients[p := Adding(s.clients[p].c)])
    case SpuriousOwner => s.(owner := PushingNull(s.owner.k))
    case SpuriousWorker(w) => s.(workers := s.workers[w := Popping])
  }

  ghost predicate Start(s: State)
  {
    && s.que == [] && s.added == [] && s.before == [] && s.popped == [] && s.ran == [] && s.owner.NotStopped?
    && s.workers != []
    && (forall w | 0 <= w < |s.workers| :: s.workers[w].Popping?)
    && (forall p | 0 <= p < |s.clients| :: s.clients[p].Idle?)
  }

  ghost predicate Runs(s: State, schedule: seq<Step>, t: State)
  {
    if schedule == [] then s == t
    else
      var n := |schedule| - 1;
      exists u :: Runs(s, schedule[..n], u) && Enabled(u, schedule[n]) && t == Do(u, schedule[n])
  }

  ghost predicate Reachable(t: State) { exists s, schedule :: Start(s) && Runs(s, schedule, t) }

  lemma OneMoreStep(s: State, schedule: seq<Step>, u: State, step: Step)
    requires Runs(s, schedule, u) && Enabled(u, step)
    ensures Runs(s, schedule + [step], Do(u, step))
  {
    var all := schedule + [step];
    assert all[..|all| - 1] == schedule && all[|all| - 1] == step;
  }

  // ----- counting

  function PoppingCount(ws: seq<Worker>): (n: nat)
    ensures n <= |ws|
  {
    if ws == [] then 0 else PoppingCount(ws[..|ws| - 1]) + if ws[|ws| - 1].Popping? then 1 else 0
  }

  function ExitedCount(ws: seq<Worker>): (n: nat)
    ensures n <= |ws|
  {
    if ws == [] then 0 else ExitedCount(ws[..|ws| - 1]) + if ws[|ws| - 1].Exited? then 1 else 0
  }

  function RunningBag(ws: seq<Worker>): multiset<Closure>
  {
    if ws == [] then multiset{}
    else RunningBag(ws[..|ws| - 1]) + if ws[|ws| - 1].Running? then multiset{ws[|ws| - 1].c} else multiset{}
  }

  function AddingCount(cs: seq<Client>): (n: nat)
    ensures n <= |cs|
  {
    if cs == [] then 0 else AddingCount(cs[..|cs| - 1]) + if cs[|cs| - 1].Adding? then 1 else 0
  }

  function IsPopping(w: Worker): int { if w.Popping? then 1 else 0 }

  function IsExited(w: Worker): int { if w.Exited? then 1 else 0 }

  function RunningOf(w: Worker): multiset<Closure> { if w.Running? then multiset{w.c} else multiset{} }

  function IsAdding(c: Client): int { if c.Adding? then 1 else 0 }

  lemma {:induction false} WorkerChanged(ws: seq<Worker>, i: nat, w: Worker)
    requires i < |ws|
    ensures PoppingCount(ws[i := w]) == PoppingCount(ws) - IsPopping(ws[i]) + IsPopping(w)
    ensures ExitedCount(ws[i := w]) == ExitedCount(ws) - IsExited(ws[i]) + IsExited(w)
    decreases |ws|
  {
    var n := |ws| - 1;
    if i < n {
      WorkerChanged(ws[..n], i, w);
      assert ws[i := w][..n] == ws[..n][i := w];
    } else {
      assert ws[i := w][..n] == ws[..n];
    }
  }

  lemma BagShift(a: multiset<Closure>, b: multiset<Closure>, x: multiset<Closure>, y: multiset<Closure>,
                 more: multiset<Closure>)
    requires a + x == b + y
    ensures (a + more) + x == (b + more) + y
  {
    assert (a + more) + x == (a + x) + more;
    assert (b + more) + y == (b + y) + more;
  }

  lemma {:induction false} BagChanged(ws: seq<Worker>, i: nat, w: Worker)
    requires i < |ws|
    ensures RunningBag(ws[i := w]) + RunningOf(ws[i]) == RunningBag(ws) + RunningOf(w)
    decreases |ws|
  {
    var n := |ws| - 1;
    if i < n {
      BagChanged(ws[..n], i, w);
      assert ws[i := w][..n] == ws[..n][i := w];
      assert RunningBag(ws[i := w]) == RunningBag(ws[..n][i := w]) + RunningOf(ws[n]);
      assert RunningBag(ws) == RunningBag(ws[..n]) + RunningOf(ws[n]);
      BagShift(RunningBag(ws[..n][i := w]), RunningBag(ws[..n]), RunningOf(ws[i]), RunningOf(w), RunningOf(ws[n]));
    } else {
      assert ws[i := w][..n] == ws[..n];
      assert RunningBag(ws[i := w]) == RunningBag(ws[..n]) + RunningOf(w);
      assert RunningBag(ws) == RunningBag(ws[..n]) + RunningOf(ws[n]);
    }
  }

  lemma {:induction false} ClientChanged(cs: seq<Client>, i: nat, c: Client)
    requires i < |cs|
    ensures AddingCount(cs[i := c]) == AddingCount(cs) - IsAdding(cs[i]) + IsAdding(c)
    decreases |cs|
  {
    var n := |cs| - 1;
    if i < n {
      ClientChanged(cs[..n], i, c);
      assert cs[i := c][..n] == cs[..n][i := c];
    } else {
      assert cs[i := c][..n] == cs[..n];
    }
  }

  // ----- what every run keeps

  function ClosuresOf(items: seq<Item>): (r: seq<Closure>)
    ensures |r| <= |items|
  {
    if items == [] then []
    else ClosuresOf(items[..|items| - 1])
         + if items[|items| - 1].Some? then [items[|items| - 1].value] else []
  }

  function NullCount(items: seq<Item>): (n: nat)
    ensures n + |ClosuresOf(items)| == |items|
  {
    if items == [] then 0 else NullCount(items[..|items| - 1]) + if items[|items| - 1].None? then 1 else 0
  }

  lemma OneMoreItem(items: seq<Item>, x: Item)
    ensures ClosuresOf(items + [x]) == ClosuresOf(items) + if x.Some? then [x.value] else []
    ensures NullCount(items + [x]) == NullCount(items) + if x.None? then 1 else 0
  {
    assert (items + [x])[..|items|] == items;
  }

  /** How many NULLs the owner has pushed. */
  function NullsPushed(owner: Owner, n: nat): nat
  {
    match owner
    case NotStopped => 0
    case PushingNull(k) => k
    case WaitingNull(k) => k
    case Joining(_) => n
    case Stopped => n
  }

  function IsPushing(owner: Owner): int { if owner.PushingNull? then 1 else 0 }

  /** The threads that will try to push next. */
  function AwakePushers(s: State): int { AddingCount(s.clients) + IsPushing(s.owner) }

  /** The items begin with these closures. */
  ghost predicate BeginsWith(items: seq<Item>, closures: seq<Closure>)
  {
    |closures| <= |items| && forall i | 0 <= i < |closures| :: items[i] == Some(closures[i])
  }

  ghost predicate OwnerInRange(owner: Owner, n: nat)
  {
    owner.PushingNull? || owner.WaitingNull? || owner.Joining? ==> owner.k < n
  }

  /**
    Everything ever pushed, partly popped, partly queued: the closures as added and, behind all those
    that `Stop` found, the NULLs.
   */
  ghost predicate History(s: State)
  {
    var all := s.popped + s.que;
    && ClosuresOf(all) == s.added
    && NullCount(all) == NullsPushed(s.owner, |s.workers|)
    && (s.owner.NotStopped? ==> NullCount(all) == 0)
    && BeginsWith(all, s.before)
  }

  /** What was popped is running, has run, or was a NULL that ended its worker. */
  ghost predicate Accounted(s: State)
  {
    && StartedBag(s.ran, s.workers, s.popped)
    && ExitedCount(s.workers) == NullCount(s.popped)
  }

  /** A waiting worker means that there are at least as many workers about to pop as elements. */
  ghost predicate NoLostPop(s: State)
  {
    SomeoneWaits(s.workers) ==> |s.que| <= PoppingCount(s.workers)
  }

  /** A waiting pusher means that there are at least as many threads about to push as free slots. */
  ghost predicate NoLostPush(s: State)
  {
    !NobodyWaitsFull(s.clients, s.owner) ==> |s.workers| - |s.que| <= AwakePushers(s)
  }

  ghost predicate Invariant(s: State)
  {
    && s.workers != [] && |s.que| <= |s.workers| && OwnerInRange(s.owner, |s.workers|)
    && History(s) && Accounted(s) && EndsWithNull(s) && NoLostPop(s) && NoLostPush(s)
  }

  lemma KeepsRange(s: State, step: Step)
    requires |s.que| <= |s.workers| && s.workers != [] && OwnerInRange(s.owner, |s.workers|) && Enabled(s, step)
    ensures var t := Do(s, step);
            |t.que| <= |t.workers| && |t.workers| == |s.workers| && OwnerInRange(t.owner, |t.workers|)
  {
  }

  /** The last pop before all workers are gone takes a NULL. */
  ghost predicate EndsWithNull(s: State)
  {
    NoneLeft(s.workers) ==> s.popped != [] && s.popped[|s.popped| - 1].None?
  }

  ghost predicate NoneLeft(ws: seq<Worker>) { forall w | 0 <= w < |ws| :: ws[w].Exited? }

  lemma KeepsEndsWithNull(s: State, step: Step)
    requires s.workers != [] && EndsWithNull(s) && Enabled(s, step)
    ensures EndsWithNull(Do(s, step))
  {
    var t := Do(s, step);
    if step.Pop? {
      assert t.workers[step.w] == AfterPop(s.que[0]);
    } else if NoneLeft(t.workers) {
      assert NoneLeft(s.workers) by {
        forall w | 0 <= w < |s.workers| ensures s.workers[w].Exited? {
          assert t.workers[w].Exited?;
        }
      }
    }
  }

  /** One more item behind the history. */
  lemma ItemPushed(all: seq<Item>, x: Item, before: seq<Closure>)
    ensures ClosuresOf(all + [x]) == ClosuresOf(all) + if x.Some? then [x.value] else []
    ensures NullCount(all + [x]) == NullCount(all) + if x.None? then 1 else 0
    ensures BeginsWith(all, before) ==> BeginsWith(all + [x], before)
  {
    OneMoreItem(all, x);
  }

  lemma HistoryAfterPush(s: State, t: State, x: Item)
    requires History(s) && t.popped + t.que == (s.popped + s.que) + [x] && t.before == s.before
    requires t.added == s.added + if x.Some? then [x.value] else []
    requires NullsPushed(t.owner, |t.workers|) == NullsPushed(s.owner, |s.workers|) + if x.None? then 1 else 0
    requires t.owner.NotStopped? ==> s.owner.NotStopped? && x.Some?
    ensures History(t)
  {
    ItemPushed(s.popped + s.que, x, s.before);
  }

  lemma HistoryUnmoved(s: State, t: State)
    requires History(s) && t.popped + t.que == s.popped + s.que && t.added == s.added && t.before == s.before
    requires NullsPushed(t.owner, |t.workers|) == NullsPushed(s.owner, |s.workers|)
    requires t.owner.NotStopped? ==> s.owner.NotStopped?
    ensures History(t)
  {
  }

  /** What `Stop` finds is everything pushed so far, without a NULL. */
  lemma HistoryAfterStart(s: State)
    requires History(s) && Enabled(s, StartStop)
    ensures History(Do(s, StartStop))
  {
    NoNulls(s.popped + s.que);
  }

  lemma KeepsHistory(s: State, step: Step)
    requires History(s) && OwnerInRange(s.owner, |s.workers|) && Enabled(s, step)
    ensures History(Do(s, step))
  {
    if step.Add? {
      var item := Some(s.clients[step.p].c);
      assert s.popped + (s.que + [item]) == (s.popped + s.que) + [item];
      HistoryAfterPush(s, Do(s, step), item);
    } else if step.PushNull? {
      assert s.popped + (s.que + [None]) == (s.popped + s.que) + [None];
      HistoryAfterPush(s, Do(s, step), None);
    } else if step.StartStop? {
      HistoryAfterStart(s);
    } else {
      NothingPushed(s, step);
      HistoryUnmoved(s, Do(s, step));
    }
  }

  lemma NothingPushed(s: State, step: Step)
    requires OwnerInRange(s.owner, |s.workers|) && Enabled(s, step)
    requires !step.Add? && !step.PushNull? && !step.StartStop?
    ensures var t := Do(s, step);
            && t.popped + t.que == s.popped + s.que && t.added == s.added && t.before == s.before
            && NullsPushed(t.owner, |t.workers|) == NullsPushed(s.owner, |s.workers|)
            && (t.owner.NotStopped? ==> s.owner.NotStopped?)
  {
    if step.Pop? {
      assert (s.popped + [s.que[0]]) + s.que[1..] == s.popped + s.que;
    }
  }

  lemma {:induction false} NoNulls(items: seq<Item>)
    requires NullCount(items) == 0
    ensures |ClosuresOf(items)| == |items| && BeginsWith(items, ClosuresOf(items))
  {
    if items != [] {
      NoNulls(items[..|items| - 1]);
    }
  }

  lemma ExitsAfterWake(ws: seq<Worker>, woken: Option<nat>)
    requires WakesWorker(ws, woken)
    ensures ExitedCount(WokenWorkers(ws, woken)) == ExitedCount(ws)
  {
    if woken.Some? {
      WorkerChanged(ws, woken.value, Popping);
    }
  }

  lemma ExitsAfterPop(ws: seq<Worker>, popped: seq<Item>, w: nat, item: Item)
    requires w < |ws| && !ws[w].Exited? && ExitedCount(ws) == NullCount(popped)
    ensures ExitedCount(ws[w := AfterPop(item)]) == NullCount(popped + [item])
  {
    WorkerChanged(ws, w, AfterPop(item));
    OneMoreItem(popped, item);
  }

  lemma KeepsExits(s: State, step: Step)
    requires ExitedCount(s.workers) == NullCount(s.popped) && Enabled(s, step)
    ensures var t := Do(s, step); ExitedCount(t.workers) == NullCount(t.popped)
  {
    if step.Add? || step.PushNull? {
      ExitsAfterWake(s.workers, step.woken);
    } else if step.Pop? {
      ExitsAfterPop(s.workers, s.popped, step.w, s.que[0]);
    } else if step.Finish? || step.BlockPop? || step.SpuriousWorker? {
      WorkerChanged(s.workers, step.w, if step.BlockPop? then WaitingEmpty else Popping);
    }
  }

  lemma BagGains(ws: seq<Worker>, i: nat, w: Worker)
    requires i < |ws| && !ws[i].Running?
    ensures RunningBag(ws[i := w]) == RunningBag(ws) + RunningOf(w)
  {
    BagChanged(ws, i, w);
  }

  lemma BagLoses(ws: seq<Worker>, i: nat, w: Worker)
    requires i < |ws| && ws[i].Running? && !w.Running?
    ensures RunningBag(ws) == RunningBag(ws[i := w]) + multiset{ws[i].c}
  {
    BagChanged(ws, i, w);
  }

  /** Started closures are those that have run and those that are running. */
  ghost predicate StartedBag(ran: seq<Closure>, ws: seq<Worker>, popped: seq<Item>)
  {
    multiset(ran) + RunningBag(ws) == multiset(ClosuresOf(popped))
  }

  lemma BagAfterPop(ran: seq<Closure>, ws: seq<Worker>, popped: seq<Item>, w: nat, item: Item)
    requires StartedBag(ran, ws, popped) && w < |ws| && !ws[w].Running?
    ensures StartedBag(ran, ws[w := AfterPop(item)], popped + [item])
  {
    BagGains(ws, w, AfterPop(item));
    OneMoreItem(popped, item);
  }

  lemma BagAfterFinish(ran: seq<Closure>, ws: seq<Worker>, popped: seq<Item>, w: nat)
    requires StartedBag(ran, ws, popped) && w < |ws| && ws[w].Running?
    ensures StartedBag(ran + [ws[w].c], ws[w := Popping], popped)
  {
    BagLoses(ws, w, Popping);
    assert multiset(ran + [ws[w].c]) == multiset(ran) + multiset{ws[w].c};
  }

  lemma KeepsBag(s: State, step: Step)
    requires StartedBag(s.ran, s.workers, s.popped) && Enabled(s, step)
    ensures var t := Do(s, step); StartedBag(t.ran, t.workers, t.popped)
  {
    if step.Add? || step.PushNull? {
      if step.woken.Some? {
        BagGains(s.workers, step.woken.value, Popping);
      }
    } else if step.Pop? {
      BagAfterPop(s.ran, s.workers, s.popped, step.w, s.que[0]);
    } else if step.Finish? {
      BagAfterFinish(s.ran, s.workers, s.popped, step.w);
    } else if step.BlockPop? || step.SpuriousWorker? {
      BagGains(s.workers, step.w, if step.BlockPop? then WaitingEmpty else Popping);
    }
  }

  lemma PopsAfterWake(ws: seq<Worker>, woken: Option<nat>)
    requires WakesWorker(ws, woken)
    ensures woken.Some? ==> PoppingCount(WokenWorkers(ws, woken)) == PoppingCount(ws) + 1
    ensures woken.None? ==> forall w | 0 <= w < |ws| :: !ws[w].WaitingEmpty?
  {
    if woken.Some? {
      WorkerChanged(ws, woken.value, Popping);
    }
  }

  ghost predicate SomeoneWaits(ws: seq<Worker>)
  {
    exists w :: 0 <= w < |ws| && ws[w].WaitingEmpty?
  }

  lemma KeepsPops(s: State, step: Step)
    requires NoLostPop(s) && Enabled(s, step)
    ensures NoLostPop(Do(s, step))
  {
    var t := Do(s, step);
    if step.Add? || step.PushNull? {
      PopsAfterWake(s.workers, step.woken);
    } else if step.Pop? || step.Finish? || step.SpuriousWorker? {
      WorkerChanged(s.workers, step.w, t.workers[step.w]);
      WaitersBefore(s.workers, step.w, t.workers[step.w]);
    }
  }

  lemma WaitersBefore(ws: seq<Worker>, i: nat, w: Worker)
    requires i < |ws| && !w.WaitingEmpty?
    ensures SomeoneWaits(ws[i := w]) ==> SomeoneWaits(ws)
  {
    var after := ws[i := w];
    if k :| 0 <= k < |after| && after[k].WaitingEmpty? {
      assert ws[k].WaitingEmpty?;
    }
  }

  lemma PushersAfterChange(cs: seq<Client>, i: nat, c: Client, owner: Owner)
    ensures i < |cs| && !c.WaitingFull? && NobodyWaitsFull(cs, owner) ==> NobodyWaitsFull(cs[i := c], owner)
  {
  }

  lemma KeepsPushes(s: State, step: Step)
    requires NoLostPush(s) && |s.que| <= |s.workers| && Enabled(s, step)
    ensures NoLostPush(Do(s, step))
  {
    var t := Do(s, step);
    if step.StartAdd? || step.Add? || step.SpuriousClient? {
      ClientChanged(s.clients, step.p, t.clients[step.p]);
      PushersAfterChange(s.clients, step.p, t.clients[step.p], s.owner);
    } else if step.Pop? && step.wokenPusher.TheClient? {
      var p := step.wokenPusher.p;
      ClientChanged(s.clients, p, t.clients[p]);
    }
  }

  lemma StepKeepsInvariant(s: State, step: Step)
    requires Invariant(s) && Enabled(s, step)
    ensures Invariant(Do(s, step))
  {
    KeepsRange(s, step);
    KeepsHistory(s, step);
    KeepsEndsWithNull(s, step);
    KeepsExits(s, step);
    KeepsBag(s, step);
    KeepsPops(s, step);
    KeepsPushes(s, step);
  }

  lemma {:induction false} FreshWorkers(ws: seq<Worker>)
    requires forall w | 0 <= w < |ws| :: ws[w].Popping?
    ensures ExitedCount(ws) == 0 && RunningBag(ws) == multiset{}
  {
    if ws != [] {
      FreshWorkers(ws[..|ws| - 1]);
    }
  }

  lemma {:induction false} RunKeepsInvariant(s: State, schedule: seq<Step>, t: State)
    requires Start(s) && Runs(s, schedule, t)
    ensures Invariant(t)
    decreases |schedule|
  {
    if schedule == [] {
      FreshWorkers(s.workers);
    } else {
      var n := |schedule| - 1;
      var u :| Runs(s, schedule[..n], u) && Enabled(u, schedule[n]) && t == Do(u, schedule[n]);
      RunKeepsInvariant(s, schedule[..n], u);
      StepKeepsInvariant(u, schedule[n]);
    }
  }

  // ----- what `Stop` guarantees when it returns

  lemma {:induction false} AllExited(ws: seq<Worker>)
    requires ExitedCount(ws) == |ws|
    ensures forall w | 0 <= w < |ws| :: ws[w].Exited?
    ensures RunningBag(ws) == multiset{}
  {
    if ws != [] {
      AllExited(ws[..|ws| - 1]);
    }
  }

  lemma {:induction false} CountOfJoin(a: seq<Item>, b: seq<Item>)
    ensures NullCount(a + b) == NullCount(a) + NullCount(b)
    ensures ClosuresOf(a + b) == ClosuresOf(a) + ClosuresOf(b)
    decreases |b|
  {
    if b == [] {
      assert a + b == a;
    } else {
      var init, x := b[..|b| - 1], b[|b| - 1];
      CountOfJoin(a, init);
      assert b == init + [x] && a + b == (a + init) + [x];
      OneMoreItem(init, x);
      OneMoreItem(a + init, x);
      Regroup(ClosuresOf(a), ClosuresOf(init), if x.Some? then [x.value] else []);
    }
  }

  /** In every run, joined workers have exited. */
  ghost predicate JoinedExited(s: State)
  {
    && (s.owner.Joining? ==> forall w | 0 <= w < s.owner.k && w < |s.workers| :: s.workers[w].Exited?)
    && (s.owner.Stopped? ==> forall w | 0 <= w < |s.workers| :: s.workers[w].Exited?)
  }

  lemma {:induction false} RunKeepsJoined(s: State, schedule: seq<Step>, t: State)
    requires Start(s) && Runs(s, schedule, t)
    ensures JoinedExited(t)
    decreases |schedule|
  {
    if schedule != [] {
      var n := |schedule| - 1;
      var u :| Runs(s, schedule[..n], u) && Enabled(u, schedule[n]) && t == Do(u, schedule[n]);
      RunKeepsJoined(s, schedule[..n], u);
      StepKeepsJoined(u, schedule[n]);
    }
  }

  lemma StepKeepsJoined(s: State, step: Step)
    requires JoinedExited(s) && Enabled(s, step)
    ensures JoinedExited(Do(s, step))
  {
    var t := Do(s, step);
    assert forall w | 0 <= w < |s.workers| && s.workers[w].Exited? :: t.workers[w].Exited?;
  }

  lemma {:induction false} ExitedAll(ws: seq<Worker>)
    requires forall w | 0 <= w < |ws| :: ws[w].Exited?
    ensures ExitedCount(ws) == |ws|
  {
    if ws != [] {
      ExitedAll(ws[..|ws| - 1]);
    }
  }

  /**
    When `Stop` returns, each closure added before it has run exactly once and each worker has taken
    one NULL. Of the closures added meanwhile those in front of the last NULL have run, exactly once,
    and the others are left in the queue.
   */
  lemma StopRunsEverything(t: State)
    requires Reachable(t) && t.owner.Stopped?
    ensures multiset(t.ran) == multiset(ClosuresOf(t.popped))
    ensures t.before <= ClosuresOf(t.popped) && t.added == ClosuresOf(t.popped) + ClosuresOf(t.que)
    ensures NullCount(t.popped) == |t.workers| && NullCount(t.que) == 0
    ensures t.popped != [] && t.popped[|t.popped| - 1].None?
    ensures forall w | 0 <= w < |t.workers| :: t.workers[w].Exited?
  {
    var s, schedule :| Start(s) && Runs(s, schedule, t);
    RunKeepsInvariant(s, schedule, t);
    RunKeepsJoined(s, schedule, t);
    EveryNullTaken(t);
    EveryClosureRan(t);
  }

  lemma EveryNullTaken(t: State)
    requires History(t) && Accounted(t) && NoneLeft(t.workers) && t.owner.Stopped? && t.workers != []
    ensures t.before <= ClosuresOf(t.popped) && t.added == ClosuresOf(t.popped) + ClosuresOf(t.que)
    ensures NullCount(t.popped) == |t.workers| && NullCount(t.que) == 0
  {
    ExitedAll(t.workers);
    CountOfJoin(t.popped, t.que);
    FoundIsPopped(t.popped, t.que, t.before);
  }

  lemma EveryClosureRan(t: State)
    requires Accounted(t) && NoneLeft(t.workers)
    ensures multiset(t.ran) == multiset(ClosuresOf(t.popped))
  {
    ExitedAll(t.workers);
    AllExited(t.workers);
  }

  /** If nothing was added while `Stop` ran, everything added has run exactly once and the queue is empty. */
  lemma QuietStop(t: State)
    requires Reachable(t) && t.owner.Stopped? && t.added == t.before
    ensures multiset(t.ran) == multiset(t.added) && t.que == []
  {
    StopRunsEverything(t);
    assert |ClosuresOf(t.que)| == 0;
  }

  /** A NULL among the popped items means that all closures in front of every NULL were popped too. */
  lemma FoundIsPopped(popped: seq<Item>, que: seq<Item>, before: seq<Closure>)
    requires BeginsWith(popped + que, before) && NullCount(popped) > 0
    ensures before <= ClosuresOf(popped)
  {
    SomeNull(popped);
    var i :| 0 <= i < |popped| && popped[i].None?;
    assert (popped + que)[i] == None;
    assert |before| <= i;
    assert forall k | 0 <= k < |before| :: popped[k] == (popped + que)[k];
    ClosuresBegin(popped, before);
  }

  lemma {:induction false} ClosuresBegin(items: seq<Item>, closures: seq<Closure>)
    requires BeginsWith(items, closures)
    ensures closures <= ClosuresOf(items)
    decreases |items|
  {
    if |closures| < |items| {
      ClosuresBegin(items[..|items| - 1], closures);
    } else if items != [] {
      ClosuresBegin(items[..|items| - 1], closures[..|closures| - 1]);
      assert closures == closures[..|closures| - 1] + [closures[|closures| - 1]];
    }
  }

  lemma {:induction false} SomeNull(items: seq<Item>)
    requires NullCount(items) > 0
    ensures exists i :: 0 <= i < |items| && items[i].None?
  {
    if !items[|items| - 1].None? {
      SomeNull(items[..|items| - 1]);
      var i :| 0 <= i < |items| - 1 && items[..|items| - 1][i].None?;
      assert items[i].None?;
    }
  }

  /** Closures start in the order in which they were added. */
  lemma StartedInOrder(t: State)
    requires Reachable(t)
    ensures ClosuresOf(t.popped) <= t.added
    ensures multiset(t.ran) <= multiset(t.added)
  {
    var s, schedule :| Start(s) && Runs(s, schedule, t);
    RunKeepsInvariant(s, schedule, t);
    CountOfJoin(t.popped, t.que);
    assert multiset(t.added) == multiset(ClosuresOf(t.popped)) + multiset(ClosuresOf(t.que));
  }
}

/** What every step of the pool keeps: the registry, the thread ledger, the
    pause law and the account of DeleteTasks. */
module PoolSafety {
  import opened WaitableQueue
  import opened ThreadPool

  // ---- The registry ----

  /** The keys of m_map are the threads that have registered and not executed
      a DeleteTask; the dead are gone for good. */
  ghost predicate Registered(s: Pool)
  {
    && s.dead !! s.workers.Keys
    && (forall w :: w in s.registry <==> w in s.workers && s.workers[w] != Starting)
  }

  lemma ResizeKeepsRegistered(s: Pool, a: Action, s': Pool)
    requires Registered(s) && ResizeNext(s, a, s')
    ensures Registered(s')
  {
    hide Enqueues;
  }

  lemma GateKeepsRegistered(s: Pool, a: Action, s': Pool)
    requires Registered(s) && GateNext(s, a, s')
    ensures Registered(s')
  {
    hide Enqueues;
  }

  lemma WorkerKeepsRegistered(s: Pool, a: Action, s': Pool)
    requires Registered(s) && WorkerNext(s, a, s')
    ensures Registered(s')
  {
    hide Enqueues, Waits, Takes, Stirs;
  }

  ghost predicate Waiters(s: Pool)
  {
    && Sound(s.q)
    && forall w :: w in s.q.sleeping || w in s.q.woken ==> w in s.workers && s.workers[w] == Looping
  }

  lemma ResizeKeepsWaiters(s: Pool, a: Action, s': Pool)
    requires Waiters(s) && ResizeNext(s, a, s')
    ensures Waiters(s')
  {
    hide Enqueues, Sound;
    if a.QueueGrowPause? {
      EnqueueKeepsSound(s.q, s'.q, PauseTask);
    } else if a.QueueShrink? {
      EnqueueKeepsSound(s.q, s'.q, DeleteTask);
    }
  }

  lemma GateKeepsWaiters(s: Pool, a: Action, s': Pool)
    requires Waiters(s) && GateNext(s, a, s')
    ensures Waiters(s')
  {
    hide Enqueues, Sound;
    if a.QueuePause? {
      EnqueueKeepsSound(s.q, s'.q, PauseTask);
    } else if a.QueueStop? {
      EnqueueKeepsSound(s.q, s'.q, DeleteTask);
    }
  }

  lemma WorkerKeepsWaiters(s: Pool, a: Action, s': Pool)
    requires Waiters(s) && WorkerNext(s, a, s')
    ensures Waiters(s')
  {
    hide Enqueues, Sound, IsTop;
    match a
    case AddTask(t) => EnqueueKeepsSound(s.q, s'.q, t);
    case WaitForTask(w) => WaitKeepsSound(s.q, s'.q, w);
    case Stir(w) => StirKeepsSound(s.q, s'.q, w);
    case Take(w, t) => TakeKeepsSound(s.q, s'.q, w, t);
    case _ =>
  }

  ghost predicate Locked(s: Pool)
  {
    && (forall w :: w in s.workers && s.workers[w] == Checking <==> s.mutex == Worker(w))
    && (s.mutex == Controller <==> s.ctl.Stopping?)
  }

  lemma ResizeKeepsLocked(s: Pool, a: Action, s': Pool)
    requires Locked(s) && ResizeNext(s, a, s')
    ensures Locked(s')
  {
    hide Enqueues;
  }

  lemma GateKeepsLocked(s: Pool, a: Action, s': Pool)
    requires Locked(s) && GateNext(s, a, s')
    ensures Locked(s')
  {
    hide Enqueues;
  }

  lemma WorkerKeepsLocked(s: Pool, a: Action, s': Pool)
    requires Locked(s) && WorkerNext(s, a, s')
    ensures Locked(s')
  {
    hide Enqueues, Waits, Takes, Stirs;
  }

  // ---- The thread ledger ----

  /** The increments m_num_of_threads still owes, or is ahead by. */
  function Ahead(c: Control): (n: int)
  {
    match c
    case Building(left) => left
    case Growing(_, false) => -1
    case _ => 0
  }

  ghost predicate Ledger(s: Pool)
  {
    s.count == |s.workers| - s.shrunk + Ahead(s.ctl)
  }

  function Any(p: Phase): bool { true }

  /** What an action of the controller adds to the queue. */
  function Pushed(a: Action): (ts: multiset<Task>)
  {
    match a
    case QueueGrowPause => multiset{PauseTask}
    case QueuePause => multiset{PauseTask}
    case QueueShrink => multiset{DeleteTask}
    case QueueStop => multiset{DeleteTask}
    case _ => multiset{}
  }

  lemma ControlItems(s: Pool, a: Action, s': Pool)
    requires ResizeNext(s, a, s') || GateNext(s, a, s')
    ensures s'.q.items == s.q.items + Pushed(a)
  {
    hide Fresh, NotifyHeld, Wakes;
  }

  lemma ResizeMoves(s: Pool, a: Action, s': Pool, f: Phase -> bool)
    requires ResizeNext(s, a, s')
    ensures s'.q.items == s.q.items + Pushed(a)
    ensures a.Build? || a.CreateThread? ==>
              && |s'.workers| == |s.workers| + 1
              && Count(s'.workers, f) == Count(s.workers, f) + One(f(Starting))
    ensures !(a.Build? || a.CreateThread?) ==> s'.workers == s.workers
  {
    hide Count, One, Enqueues, Pushed;
    ControlItems(s, a, s');
    match a
    case Build(w) => CountAdded(s.workers, w, Starting, f);
    case CreateThread(w) => CountAdded(s.workers, w, Starting, f);
    case _ =>
  }

  lemma GateMoves(s: Pool, a: Action, s': Pool, f: Phase -> bool)
    requires GateNext(s, a, s')
    requires f(Held(false)) == f(Held(true))
    ensures s'.q.items == s.q.items + Pushed(a)
    ensures |s'.workers| == |s.workers| && Count(s'.workers, f) == Count(s.workers, f)
  {
    hide Count, NotifyHeld, Enqueues, Pushed;
    ControlItems(s, a, s');
    CountNotified(s.workers, f);
  }

  lemma ResizeKeepsLedger(s: Pool, a: Action, s': Pool)
    requires Ledger(s) && ResizeNext(s, a, s')
    ensures Ledger(s')
  {
    hide Enqueues, NotifyHeld, Fresh, Count;
    ResizeMoves(s, a, s', Any);
  }

  lemma GateKeepsLedger(s: Pool, a: Action, s': Pool)
    requires Ledger(s) && GateNext(s, a, s')
    ensures Ledger(s')
  {
    hide Enqueues, NotifyHeld, Fresh, Count;
    GateMoves(s, a, s', Any);
  }

  lemma WorkerItems(s: Pool, a: Action, s': Pool)
    requires WorkerNext(s, a, s')
    ensures a.AddTask? ==> a.t.UserTask? && s'.q.items == s.q.items + multiset{a.t}
    ensures a.Take? ==> IsTop(s.q.items, a.t) && s'.q.items == s.q.items - multiset{a.t}
    ensures !a.AddTask? && !a.Take? ==> s'.q.items == s.q.items
  {
    hide IsTop, Wakes;
  }

  lemma WorkerMoves(s: Pool, a: Action, s': Pool, f: Phase -> bool)
    requires WorkerNext(s, a, s')
    ensures a.AddTask? ==> a.t.UserTask? && s'.q.items == s.q.items + multiset{a.t}
    ensures a.Take? ==> IsTop(s.q.items, a.t) && s'.q.items == s.q.items - multiset{a.t}
    ensures !a.AddTask? && !a.Take? ==> s'.q.items == s.q.items
    ensures a.AddTask? || a.WaitForTask? || a.Stir? ==> s'.workers == s.workers
    ensures !(a.AddTask? || a.WaitForTask? || a.Stir? || a.Kill?) ==>
              && a.w in s.workers && a.w in s'.workers && |s'.workers| == |s.workers|
              && Count(s'.workers, f) == Count(s.workers, f) - One(f(s.workers[a.w])) + One(f(s'.workers[a.w]))
    ensures a.Kill? ==>
              && a.w in s.workers && |s'.workers| == |s.workers| - 1
              && Count(s'.workers, f) == Count(s.workers, f) - One(f(s.workers[a.w]))
  {
    hide WorkerNext, Count, One, IsTop;
    WorkerItems(s, a, s');
    WorkerCounts(s, a, s', f);
  }

  lemma WorkerCounts(s: Pool, a: Action, s': Pool, f: Phase -> bool)
    requires WorkerNext(s, a, s')
    ensures a.AddTask? || a.WaitForTask? || a.Stir? ==> s'.workers == s.workers
    ensures !(a.AddTask? || a.WaitForTask? || a.Stir? || a.Kill?) ==>
              && a.w in s.workers && a.w in s'.workers && |s'.workers| == |s.workers|
              && Count(s'.workers, f) == Count(s.workers, f) - One(f(s.workers[a.w])) + One(f(s'.workers[a.w]))
    ensures a.Kill? ==>
              && a.w in s.workers && |s'.workers| == |s.workers| - 1
              && Count(s'.workers, f) == Count(s.workers, f) - One(f(s.workers[a.w]))
  {
    hide Count, One, Enqueues, Waits, Takes, Stirs;
    match a
    case AddTask(_) =>
    case WaitForTask(_) =>
    case Stir(_) =>
    case Kill(w) => CountRemoved(s.workers, w, f);
    case Register(w) => CountMoved(s.workers, w, Looping, f);
    case Take(w, t) => CountMoved(s.workers, w, Running(t), f);
    case Finish(w) => CountMoved(s.workers, w, Looping, f);
    case EnterPause(w) => CountMoved(s.workers, w, if s.paused then Checking else Looping, f);
    case Block(w) => CountMoved(s.workers, w, Held(false), f);
    case WakeHeld(w) => CountMoved(s.workers, w, Held(true), f);
    case LeavePause(w) => CountMoved(s.workers, w, if s.paused then Checking else Looping, f);
  }

  lemma WorkerKeepsLedger(s: Pool, a: Action, s': Pool)
    requires Ledger(s) && WorkerNext(s, a, s')
    ensures Ledger(s')
  {
    hide Enqueues, Waits, Takes, Stirs, Count;
    WorkerMoves(s, a, s', Any);
  }

  // ---- The pause law ----

  predicate Calmed(p: Phase)
  {
    p == Running(PauseTask) || p == Checking || p.Held?
  }

  /** Queued PauseTasks, plus workers that have taken one and are held by it. */
  ghost function Calm(s: Pool): nat
  {
    s.q.items[PauseTask] + Count(s.workers, Calmed)
  }

  ghost predicate PauseLaw(s: Pool)
  {
    s.paused ==>
      match s.ctl
      case Building(_) => false
      case Resuming => false
      case Pausing(i, _) => Calm(s) >= i
      case GrowingPauses(p, t) => p <= t && Calm(s) >= |s.workers| - s.shrunk + t - p
      case Growing(t, _) => Calm(s) >= |s.workers| - s.shrunk + t
      case _ => Calm(s) >= |s.workers| - s.shrunk
  }

  lemma ResizeKeepsPauseLaw(s: Pool, a: Action, s': Pool)
    requires Ledger(s) && PauseLaw(s) && ResizeNext(s, a, s')
    ensures PauseLaw(s')
  {
    hide Enqueues, NotifyHeld, Fresh, Count;
    ResizeMoves(s, a, s', Calmed);
  }

  lemma GateKeepsPauseLaw(s: Pool, a: Action, s': Pool)
    requires Ledger(s) && PauseLaw(s) && GateNext(s, a, s')
    ensures PauseLaw(s')
  {
    hide Enqueues, NotifyHeld, Fresh, Count;
    GateMoves(s, a, s', Calmed);
  }

  lemma WorkerLeavesControl(s: Pool, a: Action, s': Pool)
    requires WorkerNext(s, a, s')
    ensures s'.ctl == s.ctl && s'.paused == s.paused && s'.shrunk == s.shrunk && s'.everShrunk == s.everShrunk
    ensures s'.stops == s.stops && s'.grown == s.grown && s'.count == s.count - One(a.Kill?)
  {
    hide Enqueues, Waits, Takes, Stirs;
  }

  /** Under the pause no worker loses the PauseTask it has or that waits. */
  lemma WorkerKeepsSize(s: Pool, a: Action, s': Pool)
    requires WorkerNext(s, a, s')
    ensures |s'.workers| == |s.workers| - One(a.Kill?)
    ensures s.paused ==> Calm(s') >= Calm(s)
  {
    hide Enqueues, Waits, Takes, Stirs, IsTop, Count;
    WorkerMoves(s, a, s', Calmed);
  }

  lemma WorkerKeepsPauseLaw(s: Pool, a: Action, s': Pool)
    requires PauseLaw(s) && WorkerNext(s, a, s')
    ensures PauseLaw(s')
  {
    hide WorkerNext, Calm;
    WorkerLeavesControl(s, a, s');
    WorkerKeepsSize(s, a, s');
  }

  // ---- The account of DeleteTasks ----

  predicate Doomed(p: Phase)
  {
    p == Running(DeleteTask)
  }

  ghost function Deletes(s: Pool): nat
  {
    s.q.items[DeleteTask] + Count(s.workers, Doomed)
  }

  /** Without shrinking, DeleteTasks come from Stop alone: while it queues them
      as many as it has queued, afterwards one per thread alive that was not
      created since. */
  ghost predicate DeleteAccount(s: Pool)
  {
    !s.everShrunk ==>
      && s.shrunk == 0
      && (s.ctl.Shrinking? ==> s.ctl == Shrinking(0, false))
      && (s.ctl.Building? ==> s.stops == 0)
      && (s.stops == 0 ==> Deletes(s) == 0 && !s.ctl.Stopping?)
      && (s.stops == 1 ==> if s.ctl.Stopping? then s.grown == 0 && Deletes(s) == s.ctl.i <= s.count
                           else Deletes(s) + s.grown == |s.workers|)
  }

  lemma ResizeKeepsDeleteAccount(s: Pool, a: Action, s': Pool)
    requires Ledger(s) && DeleteAccount(s) && ResizeNext(s, a, s')
    ensures DeleteAccount(s')
  {
    hide Enqueues, NotifyHeld, Fresh, Count;
    ResizeMoves(s, a, s', Doomed);
  }

  lemma GateKeepsDeleteAccount(s: Pool, a: Action, s': Pool)
    requires Ledger(s) && DeleteAccount(s) && GateNext(s, a, s')
    ensures DeleteAccount(s')
  {
    hide Enqueues, NotifyHeld, Fresh, Count;
    GateMoves(s, a, s', Doomed);
  }

  lemma WorkerDeletes(s: Pool, a: Action, s': Pool)
    requires WorkerNext(s, a, s')
    ensures Deletes(s') == Deletes(s) - One(a.Kill?)
    ensures a.Kill? ==> s.mutex.Free?
  {
    hide Enqueues, Waits, Takes, Stirs, Count;
    WorkerMoves(s, a, s', Doomed);
  }

  lemma WorkerKeepsDeleteAccount(s: Pool, a: Action, s': Pool)
    requires Locked(s) && DeleteAccount(s) && WorkerNext(s, a, s')
    ensures DeleteAccount(s')
  {
    hide WorkerNext, Deletes;
    WorkerLeavesControl(s, a, s');
    WorkerKeepsSize(s, a, s');
    WorkerDeletes(s, a, s');
  }

  // ---- The account of a pool that may have shrunk ----

  /** Before any Stop, whoever was told to die by a shrink still has to, or is
      dead; debt is how far below 0 the count started. */
  ghost predicate ShrinkAccount(s: Pool, debt: nat)
  {
    s.stops == 0 ==>
      !s.ctl.Stopping?
      && Deletes(s) + |s.dead| + debt == s.shrunk + if s.ctl.Shrinking? && s.ctl.queued then 1 else 0
  }

  lemma ResizeKeepsShrinkAccount(s: Pool, a: Action, s': Pool, debt: nat)
    requires ShrinkAccount(s, debt) && ResizeNext(s, a, s')
    ensures ShrinkAccount(s', debt)
  {
    hide Enqueues, NotifyHeld, Fresh, Count;
    ResizeMoves(s, a, s', Doomed);
  }

  lemma GateKeepsShrinkAccount(s: Pool, a: Action, s': Pool, debt: nat)
    requires ShrinkAccount(s, debt) && GateNext(s, a, s')
    ensures ShrinkAccount(s', debt)
  {
    hide Enqueues, NotifyHeld, Fresh, Count;
    GateMoves(s, a, s', Doomed);
  }

  lemma WorkerBuries(s: Pool, a: Action, s': Pool)
    requires Registered(s) && WorkerNext(s, a, s')
    ensures |s'.dead| == |s.dead| + One(a.Kill?)
  {
    hide Enqueues, Waits, Takes, Stirs;
  }

  lemma WorkerKeepsShrinkAccount(s: Pool, a: Action, s': Pool, debt: nat)
    requires Registered(s) && ShrinkAccount(s, debt) && WorkerNext(s, a, s')
    ensures ShrinkAccount(s', debt)
  {
    hide Registered, WorkerNext, Deletes;
    WorkerLeavesControl(s, a, s');
    WorkerDeletes(s, a, s');
    WorkerBuries(s, a, s');
  }

  lemma StepKeepsShrinkAccount(s: Pool, a: Action, s': Pool, debt: nat)
    requires Registered(s) && ShrinkAccount(s, debt) && Next(s, a, s')
    ensures ShrinkAccount(s', debt)
  {
    hide Registered, ShrinkAccount, ResizeNext, GateNext, WorkerNext;
    if WorkerNext(s, a, s') {
      WorkerKeepsShrinkAccount(s, a, s', debt);
    } else if ResizeNext(s, a, s') {
      ResizeKeepsShrinkAccount(s, a, s', debt);
    } else {
      GateKeepsShrinkAccount(s, a, s', debt);
    }
  }

  /** How far below 0 a start with n is. */
  function Debt(n: int): (d: nat)
  {
    if n < 0 then -n else 0
  }

  lemma {:induction false} RunKeepsShrinkAccount(states: seq<Pool>, acts: seq<Action>, n: int)
    requires IsExecution(states, acts) && Initial(states[0], n)
    ensures ShrinkAccount(states[|acts|], Debt(n))
    decreases |acts|
  {
    hide Inv, Next, Initial, ShrinkAccount;
    if acts == [] {
      InitiallyNoShrink(states[0], n);
    } else {
      var m := |acts| - 1;
      RunKeepsShrinkAccount(states[..m + 1], acts[..m], n);
      RunKeepsInv(states, acts, n);
      assert Inv(states[m]);
      InvRegistered(states[m]);
      StepKeepsShrinkAccount(states[m], acts[m], states[m + 1], Debt(n));
    }
  }

  lemma InvRegistered(s: Pool)
    requires Inv(s)
    ensures Registered(s)
  {
  }

  lemma InitiallyNoShrink(s: Pool, n: int)
    requires Initial(s, n)
    ensures ShrinkAccount(s, Debt(n))
  {
    assert Having(s.workers, Doomed) == {};
  }

  // ---- All of it, along every run ----

  ghost predicate Inv(s: Pool)
  {
    Registered(s) && Waiters(s) && Locked(s) && Ledger(s) && PauseLaw(s) && DeleteAccount(s)
  }

  lemma InitialInv(s: Pool, n: int)
    requires Initial(s, n)
    ensures Inv(s)
  {
    assert Having(s.workers, Doomed) == {};
  }

  lemma StepKeepsInv(s: Pool, a: Action, s': Pool)
    requires Inv(s) && Next(s, a, s')
    ensures Inv(s')
  {
    hide Registered, Waiters, Locked, Ledger, PauseLaw, DeleteAccount, ResizeNext, GateNext, WorkerNext;
    if ResizeNext(s, a, s') {
      ResizeKeepsRegistered(s, a, s');
      ResizeKeepsWaiters(s, a, s');
      ResizeKeepsLocked(s, a, s');
      ResizeKeepsLedger(s, a, s');
      ResizeKeepsPauseLaw(s, a, s');
      ResizeKeepsDeleteAccount(s, a, s');
    } else if GateNext(s, a, s') {
      GateKeepsRegistered(s, a, s');
      GateKeepsWaiters(s, a, s');
      GateKeepsLocked(s, a, s');
      GateKeepsLedger(s, a, s');
      GateKeepsPauseLaw(s, a, s');
      GateKeepsDeleteAccount(s, a, s');
    } else {
      WorkerKeepsRegistered(s, a, s');
      WorkerKeepsWaiters(s, a, s');
      WorkerKeepsLocked(s, a, s');
      WorkerKeepsLedger(s, a, s');
      WorkerKeepsPauseLaw(s, a, s');
      WorkerKeepsDeleteAccount(s, a, s');
    }
  }

  lemma {:induction false} RunKeepsInv(states: seq<Pool>, acts: seq<Action>, n: int)
    requires IsExecution(states, acts) && Initial(states[0], n)
    ensures forall k :: 0 <= k < |states| ==> Inv(states[k])
    decreases |acts|
  {
    hide Inv, Next, Initial;
    if acts == [] {
      InitialInv(states[0], n);
    } else {
      var m := |acts| - 1;
      RunKeepsInv(states[..m + 1], acts[..m], n);
      assert Inv(states[..m + 1][m]);
      StepKeepsInv(states[m], acts[m], states[m + 1]);
      forall k | 0 <= k < |states| ensures Inv(states[k]) {
        if k <= m {
          assert Inv(states[..m + 1][k]);
        }
      }
    }
  }
}

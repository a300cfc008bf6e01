/** The first Stop of an unpaused pool, with nothing submitted from then on: how
    many workers survive it, and that one that never shrank drains its queue and
    loses every worker. */
module PoolStop {
  import Sets
  import opened WaitableQueue
  import opened ThreadPool
  import opened PoolSafety
  import opened PoolTheorems

  /** What may still happen. */
  predicate Winds(a: Action)
  {
    a.QueueStop? || a.StopQueued? || a.StopReturns? || a.Register? || a.WaitForTask? || a.Stir? || a.Take?
    || a.Finish? || a.EnterPause? || a.Block? || a.WakeHeld? || a.LeavePause? || a.Kill?
  }

  ghost predicate OnlyDeletes(items: multiset<Task>)
  {
    forall t :: t in items ==> t == DeleteTask
  }

  /** DeleteTasks that the loop of Stop has yet to queue. */
  function Unqueued(s: Pool): (n: nat)
  {
    if s.ctl.Stopping? && s.ctl.i < s.count then s.count - s.ctl.i else 0
  }

  /** left is by how many the workers outnumber the DeleteTasks for them. */
  ghost predicate Tally(s: Pool, left: int)
  {
    |s.workers| == Deletes(s) + Unqueued(s) + left
  }

  /** s is reached from s0, the state in which Stop has just taken m_mutex. */
  ghost predicate Winding(s0: Pool, s: Pool, left: int)
  {
    && Registered(s) && Waiters(s) && Locked(s) && Tally(s, left)
    && (s.ctl.Stopping? || s.ctl.StopWaiting? || s.ctl.Idle?)
    && OnlyAsleep(s, Free)
    && Casualties(s0, s)
  }

  /** Threads only die. */
  ghost predicate Casualties(s0: Pool, s: Pool)
  {
    && s.workers.Keys <= s0.workers.Keys
    && s.dead == s0.dead + (s0.workers.Keys - s.workers.Keys)
  }

  /** None is even told to while other tasks wait. */
  ghost predicate Draining(s0: Pool, s: Pool)
  {
    OnlyDeletes(s.q.items) || (s.workers.Keys == s0.workers.Keys && Count(s.workers, Doomed) == 0)
  }

  /** By how many workers outnumber DeleteTasks once Stop has queued its own:
      the dead of earlier shrinks, and how far below 0 the count started, less
      how far below 0 it is. */
  ghost function Surplus(s: Pool, n: int): int
  {
    |s.dead| + Debt(n) + if s.count < 0 then s.count else 0
  }

  lemma ReachableShrinkAccount(s: Pool, n: int)
    requires Reachable(s, n)
    ensures ShrinkAccount(s, Debt(n))
  {
    hide ShrinkAccount, Initial, Next;
    var states, acts :| IsExecution(states, acts) && Initial(states[0], n) && s == states[|acts|];
    RunKeepsShrinkAccount(states, acts, n);
  }

  lemma StopStartsWinding(s: Pool, s0: Pool, n: int)
    requires Reachable(s, n) && Next(s, Stop, s0)
    requires !s.paused && s.stops == 0
    ensures Winding(s0, s0, Surplus(s, n))
  {
    hide Reachable, Next, GateNext, Inv, ShrinkAccount, Registered, Waiters, Locked, Ledger, Tally, OnlyAsleep, Casualties;
    ReachableInv(s, n);
    ReachableShrinkAccount(s, n);
    StepKeepsInv(s, Stop, s0);
    StopIsGate(s, s0);
    InvParts(s);
    InvParts(s0);
    StopTallies(s, s0, n);
    StopWakesTheHeld(s, s0);
    StartsFromItself(s0);
  }

  lemma StopIsGate(s: Pool, s0: Pool)
    requires Next(s, Stop, s0)
    ensures GateNext(s, Stop, s0) && s0.ctl == Stopping(0)
  {
  }

  lemma InvParts(s: Pool)
    requires Inv(s)
    ensures Registered(s) && Waiters(s) && Locked(s) && Ledger(s)
  {
  }

  lemma StartsFromItself(s: Pool)
    ensures Casualties(s, s)
  {
  }

  lemma StopTallies(s: Pool, s0: Pool, n: int)
    requires Ledger(s) && ShrinkAccount(s, Debt(n)) && GateNext(s, Stop, s0) && s.stops == 0
    ensures Tally(s0, Surplus(s, n))
  {
    hide Count, NotifyHeld;
    GateMoves(s, Stop, s0, Doomed);
  }

  lemma StopWakesTheHeld(s: Pool, s0: Pool)
    requires Locked(s) && GateNext(s, Stop, s0) && !s.paused
    ensures OnlyAsleep(s0, Free)
  {
  }

  lemma UnshrunkDrains(s: Pool, s0: Pool, n: int)
    requires Reachable(s, n) && Next(s, Stop, s0)
    requires !s.everShrunk && s.stops == 0
    ensures Draining(s0, s0) && Surplus(s, n) == 0 && s0.count == |s0.workers|
  {
    hide Reachable;
    ReachableInv(s, n);
    ReachableShrinkAccount(s, n);
    assert Deletes(s) == 0;
    GateMoves(s, Stop, s0, Doomed);
  }

  // ---- The measure ----

  predicate IsStarting(p: Phase) { p == Starting }
  predicate IsLooping(p: Phase) { p == Looping }
  predicate IsRunning(p: Phase) { p.Running? }
  predicate IsHeld(p: Phase) { p.Held? }

  ghost function Remaining(s: Pool): int
  {
    if s.ctl.Stopping? then 2 + 12 * Unqueued(s) else if s.ctl.StopWaiting? then 1 else 0
  }

  ghost function QueueWork(q: Queue): int
  {
    10 * |q.items| - |q.woken| - 2 * |q.sleeping|
  }

  ghost function WorkerWork(workers: map<Tid, Phase>): nat
  {
    4 * Count(workers, IsStarting) + 3 * Count(workers, IsLooping)
    + 6 * Count(workers, IsRunning) + 5 * Count(workers, IsHeld)
  }

  ghost function Work(s: Pool): int
  {
    Remaining(s) + QueueWork(s.q) + WorkerWork(s.workers)
  }

  /** Whoever waits for the queue is in Dequeue. */
  lemma WaitersLoop(s: Pool)
    requires Waiters(s)
    ensures |s.q.sleeping| + |s.q.woken| <= Count(s.workers, IsLooping)
  {
    assert s.q.sleeping + s.q.woken <= Having(s.workers, IsLooping);
    Sets.SubsetSize(s.q.sleeping + s.q.woken, Having(s.workers, IsLooping));
    assert |s.q.sleeping + s.q.woken| == |s.q.sleeping| + |s.q.woken|;
  }

  lemma WorkIsNatural(s: Pool)
    requires Waiters(s)
    ensures Work(s) >= 0
  {
    hide Waiters, Count;
    WaitersLoop(s);
  }

  // ---- Every step that is not a spurious wakeup makes progress ----

  lemma EnqueueWork(q: Queue, q': Queue, t: Task)
    requires Sound(q) && Enqueues(q, q', t)
    ensures QueueWork(q') <= QueueWork(q) + 11
  {
  }

  lemma WaitWork(q: Queue, q': Queue, w: Tid)
    requires Waits(q, q', w)
    ensures QueueWork(q') < QueueWork(q)
  {
  }

  lemma StirWork(q: Queue, q': Queue, w: Tid)
    requires Sound(q) && Stirs(q, q', w)
    ensures QueueWork(q') == QueueWork(q) + 1
  {
  }

  lemma TakeWork(q: Queue, q': Queue, w: Tid, t: Task)
    requires Takes(q, q', w, t)
    ensures QueueWork(q') <= QueueWork(q) - 9
  {
  }

  lemma WorkerStepWork(s: Pool, a: Action, s': Pool)
    requires WorkerNext(s, a, s') && Winds(a) && OnlyAsleep(s, Free) && Waiters(s)
    ensures if a.Stir? then Work(s') == Work(s) + 1 else Work(s') < Work(s)
  {
    hide Count, QueueWork, Waits, Takes, Stirs, Enqueues;
    WorkerMoves(s, a, s', IsStarting);
    WorkerMoves(s, a, s', IsLooping);
    WorkerMoves(s, a, s', IsRunning);
    WorkerMoves(s, a, s', IsHeld);
    match a
    case WaitForTask(w) => WaitWork(s.q, s'.q, w);
    case Stir(w) => StirWork(s.q, s'.q, w);
    case Take(w, t) => TakeWork(s.q, s'.q, w, t);
    case _ =>
  }

  lemma GateStepWork(s: Pool, a: Action, s': Pool)
    requires GateNext(s, a, s') && Winds(a) && Waiters(s)
    ensures Work(s') < Work(s)
  {
    hide Count, QueueWork, WorkerWork, Enqueues, NotifyHeld;
    if a.QueueStop? {
      EnqueueWork(s.q, s'.q, DeleteTask);
    }
  }

  lemma WhoDies(s: Pool, a: Action, s': Pool)
    requires WorkerNext(s, a, s')
    ensures a.Kill? ==> a.w in s.workers && s.workers[a.w] == Running(DeleteTask)
                        && s'.workers.Keys == s.workers.Keys - {a.w} && s'.dead == s.dead + {a.w}
    ensures !a.Kill? ==> s'.workers.Keys == s.workers.Keys && s'.dead == s.dead
    ensures a.Take? ==> s'.workers == s.workers[a.w := Running(a.t)]
    ensures !a.Take? ==> (forall w :: w in s'.workers && Doomed(s'.workers[w]) ==> w in s.workers && Doomed(s.workers[w]))
  {
    hide Enqueues, Waits, Takes, Stirs;
  }

  lemma NobodyNewlyDoomed(s: Pool, s': Pool)
    requires Count(s.workers, Doomed) == 0
    requires forall w :: w in s'.workers && Doomed(s'.workers[w]) ==> w in s.workers && Doomed(s.workers[w])
    ensures Count(s'.workers, Doomed) == 0
  {
    assert Having(s'.workers, Doomed) <= Having(s.workers, Doomed) == {};
  }

  lemma WorkerKeepsCasualties(s0: Pool, s: Pool, a: Action, s': Pool)
    requires Casualties(s0, s) && WorkerNext(s, a, s')
    ensures Casualties(s0, s')
  {
    hide WorkerNext;
    WhoDies(s, a, s');
  }

  lemma WorkerKeepsDraining(s0: Pool, s: Pool, a: Action, s': Pool)
    requires Draining(s0, s) && WorkerNext(s, a, s') && Winds(a)
    ensures Draining(s0, s')
  {
    WhoDies(s, a, s');
    WorkerMoves(s, a, s', Doomed);
    hide Count, WorkerNext, IsTop, OnlyDeletes;
    if a.Take? {
      TakeLeavesDeletes(s.q.items, a.t);
    } else if a.Kill? {
      assert OnlyDeletes(s.q.items);
    } else if !OnlyDeletes(s.q.items) {
      NobodyNewlyDoomed(s, s');
    }
  }

  lemma TakeLeavesDeletes(items: multiset<Task>, t: Task)
    requires IsTop(items, t)
    ensures t == DeleteTask || OnlyDeletes(items) ==> OnlyDeletes(items - multiset{t})
  {
  }

  lemma GateKeepsCasualties(s0: Pool, s: Pool, a: Action, s': Pool)
    requires Casualties(s0, s) && GateNext(s, a, s')
    ensures Casualties(s0, s')
  {
    hide NotifyHeld, Enqueues;
  }

  lemma GateKeepsDraining(s0: Pool, s: Pool, a: Action, s': Pool)
    requires Draining(s0, s) && GateNext(s, a, s') && Winds(a)
    ensures Draining(s0, s')
  {
    hide Count, NotifyHeld;
  }

  lemma WorkerKeepsTally(s: Pool, a: Action, s': Pool, left: int)
    requires Locked(s) && Tally(s, left) && WorkerNext(s, a, s')
    ensures Tally(s', left)
  {
    hide WorkerNext, Deletes;
    WorkerLeavesControl(s, a, s');
    WorkerKeepsSize(s, a, s');
    WorkerDeletes(s, a, s');
  }

  lemma GateKeepsTally(s: Pool, a: Action, s': Pool, left: int)
    requires Tally(s, left) && GateNext(s, a, s') && Winds(a)
    ensures Tally(s', left)
  {
    hide Enqueues, NotifyHeld, Count;
    GateMoves(s, a, s', Doomed);
  }

  lemma WorkerKeepsWinding(s0: Pool, s: Pool, a: Action, s': Pool, left: int)
    requires Winding(s0, s, left) && WorkerNext(s, a, s')
    ensures Winding(s0, s', left)
  {
    hide Registered, Waiters, Locked, Tally, OnlyAsleep, Casualties, WorkerNext;
    WorkerKeepsCasualties(s0, s, a, s');
    WorkerKeepsRegistered(s, a, s');
    WorkerKeepsWaiters(s, a, s');
    WorkerKeepsLocked(s, a, s');
    WorkerKeepsTally(s, a, s', left);
    WorkerLeavesControl(s, a, s');
    WorkersStayAwake(s, a, s', Free);
  }

  lemma GateKeepsWinding(s0: Pool, s: Pool, a: Action, s': Pool, left: int)
    requires Winding(s0, s, left) && GateNext(s, a, s') && Winds(a)
    ensures Winding(s0, s', left)
  {
    hide Registered, Waiters, Locked, Tally, OnlyAsleep, Casualties, Enqueues, NotifyHeld;
    GateKeepsCasualties(s0, s, a, s');
    GateKeepsRegistered(s, a, s');
    GateKeepsWaiters(s, a, s');
    GateKeepsLocked(s, a, s');
    GateKeepsTally(s, a, s', left);
    GateSendsNobodyToSleep(s, a, s', Free);
  }

  lemma StepWinds(s0: Pool, s: Pool, a: Action, s': Pool, left: int)
    requires Winding(s0, s, left) && Next(s, a, s') && Winds(a)
    ensures Winding(s0, s', left)
    ensures if a.Stir? then Work(s') == Work(s) + 1 else Work(s') < Work(s)
    ensures Draining(s0, s) ==> Draining(s0, s')
  {
    hide Work, Winding, Draining, ResizeNext, GateNext, WorkerNext;
    WindingBounds(s0, s, left);
    ResizeIsOver(s, a, s');
    if GateNext(s, a, s') {
      GateKeepsWinding(s0, s, a, s', left);
      GateStepWork(s, a, s');
      GateDoesNotStir(s, a, s');
      if Draining(s0, s) {
        GateKeepsDraining(s0, s, a, s');
      }
    } else {
      WorkerKeepsWinding(s0, s, a, s', left);
      WorkerStepWork(s, a, s');
      if Draining(s0, s) {
        WorkerKeepsDraining(s0, s, a, s');
      }
    }
  }

  lemma WindingBounds(s0: Pool, s: Pool, left: int)
    requires Winding(s0, s, left)
    ensures Waiters(s) && OnlyAsleep(s, Free) && Work(s) >= 0
  {
    hide Work, Registered, Waiters, Locked, Tally, OnlyAsleep, Casualties;
    WorkIsNatural(s);
  }

  lemma ResizeIsOver(s: Pool, a: Action, s': Pool)
    requires Winds(a)
    ensures !ResizeNext(s, a, s')
  {
  }

  lemma GateDoesNotStir(s: Pool, a: Action, s': Pool)
    requires GateNext(s, a, s')
    ensures !a.Stir?
  {
  }

  function Stirred(acts: seq<Action>): (n: nat)
  {
    if acts == [] then 0 else Stirred(acts[1..]) + if acts[0].Stir? then 1 else 0
  }

  /** However the threads interleave, the pool winds down within Work(s0)
      steps, plus two for each spurious wakeup. */
  lemma {:induction false} StopTakesBoundedWork(s0: Pool, states: seq<Pool>, acts: seq<Action>, left: int)
    requires IsRunBy(Winds, states, acts) && Winding(s0, states[0], left)
    ensures Winding(s0, states[|acts|], left)
    ensures |acts| <= Work(states[0]) + 2 * Stirred(acts)
    ensures Draining(s0, states[0]) ==> Draining(s0, states[|acts|])
    decreases |acts|
  {
    hide Winding, Draining, Work, Next, Winds;
    WindingBounds(s0, states[0], left);
    if acts != [] {
      StepWinds(s0, states[0], acts[0], states[1], left);
      StopTakesBoundedWork(s0, states[1..], acts[1..], left);
    }
  }

  // ---- No deadlock ----

  /** The call of Stop is over, and whoever lives sleeps in Dequeue over an empty
      queue. */
  ghost predicate WoundDown(s: Pool)
  {
    && s.ctl.Idle?
    && (s.workers != map[] ==> s.q.items == multiset{})
    && forall w :: w in s.workers ==> s.workers[w] == Looping && w in s.q.sleeping
  }

  /** Until then some step other than a spurious wakeup is possible. */
  lemma WindingCanStep(s0: Pool, s: Pool, left: int) returns (a: Action, s': Pool)
    requires Winding(s0, s, left) && !WoundDown(s)
    ensures Winds(a) && !a.Stir? && Next(s, a, s')
  {
    hide Registered, Waiters, Locked, Tally, OnlyAsleep, Casualties, Winds, Next;
    if s.ctl.Stopping? || s.ctl.StopWaiting? {
      a, s' := StopCanStep(s);
    } else {
      MutexIsFree(s0, s, left);
      if w :| w in s.workers && s.workers[w] != Looping {
        a, s' := AwakeWorkerSteps(s, w);
        WorkerStepIsNext(s, a, s');
      } else {
        a, s' := LoopingWorkerSteps(s);
        WorkerStepIsNext(s, a, s');
      }
    }
  }

  lemma WorkerStepIsNext(s: Pool, a: Action, s': Pool)
    requires WorkerNext(s, a, s')
    ensures Next(s, a, s')
  {
  }

  lemma MutexIsFree(s0: Pool, s: Pool, left: int)
    requires Winding(s0, s, left) && !s.ctl.Stopping?
    ensures s.mutex.Free?
  {
    if w :| s.mutex == Worker(w) {
      assert s.workers[w] == Checking;
    }
  }

  lemma AwakeWorkerSteps(s: Pool, w: Tid) returns (a: Action, s': Pool)
    requires OnlyAsleep(s, Free) && s.mutex.Free? && w in s.workers && s.workers[w] != Looping
    ensures Winds(a) && !a.Stir? && WorkerNext(s, a, s')
  {
    match s.workers[w]
    case Starting =>
      a, s' := Register(w), s.(workers := s.workers[w := Looping], registry := s.registry + {w});
    case Held(_) =>
      a, s' := LeavePause(w), s.(workers := s.workers[w := Looping]);
    case Running(UserTask(_, _)) =>
      a, s' := Finish(w), s.(workers := s.workers[w := Looping]);
    case Running(PauseTask) =>
      a, s' := EnterPause(w), s.(workers := s.workers[w := Looping]);
    case Running(DeleteTask) =>
      a := Kill(w);
      s' := s.(workers := s.workers - {w}, registry := s.registry - {w}, dead := s.dead + {w}, count := s.count - 1);
  }

  /** With every worker in Dequeue, something queued is taken, because the queue
      has lost no wakeup, or somebody goes to sleep. */
  lemma LoopingWorkerSteps(s: Pool) returns (a: Action, s': Pool)
    requires Waiters(s) && s.workers != map[] && forall w :: w in s.workers ==> s.workers[w] == Looping
    requires s.q.items != multiset{} || exists w :: w in s.workers && w !in s.q.sleeping
    ensures Winds(a) && !a.Stir? && WorkerNext(s, a, s')
  {
    if s.q.items == multiset{} {
      var w :| w in s.workers && w !in s.q.sleeping;
      var q' := s.q.(sleeping := s.q.sleeping + {w}, woken := s.q.woken - {w});
      a, s' := WaitForTask(w), s.(q := q');
    } else {
      var w := SomebodyAwake(s);
      var t := TopExists(s.q.items);
      var q' := s.q.(items := s.q.items - multiset{t}, woken := s.q.woken - {w}, delivered := s.q.delivered + [t]);
      a, s' := Take(w, t), s.(q := q', workers := s.workers[w := Running(t)]);
    }
  }

  lemma SomebodyAwake(s: Pool) returns (w: Tid)
    requires Waiters(s) && s.workers != map[] && s.q.items != multiset{}
    ensures w in s.workers && w !in s.q.sleeping
  {
    if s.q.woken != {} {
      w :| w in s.q.woken;
    } else {
      assert |s.q.items| > 0;
      assert s.q.sleeping == {};
      w :| w in s.workers;
    }
  }

  /** The controller's part. */
  lemma StopCanStep(s: Pool) returns (a: Action, s': Pool)
    requires s.ctl.Stopping? || s.ctl.StopWaiting?
    ensures Winds(a) && !a.Stir? && Next(s, a, s')
  {
    if s.ctl.StopWaiting? {
      a, s' := StopReturns, s.(ctl := Idle);
    } else if s.ctl.i >= s.count {
      a, s' := StopQueued, s.(mutex := Free, ctl := StopWaiting);
    } else {
      var q' := s.q.(items := s.q.items + multiset{DeleteTask}, enqueued := s.q.enqueued + multiset{DeleteTask});
      if w :| w in s.q.sleeping {
        q' := q'.(sleeping := s.q.sleeping - {w}, woken := s.q.woken + {w});
        assert Wakes(s.q, q', w);
      }
      assert Enqueues(s.q, q', DeleteTask);
      a, s' := QueueStop, s.(q := q', ctl := Stopping(s.ctl.i + 1));
    }
  }

  // ---- Where it ends ----

  /** Only a spurious wakeup can happen. */
  ghost predicate OnlyStirs(s: Pool)
  {
    forall a, s' :: Winds(a) && Next(s, a, s') ==> a.Stir?
  }

  /** Where the pool stops moving, as many workers live as outnumbered the
      DeleteTasks. */
  lemma StopFinishes(s0: Pool, s: Pool, left: int)
    requires Winding(s0, s, left) && OnlyStirs(s)
    ensures WoundDown(s) && |s.workers| == if left > 0 then left else 0
    ensures s.dead == s0.dead + (s0.workers.Keys - s.workers.Keys) && s.workers.Keys <= s0.workers.Keys
  {
    hide Next, Winds, Winding;
    if !WoundDown(s) {
      var a, s' := WindingCanStep(s0, s, left);
      assert false;
    }
    SurvivorsCounted(s0, s, left);
  }

  lemma SurvivorsCounted(s0: Pool, s: Pool, left: int)
    requires Winding(s0, s, left) && WoundDown(s)
    ensures |s.workers| == if left > 0 then left else 0
    ensures s.dead == s0.dead + (s0.workers.Keys - s.workers.Keys) && s.workers.Keys <= s0.workers.Keys
  {
    assert Having(s.workers, Doomed) == {};
  }

  lemma AllDelivered(s0: Pool, s: Pool)
    requires Winding(s0, s, 0) && Draining(s0, s) && s.workers == map[] && s.ctl.Idle?
    ensures s0.workers != map[] ==> s.q.items == multiset{} && s.q.enqueued == multiset(s.q.delivered)
  {
    assert Deletes(s) == 0;
    if s0.workers != map[] {
      var w :| w in s0.workers;
      assert s0.workers.Keys != {};
      assert forall t :: t in s.q.items ==> t == DeleteTask;
      assert s.q.items == multiset{};
    }
  }

  /** The first Stop of any reachable unpaused pool: every way of going on is
      bounded, and ends with as many workers alive as had died of earlier
      shrinks, if the count is not negative and did not start so. */
  lemma StopSpares(s: Pool, states: seq<Pool>, acts: seq<Action>, n: int)
    requires Reachable(s, n) && !s.paused && s.stops == 0
    requires IsRunBy(Winds, states, acts) && Next(s, Stop, states[0])
    ensures |acts| <= Work(states[0]) + 2 * Stirred(acts)
    ensures var last := states[|acts|];
            OnlyStirs(last) ==>
              && |last.workers| == (if Surplus(s, n) > 0 then Surplus(s, n) else 0)
              && last.workers.Keys <= s.workers.Keys && last.dead == s.dead + (s.workers.Keys - last.workers.Keys)
    ensures n >= 0 && s.count >= 0 ==> Surplus(s, n) == |s.dead|
  {
    hide Reachable, Winding, Work, Winds, OnlyStirs, Draining;
    var s0, last := states[0], states[|acts|];
    StopStartsWinding(s, s0, n);
    StopTakesBoundedWork(s0, states, acts, Surplus(s, n));
    StopKillsNobody(s, s0);
    if OnlyStirs(last) {
      StopFinishes(s0, last, Surplus(s, n));
    }
  }

  /** Of a pool that never shrank: none gets stuck before all is delivered and
      every worker is dead. */
  lemma StopDrainsThePool(s: Pool, states: seq<Pool>, acts: seq<Action>, n: int)
    requires Reachable(s, n) && !s.paused && !s.everShrunk && s.stops == 0
    requires IsRunBy(Winds, states, acts) && Next(s, Stop, states[0])
    ensures |acts| <= Work(states[0]) + 2 * Stirred(acts)
    ensures var last := states[|acts|];
            OnlyStirs(last) ==>
              && last.workers == map[] && last.count == 0
              && last.dead == s.dead + s.workers.Keys
              && (s.workers != map[] ==> last.q.items == multiset{} && last.q.enqueued == multiset(last.q.delivered))
  {
    hide Reachable, Winding, Work, Winds, OnlyStirs, Draining, Inv;
    var s0, last := states[0], states[|acts|];
    StopStartsWinding(s, s0, n);
    UnshrunkDrains(s, s0, n);
    StopTakesBoundedWork(s0, states, acts, 0);
    StopKillsNobody(s, s0);
    if OnlyStirs(last) {
      StopFinishes(s0, last, 0);
      assert last.workers == map[];
      AllDelivered(s0, last);
      CountIsZero(s, states, acts, n);
    }
  }

  /** The ledger at the end. */
  lemma CountIsZero(s: Pool, states: seq<Pool>, acts: seq<Action>, n: int)
    requires Reachable(s, n) && IsRunBy(Winds, states, acts) && Next(s, Stop, states[0]) && !s.everShrunk
    ensures states[|acts|].ctl.Idle? ==> states[|acts|].count == |states[|acts|].workers|
  {
    hide Reachable, Next, Winds;
    ReachableInv(s, n);
    NothingShrunk(s);
    StepKeepsInv(s, Stop, states[0]);
    StepKeepsShrunk(s, Stop, states[0]);
    WindingKeepsLedger(states, acts);
  }

  lemma NothingShrunk(s: Pool)
    requires Inv(s) && !s.everShrunk
    ensures s.shrunk == 0
  {
  }

  lemma StepKeepsShrunk(s: Pool, a: Action, s': Pool)
    requires Next(s, a, s') && (a.Stop? || Winds(a))
    ensures s'.shrunk == s.shrunk
  {
    hide Enqueues, Waits, Takes, Stirs, NotifyHeld;
  }

  lemma {:induction false} WindingKeepsLedger(states: seq<Pool>, acts: seq<Action>)
    requires IsRunBy(Winds, states, acts) && Inv(states[0]) && states[0].shrunk == 0
    ensures states[|acts|].ctl.Idle? ==> states[|acts|].count == |states[|acts|].workers|
    decreases |acts|
  {
    hide Next, Winds;
    if acts != [] {
      hide Inv;
      StepKeepsInv(states[0], acts[0], states[1]);
      StepKeepsShrunk(states[0], acts[0], states[1]);
      WindingKeepsLedger(states[1..], acts[1..]);
    }
  }

  lemma StopKillsNobody(s: Pool, s0: Pool)
    requires Next(s, Stop, s0)
    ensures s0.workers.Keys == s.workers.Keys && s0.dead == s.dead
  {
  }
}

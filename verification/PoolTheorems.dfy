/** What the pool's users rely on, for every reachable state and every run. */
module PoolTheorems {
  import opened WaitableQueue
  import opened ThreadPool
  import opened PoolSafety

  ghost predicate Reachable(s: Pool, n: int)
  {
    exists states, acts :: IsExecution(states, acts) && Initial(states[0], n) && s == states[|acts|]
  }

  lemma ReachableInv(s: Pool, n: int)
    requires Reachable(s, n)
    ensures Inv(s)
  {
    hide Inv, Initial, Next;
    var states, acts :| IsExecution(states, acts) && Initial(states[0], n) && s == states[|acts|];
    RunKeepsInv(states, acts, n);
  }

  lemma ReachableStep(s: Pool, a: Action, s': Pool, n: int)
    requires Reachable(s, n) && Next(s, a, s')
    ensures Reachable(s', n)
  {
    hide Initial, Next;
    var states, acts :| IsExecution(states, acts) && Initial(states[0], n) && s == states[|acts|];
    var states', acts' := states + [s'], acts + [a];
    assert IsExecution(states', acts') && states'[0] == states[0] && states'[|acts'|] == s';
  }

  /** Between calls of the controller, m_num_of_threads is the number of live
      threads less every decrement SetThreadNumber ever made; so it is right
      exactly when SetThreadNumber never shrank the pool. */
  lemma ThreadCount(s: Pool, n: int)
    requires Reachable(s, n) && s.ctl.Idle?
    ensures s.count == |s.workers| - s.shrunk
    ensures s.count == |s.workers| <==> s.shrunk == 0
  {
    ReachableInv(s, n);
  }

  /** Stop, alone and without shrinking, leaves exactly one DeleteTask for every
      live worker. */
  lemma StopQueuesOnePerWorker(s: Pool, s': Pool, n: int)
    requires Reachable(s, n) && Next(s, StopQueued, s')
    requires s.stops == 1 && !s.everShrunk
    ensures Deletes(s') == |s'.workers| == s'.count
  {
    ReachableInv(s, n);
  }

  /** While Stop holds the mutex nobody registers, dies, or enters or leaves the
      pause: it counts against a fixed number of threads. */
  lemma StopLocksOut(s: Pool, a: Action, s': Pool, n: int)
    requires Reachable(s, n) && s.ctl.Stopping? && Next(s, a, s')
    ensures s'.registry == s.registry && s'.dead == s.dead && s'.count == s.count && s'.workers.Keys == s.workers.Keys
    ensures forall w :: w in s.workers ==> (Waiting(s'.workers[w]) <==> Waiting(s.workers[w]))
  {
    ReachableInv(s, n);
    StopHoldsMutex(s);
    hide Inv, ResizeNext, GateNext, WorkerNext;
    if WorkerNext(s, a, s') {
      StopLocksWorkersOut(s, a, s');
    } else {
      StopLocksCallsOut(s, a, s');
    }
  }

  lemma StopHoldsMutex(s: Pool)
    requires Inv(s) && s.ctl.Stopping?
    ensures s.mutex == Controller
    ensures forall w :: w in s.workers && s.workers[w].Checking? ==> s.mutex == Worker(w)
  {
  }

  lemma StopLocksCallsOut(s: Pool, a: Action, s': Pool)
    requires s.ctl.Stopping? && (ResizeNext(s, a, s') || GateNext(s, a, s'))
    ensures s'.registry == s.registry && s'.dead == s.dead && s'.count == s.count && s'.workers == s.workers
  {
    hide Enqueues, Fresh;
  }

  predicate Waiting(p: Phase)
  {
    p.Checking? || p.Held?
  }

  lemma StopLocksWorkersOut(s: Pool, a: Action, s': Pool)
    requires s.mutex == Controller && (forall w :: w in s.workers && s.workers[w].Checking? ==> s.mutex == Worker(w))
    requires WorkerNext(s, a, s')
    ensures s'.registry == s.registry && s'.dead == s.dead && s'.count == s.count && s'.workers.Keys == s.workers.Keys
    ensures forall w :: w in s.workers ==> (Waiting(s'.workers[w]) <==> Waiting(s.workers[w]))
  {
    hide Enqueues, Waits, Takes, Stirs;
  }

  /** The lookup in DeleteTask finds the running worker, removes that worker
      and nothing else. */
  lemma KillFindsItself(s: Pool, s': Pool, w: Tid, n: int)
    requires Reachable(s, n) && Next(s, Kill(w), s')
    ensures w in s.registry && s'.registry == s.registry - {w}
    ensures w in s'.dead && w !in s'.workers
  {
    ReachableInv(s, n);
  }

  /** A dead worker stays dead: it neither returns nor dequeues again. */
  lemma {:induction false} DeadForever(states: seq<Pool>, acts: seq<Action>, w: Tid)
    requires IsExecution(states, acts) && w in states[0].dead && Registered(states[0])
    ensures forall k :: 0 <= k < |states| ==> w in states[k].dead && w !in states[k].workers
    ensures forall k :: 0 <= k < |acts| ==> !(acts[k].Take? && acts[k].w == w)
    decreases |acts|
  {
    hide Next, Registered;
    if acts == [] {
      DeadAreGone(states[0], w);
    } else {
      DeadStays(states[0], acts[0], states[1], w);
      DeadForever(states[1..], acts[1..], w);
      forall k | 0 <= k < |states| ensures w in states[k].dead && w !in states[k].workers {
        if k > 0 {
          assert states[k] == states[1..][k - 1];
        }
      }
      forall k | 0 <= k < |acts| ensures !(acts[k].Take? && acts[k].w == w) {
        if k > 0 {
          assert acts[k] == acts[1..][k - 1];
        }
      }
    }
  }

  lemma DeadAreGone(s: Pool, w: Tid)
    requires Registered(s) && w in s.dead
    ensures w !in s.workers
  {
  }

  lemma DeadStays(s: Pool, a: Action, s': Pool, w: Tid)
    requires Next(s, a, s') && Registered(s) && w in s.dead
    ensures w in s'.dead && w !in s.workers && Registered(s')
    ensures !(a.Take? && a.w == w)
  {
    hide Enqueues, Waits, Takes, Stirs, NotifyHeld;
    if ResizeNext(s, a, s') {
      ResizeKeepsRegistered(s, a, s');
    } else if GateNext(s, a, s') {
      GateKeepsRegistered(s, a, s');
    } else {
      WorkerKeepsRegistered(s, a, s');
    }
  }

  /** No worker sleeps un-notified while more items wait than workers are on
      their way to them. */
  lemma PoolLosesNoWakeup(s: Pool, n: int)
    requires Reachable(s, n) && s.q.sleeping != {}
    ensures |s.q.woken| >= |s.q.items|
  {
    ReachableInv(s, n);
  }

  /** When a worker takes a DeleteTask, every user task and every PauseTask ever
      enqueued has been delivered exactly as often as it was enqueued. */
  lemma DeleteDrainsFirst(s: Pool, s': Pool, w: Tid, t: Task, n: int)
    requires Reachable(s, n) && Next(s, Take(w, DeleteTask), s')
    requires t != DeleteTask
    ensures s.q.enqueued[t] == multiset(s.q.delivered)[t] == multiset(s'.q.delivered)[t]
  {
    ReachableInv(s, n);
    TakenLast(s.q, s'.q, w, DeleteTask, t);
    assert multiset(s'.q.delivered) == multiset(s.q.delivered) + multiset{DeleteTask};
  }

  /** When a worker takes a MEDIUM task, every LOW task ever submitted has been
      delivered; when it takes a HIGH one, every LOW and MEDIUM task; when it
      takes a PauseTask, every user task. */
  lemma LowDrainsFirst(s: Pool, s': Pool, w: Tid, t: Task, u: Task, n: int)
    requires Reachable(s, n) && Next(s, Take(w, t), s') && u.UserTask?
    requires || t == PauseTask
             || (t.UserTask? && t.priority == MEDIUM && u.priority == LOW)
             || (t.UserTask? && t.priority == HIGH && u.priority in {LOW, MEDIUM})
    ensures s.q.enqueued[u] == multiset(s.q.delivered)[u]
  {
    ReachableInv(s, n);
    TakenAfter(s.q, s'.q, w, t, u);
  }

  // ---- Draining ----

  lemma WorkMovesQueue(s: Pool, a: Action, s': Pool)
    requires WorkerNext(s, a, s')
    ensures s'.q == s.q || Moves(s.q, s'.q)
  {
    hide Enqueues, Waits, Takes, Stirs;
  }

  lemma ControlMovesQueue(s: Pool, a: Action, s': Pool)
    requires ResizeNext(s, a, s') || GateNext(s, a, s')
    ensures s'.q == s.q || Moves(s.q, s'.q)
  {
    hide Enqueues, Waits, Takes, Stirs, Fresh;
  }

  lemma StepMovesQueue(s: Pool, a: Action, s': Pool)
    requires Next(s, a, s')
    ensures s'.q == s.q || Moves(s.q, s'.q)
  {
    hide ResizeNext, GateNext, WorkerNext, Moves;
    if WorkerNext(s, a, s') {
      WorkMovesQueue(s, a, s');
    } else {
      ControlMovesQueue(s, a, s');
    }
  }

  /** Along every run of the pool during which nothing is enqueued, whoever
      takes them, tasks are delivered in non-decreasing rank, and none left
      behind should have been delivered before one that was. */
  lemma PoolDrainAscends(states: seq<Pool>, acts: seq<Action>) returns (taken: seq<Task>)
    requires IsExecution(states, acts)
    requires forall k :: 0 <= k < |states| ==> states[k].q.enqueued == states[0].q.enqueued
    ensures states[|acts|].q.delivered == states[0].q.delivered + taken
    ensures states[0].q.items == states[|acts|].q.items + multiset(taken)
    ensures Ascending(taken) && Outranked(taken, states[|acts|].q.items)
  {
    hide Next, Moves, Ascending, Outranked;
    var run := seq(|states|, k requires 0 <= k < |states| => states[k].q);
    forall k | 0 <= k < |run| - 1 ensures run[k + 1] == run[k] || Moves(run[k], run[k + 1]) {
      StepMovesQueue(states[k], acts[k], states[k + 1]);
    }
    taken := DrainAscends(run);
  }

  // ---- Pause ----

  /** Threads that SetThreadNumber has yet to create and has already queued a
      PauseTask for. */
  function Owed(c: Control): (n: int)
  {
    match c
    case GrowingPauses(pauses, threads) => threads - pauses
    case Growing(threads, _) => threads
    case _ => 0
  }

  /** From the end of Pause until Resume, inside SetThreadNumber and Stop as
      between calls, every worker and every thread about to be created is held
      or a PauseTask waits for it, but for one worker per decrement of a shrink. */
  lemma PauseReachesEveryWorker(s: Pool, n: int)
    requires Reachable(s, n) && s.paused && !s.ctl.Pausing?
    ensures Calm(s) >= |s.workers| - s.shrunk + Owed(s.ctl) && Owed(s.ctl) >= 0
    ensures s.shrunk == 0 && s.q.items[PauseTask] == 0 ==> forall w :: w in s.workers ==> Calmed(s.workers[w])
  {
    ReachableInv(s, n);
    CountAtMost(s.workers, Calmed);
  }

  predicate NoResume(a: Action) { !a.Resume? }

  /** These workers are held by the pause. */
  ghost predicate Holding(s: Pool, ws: set<Tid>)
  {
    s.paused && ws <= s.workers.Keys && forall w :: w in ws ==> Calmed(s.workers[w])
  }

  lemma HeldStay(s: Pool, a: Action, s': Pool, ws: set<Tid>)
    requires Holding(s, ws) && Next(s, a, s') && NoResume(a)
    ensures Holding(s', ws)
    ensures !((a.Take? || a.Kill?) && a.w in ws)
  {
    hide ResizeNext, GateNext, WorkerNext;
    if WorkerNext(s, a, s') {
      HeldStayThroughWork(s, a, s', ws);
    } else {
      HeldStayThroughControl(s, a, s', ws);
    }
  }

  lemma HeldStayThroughWork(s: Pool, a: Action, s': Pool, ws: set<Tid>)
    requires Holding(s, ws) && WorkerNext(s, a, s')
    ensures Holding(s', ws)
    ensures !((a.Take? || a.Kill?) && a.w in ws)
  {
    hide Enqueues, Waits, Takes, Stirs;
  }

  lemma HeldStayThroughControl(s: Pool, a: Action, s': Pool, ws: set<Tid>)
    requires Holding(s, ws) && NoResume(a) && (ResizeNext(s, a, s') || GateNext(s, a, s'))
    ensures Holding(s', ws)
    ensures !a.Take? && !a.Kill?
  {
    hide Enqueues;
  }

  /** Over any run without Resume, growth and Stop included, workers that are
      held stay held: none of them takes a task or dies. */
  lemma {:induction false} HeldWorkersStartNothing(states: seq<Pool>, acts: seq<Action>, ws: set<Tid>)
    requires IsRunBy(NoResume, states, acts) && Holding(states[0], ws)
    ensures Holding(states[|acts|], ws)
    ensures forall k :: 0 <= k < |acts| && (acts[k].Take? || acts[k].Kill?) ==> acts[k].w !in ws
    decreases |acts|
  {
    hide Next, Holding;
    if acts != [] {
      var m := |acts| - 1;
      HeldWorkersStartNothing(states[..m + 1], acts[..m], ws);
      HeldStay(states[m], acts[m], states[m + 1], ws);
      assert forall k :: 0 <= k < m ==> acts[k] == acts[..m][k];
    }
  }

  ghost predicate AllCalmed(s: Pool)
  {
    Holding(s, s.workers.Keys)
  }

  /** So once all workers are held, whatever starts before Resume starts on a
      thread created since, and Stop kills none of them. */
  lemma HeldPoolStartsNothing(states: seq<Pool>, acts: seq<Action>)
    requires IsRunBy(NoResume, states, acts) && AllCalmed(states[0])
    ensures forall k :: 0 <= k < |acts| && (acts[k].Take? || acts[k].Kill?) ==> acts[k].w !in states[0].workers
    ensures Holding(states[|acts|], states[0].workers.Keys)
  {
    HeldWorkersStartNothing(states, acts, states[0].workers.Keys);
  }

  predicate NothingNew(a: Action) { !a.Resume? && !a.CreateThread? && !a.Build? }

  lemma WorkDelivers(s: Pool, a: Action, s': Pool)
    requires WorkerNext(s, a, s')
    ensures s'.q.delivered == s.q.delivered + if a.Take? then [a.t] else []
    ensures (a.Take? ==> a.w in s.workers) && s'.workers.Keys <= s.workers.Keys
  {
    hide Wakes, IsTop;
  }

  lemma ControlDelivers(s: Pool, a: Action, s': Pool)
    requires ResizeNext(s, a, s') || GateNext(s, a, s')
    ensures s'.q.delivered == s.q.delivered && !a.Take?
    ensures NothingNew(a) ==> s'.workers.Keys <= s.workers.Keys
  {
    hide Fresh, Wakes;
  }

  lemma TakesDeliver(s: Pool, a: Action, s': Pool)
    requires Next(s, a, s')
    ensures s'.q.delivered == s.q.delivered + if a.Take? then [a.t] else []
    ensures a.Take? ==> a.w in s.workers
    ensures NothingNew(a) ==> s'.workers.Keys <= s.workers.Keys
  {
    hide ResizeNext, GateNext, WorkerNext;
    if WorkerNext(s, a, s') {
      WorkDelivers(s, a, s');
    } else {
      ControlDelivers(s, a, s');
    }
  }

  /** Without new threads nothing at all is delivered. */
  lemma {:induction false} HeldPoolStandsStill(states: seq<Pool>, acts: seq<Action>)
    requires IsRunBy(NothingNew, states, acts) && AllCalmed(states[0])
    ensures states[|acts|].q.delivered == states[0].q.delivered
    ensures states[|acts|].workers.Keys == states[0].workers.Keys && AllCalmed(states[|acts|])
    decreases |acts|
  {
    hide Next;
    if acts != [] {
      var m := |acts| - 1;
      HeldPoolStandsStill(states[..m + 1], acts[..m]);
      HeldStay(states[m], acts[m], states[m + 1], states[0].workers.Keys);
      TakesDeliver(states[m], acts[m], states[m + 1]);
    }
  }

  // ---- Resume ----

  /** The threads Resume can leave asleep. */
  ghost predicate OnlyAsleep(s: Pool, h: Holder)
  {
    !s.paused && forall w :: w in s.workers && s.workers[w] in {Checking, Held(false)} ==> h == Worker(w)
  }

  lemma NotifyReachesTheRest(s: Pool, s': Pool, n: int)
    requires Reachable(s, n) && Next(s, NotifyResumed, s')
    ensures OnlyAsleep(s', s'.mutex)
  {
    ReachableInv(s, n);
  }

  lemma ResizeSendsNobodyToSleep(s: Pool, a: Action, s': Pool, h: Holder)
    requires OnlyAsleep(s, h) && ResizeNext(s, a, s')
    ensures OnlyAsleep(s', h)
  {
    hide Enqueues, Fresh;
  }

  lemma GateSendsNobodyToSleep(s: Pool, a: Action, s': Pool, h: Holder)
    requires OnlyAsleep(s, h) && !a.Pause? && GateNext(s, a, s')
    ensures OnlyAsleep(s', h)
  {
    hide Enqueues;
  }

  lemma WorkersStayAwake(s: Pool, a: Action, s': Pool, h: Holder)
    requires OnlyAsleep(s, h) && WorkerNext(s, a, s')
    ensures OnlyAsleep(s', h)
  {
    hide Enqueues, Waits, Takes, Stirs;
  }

  lemma OnlyAsleepStays(s: Pool, a: Action, s': Pool, h: Holder)
    requires OnlyAsleep(s, h) && Next(s, a, s') && !a.Pause?
    ensures OnlyAsleep(s', h)
  {
    hide OnlyAsleep, ResizeNext, GateNext, WorkerNext;
    if WorkerNext(s, a, s') {
      WorkersStayAwake(s, a, s', h);
    } else if ResizeNext(s, a, s') {
      ResizeSendsNobodyToSleep(s, a, s', h);
    } else {
      GateSendsNobodyToSleep(s, a, s', h);
    }
  }

  predicate NoPause(a: Action) { !a.Pause? }

  lemma {:induction false} OnlyAsleepLasts(states: seq<Pool>, acts: seq<Action>, h: Holder)
    requires IsRunBy(NoPause, states, acts) && OnlyAsleep(states[0], h)
    ensures OnlyAsleep(states[|acts|], h)
    decreases |acts|
  {
    if acts != [] {
      hide Next;
      var m := |acts| - 1;
      OnlyAsleepLasts(states[..m + 1], acts[..m], h);
      OnlyAsleepStays(states[m], acts[m], states[m + 1], h);
    }
  }

  ghost predicate Asleep(s: Pool, w: Tid)
  {
    w in s.workers && s.workers[w] == Held(false)
  }

  /** Until the next Pause, w can come to sleep un-notified. */
  ghost predicate MayOversleep(s: Pool, w: Tid)
  {
    exists s' :: LeadsBy(NoPause, s, s') && Asleep(s', w)
  }

  /** The thread that Resume misses is the one that holds m_mutex between its
      test of the flag and its wait when Resume notifies: that one can come to
      sleep un-notified, and no other can until the next Pause. */
  lemma ResumeMissesExactly(s: Pool, s': Pool, n: int, w: Tid)
    requires Reachable(s, n) && Next(s, NotifyResumed, s')
    ensures MayOversleep(s', w) <==> s'.mutex == Worker(w)
  {
    hide Next, Reachable;
    NotifyReachesTheRest(s, s', n);
    if s'.mutex == Worker(w) {
      var s'' := HolderBlocks(s, s', n, w);
      Stays(NoPause, s');
      LeadsOn(NoPause, s', s', Block(w), s'');
      assert LeadsBy(NoPause, s', s'') && Asleep(s'', w);
    }
    if MayOversleep(s', w) {
      var s'' :| LeadsBy(NoPause, s', s'') && Asleep(s'', w);
      var states, acts :| IsRunBy(NoPause, states, acts) && states[0] == s' && states[|acts|] == s'';
      OnlyAsleepLasts(states, acts, s'.mutex);
    }
  }

  lemma HolderBlocks(s: Pool, s': Pool, n: int, w: Tid) returns (s'': Pool)
    requires Reachable(s, n) && Next(s, NotifyResumed, s') && s'.mutex == Worker(w)
    ensures Next(s', Block(w), s'') && Asleep(s'', w)
  {
    ReachableStep(s, NotifyResumed, s', n);
    ReachableInv(s', n);
    s'' := s'.(workers := s'.workers[w := Held(false)], mutex := Free);
  }

  /** For instance a pool of one, resumed and idle, whose worker
      sleeps with nobody left to notify it. */
  lemma ResumeCanMissAWorker() returns (s: Pool)
    ensures Reachable(s, 1) && s.ctl.Idle? && !s.paused && s.workers == map[0 := Held(false)]
  {
    s := PausedWorker();
    hide Reachable;
    s := Follow(s, Resume, s.(paused := false, ctl := Resuming));
    s := Follow(s, NotifyResumed, s.(ctl := Idle));
    s := FollowWorker(s, Block(0), s.(workers := map[0 := Held(false)], mutex := Free));
  }

  lemma Follow(s: Pool, a: Action, s': Pool) returns (r: Pool)
    requires Reachable(s, 1) && Next(s, a, s')
    ensures r == s' && Reachable(r, 1)
  {
    r := s';
    ReachableStep(s, a, s', 1);
  }

  lemma FollowWorker(s: Pool, a: Action, s': Pool) returns (r: Pool)
    requires Reachable(s, 1) && WorkerNext(s, a, s')
    ensures r == s' && Reachable(r, 1)
  {
    r := Follow(s, a, s');
  }

  lemma LoopingWorker() returns (s: Pool)
    ensures Reachable(s, 1)
    ensures s == Pool(EMPTY, map[0 := Looping], {}, {0}, 1, false, Free, Idle, 0, false, 0, 0)
  {
    s := Pool(EMPTY, map[], {}, {}, 1, false, Free, Building(1), 0, false, 0, 0);
    assert IsExecution([s], []) && Initial([s][0], 1) && s == [s][0];
    hide Reachable;
    s := Follow(s, Build(0), s.(workers := map[0 := Starting], ctl := Building(0)));
    s := Follow(s, Built, s.(ctl := Idle));
    s := FollowWorker(s, Register(0), s.(workers := map[0 := Looping], registry := {0}));
  }

  const ONE_PAUSE: Queue := EMPTY.(items := multiset{PauseTask}, enqueued := multiset{PauseTask})

  lemma PausingPool() returns (s: Pool)
    ensures Reachable(s, 1)
    ensures s == Pool(ONE_PAUSE, map[0 := Looping], {}, {0}, 1, true, Free, Idle, 0, false, 0, 0)
  {
    s := LoopingWorker();
    hide Reachable;
    s := Follow(s, Pause, s.(paused := true, ctl := Pausing(0, false)));
    s := Follow(s, PauseCheck, s.(ctl := Pausing(0, true)));
    assert Enqueues(EMPTY, ONE_PAUSE, PauseTask);
    s := Follow(s, QueuePause, s.(q := ONE_PAUSE, ctl := Pausing(1, false)));
    s := Follow(s, PauseCheck, s.(ctl := Idle));
  }

  lemma PausedWorker() returns (s: Pool)
    ensures Reachable(s, 1) && s.ctl.Idle? && s.paused && s.workers == map[0 := Checking] && s.mutex == Worker(0)
    ensures s.q.items == multiset{}
  {
    s := PausingPool();
    hide Reachable;
    assert IsTop(ONE_PAUSE.items, PauseTask);
    var q := ONE_PAUSE.(items := multiset{}, delivered := [PauseTask]);
    assert Takes(ONE_PAUSE, q, 0, PauseTask);
    s := FollowWorker(s, Take(0, PauseTask), s.(q := q, workers := map[0 := Running(PauseTask)]));
    s := FollowWorker(s, EnterPause(0), s.(workers := map[0 := Checking], mutex := Worker(0)));
  }
}

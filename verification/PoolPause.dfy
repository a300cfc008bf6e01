/** Pause on a pool that never shrank, with nothing submitted from then on:
    every worker comes to be held. */
module PoolPause {
  import opened WaitableQueue
  import opened ThreadPool
  import opened PoolSafety
  import opened PoolTheorems
  import opened PoolStop
  import opened PoolGates

  /** What may still happen: the workers' own steps. */
  predicate Settles(a: Action)
  {
    a.Register? || a.WaitForTask? || a.Stir? || a.Take? || a.Finish?
    || a.EnterPause? || a.Block? || a.WakeHeld? || a.LeavePause? || a.Kill?
  }

  /** Spurious wakeups. */
  predicate Disturbs(a: Action) { a.Stir? || a.WakeHeld? }

  function Disturbed(acts: seq<Action>): (n: nat)
  {
    if acts == [] then 0 else Disturbed(acts[1..]) + if Disturbs(acts[0]) then 1 else 0
  }

  ghost predicate Settling(s: Pool)
  {
    Waiters(s) && Locked(s) && Shielded(s) && s.ctl.Idle?
  }

  ghost predicate AllHeld(s: Pool)
  {
    forall w :: w in s.workers ==> s.workers[w] == Held(false)
  }

  lemma PausedIsSettling(s: Pool, n: int)
    requires Reachable(s, n) && s.paused && s.ctl.Idle? && s.shrunk == 0
    ensures Settling(s)
  {
    ReachableInv(s, n);
    PauseReachesEveryWorker(s, n);
  }

  lemma SettlingIsWork(s: Pool, a: Action, s': Pool)
    requires Settles(a) && Next(s, a, s')
    ensures WorkerNext(s, a, s')
  {
    hide WorkerNext, Enqueues, Fresh;
  }

  // ---- The measure ----

  predicate IsChecking(p: Phase) { p == Checking }
  predicate IsWoken(p: Phase) { p == Held(true) }

  ghost function SettleWork(s: Pool): int
  {
    QueueWork(s.q) + 4 * Count(s.workers, IsStarting) + 3 * Count(s.workers, IsLooping)
    + 6 * Count(s.workers, IsRunning) + Count(s.workers, IsChecking) + 2 * Count(s.workers, IsWoken)
  }

  lemma SettleWorkIsNatural(s: Pool)
    requires Waiters(s)
    ensures SettleWork(s) >= 0
  {
    hide Waiters, Count;
    WaitersLoop(s);
  }

  /** What a step of a worker does to the queue's share of the measure. */
  lemma QueueStepWork(s: Pool, a: Action, s': Pool)
    requires Settles(a) && WorkerNext(s, a, s') && Waiters(s)
    ensures a.Take? ==> QueueWork(s'.q) <= QueueWork(s.q) - 9
    ensures a.WaitForTask? ==> QueueWork(s'.q) < QueueWork(s.q)
    ensures a.Stir? ==> QueueWork(s'.q) == QueueWork(s.q) + 1
    ensures !a.Take? && !a.WaitForTask? && !a.Stir? ==> s'.q == s.q
  {
    hide QueueWork, Waits, Takes, Stirs, Enqueues;
    match a
    case WaitForTask(w) => WaitWork(s.q, s'.q, w);
    case Stir(w) => StirWork(s.q, s'.q, w);
    case Take(w, t) => TakeWork(s.q, s'.q, w, t);
    case _ =>
  }

  lemma SettleStepWork(s: Pool, a: Action, s': Pool)
    requires Settles(a) && WorkerNext(s, a, s') && Waiters(s) && s.paused
    ensures if Disturbs(a) then SettleWork(s') <= SettleWork(s) + 2 else SettleWork(s') < SettleWork(s)
  {
    hide Count, QueueWork, Waits, Takes, Stirs, Enqueues;
    QueueStepWork(s, a, s');
    WorkerMoves(s, a, s', IsStarting);
    WorkerMoves(s, a, s', IsLooping);
    WorkerMoves(s, a, s', IsRunning);
    WorkerMoves(s, a, s', IsChecking);
    WorkerMoves(s, a, s', IsWoken);
  }

  lemma StepSettles(s: Pool, a: Action, s': Pool)
    requires Settling(s) && Settles(a) && Next(s, a, s')
    ensures Settling(s') && s'.workers.Keys + s'.dead == s.workers.Keys + s.dead
    ensures if Disturbs(a) then SettleWork(s') <= SettleWork(s) + 2 else SettleWork(s') < SettleWork(s)
  {
    hide Waiters, Locked, Calm, Next, WorkerNext, SettleWork;
    SettlingIsWork(s, a, s');
    WorkerLeavesControl(s, a, s');
    WorkerKeepsWaiters(s, a, s');
    WorkerKeepsLocked(s, a, s');
    WorkerKeepsShielded(s, a, s');
    SettleStepWork(s, a, s');
    WorkKeepsThreads(s, a, s');
  }

  lemma WorkKeepsThreads(s: Pool, a: Action, s': Pool)
    requires WorkerNext(s, a, s')
    ensures s'.workers.Keys + s'.dead == s.workers.Keys + s.dead
  {
    hide Enqueues, Waits, Takes, Stirs;
  }

  lemma SettlingBounds(s: Pool)
    requires Settling(s)
    ensures SettleWork(s) >= 0
  {
    hide SettleWork;
    SettleWorkIsNatural(s);
  }

  /** However the workers interleave, they settle within SettleWork(s) steps,
      plus three for each spurious wakeup. */
  lemma {:induction false} PauseTakesBoundedWork(states: seq<Pool>, acts: seq<Action>)
    requires IsRunBy(Settles, states, acts) && Settling(states[0])
    ensures Settling(states[|acts|])
    ensures |acts| <= SettleWork(states[0]) + 3 * Disturbed(acts)
    ensures states[|acts|].workers.Keys + states[|acts|].dead == states[0].workers.Keys + states[0].dead
    decreases |acts|
  {
    hide Settling, SettleWork, Next, Settles, Disturbs;
    SettlingBounds(states[0]);
    if acts != [] {
      StepSettles(states[0], acts[0], states[1]);
      PauseTakesBoundedWork(states[1..], acts[1..]);
    }
  }

  // ---- No deadlock ----

  /** As long as a worker is not held, some step other than a spurious wakeup is
      possible. */
  lemma UnheldCanStep(s: Pool) returns (a: Action, s': Pool)
    requires Settling(s) && !AllHeld(s)
    ensures Settles(a) && !Disturbs(a) && Next(s, a, s')
  {
    hide Calm, Waiters;
    if w :| w in s.workers && s.workers[w] == Checking {
      a, s' := Block(w), s.(workers := s.workers[w := Held(false)], mutex := Free);
    } else {
      assert s.mutex.Free?;
      if w :| w in s.workers && s.workers[w] != Held(false) && s.workers[w] != Looping {
        a, s' := BusyCanStep(s, w);
      } else {
        a, s' := LooperCanTake(s);
      }
    }
  }

  lemma BusyCanStep(s: Pool, w: Tid) returns (a: Action, s': Pool)
    requires s.paused && s.mutex.Free? && w in s.workers && s.workers[w] != Held(false)
    requires s.workers[w] != Looping && s.workers[w] != Checking
    ensures Settles(a) && !Disturbs(a) && WorkerNext(s, a, s')
  {
    match s.workers[w]
    case Starting =>
      a, s' := Register(w), s.(workers := s.workers[w := Looping], registry := s.registry + {w});
    case Held(_) =>
      a, s' := LeavePause(w), s.(workers := s.workers[w := Checking], mutex := Worker(w));
    case Running(UserTask(_, _)) =>
      a, s' := Finish(w), s.(workers := s.workers[w := Looping]);
    case Running(PauseTask) =>
      a, s' := EnterPause(w), s.(workers := s.workers[w := Checking], mutex := Worker(w));
    case Running(DeleteTask) =>
      a := Kill(w);
      s' := s.(workers := s.workers - {w}, registry := s.registry - {w}, dead := s.dead + {w}, count := s.count - 1);
  }

  /** With every other worker held, a PauseTask waits for each that is in
      Dequeue, and the queue has lost no wakeup. */
  lemma LooperCanTake(s: Pool) returns (a: Action, s': Pool)
    requires Waiters(s) && Shielded(s) && s.ctl.Idle? && !AllHeld(s)
    requires forall w :: w in s.workers ==> s.workers[w] == Held(false) || s.workers[w] == Looping
    ensures Settles(a) && !Disturbs(a) && WorkerNext(s, a, s')
  {
    var w: Tid :| w in s.workers && s.workers[w] == Looping;
    PauseWaits(s, w);
    if s.q.woken != {} {
      w :| w in s.q.woken;
    } else {
      assert s.q.sleeping == {};
    }
    var t := TopExists(s.q.items);
    var q' := s.q.(items := s.q.items - multiset{t}, woken := s.q.woken - {w}, delivered := s.q.delivered + [t]);
    a, s' := Take(w, t), s.(q := q', workers := s.workers[w := Running(t)]);
  }

  lemma PauseWaits(s: Pool, w: Tid)
    requires Shielded(s) && s.ctl.Idle? && w in s.workers && s.workers[w] == Looping
    ensures |s.q.items| > 0
  {
    hide Count;
    CountAtMost(s.workers, Calmed);
    assert s.q.items[PauseTask] > 0;
  }

  // ---- The theorem ----

  /** Nothing but a spurious wakeup can happen. */
  ghost predicate AtRest(s: Pool)
  {
    forall a, s' :: Settles(a) && Next(s, a, s') ==> Disturbs(a)
  }

  /** The workers come to rest exactly where all of them are held. */
  lemma RestExactlyWhenHeld(s: Pool)
    requires Settling(s)
    ensures AtRest(s) <==> AllHeld(s)
  {
    hide Settling, Next, Settles, Disturbs;
    if AllHeld(s) {
      forall a, s' | Settles(a) && Next(s, a, s') ensures Disturbs(a) {
        HeldOnlyDisturbed(s, a, s');
      }
    } else {
      var a, s' := UnheldCanStep(s);
      assert !AtRest(s);
    }
  }

  lemma HeldOnlyDisturbed(s: Pool, a: Action, s': Pool)
    requires AllHeld(s) && Settles(a) && Next(s, a, s')
    ensures Disturbs(a)
  {
    hide Enqueues, Waits, Takes, Stirs, Fresh;
  }

  /** From any reachable paused state between calls of a pool that never shrank,
      with nothing submitted and every user task ending: every way of going on
      is bounded, and it comes to rest exactly when every worker is held; if
      nobody was told to die, these are all the workers there were. */
  lemma PauseHoldsEverybody(states: seq<Pool>, acts: seq<Action>, n: int)
    requires IsRunBy(Settles, states, acts)
    requires Reachable(states[0], n) && states[0].paused && states[0].ctl.Idle? && states[0].shrunk == 0
    ensures |acts| <= SettleWork(states[0]) + 3 * Disturbed(acts)
    ensures AtRest(states[|acts|]) <==> AllHeld(states[|acts|])
    ensures states[0].stops == 0 && !states[0].everShrunk ==> states[|acts|].workers.Keys == states[0].workers.Keys
  {
    hide Settling, SettleWork, Next, Settles, Disturbs, Reachable, AtRest, AllHeld;
    PausedIsSettling(states[0], n);
    PauseTakesBoundedWork(states, acts);
    RestExactlyWhenHeld(states[|acts|]);
    forall k | 0 <= k < |acts| ensures NoResume(acts[k]) {
      SettlesWithoutResume(acts[k]);
    }
    PausedPoolKillsNobody(states, acts, n);
    DeadAndAliveApart(states, acts, n);
  }

  lemma SettlesWithoutResume(a: Action)
    requires Settles(a)
    ensures NoResume(a)
  {
  }

  lemma DeadAndAliveApart(states: seq<Pool>, acts: seq<Action>, n: int)
    requires IsExecution(states, acts) && Reachable(states[0], n)
    ensures states[0].dead !! states[0].workers.Keys && states[|acts|].dead !! states[|acts|].workers.Keys
  {
    hide Reachable, Next;
    RunStaysReachable(states, acts, n);
    ReachableInv(states[0], n);
    ReachableInv(states[|acts|], n);
  }

  /** And it can always get there. */
  lemma PauseCanHoldEverybody(s: Pool) returns (s': Pool)
    requires Settling(s)
    ensures LeadsBy(Settles, s, s') && Settling(s') && AllHeld(s')
  {
    Stays(Settles, s);
    s' := SettlesToTheEnd(s, s);
  }

  lemma {:induction false} SettlesToTheEnd(s0: Pool, s: Pool) returns (s': Pool)
    requires LeadsBy(Settles, s0, s) && Settling(s)
    ensures LeadsBy(Settles, s0, s') && Settling(s') && AllHeld(s')
    decreases SettleWork(s)
  {
    hide Settling, SettleWork, Next, Settles, Disturbs, LeadsBy, AllHeld;
    SettlingBounds(s);
    if AllHeld(s) {
      s' := s;
    } else {
      var a, s1 := UnheldCanStep(s);
      StepSettles(s, a, s1);
      SettlingBounds(s1);
      LeadsOn(Settles, s0, s, a, s1);
      s' := SettlesToTheEnd(s0, s1);
    }
  }
}

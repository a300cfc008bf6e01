/** Exactly when a paused pool lets something through: which Stop finishes, and
    what growing a held pool starts. */
module PoolGates {
  import opened WaitableQueue
  import opened ThreadPool
  import opened PoolSafety
  import opened PoolTheorems
  import opened PoolStop

  // ---- A paused pool takes no DeleteTask ----

  /** Paused, and for every worker, and every thread about to be created, the
      worker is held or a PauseTask waits. */
  ghost predicate Shielded(s: Pool)
  {
    && s.paused && !s.ctl.Building? && !s.ctl.Resuming?
    && Calm(s) >= |s.workers| + Owed(s.ctl) && Owed(s.ctl) >= 0
  }

  lemma ResizeKeepsShielded(s: Pool, a: Action, s': Pool)
    requires Shielded(s) && ResizeNext(s, a, s')
    ensures Shielded(s')
  {
    hide Enqueues, Fresh, Count;
    ResizeMoves(s, a, s', Calmed);
  }

  lemma GateKeepsShielded(s: Pool, a: Action, s': Pool)
    requires Shielded(s) && GateNext(s, a, s') && NoResume(a)
    ensures Shielded(s')
  {
    hide Enqueues, NotifyHeld, Count;
    GateMoves(s, a, s', Calmed);
  }

  lemma WorkerKeepsShielded(s: Pool, a: Action, s': Pool)
    requires Shielded(s) && WorkerNext(s, a, s')
    ensures Shielded(s')
  {
    hide WorkerNext, Calm;
    WorkerLeavesControl(s, a, s');
    WorkerKeepsSize(s, a, s');
  }

  lemma StepKeepsShielded(s: Pool, a: Action, s': Pool)
    requires Shielded(s) && Next(s, a, s') && NoResume(a)
    ensures Shielded(s')
  {
    hide Shielded, ResizeNext, GateNext, WorkerNext;
    if WorkerNext(s, a, s') {
      WorkerKeepsShielded(s, a, s');
    } else if ResizeNext(s, a, s') {
      ResizeKeepsShielded(s, a, s');
    } else {
      GateKeepsShielded(s, a, s');
    }
  }

  /** A DeleteTask is the top only when no PauseTask waits; then every worker is
      held and nobody is there to take it. */
  lemma NobodyTakesDelete(s: Pool, w: Tid)
    requires Shielded(s) && w in s.workers && s.workers[w] == Looping
    ensures !IsTop(s.q.items, DeleteTask)
  {
    hide Count;
    CountAtMost(s.workers, Calmed);
    assert PauseTask in s.q.items;
    assert Compare(DeleteTask, PauseTask);
  }

  /** Only these threads, if any, have a DeleteTask in hand. */
  ghost predicate OnlyDoomed(s: Pool, lost: set<Tid>)
  {
    forall w :: w in s.workers && Doomed(s.workers[w]) ==> w in lost
  }

  lemma WorkKillsOnly(s: Pool, a: Action, s': Pool, lost: set<Tid>)
    requires Shielded(s) && OnlyDoomed(s, lost) && WorkerNext(s, a, s')
    ensures OnlyDoomed(s', lost) && s'.dead <= s.dead + lost
  {
    hide Enqueues, Waits, Stirs, IsTop, Shielded;
    if a.Take? {
      NobodyTakesDelete(s, a.w);
    }
  }

  lemma ControlKillsNobody(s: Pool, a: Action, s': Pool, lost: set<Tid>)
    requires OnlyDoomed(s, lost) && (ResizeNext(s, a, s') || GateNext(s, a, s'))
    ensures OnlyDoomed(s', lost) && s'.dead == s.dead
  {
    hide Enqueues;
  }

  lemma {:induction false} ShieldLasts(states: seq<Pool>, acts: seq<Action>, lost: set<Tid>)
    requires IsRunBy(NoResume, states, acts) && Shielded(states[0]) && OnlyDoomed(states[0], lost)
    ensures Shielded(states[|acts|]) && OnlyDoomed(states[|acts|], lost)
    ensures states[|acts|].dead <= states[0].dead + lost
    decreases |acts|
  {
    hide Shielded, OnlyDoomed, ResizeNext, GateNext, WorkerNext;
    if acts != [] {
      var m := |acts| - 1;
      ShieldLasts(states[..m + 1], acts[..m], lost);
      var s, a, s' := states[m], acts[m], states[m + 1];
      StepKeepsShielded(s, a, s');
      if WorkerNext(s, a, s') {
        WorkKillsOnly(s, a, s', lost);
      } else {
        ControlKillsNobody(s, a, s', lost);
      }
    }
  }

  /** From any reachable paused state between calls of a pool that never shrank,
      over every run without Resume, growing, shrinking and any number of Stops
      included, no worker dies but those that had a DeleteTask in hand. */
  lemma PausedPoolKillsNobody(states: seq<Pool>, acts: seq<Action>, n: int)
    requires IsRunBy(NoResume, states, acts)
    requires Reachable(states[0], n) && states[0].paused && states[0].ctl.Idle? && states[0].shrunk == 0
    ensures states[|acts|].dead <= states[0].dead + Having(states[0].workers, Doomed)
    ensures states[0].stops == 0 && !states[0].everShrunk ==> states[|acts|].dead == states[0].dead
  {
    hide Reachable, Count, Next;
    var s := states[0];
    ReachableInv(s, n);
    PauseReachesEveryWorker(s, n);
    ShieldLasts(states, acts, Having(s.workers, Doomed));
    DeadStayDead(states, acts);
    if s.stops == 0 && !s.everShrunk {
      assert Count(s.workers, Doomed) == 0;
      NobodyDoomed(s.workers);
    }
  }

  lemma NobodyDoomed(workers: map<Tid, Phase>)
    requires Count(workers, Doomed) == 0
    ensures Having(workers, Doomed) == {}
  {
  }

  lemma {:induction false} DeadStayDead(states: seq<Pool>, acts: seq<Action>)
    requires IsExecution(states, acts)
    ensures states[0].dead <= states[|acts|].dead
    decreases |acts|
  {
    hide Next;
    if acts != [] {
      var m := |acts| - 1;
      DeadStayDead(states[..m + 1], acts[..m]);
      StepKeepsDead(states[m], acts[m], states[m + 1]);
    }
  }

  lemma StepKeepsDead(s: Pool, a: Action, s': Pool)
    requires Next(s, a, s')
    ensures s.dead <= s'.dead
  {
    hide ResizeNext, GateNext, WorkerNext;
    if WorkerNext(s, a, s') {
      WorkKeepsDead(s, a, s');
    } else {
      ControlKillsNobody(s, a, s', s.workers.Keys);
    }
  }

  lemma WorkKeepsDead(s: Pool, a: Action, s': Pool)
    requires WorkerNext(s, a, s')
    ensures s.dead <= s'.dead
  {
    hide Enqueues, Waits, Takes, Stirs;
  }

  // ---- Stop ----

  /** From a winding state some run of it ends. */
  lemma {:induction false} WindsToTheEnd(s0: Pool, s: Pool, left: int) returns (s': Pool)
    requires Winding(s0, s, left) && LeadsBy(Winds, s0, s)
    ensures Winding(s0, s', left) && LeadsBy(Winds, s0, s') && WoundDown(s')
    decreases Work(s)
  {
    hide Winding, LeadsBy, Next, Work, Winds, WoundDown;
    WindingBounds(s0, s, left);
    if WoundDown(s) {
      s' := s;
    } else {
      var a, s1 := WindingCanStep(s0, s, left);
      StepWinds(s0, s, a, s1, left);
      WindingBounds(s0, s1, left);
      LeadsOn(Winds, s0, s, a, s1);
      s' := WindsToTheEnd(s0, s1, left);
    }
  }

  lemma WindingIsWithoutResume(s: Pool, s': Pool)
    requires LeadsBy(Winds, s, s')
    ensures LeadsBy(NoResume, s, s')
  {
    hide Next;
    var states, acts :| IsRunBy(Winds, states, acts) && states[0] == s && states[|acts|] == s';
    assert IsRunBy(NoResume, states, acts);
  }

  /** Stop, with nothing else submitted or called, can kill all these. */
  ghost predicate CanWindDown(s: Pool, ws: set<Tid>)
  {
    exists s' :: LeadsBy(Winds, s, s') && ws <= s'.dead
  }

  lemma WindingSpares(s0: Pool, s': Pool, left: int)
    requires Winding(s0, s0, left) && LeadsBy(Winds, s0, s') && s0.workers.Keys <= s'.dead
    ensures left <= 0
  {
    hide Winding, Next, Winds;
    var states, acts :| IsRunBy(Winds, states, acts) && states[0] == s0 && states[|acts|] == s';
    StopTakesBoundedWork(s0, states, acts, left);
    NobodyLeft(s0, s', left);
  }

  lemma NobodyLeft(s0: Pool, s: Pool, left: int)
    requires Winding(s0, s, left) && s0.workers.Keys <= s.dead
    ensures left <= 0
  {
    assert s.workers.Keys == {};
  }

  /** The first Stop of an unpaused pool, alone, kills every worker if and only
      if workers do not outnumber DeleteTasks; where the count neither is nor
      started negative, if and only if no shrink has killed anybody yet. */
  lemma StopKillsExactlyUnshrunk(s: Pool, s0: Pool, n: int)
    requires Reachable(s, n) && Next(s, Stop, s0) && !s.paused && s.stops == 0
    ensures CanWindDown(s0, s.workers.Keys) <==> Surplus(s, n) <= 0
    ensures n >= 0 && s.count >= 0 ==> (CanWindDown(s0, s.workers.Keys) <==> s.dead == {})
  {
    hide Next, Reachable, Winding, LeadsBy;
    var left := Surplus(s, n);
    StopStartsWinding(s, s0, n);
    StopKillsNobody(s, s0);
    if left <= 0 {
      Stays(Winds, s0);
      var s' := WindsToTheEnd(s0, s0, left);
      SurvivorsCounted(s0, s', left);
      assert s.workers.Keys <= s'.dead;
    }
    if CanWindDown(s0, s.workers.Keys) {
      var s' :| LeadsBy(Winds, s0, s') && s.workers.Keys <= s'.dead;
      WindingSpares(s0, s', left);
    }
  }

  /** Some run without Resume kills all these. */
  ghost predicate CanKill(s: Pool, ws: set<Tid>)
  {
    exists s' :: LeadsBy(NoResume, s, s') && ws <= s'.dead
  }

  /** The first Stop of a pool that never shrank can end in every worker's death
      if and only if m_is_paused is false.  If it is false every way of going on
      ends there, by StopDrainsThePool; if it is true no worker dies at all. */
  lemma StopKillsExactlyUnpaused(s: Pool, s0: Pool, n: int)
    requires Reachable(s, n) && Next(s, Stop, s0)
    requires !s.everShrunk && s.stops == 0 && s.workers != map[]
    ensures CanKill(s0, s.workers.Keys) <==> !s.paused
    ensures s.paused ==> forall s' :: LeadsBy(NoResume, s0, s') ==> s'.dead == s.dead
  {
    hide Next, Reachable, Winding, LeadsBy;
    StopFacts(s, s0, n);
    StopKillsNobody(s, s0);
    if s.paused {
      forall s' | LeadsBy(NoResume, s0, s') ensures s'.dead == s.dead {
        StopOnPausedPool(s, s0, s', n);
      }
      var w :| w in s.workers;
      assert w in s.workers.Keys && w !in s.dead;
    } else {
      StopStartsWinding(s, s0, n);
      UnshrunkDrains(s, s0, n);
      Stays(Winds, s0);
      var s' := WindsToTheEnd(s0, s0, 0);
      SurvivorsCounted(s0, s', 0);
      WindingIsWithoutResume(s0, s');
      assert s.workers.Keys <= s'.dead;
    }
  }

  lemma StopFacts(s: Pool, s0: Pool, n: int)
    requires Reachable(s, n) && Next(s, Stop, s0)
    ensures s.ctl.Idle? && s.dead !! s.workers.Keys
    ensures !s.everShrunk ==> s.shrunk == 0
  {
    ReachableInv(s, n);
  }

  lemma StopOnPausedPool(s: Pool, s0: Pool, s': Pool, n: int)
    requires Reachable(s, n) && Next(s, Stop, s0) && s.paused && !s.everShrunk && s.stops == 0
    requires LeadsBy(NoResume, s0, s')
    ensures s'.dead == s.dead
  {
    hide Next, Reachable;
    StopFacts(s, s0, n);
    var states, acts :| IsRunBy(NoResume, states, acts) && states[0] == s0 && states[|acts|] == s';
    var states', acts' := [s] + states, [Stop] + acts;
    forall k | 0 <= k < |acts'| ensures Next(states'[k], acts'[k], states'[k + 1]) && NoResume(acts'[k]) {
      if k > 0 {
        assert Next(states[k - 1], acts[k - 1], states[k - 1 + 1]);
      }
    }
    PausedPoolKillsNobody(states', acts', n);
  }

  // ---- Growing a held pool ----

  /** On any reachable, wholly held pool between calls, whatever user task is at
      the top: with no new thread nothing is delivered before Resume; after
      SetThreadNumber with one more, the new thread can take that task, although
      a PauseTask was queued for it first. */
  lemma NewThreadsStartQueuedTasks(s: Pool, t: Task, n: int) returns (s': Pool)
    requires Reachable(s, n) && s.ctl.Idle? && AllCalmed(s) && t.UserTask? && IsTop(s.q.items, t)
    ensures forall r :: LeadsBy(NothingNew, s, r) ==> r.q.delivered == s.q.delivered
    ensures LeadsBy(NoResume, s, s') && s'.ctl.Idle? && s'.paused
    ensures s'.q.delivered == s.q.delivered + [t] && |s'.workers| == |s.workers| + 1
    ensures Holding(s', s.workers.Keys)
  {
    hide Reachable, Next;
    forall r | LeadsBy(NothingNew, s, r) ensures r.q.delivered == s.q.delivered {
      var states, acts :| IsRunBy(NothingNew, states, acts) && states[0] == s && states[|acts|] == r;
      HeldPoolStandsStill(states, acts);
    }
    hide LeadsBy;
    var w := SomeFresh(s.workers.Keys + s.dead);
    var s1 := Grows(s, w, n);
    var s2 := FreesMutex(s, s1, n);
    FreshIsAwake(s, s2.q, w, n);
    s' := NewThreadTakes(s, s2, w, t);
    StillHeld(s, s');
    assert s'.workers.Keys == s.workers.Keys + {w};
  }

  lemma FreshIsAwake(s: Pool, q: Queue, w: Tid, n: int)
    requires Reachable(s, n) && w !in s.workers && Enqueues(s.q, q, PauseTask)
    ensures w !in q.sleeping
  {
    ReachableInv(s, n);
  }

  lemma StillHeld(s: Pool, s': Pool)
    requires AllCalmed(s) && LeadsBy(NoResume, s, s')
    ensures Holding(s', s.workers.Keys)
  {
    hide Next;
    var states, acts :| IsRunBy(NoResume, states, acts) && states[0] == s && states[|acts|] == s';
    HeldWorkersStartNothing(states, acts, s.workers.Keys);
  }

  lemma {:induction false} SomeFresh(ws: set<Tid>) returns (w: Tid)
    ensures w !in ws && forall v :: v in ws ==> v < w
    decreases |ws|
  {
    if ws == {} {
      w := 0;
    } else {
      var v :| v in ws;
      w := SomeFresh(ws - {v});
      assert forall u :: u in ws ==> u == v || u in ws - {v};
      w := if v < w then w else v + 1;
    }
  }

  /** SetThreadNumber(count + 1), up to its return. */
  lemma Grows(s: Pool, w: Tid, n: int) returns (s': Pool)
    requires Reachable(s, n) && s.ctl.Idle? && s.paused && Fresh(s, w)
    ensures LeadsBy(NoResume, s, s') && s'.ctl.Idle? && s'.paused && s'.mutex == s.mutex
    ensures s'.workers == s.workers[w := Starting] && Enqueues(s.q, s'.q, PauseTask)
  {
    hide LeadsBy, Reachable, Enqueues, GateNext, WorkerNext;
    Stays(NoResume, s);
    var s1 := s.(ctl := GrowingPauses(1, 1));
    LeadsOn(NoResume, s, s, SetThreadNumber(s.count + 1), s1);
    var q := SomeEnqueue(s.q, PauseTask);
    var s2 := s1.(q := q, ctl := GrowingPauses(0, 1));
    LeadsOn(NoResume, s, s1, QueueGrowPause, s2);
    var s3 := s2.(ctl := Growing(1, true));
    LeadsOn(NoResume, s, s2, GrowPausesQueued, s3);
    var s4 := s3.(workers := s.workers[w := Starting], ctl := Growing(0, false), grown := s.grown + 1);
    LeadsOn(NoResume, s, s3, CreateThread(w), s4);
    var s5 := s4.(count := s.count + 1, ctl := Growing(0, true));
    LeadsOn(NoResume, s, s4, CountThread, s5);
    s' := s5.(ctl := Idle);
    LeadsOn(NoResume, s, s5, Grown, s');
  }

  lemma SomeEnqueue(q: Queue, t: Task) returns (q': Queue)
    ensures Enqueues(q, q', t)
  {
    q' := q.(items := q.items + multiset{t}, enqueued := q.enqueued + multiset{t});
    if w :| w in q.sleeping {
      q' := q'.(sleeping := q.sleeping - {w}, woken := q.woken + {w});
      assert Wakes(q, q', w);
    }
  }

  /** Whoever holds m_mutex between its test and its wait gives it back. */
  lemma FreesMutex(s: Pool, s1: Pool, n: int) returns (s': Pool)
    requires Reachable(s, n) && s.ctl.Idle? && s1.mutex == s.mutex
    requires LeadsBy(NoResume, s, s1) && s.workers.Keys <= s1.workers.Keys
    requires forall v :: v in s.workers ==> s1.workers[v] == s.workers[v]
    ensures LeadsBy(NoResume, s, s') && s'.mutex.Free? && s'.ctl == s1.ctl && s'.paused == s1.paused && s'.q == s1.q
    ensures s'.workers.Keys == s1.workers.Keys
    ensures forall v :: v in s1.workers && s1.workers[v] != Checking ==> s'.workers[v] == s1.workers[v]
  {
    hide LeadsBy;
    ReachableInv(s, n);
    if s.mutex.Free? {
      s' := s1;
    } else {
      var v := s.mutex.w;
      assert s.workers[v] == Checking;
      s' := s1.(workers := s1.workers[v := Held(false)], mutex := Free);
      LeadsOn(NoResume, s, s1, Block(v), s');
    }
  }

  lemma NewThreadTakes(s: Pool, s2: Pool, w: Tid, t: Task) returns (s': Pool)
    requires LeadsBy(NoResume, s, s2) && s2.mutex.Free? && w in s2.workers && s2.workers[w] == Starting
    requires w !in s2.q.sleeping && Enqueues(s.q, s2.q, PauseTask) && t.UserTask? && IsTop(s.q.items, t)
    ensures LeadsBy(NoResume, s, s') && s'.ctl == s2.ctl && s'.paused == s2.paused
    ensures s'.q.delivered == s.q.delivered + [t] && s'.workers.Keys == s2.workers.Keys
  {
    hide LeadsBy, Wakes;
    var s3 := s2.(workers := s2.workers[w := Looping], registry := s2.registry + {w});
    LeadsOn(NoResume, s, s2, Register(w), s3);
    var q := s2.q.(items := s2.q.items - multiset{t}, woken := s2.q.woken - {w}, delivered := s2.q.delivered + [t]);
    assert Takes(s2.q, q, w, t);
    s' := s3.(q := q, workers := s3.workers[w := Running(t)]);
    LeadsOn(NoResume, s, s3, Take(w, t), s');
  }

  /** For instance: a pool of one, paused and held; a user task is submitted,
      then SetThreadNumber(2); the task is delivered, the flag still set. */
  lemma NewThreadOvertakesItsPause(id: nat, p: Priority) returns (s: Pool)
    ensures Reachable(s, 1) && s.paused && s.ctl.Idle? && UserTask(id, p) in s.q.delivered
    ensures 0 in s.workers && Calmed(s.workers[0])
  {
    hide Reachable;
    var t := UserTask(id, p);
    var s0 := PausedWorker();
    var q := SomeEnqueue(s0.q, t);
    s0 := FollowWorker(s0, AddTask(t), s0.(q := q));
    assert AllCalmed(s0) && 0 in s0.workers.Keys;
    assert IsTop(s0.q.items, t);
    s := NewThreadsStartQueuedTasks(s0, t, 1);
    LeadsToReachable(s0, s, 1);
  }

  lemma LeadsToReachable(s: Pool, s': Pool, n: int)
    requires Reachable(s, n) && LeadsBy(NoResume, s, s')
    ensures Reachable(s', n)
  {
    var states, acts :| IsRunBy(NoResume, states, acts) && states[0] == s && states[|acts|] == s';
    RunStaysReachable(states, acts, n);
  }

  lemma {:induction false} RunStaysReachable(states: seq<Pool>, acts: seq<Action>, n: int)
    requires IsExecution(states, acts) && Reachable(states[0], n)
    ensures Reachable(states[|acts|], n)
    decreases |acts|
  {
    hide Next, Reachable;
    if acts != [] {
      var m := |acts| - 1;
      RunStaysReachable(states[..m + 1], acts[..m], n);
      ReachableStep(states[m], acts[m], states[m + 1], n);
    }
  }
}

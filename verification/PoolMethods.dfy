/** The pool's own methods, each run without interruption: what a call does,
    and that it is one run of the step machine. */
module PoolMethods {
  import opened Queues = WaitableQueue
  import opened Machine = ThreadPool

  predicate Anything(a: Action) { true }

  /** The machine can go from s to s'. */
  ghost predicate Leads(s: Pool, s': Pool)
  {
    LeadsBy(Anything, s, s')
  }

  /** items and n more of t; none if n is negative. */
  function Plus(items: multiset<Task>, t: Task, n: int): (r: multiset<Task>)
  {
    items[t := items[t] + if n > 0 then n else 0]
  }

  lemma PlusOne(items: multiset<Task>, t: Task, n: nat)
    ensures Plus(items, t, n) + multiset{t} == Plus(items, t, n + 1)
  {
  }

  lemma PauseRound(s0: Pool, s: Pool, i: nat, j: nat, q: Queue) returns (s': Pool)
    requires Leads(s0, s) && s.ctl == Pausing(i, false) && i < s.count && Enqueues(s.q, q, PauseTask) && j == i + 1
    ensures s' == s.(q := q, ctl := Pausing(j, false)) && Leads(s0, s')
  {
    hide LeadsBy, Enqueues;
    var s1 := s.(ctl := Pausing(i, true));
    LeadsOn(Anything, s0, s, PauseCheck, s1);
    s' := s1.(q := q, ctl := Pausing(j, false));
    LeadsOn(Anything, s0, s1, QueuePause, s');
  }

  lemma StopRound(s0: Pool, s: Pool, i: nat, j: nat, q: Queue) returns (s': Pool)
    requires Leads(s0, s) && s.ctl == Stopping(i) && i < s.count && Enqueues(s.q, q, DeleteTask) && j == i + 1
    ensures s' == s.(q := q, ctl := Stopping(j)) && Leads(s0, s')
  {
    hide LeadsBy, Enqueues;
    s' := s.(q := q, ctl := Stopping(j));
    LeadsOn(Anything, s0, s, QueueStop, s');
  }

  lemma GrowPauseRound(s0: Pool, s: Pool, left: nat, left': nat, threads: nat, q: Queue) returns (s': Pool)
    requires Leads(s0, s) && s.ctl == GrowingPauses(left, threads) && left == left' + 1 && Enqueues(s.q, q, PauseTask)
    ensures s' == s.(q := q, ctl := GrowingPauses(left', threads)) && Leads(s0, s')
  {
    hide LeadsBy, Enqueues;
    s' := s.(q := q, ctl := GrowingPauses(left', threads));
    LeadsOn(Anything, s0, s, QueueGrowPause, s');
  }

  lemma GrowRound(s0: Pool, s: Pool, left: nat, left': nat, w: Tid, workers: map<Tid, Phase>, count: int, grown: nat)
    returns (s': Pool)
    requires Leads(s0, s) && s.ctl == Growing(left, true) && left == left' + 1 && Fresh(s, w)
    requires workers == s.workers[w := Starting] && count == s.count + 1 && grown == s.grown + 1
    ensures s' == s.(workers := workers, count := count, grown := grown, ctl := Growing(left', true)) && Leads(s0, s')
  {
    hide LeadsBy;
    var s1 := s.(workers := workers, ctl := Growing(left', false), grown := grown);
    LeadsOn(Anything, s0, s, CreateThread(w), s1);
    s' := s1.(count := count, ctl := Growing(left', true));
    LeadsOn(Anything, s0, s1, CountThread, s');
  }

  lemma ShrinkRound(s0: Pool, s: Pool, left: nat, left': nat, q: Queue, count: int, shrunk: nat) returns (s': Pool)
    requires Leads(s0, s) && s.ctl == Shrinking(left, false) && left == left' + 1 && Enqueues(s.q, q, DeleteTask)
    requires count == s.count - 1 && shrunk == s.shrunk + 1
    ensures s' == s.(q := q, count := count, shrunk := shrunk, ctl := Shrinking(left', false)) && Leads(s0, s')
  {
    hide LeadsBy, Enqueues;
    var s1 := s.(q := q, ctl := Shrinking(left, true));
    LeadsOn(Anything, s0, s, QueueShrink, s1);
    s' := s1.(count := count, shrunk := shrunk, ctl := Shrinking(left', false));
    LeadsOn(Anything, s0, s1, CountShrink, s');
  }

  lemma BuildRound(s0: Pool, s: Pool, left: nat, left': nat, w: Tid, workers: map<Tid, Phase>) returns (s': Pool)
    requires Leads(s0, s) && s.ctl == Building(left) && left == left' + 1 && Fresh(s, w)
    requires workers == s.workers[w := Starting]
    ensures s' == s.(workers := workers, ctl := Building(left')) && Leads(s0, s')
  {
    hide LeadsBy;
    s' := s.(workers := workers, ctl := Building(left'));
    LeadsOn(Anything, s0, s, Build(w), s');
  }

  lemma Step(s: Pool, a: Action, s': Pool)
    requires Next(s, a, s')
    ensures Leads(s, s')
  {
    hide Next;
    Stays(Anything, s);
    LeadsOn(Anything, s, s, a, s');
  }

  lemma BuildEnds(s0: Pool, s: Pool) returns (s': Pool)
    requires Leads(s0, s) && s.ctl == Building(0)
    ensures s' == s.(ctl := Idle) && Leads(s0, s')
  {
    hide LeadsBy;
    s' := s.(ctl := Idle);
    LeadsOn(Anything, s0, s, Built, s');
  }

  lemma PauseBegins(s: Pool) returns (s': Pool)
    requires s.ctl.Idle?
    ensures s' == s.(paused := true, ctl := Pausing(0, false)) && Leads(s, s')
  {
    hide LeadsBy;
    s' := s.(paused := true, ctl := Pausing(0, false));
    Step(s, Pause, s');
  }

  lemma PauseEnds(s0: Pool, s: Pool) returns (s': Pool)
    requires Leads(s0, s) && s.ctl.Pausing? && !s.ctl.granted && s.ctl.i >= s.count
    ensures s' == s.(ctl := Idle) && Leads(s0, s')
  {
    hide LeadsBy;
    s' := s.(ctl := Idle);
    LeadsOn(Anything, s0, s, PauseCheck, s');
  }

  lemma Resumes(s: Pool) returns (s': Pool)
    requires s.ctl.Idle?
    ensures s' == s.(paused := false, workers := NotifyHeld(s.workers)) && Leads(s, s')
  {
    hide LeadsBy, NotifyHeld;
    var s1 := s.(paused := false, ctl := Resuming);
    Step(s, Resume, s1);
    s' := s.(paused := false, workers := NotifyHeld(s.workers));
    LeadsOn(Anything, s, s1, NotifyResumed, s');
  }

  lemma StopBegins(s: Pool, stops: nat) returns (s': Pool)
    requires s.ctl.Idle? && s.mutex.Free? && stops == s.stops + 1
    ensures s' == s.(mutex := Controller, workers := NotifyHeld(s.workers), ctl := Stopping(0), stops := stops, grown := 0)
    ensures Leads(s, s')
  {
    hide LeadsBy, NotifyHeld;
    s' := s.(mutex := Controller, workers := NotifyHeld(s.workers), ctl := Stopping(0), stops := stops, grown := 0);
    Step(s, Stop, s');
  }

  lemma StopEnds(s0: Pool, s: Pool) returns (s': Pool)
    requires Leads(s0, s) && s.ctl.Stopping? && s.ctl.i >= s.count
    ensures s' == s.(mutex := Free, ctl := StopWaiting) && Leads(s0, s')
  {
    hide LeadsBy;
    s' := s.(mutex := Free, ctl := StopWaiting);
    LeadsOn(Anything, s0, s, StopQueued, s');
  }

  lemma StopReturned(s0: Pool, s: Pool) returns (s': Pool)
    requires Leads(s0, s) && s.ctl.StopWaiting?
    ensures s' == s.(ctl := Idle) && Leads(s0, s')
  {
    hide LeadsBy;
    s' := s.(ctl := Idle);
    LeadsOn(Anything, s0, s, StopReturns, s');
  }

  lemma GrowBegins(s: Pool, n: int, diff: nat) returns (s': Pool)
    requires s.ctl.Idle? && n == s.count + diff && diff > 0
    ensures s' == s.(ctl := if s.paused then GrowingPauses(diff, diff) else Growing(diff, true)) && Leads(s, s')
  {
    hide LeadsBy;
    s' := s.(ctl := if s.paused then GrowingPauses(diff, diff) else Growing(diff, true));
    Step(s, SetThreadNumber(n), s');
  }

  lemma GrowPausesEnd(s0: Pool, s: Pool) returns (s': Pool)
    requires Leads(s0, s) && s.ctl.GrowingPauses? && s.ctl.pauses == 0
    ensures s' == s.(ctl := Growing(s.ctl.threads, true)) && Leads(s0, s')
  {
    hide LeadsBy;
    s' := s.(ctl := Growing(s.ctl.threads, true));
    LeadsOn(Anything, s0, s, GrowPausesQueued, s');
  }

  lemma GrowEnds(s0: Pool, s: Pool) returns (s': Pool)
    requires Leads(s0, s) && s.ctl == Growing(0, true)
    ensures s' == s.(ctl := Idle) && Leads(s0, s')
  {
    hide LeadsBy;
    s' := s.(ctl := Idle);
    LeadsOn(Anything, s0, s, Grown, s');
  }

  lemma ShrinkBegins(s: Pool, n: int, diff: nat, everShrunk: bool) returns (s': Pool)
    requires s.ctl.Idle? && s.count == n + diff && everShrunk == (s.everShrunk || diff > 0)
    ensures s' == s.(ctl := Shrinking(diff, false), everShrunk := everShrunk) && Leads(s, s')
  {
    hide LeadsBy;
    s' := s.(ctl := Shrinking(diff, false), everShrunk := everShrunk);
    Step(s, SetThreadNumber(n), s');
  }

  lemma ShrinkEnds(s0: Pool, s: Pool) returns (s': Pool)
    requires Leads(s0, s) && s.ctl == Shrinking(0, false)
    ensures s' == s.(ctl := Idle) && Leads(s0, s')
  {
    hide LeadsBy;
    s' := s.(ctl := Idle);
    LeadsOn(Anything, s0, s, Shrunk, s');
  }

  lemma Registers(s: Pool, w: Tid) returns (s': Pool)
    requires w in s.workers && s.workers[w] == Starting && s.mutex.Free?
    ensures s' == s.(workers := s.workers[w := Looping], registry := s.registry + {w}) && Leads(s, s')
  {
    hide LeadsBy;
    s' := s.(workers := s.workers[w := Looping], registry := s.registry + {w});
    Step(s, Register(w), s');
  }

  lemma Kills(s: Pool, w: Tid, count: int) returns (s': Pool)
    requires w in s.workers && s.workers[w] == Running(DeleteTask) && s.mutex.Free? && count == s.count - 1
    ensures s' == s.(workers := s.workers - {w}, registry := s.registry - {w}, dead := s.dead + {w}, count := count)
    ensures Leads(s, s')
  {
    hide LeadsBy;
    s' := s.(workers := s.workers - {w}, registry := s.registry - {w}, dead := s.dead + {w}, count := count);
    Step(s, Kill(w), s');
  }

  /** The threads there were stand where they stood; the new ones start. */
  ghost predicate Grows(threads: map<Tid, Phase>, threads': map<Tid, Phase>)
  {
    && (forall w :: w in threads ==> w in threads' && threads'[w] == threads[w])
    && (forall w :: w in threads' && w !in threads ==> threads'[w] == Starting)
  }

  class ThreadPool {
    var m_is_paused: bool
    var m_num_of_threads: int
    const m_wq: Queues.WaitableQueue
    var m_map: set<Tid>
    var m_mutex: Holder
    var threads: map<Tid, Phase>  // where each live thread stands
    var nextId: Tid
    ghost var dead: set<Tid>
    ghost var shrunk: nat
    ghost var everShrunk: bool
    ghost var stops: nat
    ghost var grown: nat

    ghost function State(ctl: Control): (s: Pool)
      reads this, m_wq
    {
      Pool(m_wq.State(), threads, dead, m_map, m_num_of_threads, m_is_paused, m_mutex, ctl,
           shrunk, everShrunk, stops, grown)
    }

    ghost predicate Valid()
      reads this
    {
      forall w :: w in threads || w in dead ==> w < nextId
    }

    constructor (num_of_threads: int)
      ensures Valid() && fresh(m_wq)
      ensures exists s :: Initial(s, num_of_threads) && Leads(s, State(Idle))
      ensures m_num_of_threads == num_of_threads && |threads| == if num_of_threads > 0 then num_of_threads else 0
    {
      m_is_paused, m_num_of_threads, m_map, m_mutex, threads, nextId := false, num_of_threads, {}, Free, map[], 0;
      dead, stops, grown := {}, 0, 0;
      shrunk, everShrunk := if num_of_threads < 0 then -num_of_threads else 0, num_of_threads < 0;
      m_wq := new Queues.WaitableQueue();
      new;
      ghost var n := if num_of_threads > 0 then num_of_threads else 0;
      ghost var s0 := State(Building(n));
      Stays(Anything, s0);
      assert Initial(s0, num_of_threads);
      BuildThreads(n, s0);
    }

    /** The constructor's loop. */
    method BuildThreads(ghost n: nat, ghost s0: Pool)
      requires Valid() && threads == map[] && n == (if m_num_of_threads > 0 then m_num_of_threads else 0)
      requires Leads(s0, State(Building(n)))
      modifies `threads, `nextId
      ensures Valid() && |threads| == n && Leads(s0, State(Idle))
    {
      var i := 0;
      ghost var left: nat := n;
      while i < m_num_of_threads
        invariant 0 <= i <= n && |threads| == i && left == n - i
        invariant Valid() && Leads(s0, State(Building(left)))
      {
        ghost var s, w, left' := State(Building(left)), nextId, left - 1;
        CreateThread();
        ghost var s' := BuildRound(s0, s, left, left', w, threads);
        i, left := i + 1, left';
      }
      ghost var last := BuildEnds(s0, State(Building(0)));
    }

    method CreateThread()
      requires Valid()
      modifies `threads, `nextId
      ensures Valid() && nextId == old(nextId) + 1
      ensures old(nextId) !in old(threads) && old(nextId) !in dead
      ensures threads == old(threads)[old(nextId) := Starting] && |threads| == |old(threads)| + 1
    {
      CountAdded(threads, nextId, Starting, p => true);
      threads := threads[nextId := Starting];
      nextId := nextId + 1;
    }

    method AddTask(t: Task)
      modifies m_wq
      ensures Enqueues(old(m_wq.State()), m_wq.State(), t)
      ensures m_wq.m_pq == old(m_wq.m_pq) + multiset{t}
    {
      var ok := m_wq.Enqueue(t);
    }

    method Pause()
      modifies this`m_is_paused, m_wq
      ensures Leads(old(State(Idle)), State(Idle))
      ensures m_is_paused && m_wq.m_pq == Plus(old(m_wq.m_pq), PauseTask, m_num_of_threads)
    {
      ghost var s0 := State(Idle);
      m_is_paused := true;
      ghost var s1 := PauseBegins(s0);
      QueuePausesForAll(s0);
    }

    /** The loop of Pause. */
    method QueuePausesForAll(ghost s0: Pool)
      requires Leads(s0, State(Pausing(0, false)))
      modifies m_wq
      ensures Leads(s0, State(Idle))
      ensures m_wq.m_pq == Plus(old(m_wq.m_pq), PauseTask, m_num_of_threads)
    {
      var i := 0;
      while i < m_num_of_threads
        invariant 0 <= i && (i <= m_num_of_threads || i == 0)
        invariant m_wq.m_pq == Plus(old(m_wq.m_pq), PauseTask, i)
        invariant Leads(s0, State(Pausing(i, false)))
      {
        ghost var s := State(Pausing(i, false));
        AddTask(PauseTask);
        PlusOne(old(m_wq.m_pq), PauseTask, i);
        ghost var s' := PauseRound(s0, s, i, i + 1, m_wq.State());
        i := i + 1;
      }
      ghost var last := PauseEnds(s0, State(Pausing(i, false)));
    }

    method Resume()
      modifies this`m_is_paused, this`threads
      ensures Leads(old(State(Idle)), State(Idle))
      ensures !m_is_paused && threads == NotifyHeld(old(threads))
    {
      ghost var s0 := State(Idle);
      m_is_paused := false;
      threads := NotifyHeld(threads);
      ghost var last := Resumes(s0);
    }

    /** Nobody else runs, so the wait for m_stop_cv ends by its timeout, or at
        once if the count is 0; m_is_paused stays as it is. */
    method Stop()
      requires m_mutex == Free
      modifies this`m_mutex, this`threads, this`stops, this`grown, m_wq
      ensures Leads(old(State(Idle)), State(Idle))
      ensures m_mutex == Free && threads == NotifyHeld(old(threads))
      ensures m_wq.m_pq == Plus(old(m_wq.m_pq), DeleteTask, m_num_of_threads)
    {
      ghost var s0 := State(Idle);
      m_mutex, threads, stops, grown := Controller, NotifyHeld(threads), stops + 1, 0;
      ghost var s1 := StopBegins(s0, stops);
      QueueStops(s0);
      m_mutex := Free;
      ghost var last := StopReturned(s0, State(StopWaiting));
    }

    /** The loop of Stop. */
    method QueueStops(ghost s0: Pool)
      requires Leads(s0, State(Stopping(0)))
      modifies m_wq
      ensures Leads(s0, State(StopWaiting).(mutex := Free))
      ensures m_wq.m_pq == Plus(old(m_wq.m_pq), DeleteTask, m_num_of_threads)
    {
      var i := 0;
      while i < m_num_of_threads
        invariant 0 <= i && (i <= m_num_of_threads || i == 0)
        invariant m_wq.m_pq == Plus(old(m_wq.m_pq), DeleteTask, i)
        invariant Leads(s0, State(Stopping(i)))
      {
        ghost var s := State(Stopping(i));
        AddTask(DeleteTask);
        PlusOne(old(m_wq.m_pq), DeleteTask, i);
        ghost var s' := StopRound(s0, s, i, i + 1, m_wq.State());
        i := i + 1;
      }
      ghost var last := StopEnds(s0, State(Stopping(i)));
    }

    method SetThreadNumber(new_num_of_threads: int)
      requires Valid()
      modifies this, m_wq
      ensures Valid() && Leads(old(State(Idle)), State(Idle))
      ensures m_num_of_threads == new_num_of_threads && m_is_paused == old(m_is_paused)
      ensures m_map == old(m_map) && m_mutex == old(m_mutex)
      ensures var diff := new_num_of_threads - old(m_num_of_threads);
              if diff > 0 then
                && |threads| == |old(threads)| + diff
                && (forall w :: w in old(threads) ==> w in threads && threads[w] == old(threads)[w])
                && (forall w :: w in threads && w !in old(threads) ==> threads[w] == Starting)
                && m_wq.m_pq == Plus(old(m_wq.m_pq), PauseTask, if m_is_paused then diff else 0)
              else
                && threads == old(threads)
                && m_wq.m_pq == Plus(old(m_wq.m_pq), DeleteTask, -diff)
    {
      ghost var s0 := State(Idle);
      if m_num_of_threads < new_num_of_threads {
        var diff := new_num_of_threads - m_num_of_threads;
        ghost var s1 := GrowBegins(s0, new_num_of_threads, diff);
        if m_is_paused {
          QueuePauses(diff, s0);
        }
        CreateThreads(diff, s0);
      } else {
        var diff := m_num_of_threads - new_num_of_threads;
        everShrunk := everShrunk || diff > 0;
        ghost var s1 := ShrinkBegins(s0, new_num_of_threads, diff, everShrunk);
        QueueDeletes(diff, s0);
      }
    }

    /** The first loop of the growing branch. */
    method QueuePauses(diff: nat, ghost s0: Pool)
      requires Leads(s0, State(GrowingPauses(diff, diff)))
      modifies m_wq
      ensures Leads(s0, State(Growing(diff, true)))
      ensures m_wq.m_pq == Plus(old(m_wq.m_pq), PauseTask, diff)
    {
      var i := 0;
      ghost var left: nat := diff;
      while i < diff
        invariant 0 <= i <= diff && m_wq.m_pq == Plus(old(m_wq.m_pq), PauseTask, i)
        invariant left == diff - i && Leads(s0, State(GrowingPauses(left, diff)))
      {
        ghost var s, left' := State(GrowingPauses(left, diff)), left - 1;
        AddTask(PauseTask);
        PlusOne(old(m_wq.m_pq), PauseTask, i);
        ghost var s' := GrowPauseRound(s0, s, left, left', diff, m_wq.State());
        i, left := i + 1, left';
      }
      ghost var last := GrowPausesEnd(s0, State(GrowingPauses(0, diff)));
    }

    /** The second loop of the growing branch. */
    method CreateThreads(diff: nat, ghost s0: Pool)
      requires Valid() && Leads(s0, State(Growing(diff, true)))
      modifies `threads, `nextId, `m_num_of_threads, `grown
      ensures Valid() && Leads(s0, State(Idle))
      ensures m_num_of_threads == old(m_num_of_threads) + diff && |threads| == |old(threads)| + diff
      ensures Grows(old(threads), threads)
    {
      var i := 0;
      ghost var left: nat := diff;
      while i < diff
        invariant 0 <= i <= diff && Valid()
        invariant m_num_of_threads == old(m_num_of_threads) + i && |threads| == |old(threads)| + i
        invariant Grows(old(threads), threads)
        invariant left == diff - i && Leads(s0, State(Growing(left, true)))
      {
        ghost var s, w, left' := State(Growing(left, true)), nextId, left - 1;
        CreateThread();
        m_num_of_threads, grown := m_num_of_threads + 1, grown + 1;
        ghost var s' := GrowRound(s0, s, left, left', w, threads, m_num_of_threads, grown);
        i, left := i + 1, left';
      }
      ghost var last := GrowEnds(s0, State(Growing(0, true)));
    }

    /** The loop of the shrinking branch. */
    method QueueDeletes(diff: nat, ghost s0: Pool)
      requires Leads(s0, State(Shrinking(diff, false)))
      modifies `m_num_of_threads, `shrunk, m_wq
      ensures Leads(s0, State(Idle))
      ensures m_num_of_threads == old(m_num_of_threads) - diff
      ensures m_wq.m_pq == Plus(old(m_wq.m_pq), DeleteTask, diff)
    {
      var i := 0;
      ghost var left: nat := diff;
      while i < diff
        invariant 0 <= i <= diff && m_wq.m_pq == Plus(old(m_wq.m_pq), DeleteTask, i)
        invariant m_num_of_threads == old(m_num_of_threads) - i
        invariant left == diff - i && Leads(s0, State(Shrinking(left, false)))
        modifies `m_num_of_threads, `shrunk, m_wq
      {
        ghost var s, left' := State(Shrinking(left, false)), left - 1;
        AddTask(DeleteTask);
        PlusOne(old(m_wq.m_pq), DeleteTask, i);
        m_num_of_threads, shrunk := m_num_of_threads - 1, shrunk + 1;
        ghost var s' := ShrinkRound(s0, s, left, left', m_wq.State(), m_num_of_threads, shrunk);
        i, left := i + 1, left';
      }
      ghost var last := ShrinkEnds(s0, State(Shrinking(0, false)));
    }

    /** ThreadFunctor::RegisterFunctor by thread w. */
    method RegisterFunctor(w: Tid, ghost ctl: Control)
      requires w in threads && threads[w] == Starting && m_mutex == Free
      modifies this`m_map, this`threads
      ensures Leads(old(State(ctl)), State(ctl))
      ensures m_map == old(m_map) + {w} && threads == old(threads)[w := Looping]
    {
      ghost var s0 := State(ctl);
      m_map, threads := m_map + {w}, threads[w := Looping];
      ghost var last := Registers(s0, w);
    }

    /** DeleteTask::operator() on thread w, which leaves its loop. */
    method Delete(w: Tid, ghost ctl: Control)
      requires w in threads && threads[w] == Running(DeleteTask) && m_mutex == Free
      modifies this`m_map, this`threads, this`m_num_of_threads, this`dead
      ensures Leads(old(State(ctl)), State(ctl))
      ensures m_map == old(m_map) - {w} && threads == old(threads) - {w}
      ensures m_num_of_threads == old(m_num_of_threads) - 1
    {
      ghost var s0 := State(ctl);
      m_map, threads, dead := m_map - {w}, threads - {w}, dead + {w};
      m_num_of_threads := m_num_of_threads - 1;
      ghost var last := Kills(s0, w, m_num_of_threads);
    }
  }
}

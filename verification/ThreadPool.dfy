/** The thread pool as a step machine: any number of workers, one controller
    thread calling SetThreadNumber, Pause, Resume and Stop, and anybody
    submitting tasks.  A step is what one thread does between two points where
    another may run. */
module ThreadPool {
  import Sets
  import opened WaitableQueue

  datatype Phase =
    | Starting              // created; RegisterFunctor not yet run
    | Looping               // calling, or waiting inside, Dequeue
    | Running(task: Task)   // has dequeued task and not finished it
    | Checking              // in LockCV with m_mutex held, having seen m_is_paused
    | Held(notified: bool)  // inside m_cv.wait

  datatype Holder = Free | Controller | Worker(w: Tid)

  /** Where the controller thread stands. */
  datatype Control =
    | Building(left: nat)                       // the constructor's loop
    | Idle
    | GrowingPauses(pauses: nat, threads: nat)  // SetThreadNumber, growing while paused
    | Growing(threads: nat, counted: bool)      // its second loop; counted: no ++ owed
    | Shrinking(left: nat, queued: bool)        // its else branch; queued: a -- is owed
    | Pausing(i: nat, granted: bool)            // granted: i < m_num_of_threads was seen
    | Resuming                                  // flag cleared, notify_all owed
    | Stopping(i: nat)                          // the loop of Stop, with m_mutex held
    | StopWaiting                               // waiting on m_stop_cv

  datatype Pool = Pool(
    q: Queue,
    workers: map<Tid, Phase>,  // the live threads
    dead: set<Tid>,            // threads that executed a DeleteTask
    registry: set<Tid>,        // the keys of m_map
    count: int,                // m_num_of_threads
    paused: bool,              // m_is_paused
    mutex: Holder,             // m_mutex
    ctl: Control,
    shrunk: nat,               // decrements made by SetThreadNumber so far, from a start below 0 counted too
    everShrunk: bool,          // whether SetThreadNumber ever chose to shrink, or the start was below 0
    stops: nat,                // calls of Stop so far
    grown: nat)                // threads created since the latest Stop

  /** ThreadPool(n): a negative n creates no thread and is kept as the count. */
  ghost predicate Initial(s: Pool, n: int)
  {
    s == Pool(EMPTY, map[], {}, {}, n, false, Free, Building(if n > 0 then n else 0),
              if n < 0 then -n else 0, n < 0, 0, 0)
  }

  datatype Action =
    | Build(w: Tid) | Built
    | SetThreadNumber(n: int)
    | QueueGrowPause | GrowPausesQueued | CreateThread(w: Tid) | CountThread | Grown
    | QueueShrink | CountShrink | Shrunk
    | Pause | PauseCheck | QueuePause
    | Resume | NotifyResumed
    | Stop | QueueStop | StopQueued | StopReturns
    | AddTask(t: Task)
    | Register(w: Tid)
    | WaitForTask(w: Tid) | Stir(w: Tid) | Take(w: Tid, t: Task)
    | Finish(w: Tid)
    | EnterPause(w: Tid) | Block(w: Tid) | WakeHeld(w: Tid) | LeavePause(w: Tid)
    | Kill(w: Tid)

  /** notify_all on m_cv. */
  function NotifyHeld(workers: map<Tid, Phase>): (r: map<Tid, Phase>)
    ensures r.Keys == workers.Keys
    ensures forall w :: w in workers ==> r[w] == if workers[w].Held? then Held(true) else workers[w]
  {
    map w | w in workers :: if workers[w].Held? then Held(true) else workers[w]
  }

  ghost predicate Fresh(s: Pool, w: Tid)
  {
    w !in s.workers && w !in s.dead
  }

  /** The constructor and SetThreadNumber. */
  ghost predicate ResizeNext(s: Pool, a: Action, s': Pool)
  {
    match a
    case Build(w) =>
      s.ctl.Building? && s.ctl.left > 0 && Fresh(s, w)
      && s' == s.(workers := s.workers[w := Starting], ctl := Building(s.ctl.left - 1))
    case Built =>
      s.ctl == Building(0) && s' == s.(ctl := Idle)
    case SetThreadNumber(n) =>
      s.ctl.Idle? &&
      if s.count < n then
        s' == s.(ctl := if s.paused then GrowingPauses(n - s.count, n - s.count) else Growing(n - s.count, true))
      else
        s' == s.(ctl := Shrinking(s.count - n, false), everShrunk := s.everShrunk || s.count > n)
    case QueueGrowPause =>
      s.ctl.GrowingPauses? && s.ctl.pauses > 0 && Enqueues(s.q, s'.q, PauseTask)
      && s' == s.(q := s'.q, ctl := s.ctl.(pauses := s.ctl.pauses - 1))
    case GrowPausesQueued =>
      s.ctl.GrowingPauses? && s.ctl.pauses == 0 && s' == s.(ctl := Growing(s.ctl.threads, true))
    case CreateThread(w) =>
      s.ctl.Growing? && s.ctl.threads > 0 && s.ctl.counted && Fresh(s, w)
      && s' == s.(workers := s.workers[w := Starting], ctl := Growing(s.ctl.threads - 1, false), grown := s.grown + 1)
    case CountThread =>
      s.ctl.Growing? && !s.ctl.counted && s' == s.(count := s.count + 1, ctl := s.ctl.(counted := true))
    case Grown =>
      s.ctl == Growing(0, true) && s' == s.(ctl := Idle)
    case QueueShrink =>
      s.ctl.Shrinking? && s.ctl.left > 0 && !s.ctl.queued && Enqueues(s.q, s'.q, DeleteTask)
      && s' == s.(q := s'.q, ctl := s.ctl.(queued := true))
    case CountShrink =>
      s.ctl.Shrinking? && s.ctl.left > 0 && s.ctl.queued
      && s' == s.(count := s.count - 1, shrunk := s.shrunk + 1, ctl := Shrinking(s.ctl.left - 1, false))
    case Shrunk =>
      s.ctl == Shrinking(0, false) && s' == s.(ctl := Idle)
    case _ => false
  }

  /** Pause, Resume and Stop. */
  ghost predicate GateNext(s: Pool, a: Action, s': Pool)
  {
    match a
    case Pause =>
      s.ctl.Idle? && s' == s.(paused := true, ctl := Pausing(0, false))
    case PauseCheck =>
      s.ctl.Pausing? && !s.ctl.granted
      && s' == s.(ctl := if s.ctl.i < s.count then s.ctl.(granted := true) else Idle)
    case QueuePause =>
      s.ctl.Pausing? && s.ctl.granted && Enqueues(s.q, s'.q, PauseTask)
      && s' == s.(q := s'.q, ctl := Pausing(s.ctl.i + 1, false))
    case Resume =>
      s.ctl.Idle? && s' == s.(paused := false, ctl := Resuming)
    case NotifyResumed =>
      s.ctl.Resuming? && s' == s.(workers := NotifyHeld(s.workers), ctl := Idle)
    case Stop =>
      s.ctl.Idle? && s.mutex.Free?
      && s' == s.(mutex := Controller, workers := NotifyHeld(s.workers), ctl := Stopping(0),
                  stops := s.stops + 1, grown := 0)
    case QueueStop =>
      s.ctl.Stopping? && s.ctl.i < s.count && Enqueues(s.q, s'.q, DeleteTask)
      && s' == s.(q := s'.q, ctl := Stopping(s.ctl.i + 1))
    case StopQueued =>
      s.ctl.Stopping? && s.ctl.i >= s.count && s' == s.(mutex := Free, ctl := StopWaiting)
    case StopReturns =>
      s.ctl.StopWaiting? && s' == s.(ctl := Idle)
    case _ => false
  }

  /** Submission, the worker loop, and the two control tasks. */
  ghost predicate WorkerNext(s: Pool, a: Action, s': Pool)
  {
    match a
    case AddTask(t) =>
      t.UserTask? && Enqueues(s.q, s'.q, t) && s' == s.(q := s'.q)
    case Register(w) =>
      w in s.workers && s.workers[w] == Starting && s.mutex.Free?
      && s' == s.(workers := s.workers[w := Looping], registry := s.registry + {w})
    case WaitForTask(w) =>
      w in s.workers && s.workers[w] == Looping && Waits(s.q, s'.q, w) && s' == s.(q := s'.q)
    case Stir(w) =>
      w in s.workers && s.workers[w] == Looping && Stirs(s.q, s'.q, w) && s' == s.(q := s'.q)
    case Take(w, t) =>
      w in s.workers && s.workers[w] == Looping && Takes(s.q, s'.q, w, t)
      && s' == s.(q := s'.q, workers := s.workers[w := Running(t)])
    case Finish(w) =>
      w in s.workers && s.workers[w].Running? && s.workers[w].task.UserTask?
      && s' == s.(workers := s.workers[w := Looping])
    case EnterPause(w) =>
      w in s.workers && s.workers[w] == Running(PauseTask) && s.mutex.Free?
      && s' == if s.paused then s.(workers := s.workers[w := Checking], mutex := Worker(w))
               else s.(workers := s.workers[w := Looping])
    case Block(w) =>
      w in s.workers && s.workers[w] == Checking
      && s' == s.(workers := s.workers[w := Held(false)], mutex := Free)
    case WakeHeld(w) =>
      w in s.workers && s.workers[w] == Held(false)
      && s' == s.(workers := s.workers[w := Held(true)])
    case LeavePause(w) =>
      w in s.workers && s.workers[w] == Held(true) && s.mutex.Free?
      && s' == if s.paused then s.(workers := s.workers[w := Checking], mutex := Worker(w))
               else s.(workers := s.workers[w := Looping])
    case Kill(w) =>
      w in s.workers && s.workers[w] == Running(DeleteTask) && s.mutex.Free?
      && s' == s.(workers := s.workers - {w}, registry := s.registry - {w}, dead := s.dead + {w}, count := s.count - 1)
    case _ => false
  }

  ghost predicate Next(s: Pool, a: Action, s': Pool)
  {
    ResizeNext(s, a, s') || GateNext(s, a, s') || WorkerNext(s, a, s')
  }

  /** A run: acts[k] leads from states[k] to states[k + 1]. */
  ghost predicate IsExecution(states: seq<Pool>, acts: seq<Action>)
  {
    && |states| == |acts| + 1
    && forall k :: 0 <= k < |acts| ==> Next(states[k], acts[k], states[k + 1])
  }

  ghost predicate IsRunBy(ok: Action -> bool, states: seq<Pool>, acts: seq<Action>)
  {
    IsExecution(states, acts) && forall k :: 0 <= k < |acts| ==> ok(acts[k])
  }

  /** The machine can go from s to s' by actions that ok allows. */
  ghost predicate LeadsBy(ok: Action -> bool, s: Pool, s': Pool)
  {
    exists states, acts :: IsRunBy(ok, states, acts) && states[0] == s && states[|acts|] == s'
  }

  lemma Stays(ok: Action -> bool, s: Pool)
    ensures LeadsBy(ok, s, s)
  {
    assert IsRunBy(ok, [s], []) && [s][0] == s;
  }

  lemma LeadsOn(ok: Action -> bool, s: Pool, s1: Pool, a: Action, s2: Pool)
    requires LeadsBy(ok, s, s1) && Next(s1, a, s2) && ok(a)
    ensures LeadsBy(ok, s, s2)
  {
    hide Next;
    var states, acts :| IsRunBy(ok, states, acts) && states[0] == s && states[|acts|] == s1;
    var states', acts' := states + [s2], acts + [a];
    assert IsRunBy(ok, states', acts') && states'[0] == s && states'[|acts'|] == s2;
  }

  // ---- Counting workers ----

  ghost function Having(workers: map<Tid, Phase>, f: Phase -> bool): set<Tid>
  {
    set w | w in workers && f(workers[w])
  }

  ghost function Count(workers: map<Tid, Phase>, f: Phase -> bool): nat
  {
    |Having(workers, f)|
  }

  ghost function One(b: bool): nat
  {
    if b then 1 else 0
  }

  lemma CountAdded(workers: map<Tid, Phase>, w: Tid, p: Phase, f: Phase -> bool)
    requires w !in workers
    ensures Count(workers[w := p], f) == Count(workers, f) + One(f(p))
    ensures |workers[w := p]| == |workers| + 1
  {
    var old', new' := Having(workers, f), Having(workers[w := p], f);
    assert new' - {w} == old' && w !in old';
    assert workers[w := p].Keys == workers.Keys + {w};
  }

  lemma CountRemoved(workers: map<Tid, Phase>, w: Tid, f: Phase -> bool)
    requires w in workers
    ensures Count(workers - {w}, f) == Count(workers, f) - One(f(workers[w]))
    ensures |workers - {w}| == |workers| - 1
  {
    assert Having(workers - {w}, f) == Having(workers, f) - {w};
    assert (workers - {w}).Keys == workers.Keys - {w};
  }

  lemma CountMoved(workers: map<Tid, Phase>, w: Tid, p: Phase, f: Phase -> bool)
    requires w in workers
    ensures Count(workers[w := p], f) == Count(workers, f) - One(f(workers[w])) + One(f(p))
    ensures |workers[w := p]| == |workers|
  {
    CountRemoved(workers, w, f);
    assert (workers - {w})[w := p] == workers[w := p];
    CountAdded(workers - {w}, w, p, f);
  }

  lemma CountNotified(workers: map<Tid, Phase>, f: Phase -> bool)
    requires f(Held(false)) == f(Held(true))
    ensures Count(NotifyHeld(workers), f) == Count(workers, f)
    ensures |NotifyHeld(workers)| == |workers|
  {
    assert Having(NotifyHeld(workers), f) == Having(workers, f);
    assert |NotifyHeld(workers).Keys| == |workers.Keys|;
  }

  lemma CountAtMost(workers: map<Tid, Phase>, f: Phase -> bool)
    ensures Count(workers, f) <= |workers|
    ensures Count(workers, f) == |workers| ==> forall w :: w in workers ==> f(workers[w])
  {
    var h := Having(workers, f);
    assert h <= workers.Keys;
    Sets.SubsetSize(h, workers.Keys);
  }
}

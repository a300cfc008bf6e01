/** The tasks of the pool and the blocking priority queue they wait in. */
module WaitableQueue {
  import opened Options

  datatype Priority = LOW | MEDIUM | HIGH

  datatype Task = UserTask(id: nat, priority: Priority) | PauseTask | DeleteTask

  function GetPriority(t: Task): (p: nat)
  {
    match t
    case UserTask(_, LOW) => 0
    case UserTask(_, MEDIUM) => 1
    case UserTask(_, HIGH) => 2
    case PauseTask => 4
    case DeleteTask => 5
  }

  /** CompareFunctor: lhs ranks below rhs. */
  predicate Compare(lhs: Task, rhs: Task)
  {
    GetPriority(lhs) > GetPriority(rhs)
  }

  /** What std::priority_queue promises of top(): some element that ranks below
      no other.  Ties are broken arbitrarily. */
  predicate IsTop(items: multiset<Task>, t: Task)
  {
    t in items && forall u :: u in items ==> !Compare(t, u)
  }

  /** By name: LOW tasks leave before MEDIUM ones, these before HIGH ones, any
      user task before a PauseTask and everything before a DeleteTask. */
  lemma TopByName(items: multiset<Task>, t: Task)
    ensures IsTop(items, t) <==> t in items && forall u :: u in items ==>
              && (t.UserTask? && t.priority == MEDIUM && u.UserTask? ==> u.priority != LOW)
              && (t.UserTask? && t.priority == HIGH && u.UserTask? ==> u.priority == HIGH)
              && (t == PauseTask ==> !u.UserTask?)
              && (t == DeleteTask ==> u == DeleteTask)
  {
  }

  lemma {:induction false} TopExists(items: multiset<Task>) returns (t: Task)
    requires items != multiset{}
    ensures IsTop(items, t)
    decreases |items|
  {
    var u :| u in items;
    var rest := items - multiset{u};
    if rest == multiset{} {
      assert items == multiset{u};
      t := u;
    } else {
      t := TopExists(rest);
      assert forall v :: v in items ==> v == u || v in rest;
      if Compare(t, u) {
        t := u;
      }
    }
  }

  // ---- The queue shared by any number of threads ----

  type Tid = nat

  /** items is m_pq; sleeping are the threads inside m_cv.wait that nobody has
      notified, woken those notified that have not re-checked the queue.
      enqueued and delivered record the past. */
  datatype Queue = Queue(
    items: multiset<Task>,
    sleeping: set<Tid>,
    woken: set<Tid>,
    enqueued: multiset<Task>,
    delivered: seq<Task>)

  const EMPTY: Queue := Queue(multiset{}, {}, {}, multiset{}, [])

  /** Enqueue: push, then notify_one wakes some sleeper if there is one. */
  ghost predicate Enqueues(q: Queue, q': Queue, t: Task)
  {
    && q'.items == q.items + multiset{t}
    && q'.enqueued == q.enqueued + multiset{t}
    && q'.delivered == q.delivered
    && ((q.sleeping == {} && q'.sleeping == {} && q'.woken == q.woken)
        || exists w :: w in q.sleeping && Wakes(q, q', w))
  }

  ghost predicate Wakes(q: Queue, q': Queue, w: Tid)
  {
    q'.sleeping == q.sleeping - {w} && q'.woken == q.woken + {w}
  }

  /** Dequeue finds the queue empty, on arrival or after a wakeup, and waits. */
  ghost predicate Waits(q: Queue, q': Queue, w: Tid)
  {
    && q.items == multiset{} && w !in q.sleeping
    && q' == q.(sleeping := q.sleeping + {w}, woken := q.woken - {w})
  }

  /** Dequeue finds an item, on arrival or after a wakeup, and takes the top. */
  ghost predicate Takes(q: Queue, q': Queue, w: Tid, t: Task)
  {
    && w !in q.sleeping && IsTop(q.items, t)
    && q' == q.(items := q.items - multiset{t}, woken := q.woken - {w}, delivered := q.delivered + [t])
  }

  /** A spurious wakeup. */
  ghost predicate Stirs(q: Queue, q': Queue, w: Tid)
  {
    && w in q.sleeping
    && q' == q.(sleeping := q.sleeping - {w}, woken := q.woken + {w})
  }

  ghost predicate Moves(q: Queue, q': Queue)
  {
    || (exists t :: Enqueues(q, q', t))
    || (exists w :: Waits(q, q', w))
    || (exists w, t :: Takes(q, q', w, t))
    || (exists w :: Stirs(q, q', w))
  }

  /** Whoever sleeps un-notified, there are at least as many threads on their
      way to the queue as items in it. */
  ghost predicate NoLostWakeup(q: Queue)
  {
    q.sleeping != {} ==> |q.woken| >= |q.items|
  }

  ghost predicate Sound(q: Queue)
  {
    && q.sleeping !! q.woken
    && NoLostWakeup(q)
    && q.enqueued == q.items + multiset(q.delivered)
  }

  lemma EnqueueKeepsSound(q: Queue, q': Queue, t: Task)
    requires Sound(q) && Enqueues(q, q', t)
    ensures Sound(q') && q'.sleeping + q'.woken == q.sleeping + q.woken
  {
  }

  lemma WaitKeepsSound(q: Queue, q': Queue, w: Tid)
    requires Sound(q) && Waits(q, q', w)
    ensures Sound(q')
  {
  }

  lemma StirKeepsSound(q: Queue, q': Queue, w: Tid)
    requires Sound(q) && Stirs(q, q', w)
    ensures Sound(q')
  {
    assert |q'.woken| == |q.woken| + 1;
  }

  lemma TakeKeepsSound(q: Queue, q': Queue, w: Tid, t: Task)
    requires Sound(q) && Takes(q, q', w, t)
    ensures Sound(q')
  {
    assert |q'.woken| >= |q.woken| - 1;
    assert multiset(q'.delivered) == multiset(q.delivered) + multiset{t};
  }

  lemma MoveKeepsSound(q: Queue, q': Queue)
    requires Sound(q) && Moves(q, q')
    ensures Sound(q')
  {
    hide Sound, Enqueues, Waits, Takes, Stirs;
    if t :| Enqueues(q, q', t) {
      EnqueueKeepsSound(q, q', t);
    } else if w :| Waits(q, q', w) {
      WaitKeepsSound(q, q', w);
    } else if w, t :| Takes(q, q', w, t) {
      TakeKeepsSound(q, q', w, t);
    } else {
      var w :| Stirs(q, q', w);
      StirKeepsSound(q, q', w);
    }
  }

  ghost predicate IsRun(run: seq<Queue>)
  {
    && run != []
    && forall k :: 0 <= k < |run| - 1 ==> Moves(run[k], run[k + 1])
  }

  /** Every reachable state of any number of producers and consumers. */
  lemma {:induction false} RunsAreSound(run: seq<Queue>)
    requires IsRun(run) && run[0] == EMPTY
    ensures forall k :: 0 <= k < |run| ==> Sound(run[k])
  {
    var n := 1;
    assert Sound(EMPTY);
    while n < |run|
      invariant 1 <= n <= |run|
      invariant forall k :: 0 <= k < n ==> Sound(run[k])
    {
      MoveKeepsSound(run[n - 1], run[n]);
      n := n + 1;
    }
  }

  // ---- Drain order ----

  /** Taking a task of a given rank means every task of a smaller number that
      was ever enqueued has been delivered, as often as it was enqueued. */
  lemma TakenLast(q: Queue, q': Queue, w: Tid, t: Task, u: Task)
    requires Sound(q) && Takes(q, q', w, t)
    requires GetPriority(u) < GetPriority(t)
    ensures q.enqueued[u] == multiset(q.delivered)[u]
  {
    assert u !in q.items;
  }

  /** By name. */
  lemma TakenAfter(q: Queue, q': Queue, w: Tid, t: Task, u: Task)
    requires Sound(q) && Takes(q, q', w, t)
    requires || (t.UserTask? && t.priority == MEDIUM && u.UserTask? && u.priority == LOW)
             || (t.UserTask? && t.priority == HIGH && u.UserTask? && u.priority != HIGH)
             || (t == PauseTask && u.UserTask?)
             || (t == DeleteTask && u != DeleteTask)
    ensures q.enqueued[u] == multiset(q.delivered)[u]
  {
    TakenLast(q, q', w, t, u);
  }

  ghost predicate Ascending(ts: seq<Task>)
  {
    forall i, j :: 0 <= i < j < |ts| ==> GetPriority(ts[i]) <= GetPriority(ts[j])
  }

  /** By name: after a task of some kind, none of a kind that leaves earlier. */
  lemma AscendingByName(ts: seq<Task>)
    ensures Ascending(ts) <==> forall i, j :: 0 <= i < j < |ts| ==>
              && (ts[i].UserTask? && ts[i].priority == MEDIUM && ts[j].UserTask? ==> ts[j].priority != LOW)
              && (ts[i].UserTask? && ts[i].priority == HIGH && ts[j].UserTask? ==> ts[j].priority == HIGH)
              && (ts[i] == PauseTask ==> !ts[j].UserTask?)
              && (ts[i] == DeleteTask ==> ts[j] == DeleteTask)
  {
  }

  lemma MoveWithoutEnqueue(q: Queue, q': Queue) returns (out: seq<Task>)
    requires Moves(q, q') && q'.enqueued == q.enqueued
    ensures |out| <= 1 && (forall t :: t in out ==> IsTop(q.items, t))
    ensures q.items == q'.items + multiset(out) && q'.delivered == q.delivered + out
  {
    out := [];
    if w, t :| Takes(q, q', w, t) {
      out := [t];
      assert multiset(out) == multiset{t};
    } else {
      forall t ensures !Enqueues(q, q', t) {
        EnqueueIsRecorded(q, q', t);
      }
    }
  }

  lemma EnqueueIsRecorded(q: Queue, q': Queue, t: Task)
    ensures Enqueues(q, q', t) ==> q'.enqueued[t] > q.enqueued[t]
  {
  }

  ghost predicate Outranked(ts: seq<Task>, items: multiset<Task>)
  {
    forall i, u :: 0 <= i < |ts| && u in items ==> !Compare(ts[i], u)
  }

  lemma DeliverNext(earlier: seq<Task>, out: seq<Task>, items: multiset<Task>, items': multiset<Task>)
    requires Ascending(earlier) && Outranked(earlier, items)
    requires |out| <= 1 && (forall t :: t in out ==> IsTop(items, t))
    requires items == items' + multiset(out)
    ensures Ascending(earlier + out) && Outranked(earlier + out, items')
  {
    if out == [] {
      assert earlier + out == earlier;
    } else {
      var t := out[0];
      assert t in out && IsTop(items, t);
      assert forall u :: u in items' ==> u in items;
    }
  }

  /** A run in which the queue may also stand still. */
  ghost predicate IsTrace(run: seq<Queue>)
  {
    && run != []
    && forall k :: 0 <= k < |run| - 1 ==> run[k + 1] == run[k] || Moves(run[k], run[k + 1])
  }

  /** While nothing is enqueued, tasks leave in non-decreasing rank, and none
      left behind should have left before one that was taken. */
  lemma {:induction false} DrainAscends(run: seq<Queue>) returns (taken: seq<Task>)
    requires IsTrace(run)
    requires forall k :: 0 <= k < |run| ==> run[k].enqueued == run[0].enqueued
    ensures run[|run| - 1].delivered == run[0].delivered + taken
    ensures run[0].items == run[|run| - 1].items + multiset(taken)
    ensures Ascending(taken) && Outranked(taken, run[|run| - 1].items)
    decreases |run|
  {
    hide Moves, Ascending, Outranked, IsTop;
    if |run| == 1 {
      taken := NothingTaken(run[0].items);
    } else {
      var n := |run| - 1;
      taken := DrainAscends(run[..n]);
      if run[n] != run[n - 1] {
        assert Moves(run[n - 1], run[n - 1 + 1]);
        var out := MoveWithoutEnqueue(run[n - 1], run[n]);
        DeliverNext(taken, out, run[n - 1].items, run[n].items);
        assert run[0].delivered + taken + out == run[0].delivered + (taken + out);
        taken := taken + out;
      }
    }
  }

  lemma NothingTaken(items: multiset<Task>) returns (taken: seq<Task>)
    ensures taken == [] && Ascending(taken) && Outranked(taken, items)
  {
    taken := [];
  }

  // ---- The class: what each critical section does ----

  class WaitableQueue {
    var m_pq: multiset<Task>
    var asleep: set<Tid>
    var notified: set<Tid>
    ghost var enqueued: multiset<Task>
    ghost var delivered: seq<Task>

    ghost function State(): (q: Queue)
      reads this
    {
      Queue(m_pq, asleep, notified, enqueued, delivered)
    }

    constructor ()
      ensures State() == EMPTY
    {
      m_pq, asleep, notified, enqueued, delivered := multiset{}, {}, {}, multiset{}, [];
    }

    predicate IsEmpty()
      reads this
    {
      m_pq == multiset{}
    }

    method Enqueue(data: Task) returns (ok: bool)
      modifies this
      ensures ok && Enqueues(old(State()), State(), data)
      ensures m_pq == old(m_pq) + multiset{data}
      ensures if old(asleep) == {} then asleep == {} && notified == old(notified)
              else exists w :: w in old(asleep) && asleep == old(asleep) - {w} && notified == old(notified) + {w}
    {
      m_pq := m_pq + multiset{data};
      enqueued := enqueued + multiset{data};
      ghost var q := old(State());
      if asleep != {} {
        var w :| w in asleep;
        asleep, notified := asleep - {w}, notified + {w};
        assert Wakes(q, State(), w);
      }
      return true;
    }

    /** One pass of the loop in Dequeue by thread w, from acquiring the mutex
        to waiting or returning. */
    method DequeuePass(w: Tid) returns (r: Option<Task>)
      requires w !in asleep
      modifies this
      ensures r.None? ==> Waits(old(State()), State(), w)
      ensures r.Some? ==> Takes(old(State()), State(), w, r.value)
      ensures r.None? <==> old(m_pq) == multiset{}
      ensures r.None? ==> m_pq == old(m_pq) && asleep == old(asleep) + {w} && notified == old(notified) - {w}
      ensures r.Some? ==> m_pq == old(m_pq) - multiset{r.value} && asleep == old(asleep) && notified == old(notified) - {w}
      ensures r.Some? ==> r.value in old(m_pq) && forall u :: u in old(m_pq) ==>
                && (r.value.UserTask? && r.value.priority == MEDIUM && u.UserTask? ==> u.priority != LOW)
                && (r.value.UserTask? && r.value.priority == HIGH && u.UserTask? ==> u.priority == HIGH)
                && (r.value == PauseTask ==> !u.UserTask?)
                && (r.value == DeleteTask ==> u == DeleteTask)
    {
      if IsEmpty() {
        asleep, notified := asleep + {w}, notified - {w};
        return None;
      }
      ghost var top := TopExists(m_pq);
      var t :| t in m_pq && forall u :: u in m_pq ==> !Compare(t, u);
      TopByName(m_pq, t);
      m_pq, notified := m_pq - multiset{t}, notified - {w};
      delivered := delivered + [t];
      return Some(t);
    }
  }
}

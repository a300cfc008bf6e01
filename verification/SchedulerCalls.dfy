/** The scheduler as its callers see it: deadlines counted from the clock
    reading at the start of each call of Add. */
module SchedulerCalls {
  import opened Options
  import opened Scheduler

  datatype Act =
    | Call(task: nat, milli: int, r: Readings)
    | Fire(e: Entry, start: int, read: int, arm: int)

  ghost predicate Does(s: State, a: Act, s': State)
  {
    match a
    case Call(task, milli, r) => Adds(s, s', task, milli, r)
    case Fire(e, start, read, arm) => Cycles(s, s', e, start, read, arm)
  }

  /** acts[k] leads from run[k] to run[k + 1]; every Add makes its own task. */
  ghost predicate IsHistory(run: seq<State>, acts: seq<Act>)
  {
    && |run| == |acts| + 1 && Fresh(run[0])
    && (forall k :: 0 <= k < |acts| ==> Does(run[k], acts[k], run[k + 1]))
    && (forall i, j :: 0 <= i < j < |acts| && acts[i].Call? && acts[j].Call? ==> acts[i].task != acts[j].task)
  }

  /** No Add arms over an expiry whose Cycle has not begun. */
  ghost predicate Undoubled(run: seq<State>, acts: seq<Act>)
    requires |run| == |acts| + 1
  {
    forall k :: 0 <= k < |acts| && acts[k].Call? ==> !Doubles(run[k], acts[k].milli, acts[k].r)
  }

  /** Call i has been made and its task not been notified before step j. */
  predicate Waiting(acts: seq<Act>, i: nat, j: nat)
    requires j <= |acts|
  {
    && i < j && acts[i].Call?
    && forall k :: i < k < j && acts[k].Fire? ==> acts[k].e.task != acts[i].task
  }

  lemma StepOnPending(s: State, a: Act, s': State)
    requires Does(s, a, s')
    ensures a.Call? ==> s'.pending == s.pending + multiset{Entry(a.task, a.r.stamp + a.milli * MILLI)}
    ensures a.Fire? ==> a.e in s.pending && s'.pending == s.pending - multiset{a.e}
  {
    hide Ticked, Delay, Rearms;
  }

  /** Whatever waits under a call's task waits for the deadline of that call. */
  lemma {:induction false} PendingAsCalled(run: seq<State>, acts: seq<Act>, i: nat, j: nat, e: Entry)
    requires IsHistory(run, acts) && i < |acts| && acts[i].Call? && j <= |acts|
    requires e in run[j].pending && e.task == acts[i].task
    ensures i < j && e.deadline == acts[i].r.stamp + acts[i].milli * MILLI
  {
    hide Does, Adds, Cycles;
    if j > 0 {
      StepOnPending(run[j - 1], acts[j - 1], run[j - 1 + 1]);
      if e in run[j - 1].pending {
        PendingAsCalled(run, acts, i, j - 1, e);
      }
    }
  }

  lemma {:induction false} WaitingIsPending(run: seq<State>, acts: seq<Act>, i: nat, j: nat)
    requires IsHistory(run, acts) && j <= |acts| && Waiting(acts, i, j)
    ensures Entry(acts[i].task, acts[i].r.stamp + acts[i].milli * MILLI) in run[j].pending
  {
    hide Does, Adds, Cycles;
    StepOnPending(run[j - 1], acts[j - 1], run[j - 1 + 1]);
    if i < j - 1 {
      WaitingIsPending(run, acts, i, j - 1);
    }
  }

  lemma UndoubledIsSteady(run: seq<State>, acts: seq<Act>)
    requires IsHistory(run, acts) && Undoubled(run, acts)
    ensures IsSteady(run)
  {
    hide Adds, Cycles, Doubles;
    forall k | 0 <= k < |run| - 1 ensures Steady(run[k], run[k + 1]) {
      assert Does(run[k], acts[k], run[k + 1]);
    }
  }

  /** No task is notified a millisecond or more before its call's delay is over. */
  lemma NotifiedAsCalled(run: seq<State>, acts: seq<Act>, i: nat, j: nat)
    requires IsHistory(run, acts) && Undoubled(run, acts)
    requires i < |acts| && acts[i].Call? && j < |acts| && acts[j].Fire? && acts[j].e.task == acts[i].task
    ensures i < j
    ensures acts[j].start > acts[i].r.stamp + acts[i].milli * 1_000_000 - 1_000_000
  {
    hide Adds, Undoubled, Steady;
    UndoubledIsSteady(run, acts);
    assert Does(run[j], acts[j], run[j + 1]);
    PendingAsCalled(run, acts, i, j, acts[j].e);
    NothingIsNotifiedEarly(run, j, acts[j].start);
  }

  /** Among the calls waiting, whoever is due first by the clock at its call is
      notified first, however the timer went. */
  lemma SoonestCallFirst(run: seq<State>, acts: seq<Act>, i: nat, other: nat, j: nat)
    requires IsHistory(run, acts)
    requires i < |acts| && acts[i].Call? && j < |acts| && acts[j].Fire? && acts[j].e.task == acts[i].task
    requires Waiting(acts, other, j)
    ensures acts[i].r.stamp + acts[i].milli * 1_000_000 <= acts[other].r.stamp + acts[other].milli * 1_000_000
  {
    hide Adds, Ticked;
    assert Does(run[j], acts[j], run[j + 1]);
    PendingAsCalled(run, acts, i, j, acts[j].e);
    WaitingIsPending(run, acts, other, j);
  }

  /** Every Add finds the timer disarmed or with between a millisecond and a
      second left, and no step dawdles for more than span nanoseconds. */
  ghost predicate IsBrisk(run: seq<State>, acts: seq<Act>, span: nat)
    requires |run| == |acts| + 1
  {
    forall k :: 0 <= k < |acts| ==>
      match acts[k]
      case Call(task, milli, r) => BriskAdd(run[k], run[k + 1], task, milli, r, span)
      case Fire(_, _, read, arm) => arm - read <= span
  }

  /** Then the timer is never late for a waiting call. */
  lemma PunctualAsCalled(run: seq<State>, acts: seq<Act>, span: nat, i: nat, j: nat)
    requires IsHistory(run, acts) && IsBrisk(run, acts, span) && span <= 1_000_000
    requires j <= |acts| && Waiting(acts, i, j)
    ensures run[j].expiry.Some?
    ensures || run[j].expiry.value < acts[i].r.stamp + acts[i].milli * 1_000_000 + 1_000_000 + span
            || run[j].expiry.value < run[j].clock + 1 + 1_000_000 + span
  {
    hide Adds, Cycles, BriskAdd;
    WaitingIsPending(run, acts, i, j);
    forall k | 0 <= k < j ensures Brisk(run[k], run[k + 1], span) {
      assert Does(run[k], acts[k], run[k + 1]);
    }
    BriskRunsArePunctual(run, span, j);
  }
}

/** The deadline scheduler and its one-shot timer.  Points in time and
    durations are nanoseconds; a clock reading is a parameter. */
module Scheduler {
  import opened Options

  const MILLI: int := 1_000_000
  const SECOND: int := 1_000_000_000

  // ---- Timer arithmetic ----

  datatype TimeSpec = TimeSpec(tv_sec: int, tv_nsec: int)

  function Nanos(t: TimeSpec): (ns: int)
  {
    t.tv_sec * SECOND + t.tv_nsec
  }

  function Split(ns: nat): (t: TimeSpec)
    ensures Nanos(t) == ns && 0 <= t.tv_nsec < SECOND
  {
    TimeSpec(ns / SECOND, ns % SECOND)
  }

  function Max(a: int, b: int): (m: int)
  {
    if a < b then b else a
  }

  /** How long after arming with ms milliseconds the timer expires. */
  function Delay(ms: int): (ns: int)
    ensures ns >= 1 && ns >= ms * MILLI
  {
    if ms > 0 then ms * MILLI else 1
  }

  /** What CheckDeadline makes of a remaining time: whole milliseconds of the
      fraction plus whole seconds, unscaled. */
  function Deadline(left: nat): (ms: nat)
  {
    (left % SECOND) / MILLI + left / SECOND
  }

  /** duration_cast to milliseconds truncates toward zero. */
  function Truncated(ns: int): (ms: int)
    ensures ns >= 0 ==> ms * MILLI <= ns < (ms + 1) * MILLI
    ensures ns <= 0 ==> (ms - 1) * MILLI < ns <= ms * MILLI
  {
    if ns >= 0 then ns / MILLI else -(-ns / MILLI)
  }

  lemma DeadlineError(left: nat)
    ensures Deadline(left) == left / MILLI - 999 * (left / SECOND)
  {
    var s, n := left / SECOND, left % SECOND;
    assert left == MILLI * (1000 * s) + n;
    assert left / MILLI == 1000 * s + n / MILLI;
  }

  /** CheckDeadline never exceeds the whole milliseconds left, reports exactly
      those if and only if less than a second is left, and reports 0 if and
      only if less than a millisecond is. */
  lemma DeadlineBounds(left: nat)
    ensures Deadline(left) * MILLI <= left
    ensures Deadline(left) == left / MILLI <==> left < SECOND
    ensures Deadline(left) == 0 <==> left < MILLI
  {
    DeadlineError(left);
  }

  // ---- The scheduler's states and steps ----

  datatype Entry = Entry(task: nat, deadline: int)

  /** pending is m_pq, expiry the point at which the armed timer fires, owed the
      number of expiries whose Cycle has not begun; added and notified record
      the past, clock the latest reading. */
  datatype State = State(
    pending: multiset<Entry>,
    expiry: Option<int>,
    owed: nat,
    clock: int,
    added: multiset<Entry>,
    notified: multiset<Entry>)

  /** ComperFunc ranks the later deadline lower; ties are broken arbitrarily. */
  predicate Earliest(pending: multiset<Entry>, e: Entry)
  {
    e in pending && forall f :: f in pending ==> e.deadline <= f.deadline
  }

  lemma {:induction false} EarliestExists(pending: multiset<Entry>) returns (e: Entry)
    requires pending != multiset{}
    ensures Earliest(pending, e)
    decreases |pending|
  {
    var u :| u in pending;
    var rest := pending - multiset{u};
    if rest == multiset{} {
      assert pending == multiset{u};
      e := u;
    } else {
      e := EarliestExists(rest);
      assert forall v :: v in pending ==> v == u || v in rest;
      if u.deadline < e.deadline {
        e := u;
      }
    }
  }

  function Remaining(expiry: Option<int>, now: int): (left: nat)
  {
    if expiry.Some? && now < expiry.value then expiry.value - now else 0
  }

  predicate Due(expiry: Option<int>, now: int)
  {
    expiry.Some? && expiry.value <= now
  }

  /** The timer as the clock reaches now: it fires once. */
  function Ticked(s: State, now: int): (s': State)
  {
    if Due(s.expiry, now) then s.(expiry := None, owed := s.owed + 1) else s
  }

  /** The clock readings of one Add: the time stamp, the two looks at the
      timer, and the arming. */
  datatype Readings = Readings(stamp: int, check: int, recheck: int, arm: int)

  predicate Ordered(r: Readings)
  {
    r.stamp <= r.check <= r.recheck <= r.arm
  }

  predicate Rearms(expiry: Option<int>, milli: int, r: Readings)
  {
    Deadline(Remaining(expiry, r.check)) > milli || Deadline(Remaining(expiry, r.recheck)) == 0
  }

  ghost predicate Adds(s: State, s': State, task: nat, milli: int, r: Readings)
  {
    var e := Entry(task, r.stamp + milli * MILLI);
    && s.clock <= r.stamp && Ordered(r)
    && s'.pending == s.pending + multiset{e}
    && s'.added == s.added + multiset{e} && s'.notified == s.notified
    && if Rearms(s.expiry, milli, r)
       then s'.expiry == Some(r.arm + Delay(milli)) && s'.owed == Ticked(s, r.arm).owed && s'.clock == r.arm
       else s'.expiry == s.expiry && s'.owed == s.owed && s'.clock == r.recheck
  }

  /** Add arms the timer anew over an expiry whose Cycle has not begun. */
  predicate Doubles(s: State, milli: int, r: Readings)
  {
    Rearms(s.expiry, milli, r) && Ticked(s, r.arm).owed > 0
  }

  /** Cycle begins at start for an expiry, reads the clock for the next task,
      and arms. */
  ghost predicate Cycles(s: State, s': State, e: Entry, start: int, read: int, arm: int)
  {
    && s.clock <= start <= read <= arm
    && Ticked(s, start).owed > 0
    && Earliest(s.pending, e)
    && ArmsNext(Begun(s, e, start), s', read, arm)
  }

  /** One expiry is used up, one task notified. */
  function Begun(s: State, e: Entry, start: int): (s': State)
    requires Ticked(s, start).owed > 0
  {
    State(s.pending - multiset{e}, Ticked(s, start).expiry, Ticked(s, start).owed - 1, start,
          s.added, s.notified + multiset{e})
  }

  /** The timer is armed for a task of least deadline, if one is left. */
  ghost predicate ArmsNext(s: State, s': State, read: int, arm: int)
  {
    if s.pending == multiset{} then s' == s
    else
      && s'.pending == s.pending && s'.added == s.added && s'.notified == s.notified
      && s'.owed == Ticked(s, arm).owed && s'.clock == arm
      && exists next :: ArmedFor(s', next, read, arm)
  }

  /** A Cycle is on its way and no task waits for it: top() of an empty queue
      has no defined meaning. */
  predicate Starves(s: State)
  {
    s.pending == multiset{} && (s.owed > 0 || s.expiry.Some?)
  }

  ghost predicate ArmedFor(s: State, next: Entry, read: int, arm: int)
  {
    Earliest(s.pending, next) && s.expiry == Some(arm + Delay(Truncated(next.deadline - read)))
  }

  ghost predicate Steps(s: State, s': State)
  {
    || (exists task, milli, r :: Adds(s, s', task, milli, r))
    || (exists e, start, read, arm :: Cycles(s, s', e, start, read, arm))
  }

  ghost predicate IsRun(run: seq<State>)
  {
    run != [] && forall k :: 0 <= k < |run| - 1 ==> Steps(run[k], run[k + 1])
  }

  /** A step in which no Add doubles the timer. */
  ghost predicate Steady(s: State, s': State)
  {
    || (exists task, milli, r :: Adds(s, s', task, milli, r) && !Doubles(s, milli, r))
    || (exists e, start, read, arm :: Cycles(s, s', e, start, read, arm))
  }

  ghost predicate IsSteady(run: seq<State>)
  {
    run != [] && forall k :: 0 <= k < |run| - 1 ==> Steady(run[k], run[k + 1])
  }

  predicate Fresh(s: State)
  {
    s.pending == s.added == s.notified == multiset{} && s.expiry == None && s.owed == 0
  }

  // ---- The steps in numbers ----

  /** Add arms if the timer is not armed, if less than a millisecond is left at
      its second look, or if the sum it saw at its first look exceeds the delay;
      the new expiry counts from the reading at arming. */
  lemma AddInNumbers(s: State, s': State, task: nat, milli: int, r: Readings)
    requires Adds(s, s', task, milli, r)
    ensures s'.pending == s.pending + multiset{Entry(task, r.stamp + milli * 1_000_000)}
    ensures s'.expiry ==
      if s.expiry == None || s.expiry.value - r.recheck < 1_000_000
         || (s.expiry.value - r.check) % 1_000_000_000 / 1_000_000 + (s.expiry.value - r.check) / 1_000_000_000 > milli
      then Some(r.arm + if milli > 0 then milli * 1_000_000 else 1)
      else s.expiry
  {
    var left := Remaining(s.expiry, r.recheck);
    DeadlineBounds(left);
  }

  /** Cycle arms for a task of least deadline among those left, as long after
      arming as whole milliseconds remained when it read the clock, or for the
      next nanosecond. */
  lemma CycleInNumbers(s: State, s': State, e: Entry, start: int, read: int, arm: int) returns (next: Entry)
    requires Cycles(s, s', e, start, read, arm) && s'.pending != multiset{}
    ensures next in s'.pending && forall f :: f in s'.pending ==> next.deadline <= f.deadline
    ensures s'.expiry == Some(arm +
      if next.deadline - read >= 1_000_000 then (next.deadline - read) / 1_000_000 * 1_000_000 else 1)
  {
    next :| ArmedFor(s', next, read, arm);
    hide Ticked;
    var left := next.deadline - read;
    var ms := Truncated(left);
    assert ms > 0 <==> left >= 1_000_000;
  }

  // ---- Every run: nothing is forgotten ----

  /** Every added task is either waiting or notified, once; while one waits the
      timer is armed or a Cycle is on its way. */
  ghost predicate Attended(s: State)
  {
    && s.added == s.pending + s.notified
    && (s.pending != multiset{} ==> s.expiry.Some? || s.owed > 0)
  }

  lemma {:induction false} RunsForgetNothing(run: seq<State>, k: nat)
    requires IsRun(run) && Attended(run[0]) && k < |run|
    ensures Attended(run[k])
  {
    if k > 0 {
      RunsForgetNothing(run, k - 1);
      assert Steps(run[k - 1], run[k - 1 + 1]);
      StepKeepsAttended(run[k - 1], run[k]);
    }
  }

  lemma StepKeepsAttended(s: State, s': State)
    requires Attended(s) && Steps(s, s')
    ensures Attended(s')
  {
    hide Attended, Adds, Cycles;
    if task, milli, r :| Adds(s, s', task, milli, r) {
      AddKeepsAttended(s, s', task, milli, r);
    } else {
      var e, start, read, arm :| Cycles(s, s', e, start, read, arm);
      CycleKeepsAttended(s, s', e, start, read, arm);
    }
  }

  lemma AddKeepsAttended(s: State, s': State, task: nat, milli: int, r: Readings)
    requires Attended(s) && Adds(s, s', task, milli, r)
    ensures Attended(s')
  {
  }

  lemma CycleKeepsAttended(s: State, s': State, e: Entry, start: int, read: int, arm: int)
    requires Attended(s) && Cycles(s, s', e, start, read, arm)
    ensures Attended(s')
  {
    hide Ticked, Due;
  }

  // ---- Earliness, liveness, conservation ----

  /** Armed exactly when something waits, with no Cycle owed; every added task
      is either waiting or notified, once; the timer fires later than one
      millisecond before the earliest deadline. */
  ghost predicate WellArmed(s: State)
  {
    && s.owed == 0
    && (s.expiry.Some? <==> s.pending != multiset{})
    && s.added == s.pending + s.notified
    && forall e :: Earliest(s.pending, e) && s.expiry.Some? ==> s.expiry.value > e.deadline - MILLI
  }

  lemma AddKeepsArmed(s: State, s': State, task: nat, milli: int, r: Readings)
    requires WellArmed(s) && Adds(s, s', task, milli, r)
    ensures WellArmed(s') <==> !Doubles(s, milli, r)
  {
    var e := Entry(task, r.stamp + milli * MILLI);
    assert e in s'.pending;
    if Rearms(s.expiry, milli, r) {
      assert s'.expiry.value >= e.deadline;
    } else {
      var top := EarliestExists(s.pending);
      assert top in s'.pending;
    }
  }

  lemma CycleKeepsArmed(s: State, s': State, e: Entry, start: int, read: int, arm: int)
    requires WellArmed(s) && Cycles(s, s', e, start, read, arm)
    ensures WellArmed(s')
  {
    hide ArmsNext;
    BegunIsBare(s, e, start);
    hide WellArmed;
    NextIsArmed(Begun(s, e, start), s', read, arm);
  }

  lemma BegunIsBare(s: State, e: Entry, start: int)
    requires WellArmed(s) && Ticked(s, start).owed > 0 && e in s.pending
    ensures var b := Begun(s, e, start); b.added == b.pending + b.notified && b.owed == 0 && b.expiry == None
  {
  }

  lemma NextIsArmed(s: State, s': State, read: int, arm: int)
    requires s.added == s.pending + s.notified && s.owed == 0 && s.expiry == None
    requires ArmsNext(s, s', read, arm) && read <= arm
    ensures WellArmed(s')
  {
  }

  lemma StepKeepsArmed(s: State, s': State)
    requires WellArmed(s) && Steady(s, s')
    ensures WellArmed(s')
  {
    hide WellArmed, Adds, Cycles, Doubles;
    if task, milli, r :| Adds(s, s', task, milli, r) && !Doubles(s, milli, r) {
      AddKeepsArmed(s, s', task, milli, r);
    } else {
      var e, start, read, arm :| Cycles(s, s', e, start, read, arm);
      CycleKeepsArmed(s, s', e, start, read, arm);
    }
  }

  lemma {:induction false} RunsAreWellArmed(run: seq<State>, k: nat)
    requires IsSteady(run) && WellArmed(run[0]) && k < |run|
    ensures WellArmed(run[k])
  {
    hide WellArmed, Steady;
    if k > 0 {
      RunsAreWellArmed(run, k - 1);
      assert Steady(run[k - 1], run[k - 1 + 1]);
      StepKeepsArmed(run[k - 1], run[k]);
    }
  }

  /** In every steady run, each Cycle finds a task to notify, and no task is
      notified a full millisecond or more before its deadline. */
  lemma NothingIsNotifiedEarly(run: seq<State>, k: nat, start: int)
    requires IsSteady(run) && Fresh(run[0]) && k < |run|
    requires Ticked(run[k], start).owed > 0
    ensures exists e :: Earliest(run[k].pending, e)
    ensures forall e :: Earliest(run[k].pending, e) ==> start > e.deadline - MILLI
  {
    RunsAreWellArmed(run, k);
    var e := EarliestExists(run[k].pending);
  }

  // ---- Arming over an expiry ----

  /** However it goes on, steadily, no Cycle finds the queue empty. */
  ghost predicate Dependable(s: State)
  {
    forall run :: IsSteady(run) && run[0] == s ==> !Starves(run[|run| - 1])
  }

  /** More expiries than the next Cycle will use up. */
  predicate Surplus(s: State)
  {
    s.pending != multiset{} && s.owed + (if s.expiry.Some? then 1 else 0) >= 2
  }

  function WhenDue(s: State): (now: int)
    ensures now >= s.clock && Ticked(s, now).expiry == None
  {
    if s.expiry.Some? then Max(s.clock, s.expiry.value) else s.clock
  }

  /** A Cycle that begins at the expiry, or at once when none is ahead. */
  lemma LateCycle(s: State) returns (s': State, start: int)
    requires Surplus(s)
    ensures |s'.pending| == |s.pending| - 1
    ensures exists e :: Cycles(s, s', e, start, start, start)
    ensures Surplus(s') || Starves(s')
  {
    start := WhenDue(s);
    var e := EarliestExists(s.pending);
    s' := ArmedNext(Begun(s, e, start), start);
    assert |s.pending - multiset{e}| == |s.pending| - 1;
    assert Cycles(s, s', e, start, start, start);
  }

  /** The timer armed for a next task in no time. */
  lemma ArmedNext(s: State, now: int) returns (s': State)
    requires s.clock == now && s.expiry == None
    ensures ArmsNext(s, s', now, now)
    ensures s'.pending == s.pending && s'.owed == s.owed && (s'.expiry.Some? <==> s.pending != multiset{})
  {
    s' := s;
    if s.pending != multiset{} {
      var next := EarliestExists(s.pending);
      s' := s.(expiry := Some(now + Delay(Truncated(next.deadline - now))));
      assert ArmedFor(s', next, now, now);
    }
  }

  /** Cycles alone come to a state in which one more may begin and nothing waits. */
  lemma {:induction false} SurplusStarves(s: State) returns (run: seq<State>)
    requires Surplus(s)
    ensures IsSteady(run) && run[0] == s && Starves(run[|run| - 1])
    decreases |s.pending|
  {
    hide Surplus, Starves, Cycles;
    var s', start := LateCycle(s);
    assert Steady(s, s');
    if Starves(s') {
      run := [s, s'];
    } else {
      var rest := SurplusStarves(s');
      run := [s] + rest;
      forall k | 0 <= k < |run| - 1 ensures Steady(run[k], run[k + 1]) {
        assert k > 0 ==> Steady(rest[k - 1], rest[k - 1 + 1]);
      }
    }
  }

  lemma SteadyIsDependable(s: State)
    requires WellArmed(s)
    ensures Dependable(s)
  {
    forall run | IsSteady(run) && run[0] == s ensures !Starves(run[|run| - 1]) {
      RunsAreWellArmed(run, |run| - 1);
    }
  }

  lemma DoubledIsSurplus(s: State, s': State, task: nat, milli: int, r: Readings)
    requires Adds(s, s', task, milli, r) && Doubles(s, milli, r)
    ensures Surplus(s')
  {
    assert Entry(task, r.stamp + milli * MILLI) in s'.pending;
  }

  /** After an Add every later Cycle is certain to find a task if and only if
      the Add did not arm over an expiry still to be served. */
  lemma DependableExactlyWhen(s: State, s': State, task: nat, milli: int, r: Readings)
    requires WellArmed(s) && Adds(s, s', task, milli, r)
    ensures Dependable(s') <==> !Doubles(s, milli, r)
  {
    AddKeepsArmed(s, s', task, milli, r);
    if Doubles(s, milli, r) {
      DoubledIsSurplus(s, s', task, milli, r);
      var run := SurplusStarves(s');
    } else {
      SteadyIsDependable(s');
    }
  }

  /** For an Add that takes no time: if and only if the armed timer has not run
      out. */
  lemma InstantDependableExactlyWhen(s: State, s': State, task: nat, milli: int, now: int)
    requires WellArmed(s) && Adds(s, s', task, milli, Readings(now, now, now, now))
    ensures Dependable(s') <==> !Due(s.expiry, now)
  {
    hide Dependable;
    DependableExactlyWhen(s, s', task, milli, Readings(now, now, now, now));
  }

  /** Otherwise it can go on so that a task is notified as long before its
      deadline as one likes. */
  lemma DoubledCanBeEarly(s: State, s': State, task: nat, milli: int, r: Readings, early: int)
    returns (run: seq<State>, e: Entry, start: int)
    requires WellArmed(s) && Adds(s, s', task, milli, r) && Doubles(s, milli, r)
    ensures |run| > 1 && IsRun(run) && run[0] == s'
    ensures Cycles(run[|run| - 2], run[|run| - 1], e, start, start, start)
    ensures e.deadline == start + early * MILLI
  {
    DoubledIsSurplus(s, s', task, milli, r);
    hide WellArmed, Adds, Doubles, Surplus, Starves, Cycles;
    var path := SurplusStarves(s');
    var a, b, c := path[|path| - 1], s', s';
    start := WhenDue(a);
    b, c, e := AddThenCycle(a, early);
    assert Steps(b, c);
    run := GoOn(path, b, c);
  }

  lemma SteadyIsStep(s: State, s': State)
    requires Steady(s, s')
    ensures Steps(s, s')
  {
    hide Adds, Cycles, Doubles;
  }

  lemma GoOn(path: seq<State>, b: State, c: State) returns (run: seq<State>)
    requires IsSteady(path) && Steps(path[|path| - 1], b) && Steps(b, c)
    ensures IsRun(run) && run == path + [b, c]
  {
    hide Steps, Steady;
    run := path + [b, c];
    forall k | 0 <= k < |run| - 1 ensures Steps(run[k], run[k + 1]) {
      if k < |path| - 1 {
        SteadyIsStep(path[k], path[k + 1]);
      }
    }
  }

  lemma AddThenCycle(a: State, milli: int) returns (b: State, c: State, e: Entry)
    requires Starves(a)
    ensures Steps(a, b) && Cycles(b, c, e, WhenDue(a), WhenDue(a), WhenDue(a))
    ensures e.deadline == WhenDue(a) + milli * MILLI
  {
    var now := WhenDue(a);
    var owed := Ticked(a, now).owed;
    e := Entry(0, now + milli * MILLI);
    b := State(multiset{e}, Some(now + Delay(milli)), owed, now, a.added + multiset{e}, a.notified);
    c := State(multiset{}, b.expiry, owed - 1, now, b.added, b.notified + multiset{e});
    assert Remaining(a.expiry, now) == 0;
    assert Adds(a, b, 0, milli, Readings(now, now, now, now));
    assert b.pending - multiset{e} == multiset{};
  }

  // ---- What Add does to the armed timer ----

  /** An Add that finds at least a millisecond left moves the expiry back by at
      most the time it took itself beyond one millisecond, or has the timer
      fire at once. */
  lemma AddDoesNotPostpone(s: State, s': State, task: nat, milli: int, r: Readings)
    requires Adds(s, s', task, milli, r)
    requires s.expiry.Some? && s.expiry.value - r.recheck >= MILLI
    ensures s'.expiry.Some?
    ensures s'.expiry.value <= s.expiry.value || s'.expiry.value <= s.expiry.value + (r.arm - r.check) - MILLI
         || s'.expiry.value == r.arm + 1
  {
    DeadlineBounds(Remaining(s.expiry, r.check));
    DeadlineBounds(Remaining(s.expiry, r.recheck));
  }

  /** An Add that takes no time, on an armed timer with left nanoseconds to go. */
  ghost predicate AddsAt(s: State, s': State, task: nat, milli: int, now: int, left: nat)
  {
    && Adds(s, s', task, milli, Readings(now, now, now, now))
    && s.expiry == Some(now + left) && left > 0
  }

  /** Such an Add leaves the old expiry, or arms anew. */
  lemma InstantAdd(s: State, s': State, task: nat, milli: int, now: int, left: nat)
    requires AddsAt(s, s', task, milli, now, left)
    ensures s'.expiry == Some(now + if Deadline(left) > milli || Deadline(left) == 0 then Delay(milli) else left)
  {
  }

  /** It postpones the old expiry exactly when less than a millisecond is left
      and the new task is not yet due. */
  lemma PostponedExactlyWhen(s: State, s': State, task: nat, milli: int, now: int, left: nat)
    requires AddsAt(s, s', task, milli, now, left)
    ensures s'.expiry.Some? && (s'.expiry.value > s.expiry.value <==> left < MILLI && milli > 0)
  {
    InstantAdd(s, s', task, milli, now, left);
    DeadlineBounds(left);
  }

  /** The timer fires a millisecond or more after the new deadline, or after
      the next nanosecond if that is past. */
  predicate Overlooks(s': State, milli: int, now: int)
  {
    s'.expiry.Some? && s'.expiry.value >= Max(now + milli * MILLI, now + 1) + MILLI
  }

  /** It overlooks the new task exactly when that is due at least a millisecond
      before the armed expiry and CheckDeadline hides that. */
  lemma OverlookedExactlyWhen(s: State, s': State, task: nat, milli: int, now: int, left: nat)
    requires AddsAt(s, s', task, milli, now, left)
    ensures Overlooks(s', milli, now) <==> MILLI <= left && Deadline(left) <= milli < left / MILLI
  {
    InstantAdd(s, s', task, milli, now, left);
    DeadlineBounds(left);
  }

  /** Every instantaneous Add at now neither postpones nor overlooks. */
  ghost predicate ServesAll(s: State, now: int, left: nat)
  {
    forall s', task, milli :: AddsAt(s, s', task, milli, now, left) ==>
      s'.expiry.Some? && s'.expiry.value <= now + left && !Overlooks(s', milli, now)
  }

  lemma SomeAdd(s: State, milli: int, now: int, left: nat) returns (s': State)
    requires s.expiry == Some(now + left) && left > 0 && s.clock <= now
    ensures AddsAt(s, s', 0, milli, now, left)
  {
    var e, r := Entry(0, now + milli * MILLI), Readings(now, now, now, now);
    s' := State(s.pending + multiset{e}, if Rearms(s.expiry, milli, r) then Some(now + Delay(milli)) else s.expiry,
                s.owed, now, s.added + multiset{e}, s.notified);
  }

  /** So Add serves both its own task and the armed one, whatever the delay,
      exactly on a timer with between a millisecond and a second left. */
  lemma ServesExactlyWhen(s: State, now: int, left: nat)
    requires s.expiry == Some(now + left) && left > 0 && s.clock <= now
    ensures ServesAll(s, now, left) <==> MILLI <= left < SECOND
  {
    hide AddsAt, Overlooks;
    DeadlineError(left);
    if MILLI <= left < SECOND {
      forall s', task, milli | AddsAt(s, s', task, milli, now, left)
        ensures s'.expiry.Some? && s'.expiry.value <= now + left && !Overlooks(s', milli, now)
      {
        PostponedExactlyWhen(s, s', task, milli, now, left);
        OverlookedExactlyWhen(s, s', task, milli, now, left);
      }
    } else {
      var milli := if left < MILLI then 1 else Deadline(left);
      var s' := SomeAdd(s, milli, now, left);
      PostponedExactlyWhen(s, s', 0, milli, now, left);
      OverlookedExactlyWhen(s, s', 0, milli, now, left);
    }
  }

  /** Ten seconds armed, a task due in a tenth of one: the timer stays. */
  lemma TenSecondsHideATenth(s: State)
    requires s.expiry == Some(s.clock + 10 * SECOND)
    ensures exists s' :: Adds(s, s', 0, 100, Readings(s.clock, s.clock, s.clock, s.clock))
                      && s'.expiry == s.expiry && Entry(0, s.clock + 100 * MILLI) in s'.pending
  {
    var e := Entry(0, s.clock + 100 * MILLI);
    var s' := State(s.pending + multiset{e}, s.expiry, s.owed, s.clock, s.added + multiset{e}, s.notified);
    assert Deadline(10 * SECOND) == 10;
    assert Adds(s, s', 0, 100, Readings(s.clock, s.clock, s.clock, s.clock));
  }

  // ---- Punctual runs ----

  /** Every Add finds the timer disarmed or with between a millisecond and a
      second left, and no step dawdles for more than span nanoseconds. */
  ghost predicate Brisk(s: State, s': State, span: nat)
  {
    || (exists task, milli, r :: BriskAdd(s, s', task, milli, r, span))
    || (exists e, start, read, arm :: Cycles(s, s', e, start, read, arm) && arm - read <= span)
  }

  ghost predicate BriskAdd(s: State, s': State, task: nat, milli: int, r: Readings, span: nat)
  {
    && Adds(s, s', task, milli, r) && !Doubles(s, milli, r)
    && r.arm - r.stamp <= span
    && (s.expiry.Some? ==> s.expiry.value - r.recheck >= MILLI && s.expiry.value - r.check < SECOND)
  }

  /** The timer fires less than a millisecond and a span after every deadline
      that waits, or after the present if that is later. */
  ghost predicate Punctual(s: State, span: nat)
  {
    forall e :: e in s.pending && s.expiry.Some? ==> s.expiry.value < Max(e.deadline, s.clock + 1) + MILLI + span
  }

  lemma AddKeepsPunctual(s: State, s': State, task: nat, milli: int, r: Readings, span: nat)
    requires span <= MILLI && WellArmed(s) && Punctual(s, span) && BriskAdd(s, s', task, milli, r, span)
    ensures Punctual(s', span)
  {
    var e := Entry(task, r.stamp + milli * MILLI);
    if s.expiry.Some? {
      AddDoesNotPostpone(s, s', task, milli, r);
      DeadlineBounds(Remaining(s.expiry, r.check));
    }
    forall f | f in s'.pending ensures s'.expiry.value < Max(f.deadline, s'.clock + 1) + MILLI + span {
      assert f == e || f in s.pending;
    }
  }

  lemma ArmingIsTimely(deadline: int, read: int, arm: int, span: nat)
    requires read <= arm <= read + span
    ensures arm + Delay(Truncated(deadline - read)) < Max(deadline, arm + 1) + MILLI + span
  {
  }

  lemma CycleKeepsPunctual(s: State, s': State, e: Entry, start: int, read: int, arm: int, span: nat)
    requires Cycles(s, s', e, start, read, arm) && arm - read <= span
    ensures Punctual(s', span)
  {
    hide ArmedFor, Punctual;
    if s'.pending == multiset{} {
      NothingIsLate(s', span);
    } else {
      var next :| ArmedFor(s', next, read, arm);
      NextIsTimely(s', next, read, arm, span);
    }
  }

  lemma NextIsTimely(s: State, next: Entry, read: int, arm: int, span: nat)
    requires ArmedFor(s, next, read, arm) && s.clock == arm && read <= arm <= read + span
    ensures Punctual(s, span)
  {
    hide Delay, Truncated;
    ArmingIsTimely(next.deadline, read, arm, span);
  }

  lemma NothingIsLate(s: State, span: nat)
    requires s.pending == multiset{}
    ensures Punctual(s, span)
  {
  }

  /** On such a run the timer is never late for any task. */
  lemma {:induction false} BriskRunsArePunctual(run: seq<State>, span: nat, k: nat)
    requires span <= MILLI && k < |run| && Fresh(run[0])
    requires forall i :: 0 <= i < k ==> Brisk(run[i], run[i + 1], span)
    ensures WellArmed(run[k]) && Punctual(run[k], span)
  {
    hide Punctual, Adds, Cycles, Doubles;
    if k == 0 {
      NothingIsLate(run[0], span);
    } else {
      hide WellArmed;
      var n := k - 1;
      BriskRunsArePunctual(run, span, n);
      assert Brisk(run[n], run[n + 1], span);
      if task, milli, r :| BriskAdd(run[n], run[k], task, milli, r, span) {
        AddKeepsPunctual(run[n], run[k], task, milli, r, span);
        AddKeepsArmed(run[n], run[k], task, milli, r);
      } else {
        var e, start, read, arm :| Cycles(run[n], run[k], e, start, read, arm) && arm - read <= span;
        CycleKeepsPunctual(run[n], run[k], e, start, read, arm, span);
        CycleKeepsArmed(run[n], run[k], e, start, read, arm);
      }
    }
  }

  // ---- The classes ----

  /** expiry and owed belong to the kernel: when it fires, and how many times
      it has fired without Cycle having begun. */
  class Timer {
    var itime: TimeSpec
    var m_old_value: TimeSpec
    var expiry: Option<int>
    var owed: nat

    constructor ()
      ensures expiry == None && owed == 0
    {
      itime, m_old_value, expiry, owed := TimeSpec(0, 0), TimeSpec(0, 0), None, 0;
    }

    /** The clock reaches now. */
    method Tick(now: int)
      modifies `expiry, `owed
      ensures expiry == if Due(old(expiry), now) then None else old(expiry)
      ensures owed == if Due(old(expiry), now) then old(owed) + 1 else old(owed)
    {
      if Due(expiry, now) {
        expiry, owed := None, owed + 1;
      }
    }

    /** One expiry is handed to a Cycle. */
    method Take(now: int)
      requires owed > 0 || Due(expiry, now)
      modifies `expiry, `owed
      ensures expiry == if Due(old(expiry), now) then None else old(expiry)
      ensures owed == if Due(old(expiry), now) then old(owed) else old(owed) - 1
    {
      Tick(now);
      owed := owed - 1;
    }

    method Arm(ms: int, now: int)
      modifies this
      ensures expiry == Some(now + Delay(ms))
      ensures owed == if Due(old(expiry), now) then old(owed) + 1 else old(owed)
      ensures Nanos(itime) == Delay(ms) && 0 <= itime.tv_nsec < SECOND
    {
      if ms > 0 {
        itime := TimeSpec(ms / 1000, (ms % 1000) * MILLI);
      } else {
        itime := TimeSpec(0, 1);
      }
      SetTime(now);
    }

    method Disarm(now: int)
      modifies this
      ensures expiry == None
      ensures owed == if Due(old(expiry), now) then old(owed) + 1 else old(owed)
    {
      itime := TimeSpec(0, 0);
      SetTime(now);
    }

    /** timer_settime: a zero value disarms; the old remaining time is saved. */
    method SetTime(now: int)
      modifies `m_old_value, `expiry, `owed
      ensures expiry == if Nanos(itime) == 0 then None else Some(now + Nanos(itime))
      ensures owed == if Due(old(expiry), now) then old(owed) + 1 else old(owed)
      ensures m_old_value == Split(Remaining(old(expiry), now))
    {
      GetTime(now);
      expiry := if Nanos(itime) == 0 then None else Some(now + Nanos(itime));
    }

    /** timer_gettime: the remaining time, in seconds and nanoseconds. */
    method GetTime(now: int)
      modifies `m_old_value, `expiry, `owed
      ensures expiry == if Due(old(expiry), now) then None else old(expiry)
      ensures owed == if Due(old(expiry), now) then old(owed) + 1 else old(owed)
      ensures m_old_value == Split(Remaining(old(expiry), now))
    {
      Tick(now);
      m_old_value := Split(Remaining(expiry, now));
    }

    method CheckDeadline(now: int) returns (ms: int)
      modifies `m_old_value, `expiry, `owed
      ensures expiry == if Due(old(expiry), now) then None else old(expiry)
      ensures owed == if Due(old(expiry), now) then old(owed) + 1 else old(owed)
      ensures ms == Deadline(Remaining(old(expiry), now))
    {
      GetTime(now);
      ms := m_old_value.tv_nsec / MILLI + m_old_value.tv_sec;
    }

    /** The tail of Schedualer::Add; the reading it ends on is returned. */
    method ArmIfSooner(milli: int, r: Readings) returns (last: int)
      requires Ordered(r)
      modifies this
      ensures if Rearms(old(expiry), milli, r)
              then expiry == Some(r.arm + Delay(milli)) && last == r.arm
                && owed == old(owed) + (if Due(old(expiry), r.arm) then 1 else 0)
              else expiry == old(expiry) && last == r.recheck && owed == old(owed)
    {
      last := r.recheck;
      var left := CheckDeadline(r.check);
      var rearm := left > milli;
      if !rearm {
        left := CheckDeadline(r.recheck);
        rearm := left == 0;
      }
      if rearm {
        Arm(milli, r.arm);
        last := r.arm;
      }
    }
  }

  class Scheduler {
    var m_pq: multiset<Entry>
    const m_timer: Timer
    ghost var clock: int
    ghost var added: multiset<Entry>
    ghost var notified: multiset<Entry>

    ghost function Contents(): (s: State)
      reads this, m_timer
    {
      State(m_pq, m_timer.expiry, m_timer.owed, clock, added, notified)
    }

    constructor (now: int)
      ensures Fresh(Contents()) && WellArmed(Contents()) && fresh(m_timer)
    {
      m_pq := multiset{};
      m_timer := new Timer();
      clock, added, notified := now, multiset{}, multiset{};
    }

    method Add(task: nat, milli: int, r: Readings)
      requires clock <= r.stamp && Ordered(r)
      modifies this, m_timer
      ensures Adds(old(Contents()), Contents(), task, milli, r)
      ensures m_pq == old(m_pq) + multiset{Entry(task, r.stamp + milli * 1_000_000)}
      ensures WellArmed(old(Contents())) ==> (WellArmed(Contents()) <==> !old(Doubles(Contents(), milli, r)))
    {
      ghost var s := Contents();
      var e := Entry(task, r.stamp + milli * MILLI);
      m_pq := m_pq + multiset{e};
      var last := m_timer.ArmIfSooner(milli, r);
      added, clock := added + multiset{e}, last;
      if WellArmed(s) {
        AddKeepsArmed(s, Contents(), task, milli, r);
      }
    }

    /** Run for an expiry; the task notified is returned. */
    method Cycle(start: int, read: int, arm: int) returns (e: Entry)
      requires clock <= start <= read <= arm && Ticked(Contents(), start).owed > 0
      requires m_pq != multiset{}
      modifies this, m_timer
      ensures Cycles(old(Contents()), Contents(), e, start, read, arm)
      ensures WellArmed(old(Contents())) ==> WellArmed(Contents())
    {
      hide Earliest, ArmsNext, Begun, WellArmed;
      ghost var s := Contents();
      e := Begin(start);
      ArmNext(read, arm);
      if WellArmed(s) {
        CycleKeepsArmed(s, Contents(), e, start, read, arm);
      }
    }

    /** The first half of Cycle: a task leaves the queue and is notified. */
    method Begin(start: int) returns (e: Entry)
      requires m_pq != multiset{} && Ticked(Contents(), start).owed > 0
      modifies this, m_timer
      ensures Earliest(old(m_pq), e)
      ensures Contents() == Begun(old(Contents()), e, start)
    {
      hide Earliest;
      e := Top();
      m_timer.Take(start);
      m_pq, notified, clock := m_pq - multiset{e}, notified + multiset{e}, start;
    }

    /** The second half: the timer is armed for a next task if there is one. */
    method ArmNext(read: int, arm: int)
      modifies `clock, m_timer
      ensures ArmsNext(old(Contents()), Contents(), read, arm)
    {
      if m_pq != multiset{} {
        var next := Top();
        m_timer.Arm(Truncated(next.deadline - read), arm);
        clock := arm;
        assert ArmedFor(Contents(), next, read, arm);
      }
    }

    method Top() returns (e: Entry)
      requires m_pq != multiset{}
      ensures Earliest(m_pq, e)
    {
      ghost var first := EarliestExists(m_pq);
      e :| e in m_pq && forall f :: f in m_pq ==> e.deadline <= f.deadline;
    }
  }
}

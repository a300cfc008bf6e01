/** Once-only initialisation: GetInstance called by any number of threads, any
    number of times, one shared access at a time. */
module Handleton {
  import opened Options

  type Tid = nat
  type Address = nat  // of an object; never null

  /** Where a thread inside GetInstance stands; each phase names the shared
      access it makes next. */
  datatype Phase =
    | Entering              // the first look at sv_isReady
    | Claiming              // the fetch-or on sv_shouldInit
    | Constructing          // new T()
    | Storing(p: Address)   // theObject = p
    | Publishing            // the fetch-or on sv_isReady
    | Spinning              // the loop's look at sv_isReady
    | Returning             // reading theObject

  datatype State = State(
    ready: bool,                 // sv_isReady
    claimed: bool,               // sv_shouldInit
    instance: Option<Address>,   // theObject
    threads: map<Tid, Phase>,    // the calls in progress
    winner: Option<Tid>,         // who found sv_shouldInit clear
    built: seq<Address>,         // constructor runs so far
    returned: set<Option<Address>>)  // pointers handed out so far

  const START: State := State(false, false, None, map[], None, [], {})

  function At(s: State, t: Tid, p: Phase): (s': State)
  {
    s.(threads := s.threads[t := p])
  }

  ghost predicate Calls(s: State, t: Tid, s': State)
  {
    t !in s.threads && s' == At(s, t, Entering)
  }

  /** One access of a thread inside GetInstance; made is the address new gives
      if it is called. */
  ghost predicate Moves(s: State, t: Tid, made: Address, s': State)
  {
    && t in s.threads
    && match s.threads[t]
       case Entering => s' == At(s, t, if s.ready then Returning else Claiming)
       case Claiming =>
         s' == if s.claimed then At(s, t, Spinning) else At(s, t, Constructing).(claimed := true, winner := Some(t))
       case Constructing => s' == At(s, t, Storing(made)).(built := s.built + [made])
       case Storing(p) => s' == At(s, t, Publishing).(instance := Some(p))
       case Publishing => s' == At(s, t, Spinning).(ready := true)
       case Spinning => s' == At(s, t, if s.ready then Returning else Spinning)
       case Returning => s' == s.(threads := s.threads - {t}, returned := s.returned + {s.instance})
  }

  ghost predicate Advances(s: State, t: Tid, s': State)
  {
    exists made: Address :: Moves(s, t, made, s')
  }

  ghost predicate Steps(s: State, s': State)
  {
    exists t: Tid :: Calls(s, t, s') || Advances(s, t, s')
  }

  ghost predicate IsRun(run: seq<State>)
  {
    && run != [] && run[0] == START
    && forall k :: 0 <= k < |run| - 1 ==> Steps(run[k], run[k + 1])
  }

  // ---- Safety ----

  /** What is so while the winner is in a phase, or has left them. */
  predicate WinnerAt(s: State, t: Tid)
  {
    if s.ready then |s.built| == 1 && s.instance == Some(s.built[0])
    else
      t in s.threads &&
      match s.threads[t]
      case Constructing => s.built == [] && s.instance == None
      case Storing(p) => s.built == [p] && s.instance == None
      case Publishing => |s.built| == 1 && s.instance == Some(s.built[0])
      case _ => false
  }

  predicate Winning(p: Phase)
  {
    p.Constructing? || p.Storing? || p.Publishing?
  }

  predicate WinsIn(s: State, t: Tid)
  {
    t in s.threads && Winning(s.threads[t])
  }

  ghost predicate Inv(s: State)
  {
    && (s.claimed <==> s.winner.Some?)
    && (s.winner == None ==> !s.ready && s.built == [] && s.instance == None)
    && (s.winner.Some? ==> WinnerAt(s, s.winner.value))
    && (forall t :: t in s.threads && Winning(s.threads[t]) ==> !s.ready && s.winner == Some(t))
    && (forall t :: t in s.threads && s.threads[t].Spinning? ==> s.claimed)
    && (forall t :: t in s.threads && s.threads[t].Returning? ==> s.ready)
    && (forall p :: p in s.returned ==> s.ready && p == s.instance)
  }

  lemma MoveKeepsInv(s: State, t: Tid, made: Address, s': State)
    requires Inv(s) && Moves(s, t, made, s')
    ensures Inv(s')
  {
  }

  lemma StepKeepsInv(s: State, s': State)
    requires Inv(s) && Steps(s, s')
    ensures Inv(s')
  {
    hide Moves;
    var t: Tid :| Calls(s, t, s') || Advances(s, t, s');
    if Advances(s, t, s') {
      var made: Address :| Moves(s, t, made, s');
      MoveKeepsInv(s, t, made, s');
    }
  }

  lemma {:induction false} RunKeepsInv(run: seq<State>, k: nat)
    requires IsRun(run) && k < |run|
    ensures Inv(run[k])
  {
    hide Inv, Steps;
    if k == 0 {
      StartsRight();
    } else {
      RunKeepsInv(run, k - 1);
      assert Steps(run[k - 1], run[k - 1 + 1]);
      StepKeepsInv(run[k - 1], run[k]);
    }
  }

  lemma StartsRight()
    ensures Inv(START)
  {
  }

  lemma {:induction false} HistoryOnlyGrows(run: seq<State>, i: nat, j: nat)
    requires IsRun(run) && i <= j < |run|
    ensures run[i].built <= run[j].built && run[i].returned <= run[j].returned
    ensures run[i].ready ==> run[j].ready
    decreases j
  {
    if i < j {
      HistoryOnlyGrows(run, i, j - 1);
      assert Steps(run[j - 1], run[j - 1 + 1]);
    }
  }

  /** In every run the constructor is run at most once, readiness means the
      object is set, and every pointer ever returned, at whatever two moments,
      is that one object and not null. */
  lemma OneObjectForAll(run: seq<State>, i: nat, j: nat, p: Option<Address>, p': Option<Address>)
    requires IsRun(run) && i <= j < |run|
    requires p in run[i].returned && p' in run[j].returned
    ensures p == p' && p.Some? && run[j].built == [p.value]
  {
    RunKeepsInv(run, i);
    RunKeepsInv(run, j);
    HistoryOnlyGrows(run, i, j);
  }

  lemma ConstructedAtMostOnce(run: seq<State>, k: nat)
    requires IsRun(run) && k < |run|
    ensures |run[k].built| <= 1
    ensures run[k].ready ==> run[k].instance.Some?
    ensures forall t: Tid, t': Tid :: WinsIn(run[k], t) && WinsIn(run[k], t') ==> t == t'
  {
    RunKeepsInv(run, k);
  }

  // ---- Progress ----

  /** Own steps a thread still needs to return once the object is published. */
  function StepsToReturn(p: Phase): (n: nat)
  {
    match p
    case Returning => 1
    case Spinning => 2
    case Entering => 2
    case Claiming => 3
    case _ => 0
  }

  function StepsToPublish(p: Phase): (n: nat)
  {
    match p
    case Constructing => 3
    case Storing(_) => 2
    case Publishing => 1
    case _ => 0
  }

  /** A run of thread t alone, in any surrounding state. */
  ghost predicate Solo(run: seq<State>, t: Tid)
  {
    run != [] && forall k :: 0 <= k < |run| - 1 ==> Advances(run[k], t, run[k + 1])
  }

  ghost predicate SoloTo(run: seq<State>, t: Tid, s: State, s': State)
  {
    Solo(run, t) && run[0] == s && run[|run| - 1] == s'
  }

  lemma Then(s: State, t: Tid, made: Address, s1: State, rest: seq<State>) returns (run: seq<State>)
    requires Moves(s, t, made, s1) && Solo(rest, t) && rest[0] == s1
    ensures SoloTo(run, t, s, rest[|rest| - 1]) && |run| == |rest| + 1
  {
    hide Moves;
    run := [s] + rest;
    forall k | 0 <= k < |run| - 1 ensures Advances(run[k], t, run[k + 1]) {
      if k == 0 {
        assert Advances(run[0], t, run[1]);
      } else {
        assert run[k] == rest[k - 1] && run[k + 1] == rest[k - 1 + 1];
      }
    }
  }

  /** Once the winner has published, every call in progress can return on its
      own, in at most three steps, with the one object. */
  lemma {:induction false} EverybodyCanReturn(s: State, t: Tid) returns (run: seq<State>)
    requires Inv(s) && s.ready && t in s.threads
    ensures exists s' :: SoloTo(run, t, s, s') && t !in s'.threads && s'.returned == s.returned + {s.instance}
    ensures s.instance == Some(s.built[0]) && |run| == 1 + StepsToReturn(s.threads[t]) <= 4
    decreases StepsToReturn(s.threads[t])
  {
    if s.threads[t].Returning? {
      var s' := s.(threads := s.threads - {t}, returned := s.returned + {s.instance});
      assert Moves(s, t, 0, s');
      run := Then(s, t, 0, s', [s']);
    } else {
      var next := if s.threads[t].Claiming? then Spinning else Returning;
      var s1 := At(s, t, next);
      assert Moves(s, t, 0, s1);
      MoveKeepsInv(s, t, 0, s1);
      var rest := EverybodyCanReturn(s1, t);
      run := Then(s, t, 0, s1, rest);
    }
  }

  /** Until then the winner can always move, and whatever it does brings
      publication nearer: three of its steps suffice. */
  lemma WinnerCanPublish(s: State, made: Address) returns (s': State)
    requires Inv(s) && s.claimed && !s.ready
    ensures s.winner.value in s.threads && 1 <= StepsToPublish(s.threads[s.winner.value]) <= 3
    ensures Moves(s, s.winner.value, made, s')
    ensures if StepsToPublish(s.threads[s.winner.value]) == 1 then s'.ready
            else !s'.ready && s'.winner == s.winner && s.winner.value in s'.threads
                 && StepsToPublish(s'.threads[s.winner.value]) == StepsToPublish(s.threads[s.winner.value]) - 1
  {
    var t := s.winner.value;
    match s.threads[t]
    case Constructing => s' := At(s, t, Storing(made)).(built := s.built + [made]);
    case Storing(p) => s' := At(s, t, Publishing).(instance := Some(p));
    case Publishing => s' := At(s, t, Spinning).(ready := true);
  }

  /** Only a look that finds the object ready leads to returning it, for the
      winner as for the others. */
  lemma ReturningNeedsReady(s: State, t: Tid, made: Address, s': State)
    requires Moves(s, t, made, s') && t in s'.threads && s'.threads[t].Returning?
    ensures s.ready && (s.threads[t].Entering? || s.threads[t].Spinning?)
  {
  }

  /** Nobody returns before publication, and no step of another thread moves
      the winner. */
  lemma OthersWait(s: State, t: Tid, made: Address, s': State)
    requires Inv(s) && Moves(s, t, made, s') && s.winner != Some(t) && s.winner.Some? && !s.ready
    ensures !s'.ready && s'.returned == s.returned && s'.instance == s.instance && s'.built == s.built
    ensures s'.winner == s.winner && s'.threads[s.winner.value] == s.threads[s.winner.value]
  {
  }
}

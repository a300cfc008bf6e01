/** Seek and transfer on one shared descriptor, without a lock: exactly when a
    transfer can meet the end of the file and go round its loop for ever. */
module PipelineStall {
  import opened Bytes
  import opened Wire
  import opened Disk
  import opened Pipeline
  import opened PipelineSafety
  import opened PipelineOrder
  import opened PipelineTheorems
  import opened PipelineProgress

  /** The largest offset, and the largest length, that NBDRWReq keeps. */
  const LIMIT: nat := 0x7fff_ffff

  /** Bytes that worker w still has to move. */
  ghost function Rest(s: State, w: Tid): nat
  {
    if w in s.workers && s.workers[w].Moving? && s.workers[w].id in s.heap && s.workers[w].done <= |s.heap[s.workers[w].id]|
    then |s.heap[s.workers[w].id]| - s.workers[w].done
    else 0
  }

  // ---- Sums over workers ----

  ghost function Rests(s: State, ws: set<Tid>): nat
    decreases |ws|
  {
    if ws == {} then 0
    else
      var w :| w in ws;
      Rest(s, w) + Rests(s, ws - {w})
  }

  lemma {:induction false} RestsPick(s: State, ws: set<Tid>, v: Tid)
    requires v in ws
    ensures Rests(s, ws) == Rest(s, v) + Rests(s, ws - {v})
    decreases |ws|
  {
    hide Rest;
    var w :| w in ws && Rests(s, ws) == Rest(s, w) + Rests(s, ws - {w});
    if w != v {
      RestsPick(s, ws - {w}, v);
      RestsPick(s, ws - {v}, w);
      assert ws - {w} - {v} == ws - {v} - {w};
    }
  }

  lemma {:induction false} RestsSame(s: State, s': State, ws: set<Tid>)
    requires forall w :: w in ws ==> Rest(s', w) == Rest(s, w)
    ensures Rests(s', ws) == Rests(s, ws)
    decreases |ws|
  {
    hide Rest;
    if ws != {} {
      var w :| w in ws;
      RestsPick(s, ws, w);
      RestsPick(s', ws, w);
      RestsSame(s, s', ws - {w});
    }
  }

  lemma {:induction false} RestsBound(s: State, ws: set<Tid>)
    requires forall w :: w in ws ==> Rest(s, w) <= LIMIT
    ensures Rests(s, ws) <= |ws| * LIMIT
    decreases |ws|
  {
    hide Rest;
    if ws != {} {
      var w :| w in ws;
      RestsPick(s, ws, w);
      assert |ws - {w}| == |ws| - 1;
      RestsBound(s, ws - {w});
    }
  }

  lemma {:induction false} SomebodyRests(s: State, ws: set<Tid>) returns (w: Tid)
    requires Rests(s, ws) > 0
    ensures w in ws && Rest(s, w) > 0
    decreases |ws|
  {
    hide Rest;
    w :| w in ws;
    if Rest(s, w) == 0 {
      RestsPick(s, ws, w);
      w := SomebodyRests(s, ws - {w});
    }
  }

  lemma {:induction false} RestsAlike(s: State, ws: set<Tid>, rest: nat)
    requires forall w :: w in ws ==> Rest(s, w) == rest
    ensures Rests(s, ws) == |ws| * rest
    decreases |ws|
  {
    hide Rest;
    if ws != {} {
      var w :| w in ws;
      RestsPick(s, ws, w);
      assert |ws - {w}| == |ws| - 1;
      RestsAlike(s, ws - {w}, rest);
      assert |ws| * rest == rest + (|ws| - 1) * rest;
    }
  }

  // ---- How far the position can get ----

  /** The position and all that is still to be moved. */
  ghost predicate InReach(s: State)
  {
    s.position + Rests(s, s.workers.Keys) <= (|s.workers| + 1) * LIMIT
  }

  lemma RestBound(s: State, w: Tid)
    requires Sized(s)
    ensures Rest(s, w) <= LIMIT
  {
  }

  lemma ReachStays(s: State, s': State)
    requires InReach(s) && s'.workers.Keys == s.workers.Keys && s'.position == s.position
    requires forall w :: w in s.workers ==> Rest(s', w) == Rest(s, w)
    ensures InReach(s')
  {
    hide Rest;
    RestsSame(s, s', s.workers.Keys);
    assert |s'.workers.Keys| == |s.workers.Keys|;
  }

  lemma SeekKeepsReach(s: State, w: Tid, s': State)
    requires InReach(s) && Sized(s) && Sized(s') && Seeks(s, w, s')
    ensures InReach(s')
  {
    hide Rest, Sized;
    assert s'.workers.Keys == s.workers.Keys;
    forall v | v in s'.workers ensures Rest(s', v) <= LIMIT {
      RestBound(s', v);
    }
    RestsBound(s', s'.workers.Keys);
    assert |s'.workers.Keys| == |s'.workers|;
  }

  lemma RestMoves(s: State, w: Tid, k: nat, s': State, v: Tid)
    requires Accounted(s) && Measured(s) && Transfers(s, w, k, s') && v in s.workers
    ensures Rest(s', v) == Rest(s, v) - if v == w then k else 0
  {
    hide Accounted, WriteAt;
    if v != w && s.workers[v].Moving? {
      NobodyElseHas(s, v, w);
    }
  }

  lemma TransferKeepsReach(s: State, w: Tid, k: nat, s': State)
    requires InReach(s) && Accounted(s) && Measured(s) && Transfers(s, w, k, s')
    ensures s'.workers.Keys == s.workers.Keys && s'.position == s.position + k
    ensures Rests(s', s.workers.Keys) == Rests(s, s.workers.Keys) - k
    ensures InReach(s')
  {
    hide Rest, Rests, Accounted, Measured, Splice, WriteAt, MayMove;
    var ws := s.workers.Keys;
    assert s'.workers.Keys == ws;
    RestsPick(s, ws, w);
    RestsPick(s', ws, w);
    forall v | v in ws ensures Rest(s', v) == Rest(s, v) - if v == w then k else 0 {
      RestMoves(s, w, k, s', v);
    }
    RestsSame(s, s', ws - {w});
    assert |s'.workers.Keys| == |s.workers.Keys|;
  }

  lemma FinishKeepsRest(s: State, v: Tid, s': State, w: Tid)
    requires Accounted(s) && Finishes(s, v, s') && w in s.workers
    ensures Rest(s', w) == Rest(s, w)
  {
    hide Accounted, FrameBytes;
    if w != v && s.workers[w].Moving? {
      NobodyElseHas(s, v, w);
    }
  }

  lemma AcceptKeepsRest(s: State, buffer: seq<byte>, s': State, w: Tid)
    requires Accounted(s) && Accepts(s, buffer, s') && w in s.workers
    ensures Rest(s', w) == Rest(s, w)
  {
    hide Accounted, Allocates;
    if s.workers[w].Moving? {
      InHandInHeap(s, w);
    }
  }

  lemma OthersKeepRest(s: State, a: Action, s': State, w: Tid)
    requires Next(s, a, s') && w in s.workers
    requires !a.Accept? && !a.Seek? && !a.Transfer? && !a.Finish?
    ensures Rest(s', w) == Rest(s, w)
  {
    hide Sendable, Understands, FrameBytes;
  }

  lemma OthersKeepPlace(s: State, a: Action, s': State)
    requires Next(s, a, s') && !a.Seek? && !a.Transfer?
    ensures s'.workers.Keys == s.workers.Keys && s'.position == s.position && s'.disk == s.disk && s'.grows == s.grows
  {
    hide Sendable, Understands, FrameBytes, Allocates;
  }

  lemma StepKeepsReach(s: State, a: Action, s': State)
    requires InReach(s) && Whole(s) && Whole(s') && Next(s, a, s')
    ensures InReach(s')
  {
    hide InReach, Rest, Accounted, Sized, Framed, Answered, Synchronised, Measured;
    hide Sends, Accepts, Takes, Seeks, Transfers, Locks, Writes, Finishes, Receives;
    match a
    case Seek(w) => SeekKeepsReach(s, w, s');
    case Transfer(w, k) => TransferKeepsReach(s, w, k, s');
    case _ =>
      OthersKeepPlace(s, a, s');
      forall w | w in s.workers ensures Rest(s', w) == Rest(s, w) {
        match a
        case Accept(buffer) => AcceptKeepsRest(s, buffer, s', w);
        case Finish(v) => FinishKeepsRest(s, v, s', w);
        case _ => OthersKeepRest(s, a, s', w);
      }
      ReachStays(s, s');
  }

  // ---- A worker on its own ----

  /** Nobody else moves the position away. */
  ghost predicate OnTrack(s: State)
  {
    |s.workers| == 1 ==>
      forall w :: w in s.workers && s.workers[w].Moving? && s.workers[w].id < |s.commands| ==>
        s.position == s.commands[s.workers[w].id].from + s.workers[w].done
  }

  lemma Alone(s: State, v: Tid, w: Tid)
    requires |s.workers| == 1 && v in s.workers && w in s.workers
    ensures v == w
  {
    assert |s.workers.Keys| == 1;
    assert s.workers.Keys == {v} by {
      assert |s.workers.Keys - {v}| == 0;
    }
  }

  lemma SeekKeepsTrack(s: State, v: Tid, s': State)
    requires Seeks(s, v, s')
    ensures OnTrack(s')
  {
    hide Sendable;
    if |s'.workers| == 1 {
      forall w | w in s'.workers ensures w == v {
        Alone(s', v, w);
      }
    }
  }

  lemma TransferKeepsTrack(s: State, v: Tid, k: nat, s': State)
    requires OnTrack(s) && Transfers(s, v, k, s')
    ensures OnTrack(s')
  {
    hide Splice, WriteAt, MayMove;
    assert s'.workers.Keys == s.workers.Keys;
    assert |s'.workers.Keys| == |s.workers.Keys|;
    if |s'.workers| == 1 {
      forall w | w in s'.workers ensures w == v {
        Alone(s', v, w);
      }
    }
  }

  lemma OthersKeepTrack(s: State, a: Action, s': State)
    requires OnTrack(s) && InStep(s) && Next(s, a, s') && !a.Seek? && !a.Transfer?
    ensures OnTrack(s')
  {
    hide InStep;
    OthersKeepPlace(s, a, s');
    assert |s'.workers.Keys| == |s.workers.Keys|;
    if |s'.workers| == 1 {
      forall w | w in s'.workers && s'.workers[w].Moving? ensures s.workers[w] == s'.workers[w] && s.workers[w].id < |s.commands| {
        MoverUnmoved(s, a, s', w);
      }
      CommandsGrow(s, a, s');
    }
  }

  lemma CommandsGrow(s: State, a: Action, s': State)
    requires Next(s, a, s')
    ensures s.commands <= s'.commands
  {
    hide Sendable, Understands, FrameBytes, Allocates, Splice, WriteAt, MayMove;
  }

  lemma MoverUnmoved(s: State, a: Action, s': State, w: Tid)
    requires InStep(s) && Next(s, a, s') && !a.Seek? && !a.Transfer? && w in s'.workers && s'.workers[w].Moving?
    ensures w in s.workers && s.workers[w] == s'.workers[w] && s.workers[w].id < |s.commands|
  {
    hide Sendable, Understands, FrameBytes, Allocates, Sized, Framed, Answered, Synchronised, Accounted;
    assert w in s.workers && s.workers[w] == s'.workers[w];
    InHandInHeap(s, w);
  }

  lemma StepKeepsTrack(s: State, a: Action, s': State)
    requires OnTrack(s) && InStep(s) && Next(s, a, s')
    ensures OnTrack(s')
  {
    hide OnTrack, InStep;
    if a.Seek? {
      SeekKeepsTrack(s, a.w, s');
    } else if a.Transfer? {
      TransferKeepsTrack(s, a.w, a.k, s');
    } else {
      OthersKeepTrack(s, a, s');
    }
  }

  // ---- Where nothing stalls ----

  /** Enough for no transfer ever to meet the end of the file: a worker on its
      own, nothing to transfer, or a file longer than the position can get. */
  predicate Roomy(workers: nat, size: nat)
  {
    workers <= 1 || size == 0 || size >= (workers + 1) * LIMIT
  }

  ghost predicate Placed(s: State)
  {
    Whole(s) && InReach(s) && OnTrack(s)
  }

  lemma StepKeepsPlaced(s: State, a: Action, s': State)
    requires Placed(s) && Next(s, a, s')
    ensures Placed(s') && s'.initial == s.initial && s'.workers.Keys == s.workers.Keys
  {
    hide Whole, InReach, OnTrack, Next;
    StepKeepsWhole(s, a, s');
    WholeIsInStep(s);
    StepKeepsReach(s, a, s');
    StepKeepsTrack(s, a, s');
    InitialStays(s, a, s');
    WorkersStay(s, a, s');
  }

  lemma WorkersStay(s: State, a: Action, s': State)
    requires Next(s, a, s')
    ensures s'.workers.Keys == s.workers.Keys && s'.handlers == s.handlers
  {
    hide Sendable, Understands, FrameBytes, Allocates, Splice, WriteAt, MayMove;
  }

  lemma InitiallyPlaced(s: State, handlers: map<u32, Handler>, disk: Contents, tids: set<Tid>)
    requires Initial(s, handlers, disk, tids)
    ensures Placed(s) && s.initial == disk && s.workers.Keys == tids
  {
    InitiallyInStep(s, handlers, disk, tids);
    RestsAlike(s, s.workers.Keys, 0);
  }

  lemma {:induction false} RunKeepsPlaced(states: seq<State>, acts: seq<Action>, handlers: map<u32, Handler>, disk: Contents, tids: set<Tid>)
    requires IsExecution(states, acts) && Initial(states[0], handlers, disk, tids)
    ensures Placed(states[|acts|]) && states[|acts|].initial == disk && states[|acts|].workers.Keys == tids
    decreases |acts|
  {
    hide Placed, Next, Initial;
    if acts == [] {
      InitiallyPlaced(states[0], handlers, disk, tids);
    } else {
      var m := |acts| - 1;
      RunKeepsPlaced(states[..m + 1], acts[..m], handlers, disk, tids);
      StepKeepsPlaced(states[m], acts[m], states[m + 1]);
    }
  }

  lemma ReachablePlaced(s: State, handlers: map<u32, Handler>, disk: Contents, tids: set<Tid>)
    requires Reachable(s, handlers, disk, tids)
    ensures Placed(s) && s.initial == disk && s.workers.Keys == tids
  {
    hide Placed, Initial, Next;
    var states, acts :| IsExecution(states, acts) && Initial(states[0], handlers, disk, tids) && s == states[|acts|];
    RunKeepsPlaced(states, acts, handlers, disk, tids);
  }

  lemma NothingStalls(s: State, a: Action, s': State)
    requires Placed(s) && Next(s, a, s') && Roomy(|s.workers|, |s.initial|)
    ensures !Stalls(a)
  {
    if a.Transfer? && a.k == 0 {
      StalledAtTheEnd(s, a.w, s');
      if |s.workers| == 1 {
        LoneIsInside(s, a.w);
      } else if |s.initial| != 0 {
        PlacedFarEnough(s, a.w);
      } else {
        NothingToMove(s, a.w);
      }
    }
  }

  lemma StalledAtTheEnd(s: State, w: Tid, s': State)
    requires Placed(s) && Transfers(s, w, 0, s')
    ensures w in s.workers && Midway(s, w) && s.position >= |s.disk| >= |s.initial| && Rest(s, w) > 0
    ensures s.workers[w].id < |s.commands| && Sendable(s.commands[s.workers[w].id], |s.initial|)
    ensures |s.heap[s.workers[w].id]| == SizeOf(s.commands[s.workers[w].id])
  {
    hide Accounted, Framed, Answered, Synchronised, InReach, OnTrack, Splice, WriteAt;
  }

  lemma LoneIsInside(s: State, w: Tid)
    requires OnTrack(s) && |s.workers| == 1 && w in s.workers && Midway(s, w)
    requires s.workers[w].id < |s.commands| && Sendable(s.commands[s.workers[w].id], |s.initial|)
    requires |s.heap[s.workers[w].id]| == SizeOf(s.commands[s.workers[w].id])
    ensures s.position < |s.initial|
  {
  }

  lemma PlacedFarEnough(s: State, w: Tid)
    requires InReach(s) && w in s.workers && Rest(s, w) > 0
    ensures s.position < (|s.workers| + 1) * LIMIT
  {
    hide Rest;
    RestsPick(s, s.workers.Keys, w);
  }

  lemma NothingToMove(s: State, w: Tid)
    requires w in s.workers && s.workers[w].Moving? && s.workers[w].id < |s.commands| && |s.initial| == 0
    requires Sendable(s.commands[s.workers[w].id], |s.initial|)
    ensures SizeOf(s.commands[s.workers[w].id]) == 0
  {
  }

  lemma {:induction false} RunWithoutStall(states: seq<State>, acts: seq<Action>)
    requires IsExecution(states, acts) && Placed(states[0]) && Roomy(|states[0].workers|, |states[0].initial|)
    ensures Stalled(acts) == 0
    decreases |acts|
  {
    hide Placed, Next, Roomy;
    if acts != [] {
      NothingStalls(states[0], acts[0], states[1]);
      StepKeepsPlaced(states[0], acts[0], states[1]);
      assert |states[1].workers.Keys| == |states[0].workers.Keys|;
      RunWithoutStall(states[1..], acts[1..]);
    }
  }

  // ---- Where something does ----

  /** Worker w is in the middle of a read, at the end of the file, and nobody is
      left to move the position back. */
  ghost predicate Drowned(s: State, w: Tid)
  {
    && w in s.workers && Midway(s, w) && s.workers[w].id < |s.commands|
    && s.commands[s.workers[w].id].Read?
    && NBD_CMD_READ in s.handlers && s.handlers[NBD_CMD_READ] == ReadHandler
    && s.position >= |s.disk| && s.accepted == |s.commands| && s.queue == {}
    && forall v :: v in s.workers ==> !s.workers[v].Holding?
  }

  lemma DrownedStall(s: State, w: Tid)
    requires Drowned(s, w)
    ensures Next(s, Transfer(w, 0), s)
  {
    var Moving(id, done) := s.workers[w];
    assert s.workers[w := Moving(id, done + 0)] == s.workers;
    assert Splice(s.heap[id], done, []) == s.heap[id] && s.heap[id := s.heap[id]] == s.heap;
  }

  lemma TransferKeepsDrowned(s: State, v: Tid, k: nat, s': State, w: Tid)
    requires Accounted(s) && Drowned(s, w) && Transfers(s, v, k, s')
    ensures Drowned(s', w) && s'.workers[w] == s.workers[w]
  {
    hide Accounted, WriteAt, Splice;
    if k == 0 {
      StallMovesNothing(s, v, s');
    } else {
      NobodyElseHas(s, v, w);
      var Moving(id, done) := s.workers[v];
      WriteAtSize(s.disk, s.position, s.heap[id][done..done + k]);
    }
  }

  lemma FinishKeepsDrowned(s: State, v: Tid, s': State, w: Tid)
    requires Accounted(s) && Drowned(s, w) && Finishes(s, v, s')
    ensures Drowned(s', w) && s'.workers[w] == s.workers[w]
  {
    hide Accounted, FrameBytes;
    NobodyElseHas(s, v, w);
  }

  lemma OthersKeepDrowned(s: State, a: Action, s': State, w: Tid)
    requires Drowned(s, w) && Next(s, a, s') && NoSend(a) && !a.Transfer? && !a.Finish?
    ensures Drowned(s', w) && s'.workers[w] == s.workers[w]
  {
    hide Sendable, Understands, FrameBytes, Allocates;
  }

  lemma StepKeepsDrowned(s: State, a: Action, s': State, w: Tid)
    requires InStep(s) && Drowned(s, w) && Next(s, a, s') && NoSend(a)
    ensures Drowned(s', w) && s'.workers[w] == s.workers[w]
  {
    hide Accounted, Sized, Framed, Answered, Synchronised, Drowned, Transfers, Finishes;
    match a
    case Transfer(v, k) => TransferKeepsDrowned(s, v, k, s', w);
    case Finish(v) => FinishKeepsDrowned(s, v, s', w);
    case _ => OthersKeepDrowned(s, a, s', w);
  }

  /** A request inside its transfer has no frame yet. */
  lemma MoverHasNoFrame(s: State, w: Tid)
    requires InStep(s) && w in s.workers && s.workers[w].Moving?
    ensures !Received(s.received, s.workers[w].id)
  {
    hide Sized, Answered, Stream, FrameBytes;
    var id := s.workers[w].id;
    assert id in Ids(s.workers) by {
      assert IdOf(s.workers[w]) == id;
    }
    forall k | 0 <= k < |s.frames| ensures s.frames[k].id != id {
      if k < |s.freed| {
        assert s.freed[k] in SetOf(s.freed);
      } else {
        var v := s.mutex.w;
        assert PartlySent(s, s.workers[v].id, s.workers[v].sent);
        NobodyElseHas(s, v, w);
      }
    }
    forall k | 0 <= k < |s.received| ensures s.received[k].id != id {
      assert s.received[k] == s.frames[k];
    }
  }

  /** Until something new is sent, the request is never answered, whatever the
      others do. */
  lemma {:induction false} DrownedForever(states: seq<State>, acts: seq<Action>, w: Tid)
    requires IsExecution(states, acts) && (forall k :: 0 <= k < |acts| ==> NoSend(acts[k]))
    requires InStep(states[0]) && Drowned(states[0], w)
    ensures InStep(states[|acts|]) && Drowned(states[|acts|], w) && states[|acts|].workers[w] == states[0].workers[w]
    ensures !Received(states[|acts|].received, states[0].workers[w].id)
    decreases |acts|
  {
    hide InStep, Next, Received;
    if acts == [] {
      MoverHasNoFrame(states[0], w);
    } else {
      var m := |acts| - 1;
      DrownedForever(states[..m + 1], acts[..m], w);
      StepKeepsInStep(states[m], acts[m], states[m + 1]);
      StepKeepsDrowned(states[m], acts[m], states[m + 1], w);
      MoverHasNoFrame(states[m + 1], w);
    }
  }

  // ---- How it gets there ----

  function HandleOf(i: nat): (h: Handle)
  {
    ToBE(i, 8)
  }

  lemma HandlesDiffer(i: nat, j: nat)
    requires i < j < TWO_TO_THE_64
    ensures HandleOf(i) != HandleOf(j)
  {
    Pow256Values();
    BigEndianRoundTrip(i, 8);
    BigEndianRoundTrip(j, 8);
  }

  lemma FollowOn(s: State, a: Action, s': State, handlers: map<u32, Handler>, disk: Contents, tids: set<Tid>) returns (r: State)
    requires Reachable(s, handlers, disk, tids) && Next(s, a, s')
    ensures r == s' && Reachable(r, handlers, disk, tids)
  {
    hide Initial, Next;
    r := s';
    var states, acts :| IsExecution(states, acts) && Initial(states[0], handlers, disk, tids) && s == states[|acts|];
    var states', acts' := states + [s'], acts + [a];
    assert IsExecution(states', acts') && states'[0] == states[0] && states'[|acts'|] == s';
  }

  /** Each worker in out is about to read len bytes, and the last seek was to
      from; the others wait. */
  ghost predicate Launched(s: State, out: set<Tid>, from: nat, len: nat, disk: Contents)
  {
    && s.initial == disk == s.disk && !s.grows
    && |s.commands| == s.accepted == |out| && s.queue == {}
    && (forall i :: 0 <= i < |s.commands| ==> s.commands[i].Read? && s.commands[i].handle == HandleOf(i))
    && (forall h :: h in s.pending ==> exists i :: 0 <= i < |s.commands| && HandleOf(i) == h)
    && (out != {} ==> s.position == from)
    && (forall w :: w in s.workers ==> if w in out then LaunchedWorker(s, w, len) else s.workers[w] == Waiting)
  }

  ghost predicate LaunchedWorker(s: State, w: Tid, len: nat)
    requires w in s.workers
  {
    && s.workers[w].Moving? && s.workers[w].done == 0
    && s.workers[w].id < |s.commands| && s.workers[w].id in s.heap && |s.heap[s.workers[w].id]| == len
  }

  lemma NobodyLaunched(handlers: map<u32, Handler>, disk: Contents, tids: set<Tid>, from: nat, len: nat) returns (s: State)
    ensures Reachable(s, handlers, disk, tids) && Launched(s, {}, from, len, disk)
    ensures s.workers.Keys == tids && s.handlers == handlers
  {
    s := State([], map[], [], 0, handlers, 0, {}, map w | w in tids :: Waiting, Free, map[], [], [], [], false, 0, disk, disk);
    assert IsExecution([s], []) && Initial([s][0], handlers, disk, tids) && s == [s][0];
  }

  /** The client sends one more read; it is accepted. */
  lemma NewRead(s: State, out: set<Tid>, n: nat, n': nat, from: nat, len: nat, handlers: map<u32, Handler>, disk: Contents, tids: set<Tid>)
    returns (s': State)
    requires Reachable(s, handlers, disk, tids) && Launched(s, out, from, len, disk)
    requires n == |s.commands| < TWO_TO_THE_64 && n' == n + 1
    requires from <= LIMIT && len <= LIMIT && from + len <= |disk|
    ensures Reachable(s', handlers, disk, tids)
    ensures s' == s.(commands := s.commands + [Disk.Read(HandleOf(n), from, len)], pending := s.pending[HandleOf(n) := n],
                     accepted := n', queue := {n}, heap := s.heap[n := seq(len, k => 0)])
  {
    hide Reachable, LaunchedWorker, HandleOf;
    forall h | h in s.pending ensures h != HandleOf(n) {
      var i :| 0 <= i < |s.commands| && HandleOf(i) == h;
      HandlesDiffer(i, n);
    }
    var c := Disk.Read(HandleOf(n), from, len);
    var s1 := s.(commands := s.commands + [c], pending := s.pending[HandleOf(n) := n]);
    s1 := FollowOn(s, Action.Send(c), s1, handlers, disk, tids);
    var buffer: seq<byte> := seq(len, k => 0);
    assert s1.queue + {n} == {n};
    s' := FollowOn(s1, Accept(buffer), s1.(accepted := n', queue := {n}, heap := s.heap[n := buffer]), handlers, disk, tids);
  }

  /** And worker w takes it and seeks. */
  lemma NewSeek(s: State, w: Tid, n: nat, handlers: map<u32, Handler>, disk: Contents, tids: set<Tid>) returns (s': State)
    requires Reachable(s, handlers, disk, tids) && RightHandlers(s.handlers)
    requires w in s.workers && s.workers[w] == Waiting && s.queue == {n} && n < |s.commands|
    requires s.commands[n].Read? && Sendable(s.commands[n], |s.initial|)
    ensures Reachable(s', handlers, disk, tids)
    ensures s' == s.(queue := {}, workers := s.workers[w := Moving(n, 0)], position := s.commands[n].from)
  {
    hide Reachable, Sendable;
    var s1 := s.(queue := {}, workers := s.workers[w := Holding(n)]);
    assert s.queue - {n} == {};
    s1 := FollowOn(s, Take(w, n), s1, handlers, disk, tids);
    assert s1.workers[w := Moving(n, 0)] == s.workers[w := Moving(n, 0)];
    s' := FollowOn(s1, Seek(w), s1.(workers := s.workers[w := Moving(n, 0)], position := s.commands[n].from), handlers, disk, tids);
  }

  lemma Launch(s: State, out: set<Tid>, w: Tid, from: nat, len: nat, handlers: map<u32, Handler>, disk: Contents, tids: set<Tid>)
    returns (s': State)
    requires Reachable(s, handlers, disk, tids) && Launched(s, out, from, len, disk) && s.handlers == handlers
    requires RightHandlers(handlers) && w in s.workers && w !in out && |out| < TWO_TO_THE_64
    requires from <= LIMIT && len <= LIMIT && from + len <= |disk|
    ensures Reachable(s', handlers, disk, tids) && Launched(s', out + {w}, from, len, disk)
    ensures s'.handlers == handlers && s'.workers.Keys == s.workers.Keys
  {
    hide Reachable, HandleOf;
    var n := |out|;
    var s1 := NewRead(s, out, n, n + 1, from, len, handlers, disk, tids);
    assert s1.commands[n] == Disk.Read(HandleOf(n), from, len);
    s' := NewSeek(s1, w, n, handlers, disk, tids);
    assert forall i :: 0 <= i < n ==> s'.commands[i] == s.commands[i];
    assert |out + {w}| == n + 1;
    StillLaunched(s, s', out, w, n, from, len, disk);
  }

  lemma StillLaunched(s: State, s': State, out: set<Tid>, w: Tid, n: nat, from: nat, len: nat, disk: Contents)
    requires Launched(s, out, from, len, disk) && w in s.workers && w !in out && n == |out|
    requires from <= LIMIT && len <= LIMIT
    requires s'.initial == s.initial && s'.disk == s.disk && !s'.grows && s'.queue == {} && s'.accepted == n + 1
    requires s'.commands == s.commands + [Disk.Read(HandleOf(n), from, len)] && s'.position == from
    requires s'.pending == s.pending[HandleOf(n) := n]
    requires s'.workers == s.workers[w := Moving(n, 0)]
    requires n in s'.heap && |s'.heap[n]| == len && forall id :: id in s.heap && id != n ==> id in s'.heap && s'.heap[id] == s.heap[id]
    ensures Launched(s', out + {w}, from, len, disk)
  {
    hide HandleOf;
    assert |out + {w}| == n + 1;
    forall h | h in s'.pending ensures exists i :: 0 <= i < |s'.commands| && HandleOf(i) == h {
      if h == HandleOf(n) {
        assert HandleOf(n) == h;
      } else {
        var i :| 0 <= i < |s.commands| && HandleOf(i) == h;
      }
    }
  }

  lemma {:induction false} LaunchAll(s: State, out: set<Tid>, from: nat, len: nat, handlers: map<u32, Handler>, disk: Contents, tids: set<Tid>)
    returns (s': State)
    requires Reachable(s, handlers, disk, tids) && Launched(s, out, from, len, disk) && s.handlers == handlers
    requires RightHandlers(handlers) && s.workers.Keys == tids && out <= tids && |tids| <= TWO_TO_THE_64
    requires from <= LIMIT && len <= LIMIT && from + len <= |disk|
    ensures Reachable(s', handlers, disk, tids) && Launched(s', tids, from, len, disk)
    ensures s'.handlers == handlers && s'.workers.Keys == tids
    decreases |tids| - |out|
  {
    hide Reachable, Launched, RightHandlers;
    assert |tids| == |out| + |tids - out| by { assert tids == out + (tids - out); }
    if tids - out == {} {
      assert out == tids;
      s' := s;
    } else {
      var w :| w in tids - out;
      var s1 := Launch(s, out, w, from, len, handlers, disk, tids);
      assert |out + {w}| == |out| + 1;
      s' := LaunchAll(s1, out + {w}, from, len, handlers, disk, tids);
    }
  }

  /** All workers read, from a position that does not leave enough for all. */
  ghost predicate Draining(s: State)
  {
    && RightHandlers(s.handlers) && s.accepted == |s.commands| && s.queue == {}
    && s.position <= |s.disk| && s.position + Rests(s, s.workers.Keys) > |s.disk|
    && (forall i :: 0 <= i < |s.commands| ==> s.commands[i].Read?)
    && (forall w :: w in s.workers ==> s.workers[w].Moving? && s.workers[w].id < |s.commands| && s.workers[w].id in s.heap)
  }

  lemma LaunchedDrains(s: State, from: nat, len: nat, disk: Contents)
    requires Launched(s, s.workers.Keys, from, len, disk) && RightHandlers(s.handlers) && s.workers != map[]
    requires from <= |disk| && from + |s.workers| * len > |disk|
    ensures Draining(s)
  {
    hide HandleOf;
    RestsAlike(s, s.workers.Keys, len);
    assert |s.workers.Keys| == |s.workers|;
  }

  lemma DrainStep(s: State, w: Tid, k: nat) returns (s': State)
    requires Whole(s) && Draining(s) && w in s.workers && 0 < k <= Rest(s, w) && s.position + k <= |s.disk|
    ensures Next(s, Transfer(w, k), s') && Draining(s') && s'.disk == s.disk && s'.position == s.position + k
  {
    hide Accounted, Sized, Framed, Answered, Synchronised, Measured, Rests;
    var Moving(id, done) := s.workers[w];
    s' := s.(workers := s.workers[w := Moving(id, done + k)], position := s.position + k,
             heap := s.heap[id := Splice(s.heap[id], done, s.disk[s.position..s.position + k])]);
    assert Transfers(s, w, k, s');
    DrainKeepsSum(s, w, k, s');
  }

  lemma DrainKeepsSum(s: State, w: Tid, k: nat, s': State)
    requires Accounted(s) && Measured(s) && Transfers(s, w, k, s')
    ensures s'.workers.Keys == s.workers.Keys
    ensures Rests(s', s.workers.Keys) == Rests(s, s.workers.Keys) - k
  {
    hide Rest, Rests, Accounted, Measured, Splice, WriteAt, MayMove;
    var ws := s.workers.Keys;
    assert s'.workers.Keys == ws;
    RestsPick(s, ws, w);
    RestsPick(s', ws, w);
    forall v | v in ws ensures Rest(s', v) == Rest(s, v) - if v == w then k else 0 {
      RestMoves(s, w, k, s', v);
    }
    RestsSame(s, s', ws - {w});
  }

  lemma {:induction false} DrainToTheEnd(s: State, handlers: map<u32, Handler>, disk: Contents, tids: set<Tid>)
    returns (s': State, w: Tid)
    requires Reachable(s, handlers, disk, tids) && Draining(s)
    ensures Reachable(s', handlers, disk, tids) && Drowned(s', w)
    decreases |s.disk| - s.position
  {
    hide Reachable, Rest, Rests, Whole, Next, RightHandlers;
    w := SomebodyRests(s, s.workers.Keys);
    if s.position == |s.disk| {
      s' := s;
      EndIsDrowned(s, w);
    } else {
      ReachableWhole(s, handlers, disk, tids);
      var room := |s.disk| - s.position;
      var k := if Rest(s, w) < room then Rest(s, w) else room;
      var s1 := DrainStep(s, w, k);
      s1 := FollowOn(s, Transfer(w, k), s1, handlers, disk, tids);
      s', w := DrainToTheEnd(s1, handlers, disk, tids);
    }
  }

  lemma EndIsDrowned(s: State, w: Tid)
    requires Draining(s) && w in s.workers && Rest(s, w) > 0 && s.position == |s.disk|
    ensures Drowned(s, w)
  {
    hide Rests;
  }

  /** An offset and a length whose reads, one by each worker, pass the end. */
  lemma PassTheEnd(workers: nat, size: nat) returns (from: nat, len: nat)
    requires !Roomy(workers, size)
    ensures from <= LIMIT && len <= LIMIT && from + len <= size && from + workers * len > size
  {
    len := if size < LIMIT then size else LIMIT;
    from := if size - len < LIMIT then size - len else LIMIT;
    if size < LIMIT {
      assert workers * size >= 2 * size by { Multiply(workers, size); }
    }
  }

  lemma Multiply(m: nat, n: nat)
    requires m >= 2
    ensures m * n >= 2 * n
  {
    assert m * n == 2 * n + (m - 2) * n;
  }

  /** Two or more workers on a file they can pass the end of: some run leaves a
      read at the end of the file. */
  lemma SomebodyDrowns(handlers: map<u32, Handler>, disk: Contents, tids: set<Tid>) returns (s: State, w: Tid)
    requires RightHandlers(handlers) && !Roomy(|tids|, |disk|) && |tids| <= TWO_TO_THE_64
    ensures Reachable(s, handlers, disk, tids) && Drowned(s, w)
  {
    hide Reachable, Launched, Draining, Drowned, RightHandlers;
    var from, len := PassTheEnd(|tids|, |disk|);
    var s0 := NobodyLaunched(handlers, disk, tids, from, len);
    var s1 := LaunchAll(s0, {}, from, len, handlers, disk, tids);
    assert |s1.workers| == |s1.workers.Keys| && s1.workers.Keys != {};
    LaunchedDrains(s1, from, len, disk);
    s, w := DrainToTheEnd(s1, handlers, disk, tids);
  }

  /** For instance two workers reading the only byte of a file. */
  lemma TwoReadersOfOneByte(handlers: map<u32, Handler>, b: byte) returns (s: State, w: Tid)
    requires RightHandlers(handlers)
    ensures Reachable(s, handlers, [b], {0, 1}) && Drowned(s, w)
  {
    assert |{0, 1}| == 2;
    s, w := SomebodyDrowns(handlers, [b], {0, 1});
  }

  // ---- The exact condition ----

  predicate NoSends(acts: seq<Action>)
  {
    forall k :: 0 <= k < |acts| ==> NoSend(acts[k])
  }

  /** Every way of going on without new requests ends, after at most Work(s)
      steps. */
  ghost predicate Completes(s: State)
  {
    forall states, acts :: IsExecution(states, acts) && states[0] == s && NoSends(acts) ==> |acts| <= Work(s)
  }

  ghost predicate AlwaysCompletes(handlers: map<u32, Handler>, disk: Contents, tids: set<Tid>)
  {
    forall s :: Reachable(s, handlers, disk, tids) ==> Completes(s)
  }

  lemma RoomyCompletes(states: seq<State>, acts: seq<Action>, handlers: map<u32, Handler>, disk: Contents, tids: set<Tid>)
    requires IsExecution(states, acts) && NoSends(acts)
    requires Reachable(states[0], handlers, disk, tids) && Roomy(|tids|, |disk|)
    ensures |acts| <= Work(states[0])
  {
    hide Reachable, Placed, Whole, Roomy, Next, Work, NoSend;
    ReachablePlaced(states[0], handlers, disk, tids);
    ReachableWhole(states[0], handlers, disk, tids);
    assert |states[0].workers.Keys| == |states[0].workers|;
    RunWithoutStall(states, acts);
    AnswersTakeBoundedWork(states, acts);
  }

  lemma DrownedNeverCompletes(s: State, w: Tid)
    requires InStep(s) && Drowned(s, w)
    ensures !Completes(s)
  {
    hide Drowned, Next, Work, InStep;
    WorkBounds(s);
    DrownedStall(s, w);
    var n: nat := Work(s) + 1;
    var states, acts := seq(n + 1, k => s), seq(n, k => Transfer(w, 0));
    assert IsExecution(states, acts) && states[0] == s && NoSends(acts);
  }

  /** With both handlers registered, and no more workers than a client has
      handles: everything sent to a file of this content is always answered, for
      every client, if and only if the workers cannot pass its end.  Otherwise
      some run leaves a request that is never answered until something else is
      sent. */
  lemma AlwaysCompletesExactlyWhen(handlers: map<u32, Handler>, disk: Contents, tids: set<Tid>)
    requires RightHandlers(handlers) && |tids| <= TWO_TO_THE_64
    ensures AlwaysCompletes(handlers, disk, tids) <==> Roomy(|tids|, |disk|)
    ensures !Roomy(|tids|, |disk|) ==> exists s, w :: Reachable(s, handlers, disk, tids) && Drowned(s, w)
  {
    hide Reachable, Drowned, Roomy, RightHandlers, Work, Whole;
    if Roomy(|tids|, |disk|) {
      forall s | Reachable(s, handlers, disk, tids) ensures Completes(s) {
        forall states, acts | IsExecution(states, acts) && states[0] == s && NoSends(acts) ensures |acts| <= Work(s) {
          RoomyCompletes(states, acts, handlers, disk, tids);
        }
      }
    } else {
      var s, w := SomebodyDrowns(handlers, disk, tids);
      ReachableWhole(s, handlers, disk, tids);
      WholeIsInStep(s);
      DrownedNeverCompletes(s, w);
    }
  }

  /** From any reachable state of such a pipeline: every way of going on without
      new requests is bounded, and it comes to a standstill exactly when every
      request sent has its reply. */
  lemma EverythingIsAnswered(states: seq<State>, acts: seq<Action>, handlers: map<u32, Handler>, disk: Contents, tids: set<Tid>)
    requires IsExecution(states, acts) && NoSends(acts)
    requires Reachable(states[0], handlers, disk, tids) && Staffed(states[0]) && Roomy(|tids|, |disk|)
    ensures |acts| <= Work(states[0])
    ensures AtStandstill(states[|acts|]) <==> Quiet(states[|acts|])
  {
    hide Reachable, Roomy, Staffed, Next, Work, Quiet;
    RoomyCompletes(states, acts, handlers, disk, tids);
    EverythingMovesOn(states, acts, handlers, disk, tids);
  }
}

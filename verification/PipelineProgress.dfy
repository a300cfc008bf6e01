/** How far the pipeline is from having answered everything: every step that
    moves anything brings it nearer, and somebody can always step. */
module PipelineProgress {
  import opened Bytes
  import Sets
  import opened Wire
  import opened Disk
  import opened Pipeline
  import opened PipelineSafety
  import opened PipelineOrder
  import opened PipelineTheorems

  // ---- The measure ----

  /** The length of the frame that answers c. */
  function FrameSize(c: Command): (n: nat)
  {
    REPLY_SIZE + PayloadSize(c)
  }

  /** Bytes to transfer, and bytes of the frame. */
  datatype Sizes = Sizes(data: nat, frame: nat)

  function SizesOf(c: Command): (z: Sizes)
  {
    Sizes(if c.Read? || c.Write? then SizeOf(c) else 0, FrameSize(c))
  }

  function PhaseRank(p: Phase, z: Sizes): (n: nat)
  {
    match p
    case Waiting => 0
    case Holding(_) => 3 + z.data + z.frame
    case Moving(_, done) => if done <= z.data then 2 + z.data - done + z.frame else 0
    case Sending(_, sent) => if sent <= z.frame then 1 + z.frame - sent else 0
  }

  ghost predicate Has(workers: map<Tid, Phase>, w: Tid, id: nat)
  {
    w in workers && workers[w] != Waiting && IdOf(workers[w]) == id
  }

  ghost function HandRank(workers: map<Tid, Phase>, id: nat, z: Sizes): nat
  {
    if w :| Has(workers, w, id) then PhaseRank(workers[w], z) else 0
  }

  /** Steps that request id still needs from the server. */
  ghost function Rank(s: State, id: nat): nat
    requires id < |s.commands|
  {
    var z := SizesOf(s.commands[id]);
    if id >= s.accepted then 5 + z.data + z.frame
    else if id in s.queue then 4 + z.data + z.frame
    else HandRank(s.workers, id, z)
  }

  ghost function Total(s: State, n: nat): nat
    requires n <= |s.commands|
  {
    if n == 0 then 0 else Total(s, n - 1) + Rank(s, n - 1)
  }

  ghost function Work(s: State): int
  {
    Total(s, |s.commands|) + |s.commands| - |s.received|
  }

  lemma HandRankIs(workers: map<Tid, Phase>, w: Tid, id: nat, z: Sizes)
    requires Distinct(workers) && Has(workers, w, id)
    ensures HandRank(workers, id, z) == PhaseRank(workers[w], z)
  {
  }

  lemma HandRankElsewhere(workers: map<Tid, Phase>, w: Tid, p: Phase, id: nat, z: Sizes)
    requires w in workers && Distinct(workers) && Distinct(workers[w := p])
    requires !Has(workers, w, id) && !Has(workers[w := p], w, id)
    ensures HandRank(workers[w := p], id, z) == HandRank(workers, id, z)
  {
    var workers' := workers[w := p];
    if v :| Has(workers, v, id) {
      assert Has(workers', v, id);
      HandRankIs(workers, v, id, z);
      HandRankIs(workers', v, id, z);
    } else {
      forall v ensures !Has(workers', v, id) {
        assert !Has(workers, v, id);
      }
    }
  }

  /** Everything but request id is where it was. */
  lemma OthersRank(s: State, s': State, w: Tid, p: Phase, id: nat, i: nat)
    requires Accounted(s) && Accounted(s') && w in s.workers && s'.workers == s.workers[w := p]
    requires s'.commands == s.commands && s'.accepted == s.accepted
    requires s.workers[w] == Waiting || IdOf(s.workers[w]) == id
    requires p == Waiting || IdOf(p) == id
    requires s'.queue == s.queue || s'.queue == s.queue - {id}
    requires i < |s.commands| && i != id
    ensures Rank(s', i) == Rank(s, i)
  {
    hide Partition, NoTwice, SetOf, SizesOf, PhaseRank, HandRank;
    HandRankElsewhere(s.workers, w, p, i, SizesOf(s.commands[i]));
  }

  lemma {:induction false} TotalFalls(s: State, s': State, n: nat, id: nat)
    requires s'.commands == s.commands && n <= |s.commands|
    requires forall i: nat :: i < n && i != id ==> Rank(s', i) == Rank(s, i)
    requires id < n ==> Rank(s', id) < Rank(s, id)
    ensures Total(s', n) == Total(s, n) + if id < n then Rank(s', id) - Rank(s, id) else 0
  {
    hide Rank;
    if n > 0 {
      TotalFalls(s, s', n - 1, id);
    }
  }

  /** A step of worker w on request id. */
  lemma WorkerStepFalls(s: State, s': State, w: Tid, p: Phase, id: nat)
    requires Accounted(s) && Accounted(s') && w in s.workers && s'.workers == s.workers[w := p]
    requires s'.commands == s.commands && s'.accepted == s.accepted && s'.received == s.received
    requires s.workers[w] == Waiting || IdOf(s.workers[w]) == id
    requires p == Waiting || IdOf(p) == id
    requires s'.queue == s.queue || s'.queue == s.queue - {id}
    requires id < |s.commands| && Rank(s', id) < Rank(s, id)
    ensures Work(s') < Work(s)
  {
    hide Rank, Accounted, Total;
    forall i: nat | i < |s.commands| && i != id ensures Rank(s', i) == Rank(s, i) {
      OthersRank(s, s', w, p, id, i);
    }
    TotalFalls(s, s', |s.commands|, id);
  }

  lemma RankInHand(s: State, w: Tid)
    requires Accounted(s) && w in s.workers && s.workers[w] != Waiting
    ensures IdOf(s.workers[w]) < |s.commands|
    ensures Rank(s, IdOf(s.workers[w])) == PhaseRank(s.workers[w], SizesOf(s.commands[IdOf(s.workers[w])]))
  {
    hide PhaseRank, SizesOf;
    InHandInHeap(s, w);
    HandRankIs(s.workers, w, IdOf(s.workers[w]), SizesOf(s.commands[IdOf(s.workers[w])]));
  }

  lemma AcceptFalls(s: State, buffer: seq<byte>, s': State)
    requires Accounted(s) && Accounted(s') && Accepts(s, buffer, s')
    ensures Work(s') < Work(s)
  {
    hide Partition, Distinct, NoTwice, SetOf, SizesOf, HandRank, Allocates;
    var id := s.accepted;
    forall i: nat | i < |s.commands| && i != id ensures Rank(s', i) == Rank(s, i) {
    }
    TotalFalls(s, s', |s.commands|, id);
  }

  lemma TakeFalls(s: State, w: Tid, id: nat, s': State)
    requires Accounted(s) && Accounted(s') && Takes(s, w, id, s')
    ensures Work(s') < Work(s)
  {
    hide Distinct, NoTwice, SizesOf, HandRank;
    RankInHand(s', w);
    WorkerStepFalls(s, s', w, Holding(id), id);
  }

  lemma SeekFalls(s: State, w: Tid, s': State)
    requires Accounted(s) && Accounted(s') && Seeks(s, w, s')
    ensures Work(s') < Work(s)
  {
    hide Accounted, SizesOf, HandRank, Sendable, Rank;
    RankInHand(s, w);
    RankInHand(s', w);
    WorkerStepFalls(s, s', w, s'.workers[w], IdOf(s.workers[w]));
  }

  lemma HeapIsWhole(s: State, id: nat)
    requires Sized(s) && id in s.heap
    ensures id < |s.commands| && (s.commands[id].Read? || s.commands[id].Write?)
    ensures |s.heap[id]| == SizesOf(s.commands[id]).data
  {
  }

  lemma TransferFalls(s: State, w: Tid, k: nat, s': State)
    requires Accounted(s) && Accounted(s') && Sized(s) && Transfers(s, w, k, s') && k > 0
    ensures Work(s') < Work(s)
  {
    hide Accounted, Sized, SizesOf, HandRank, Rank, Splice, WriteAt;
    HeapIsWhole(s, s.workers[w].id);
    RankInHand(s, w);
    RankInHand(s', w);
    WorkerStepFalls(s, s', w, s'.workers[w], IdOf(s.workers[w]));
  }

  lemma LockFalls(s: State, w: Tid, s': State)
    requires Accounted(s) && Accounted(s') && Sized(s) && Locks(s, w, s')
    ensures Work(s') < Work(s)
  {
    hide Accounted, Sized, SizesOf, HandRank, Rank;
    HeapIsWhole(s, s.workers[w].id);
    RankInHand(s, w);
    RankInHand(s', w);
    WorkerStepFalls(s, s', w, s'.workers[w], IdOf(s.workers[w]));
  }

  lemma FrameSizeIs(s: State, id: nat)
    requires Sized(s) && id in s.heap
    ensures id < |s.commands| && |FrameBytes(FrameOf(s, id))| == SizesOf(s.commands[id]).frame
  {
    FrameFits(s, id);
    FrameIsWhole(FrameOf(s, id));
  }

  lemma WriteFalls(s: State, w: Tid, k: nat, s': State)
    requires Accounted(s) && Accounted(s') && Sized(s) && Writes(s, w, k, s')
    ensures Work(s') < Work(s)
  {
    hide Accounted, Sized, SizesOf, HandRank, Rank, FrameBytes;
    FrameSizeIs(s, IdOf(s.workers[w]));
    FrameIsWhole(FrameOf(s, IdOf(s.workers[w])));
    RankInHand(s, w);
    RankInHand(s', w);
    WorkerStepFalls(s, s', w, s'.workers[w], IdOf(s.workers[w]));
  }

  lemma FinishFalls(s: State, w: Tid, s': State)
    requires Accounted(s) && Accounted(s') && Sized(s) && Finishes(s, w, s')
    ensures Work(s') < Work(s)
  {
    hide Accounted, Sized, SizesOf, HandRank, Rank, FrameBytes;
    var id := IdOf(s.workers[w]);
    FrameSizeIs(s, id);
    RankInHand(s, w);
    FinishedHasNoRank(s, w, s');
    WorkerStepFalls(s, s', w, Waiting, id);
  }

  lemma FinishedHasNoRank(s: State, w: Tid, s': State)
    requires Accounted(s) && Accounted(s') && Finishes(s, w, s')
    ensures IdOf(s.workers[w]) < |s'.commands| && Rank(s', IdOf(s.workers[w])) == 0
  {
    hide FrameBytes, SizesOf, PhaseRank;
    var id := IdOf(s.workers[w]);
    InHandInHeap(s, w);
    forall v ensures !Has(s'.workers, v, id) {
      if v != w && v in s.workers && s.workers[v] != Waiting {
        NobodyElseHas(s, v, w);
      }
    }
  }

  lemma ReceiveFalls(s: State, s': State)
    requires Receives(s, s')
    ensures Work(s') < Work(s)
  {
    hide Understands, FrameBytes, Rank;
    SameTotal(s, s', |s.commands|);
  }

  lemma {:induction false} SameTotal(s: State, s': State, n: nat)
    requires s'.commands == s.commands && s'.accepted == s.accepted && s'.queue == s.queue && s'.workers == s.workers
    requires n <= |s.commands|
    ensures Total(s', n) == Total(s, n)
  {
    hide HandRank, SizesOf;
    if n > 0 {
      SameTotal(s, s', n - 1);
    }
  }

  /** A turn of a transfer loop that moves nothing. */
  predicate Stalls(a: Action) { a.Transfer? && a.k == 0 }

  function Stalled(acts: seq<Action>): (n: nat)
  {
    if acts == [] then 0 else Stalled(acts[1..]) + if Stalls(acts[0]) then 1 else 0
  }

  /** Every step but the client's sending brings the end nearer, unless it moves
      nothing. */
  lemma StepFalls(s: State, a: Action, s': State)
    requires InStep(s) && InStep(s') && Next(s, a, s') && !a.Send?
    ensures if Stalls(a) then Work(s') == Work(s) else Work(s') < Work(s)
  {
    hide Accounted, Sized, Framed, Answered, Synchronised, Work;
    hide Sends, Accepts, Takes, Seeks, Transfers, Locks, Writes, Finishes, Receives;
    match a
    case Accept(buffer) => AcceptFalls(s, buffer, s');
    case Take(w, id) => TakeFalls(s, w, id, s');
    case Seek(w) => SeekFalls(s, w, s');
    case Transfer(w, k) =>
      if k == 0 {
        StallMovesNothing(s, w, s');
      } else {
        TransferFalls(s, w, k, s');
      }
    case Lock(w) => LockFalls(s, w, s');
    case Write(w, k) => WriteFalls(s, w, k, s');
    case Finish(w) => FinishFalls(s, w, s');
    case Receive => ReceiveFalls(s, s');
  }

  /** The loop goes round with everything as it was. */
  lemma StallMovesNothing(s: State, w: Tid, s': State)
    requires Transfers(s, w, 0, s')
    ensures s' == s
  {
    var Moving(id, done) := s.workers[w];
    assert s.workers[w := Moving(id, done + 0)] == s.workers;
    assert Splice(s.heap[id], done, []) == s.heap[id] && s.heap[id := s.heap[id]] == s.heap;
    assert WriteAt(s.disk, s.position, s.heap[id][done..done + 0]) == s.disk;
  }

  // ---- Transfers stay within their buffers ----

  ghost predicate Measured(s: State)
  {
    forall w :: w in s.workers && s.workers[w].Moving? ==>
      s.workers[w].id in s.heap && s.workers[w].done <= |s.heap[s.workers[w].id]|
  }

  ghost predicate Whole(s: State)
  {
    InStep(s) && Measured(s)
  }

  lemma WholeIsInStep(s: State)
    requires Whole(s)
    ensures InStep(s)
  {
  }

  lemma FinishKeepsMeasured(s: State, v: Tid, s': State)
    requires Accounted(s) && Measured(s) && Finishes(s, v, s')
    ensures Measured(s')
  {
    hide Accounted, FrameBytes;
    forall w | w in s'.workers && s'.workers[w].Moving?
      ensures s'.workers[w].id in s'.heap && s'.workers[w].done <= |s'.heap[s'.workers[w].id]|
    {
      NobodyElseHas(s, v, w);
    }
  }

  lemma TransferKeepsMeasured(s: State, v: Tid, k: nat, s': State)
    requires Accounted(s) && Measured(s) && Transfers(s, v, k, s')
    ensures Measured(s')
  {
    hide Accounted, WriteAt;
    forall w | w in s'.workers && s'.workers[w].Moving? && w != v
      ensures s'.workers[w].id in s'.heap && s'.workers[w].done <= |s'.heap[s'.workers[w].id]|
    {
      NobodyElseHas(s, v, w);
    }
  }

  lemma AcceptKeepsMeasured(s: State, buffer: seq<byte>, s': State)
    requires Accounted(s) && Measured(s) && Accepts(s, buffer, s')
    ensures Measured(s')
  {
    hide Accounted, Allocates;
    forall w | w in s'.workers && s'.workers[w].Moving?
      ensures s'.workers[w].id in s'.heap && s'.workers[w].done <= |s'.heap[s'.workers[w].id]|
    {
      InHandInHeap(s, w);
    }
  }

  lemma SeekKeepsMeasured(s: State, v: Tid, s': State)
    requires Accounted(s) && Measured(s) && Seeks(s, v, s')
    ensures Measured(s')
  {
    hide Accounted, Sendable;
    InHandInHeap(s, v);
  }

  lemma OthersKeepMeasured(s: State, a: Action, s': State)
    requires Measured(s) && Next(s, a, s')
    requires !a.Accept? && !a.Seek? && !a.Transfer? && !a.Finish?
    ensures Measured(s')
  {
    hide Sendable, Understands, FrameBytes;
  }

  lemma StepKeepsMeasured(s: State, a: Action, s': State)
    requires Accounted(s) && Measured(s) && Next(s, a, s')
    ensures Measured(s')
  {
    hide Accounted, Measured, Sends, Accepts, Takes, Seeks, Transfers, Locks, Writes, Finishes, Receives;
    match a
    case Accept(buffer) => AcceptKeepsMeasured(s, buffer, s');
    case Seek(w) => SeekKeepsMeasured(s, w, s');
    case Transfer(w, k) => TransferKeepsMeasured(s, w, k, s');
    case Finish(w) => FinishKeepsMeasured(s, w, s');
    case _ => OthersKeepMeasured(s, a, s');
  }

  lemma StepKeepsWhole(s: State, a: Action, s': State)
    requires Whole(s) && Next(s, a, s')
    ensures Whole(s')
  {
    hide Accounted, Sized, Framed, Answered, Synchronised, Measured, Next;
    StepKeepsInStep(s, a, s');
    StepKeepsMeasured(s, a, s');
  }

  lemma {:induction false} RunKeepsWhole(states: seq<State>, acts: seq<Action>, handlers: map<u32, Handler>, disk: Contents, tids: set<Tid>)
    requires IsExecution(states, acts) && Initial(states[0], handlers, disk, tids)
    ensures Whole(states[|acts|])
    decreases |acts|
  {
    hide InStep, Measured, Next;
    if acts == [] {
      InitiallyInStep(states[0], handlers, disk, tids);
      NobodyMoves(states[0], handlers, disk, tids);
    } else {
      var m := |acts| - 1;
      RunKeepsWhole(states[..m + 1], acts[..m], handlers, disk, tids);
      StepKeepsWhole(states[m], acts[m], states[m + 1]);
    }
  }

  lemma NobodyMoves(s: State, handlers: map<u32, Handler>, disk: Contents, tids: set<Tid>)
    requires Initial(s, handlers, disk, tids)
    ensures Measured(s)
  {
  }

  lemma ReachableWhole(s: State, handlers: map<u32, Handler>, disk: Contents, tids: set<Tid>)
    requires Reachable(s, handlers, disk, tids)
    ensures Whole(s)
  {
    hide Whole, Initial, Next;
    var states, acts :| IsExecution(states, acts) && Initial(states[0], handlers, disk, tids) && s == states[|acts|];
    RunKeepsWhole(states, acts, handlers, disk, tids);
  }

  // ---- No deadlock ----

  /** There is a worker, and a handler for each of the two kinds. */
  ghost predicate Staffed(s: State)
  {
    s.workers != map[] && NBD_CMD_READ in s.handlers && NBD_CMD_WRITE in s.handlers
  }

  /** Everything sent is answered, and nothing is in progress. */
  ghost predicate Quiet(s: State)
  {
    && |s.received| == |s.commands| == s.accepted && s.queue == {} && s.mutex.Free?
    && forall w :: w in s.workers ==> s.workers[w] == Waiting
  }

  predicate NoSend(a: Action) { !a.Send? }

  lemma SenderCanStep(s: State, w: Tid) returns (a: Action, s': State)
    requires InStep(s) && s.mutex == HeldBy(w)
    ensures Next(s, a, s') && NoSend(a)
  {
    hide Accounted, Sized, Answered, Synchronised, Stream, FrameBytes;
    assert w in s.workers && s.workers[w].Sending?;
    var Sending(id, sent) := s.workers[w];
    assert PartlySent(s, id, sent);
    var bytes, f := FrameBytes(FrameOf(s, id)), FrameOf(s, id);
    FrameIsWhole(f);
    if sent == |bytes| {
      a := Finish(w);
      s' := s.(workers := s.workers[w := Waiting], mutex := Free, heap := s.heap - {id}, freed := s.freed + [id]);
    } else {
      a := Action.Write(w, 1);
      s' := s.(workers := s.workers[w := Sending(id, sent + 1)], outgoing := s.outgoing + bytes[sent..sent + 1],
               frames := if sent + 1 == |bytes| then s.frames + [f] else s.frames);
    }
  }

  lemma BusyCanStep(s: State, w: Tid) returns (a: Action, s': State)
    requires Whole(s) && Staffed(s) && s.mutex.Free? && w in s.workers && s.workers[w] != Waiting
    ensures Next(s, a, s') && NoSend(a)
  {
    hide Answered, Synchronised, Stream, FrameBytes, Sendable;
    assert !s.workers[w].Sending?;
    InHandInHeap(s, w);
    var id := s.workers[w].id;
    if s.workers[w].Holding? {
      a, s' := Seek(w), s.(workers := s.workers[w := Moving(id, 0)], position := s.commands[id].from);
    } else if s.workers[w].done == |s.heap[id]| {
      a, s' := Lock(w), s.(workers := s.workers[w := Sending(id, 0)], mutex := HeldBy(w));
    } else {
      a, s' := MoverCanStep(s, w);
    }
  }

  /** A transfer can always go on, if only round its loop. */
  lemma MoverCanStep(s: State, w: Tid) returns (a: Action, s': State)
    requires Whole(s) && Staffed(s) && w in s.workers && s.workers[w].Moving?
    requires s.workers[w].id in s.heap && s.workers[w].done != |s.heap[s.workers[w].id]|
    ensures Next(s, a, s') && NoSend(a)
  {
    hide Framed, Answered, Synchronised, Splice, WriteAt, MayMove, ReadsOn, WritesOn;
    var Moving(id, done) := s.workers[w];
    HeapIsWhole(s, id);
    var c := s.commands[id];
    if s.handlers[KindOf(c)].ReadHandler? {
      var k := SomeMove(|s.heap[id]| - done, s.position, |s.disk|, false);
      a := Transfer(w, k);
      s' := ReadOn(s, w, id, done, k);
    } else {
      var k := SomeMove(|s.heap[id]| - done, s.position, |s.disk|, s.grows);
      a := Transfer(w, k);
      s' := WriteOn(s, w, id, done, k);
    }
  }

  lemma SomeMove(rest: nat, position: nat, size: nat, grows: bool) returns (k: nat)
    requires rest > 0
    ensures MayMove(k, rest, position, size, grows)
  {
    k := if position >= size && !grows then 0 else 1;
  }

  lemma ReadOn(s: State, w: Tid, id: nat, done: nat, k: nat) returns (s': State)
    requires w in s.workers && id in s.heap && done < |s.heap[id]|
    requires MayMove(k, |s.heap[id]| - done, s.position, |s.disk|, false)
    ensures ReadsOn(s, w, id, done, k, s')
  {
    hide Splice;
    var bytes := if k == 0 then [] else s.disk[s.position..s.position + k];
    s' := s.(workers := s.workers[w := Moving(id, done + k)], position := s.position + k,
             heap := s.heap[id := Splice(s.heap[id], done, bytes)]);
  }

  lemma WriteOn(s: State, w: Tid, id: nat, done: nat, k: nat) returns (s': State)
    requires w in s.workers && id in s.heap && done < |s.heap[id]|
    requires MayMove(k, |s.heap[id]| - done, s.position, |s.disk|, s.grows)
    ensures WritesOn(s, w, id, done, k, s')
  {
    hide WriteAt;
    s' := s.(workers := s.workers[w := Moving(id, done + k)], position := s.position + k,
             disk := WriteAt(s.disk, s.position, s.heap[id][done..done + k]));
  }

  lemma IdlersCanStep(s: State) returns (a: Action, s': State)
    requires InStep(s) && Staffed(s) && (s.queue != {} || s.accepted < |s.commands|)
    requires forall w :: w in s.workers ==> s.workers[w] == Waiting
    ensures Next(s, a, s') && NoSend(a)
  {
    hide Framed, Answered, Synchronised, InRange;
    if id :| id in s.queue {
      var w :| w in s.workers;
      a, s' := Take(w, id), s.(queue := s.queue - {id}, workers := s.workers[w := Holding(id)]);
    } else {
      var c := s.commands[s.accepted];
      var buffer := if c.Write? then c.data else seq(c.len, k => 0);
      a := Accept(buffer);
      s' := s.(accepted := s.accepted + 1, queue := s.queue + {s.accepted}, heap := s.heap[s.accepted := buffer]);
    }
  }

  lemma ClientCanStep(s: State) returns (a: Action, s': State)
    requires InStep(s) && |s.received| < |s.frames|
    ensures Next(s, a, s') && NoSend(a)
  {
    hide InStep, Understands, FrameBytes;
    var f := s.frames[|s.received|];
    RepliesAreUnambiguous(s, f);
    UnderstoodIsPending(s, f);
    a := Receive;
    s' := s.(received := s.received + [f], pending := s.pending - {f.handle}, consumed := s.consumed + |FrameBytes(f)|);
    assert Moves(s, f, s');
  }

  lemma UnderstoodIsPending(s: State, f: Frame)
    requires Understands(s, f)
    ensures f.handle in s.pending
  {
    hide NextReply, PayloadSize;
  }

  lemma {:induction false} SizeOfSet(ids: seq<nat>)
    requires NoTwice(ids)
    ensures |SetOf(ids)| == |ids|
    decreases |ids|
  {
    if ids != [] {
      var n := |ids| - 1;
      SizeOfSet(ids[..n]);
      assert SetOf(ids) == SetOf(ids[..n]) + {ids[n]};
    } else {
      assert SetOf(ids) == {};
    }
  }

  lemma {:induction false} SizeOfBelow(n: nat)
    ensures |Below(n)| == n
  {
    if n > 0 {
      SizeOfBelow(n - 1);
    }
  }

  lemma FinishedAreAccepted(s: State)
    requires Accounted(s)
    ensures |s.freed| <= s.accepted
    ensures s.queue == {} && (forall w :: w in s.workers ==> s.workers[w] == Waiting) ==> |s.freed| == s.accepted
  {
    hide Distinct;
    SizeOfSet(s.freed);
    SizeOfBelow(s.accepted);
    Sets.SubsetSize(SetOf(s.freed), Below(s.accepted));
    if s.queue == {} && forall w :: w in s.workers ==> s.workers[w] == Waiting {
      assert Ids(s.workers) == {};
      assert SetOf(s.freed) == Below(s.accepted);
    }
  }

  /** With the mutex free there is a frame for every finished request. */
  lemma FramesCountFinished(s: State)
    requires InStep(s) && s.mutex.Free?
    ensures |s.frames| <= s.accepted <= |s.commands| && |s.received| <= |s.frames|
    ensures s.queue == {} && (forall w :: w in s.workers ==> s.workers[w] == Waiting) ==> |s.frames| == s.accepted
  {
    hide Sized, Answered, Stream, Partition, Ids, SetOf, NoTwice, Distinct;
    FinishedAreAccepted(s);
  }

  /** Until all is quiet, the server or the client can step. */
  lemma SomebodyCanStep(s: State) returns (a: Action, s': State)
    requires Whole(s) && Staffed(s) && !Quiet(s)
    ensures Next(s, a, s') && NoSend(a)
  {
    hide InStep, Measured, Next, Staffed;
    if s.mutex.HeldBy? {
      a, s' := SenderCanStep(s, s.mutex.w);
    } else if w :| w in s.workers && s.workers[w] != Waiting {
      a, s' := BusyCanStep(s, w);
    } else {
      FramesCountFinished(s);
      if s.queue != {} || s.accepted < |s.commands| {
        a, s' := IdlersCanStep(s);
      } else {
        a, s' := ClientCanStep(s);
      }
    }
  }

  ghost predicate AtStandstill(s: State)
  {
    forall a, s' :: Next(s, a, s') ==> a.Send?
  }

  lemma QuietIsStill(s: State, a: Action, s': State)
    requires InStep(s) && Quiet(s) && Next(s, a, s')
    ensures a.Send?
  {
    hide InStep, Understands, FrameBytes, Splice, WriteAt, MayMove, Sendable, Allocates;
    FramesCountFinished(s);
    if a.Receive? {
      var f :| Understands(s, f) && Moves(s, f, s');
      RepliesAreUnambiguous(s, f);
    }
  }

  /** Nothing but a new request can happen exactly when all is quiet. */
  lemma StandstillExactlyWhenQuiet(s: State)
    requires Whole(s) && Staffed(s)
    ensures AtStandstill(s) <==> Quiet(s)
  {
    hide InStep, Measured, Staffed, Quiet, Next;
    if Quiet(s) {
      forall a, s' | Next(s, a, s') ensures a.Send? {
        QuietIsStill(s, a, s');
      }
    } else {
      var a, s' := SomebodyCanStep(s);
    }
  }

  lemma StaffStays(s: State, a: Action, s': State)
    requires Staffed(s) && Next(s, a, s')
    ensures Staffed(s')
  {
    hide Splice, WriteAt, MayMove, Sendable, Understands, FrameBytes, Allocates;
  }

  lemma WorkBounds(s: State)
    requires InStep(s)
    ensures Work(s) >= 0
  {
    hide Accounted, Sized, Framed, Stream, PayloadSize, Rank;
    ReceivedAtMostSent(s);
  }

  lemma ReceivedAtMostSent(s: State)
    requires InStep(s)
    ensures |s.received| <= |s.commands|
  {
    hide Accounted, Sized, Framed, Stream, PayloadSize;
    var ids := seq(|s.frames|, k requires 0 <= k < |s.frames| => s.frames[k].id);
    SizeOfSet(ids);
    SizeOfBelow(s.accepted);
    Sets.SubsetSize(SetOf(ids), Below(s.accepted));
  }

  lemma WholeHasWork(s: State)
    requires Whole(s)
    ensures Work(s) >= 0
  {
    hide InStep, Work;
    WorkBounds(s);
  }

  lemma WholeStepFalls(s: State, a: Action, s': State)
    requires Whole(s) && Next(s, a, s') && NoSend(a)
    ensures Whole(s') && if Stalls(a) then Work(s') == Work(s) else Work(s') < Work(s)
  {
    hide Whole, Work, Next;
    StepKeepsWhole(s, a, s');
    WholeIsInStep(s);
    WholeIsInStep(s');
    StepFalls(s, a, s');
  }

  /** However the threads interleave, without new requests the pipeline takes at
      most Work(s) steps that move anything. */
  lemma {:induction false} AnswersTakeBoundedWork(states: seq<State>, acts: seq<Action>)
    requires IsExecution(states, acts) && Whole(states[0])
    requires forall k :: 0 <= k < |acts| ==> NoSend(acts[k])
    ensures Whole(states[|acts|])
    ensures |acts| <= Work(states[0]) + Stalled(acts)
    decreases |acts|
  {
    hide Whole, Work, Next, Stalls;
    if acts == [] {
      WholeHasWork(states[0]);
    } else {
      WholeStepFalls(states[0], acts[0], states[1]);
      AnswersTakeBoundedWork(states[1..], acts[1..]);
    }
  }

  lemma {:induction false} StaffRemains(states: seq<State>, acts: seq<Action>)
    requires IsExecution(states, acts) && Staffed(states[0])
    ensures Staffed(states[|acts|])
    decreases |acts|
  {
    hide Staffed, Next;
    if acts != [] {
      StaffStays(states[0], acts[0], states[1]);
      StaffRemains(states[1..], acts[1..]);
    }
  }

  /** From any reachable state, for any number of workers: the steps that move
      anything are bounded while nothing new is sent, and a standstill, where
      not even a transfer loop goes round, is reached exactly when every request
      sent has its reply. */
  lemma EverythingMovesOn(states: seq<State>, acts: seq<Action>, handlers: map<u32, Handler>, disk: Contents, tids: set<Tid>)
    requires IsExecution(states, acts) && (forall k :: 0 <= k < |acts| ==> NoSend(acts[k]))
    requires Reachable(states[0], handlers, disk, tids) && Staffed(states[0])
    ensures |acts| <= Work(states[0]) + Stalled(acts)
    ensures AtStandstill(states[|acts|]) <==> Quiet(states[|acts|])
  {
    hide Reachable, Whole, Staffed, Work, Next, Quiet;
    ReachableWhole(states[0], handlers, disk, tids);
    AnswersTakeBoundedWork(states, acts);
    StaffRemains(states, acts);
    StandstillExactlyWhenQuiet(states[|acts|]);
  }

  /** With one worker and a polite client, the standstill is in-order execution
      of everything sent: each request answered with what it would have read,
      and the file the fold of all writes. */
  lemma StandstillIsInOrder(states: seq<State>, acts: seq<Action>, w: Tid, handlers: map<u32, Handler>, disk: Contents)
    requires PoliteRun(states, acts) && Initial(states[0], handlers, disk, {w}) && RightHandlers(handlers)
    requires AtStandstill(states[|acts|])
    ensures var s := states[|acts|];
            && AllInRange(s.commands, |disk|) && s.disk == Run(s.commands, disk)
            && |s.received| == |s.commands|
            && (forall k :: 0 <= k < |s.received| ==>
                  && s.received[k].id < |s.commands|
                  && s.received[k].payload == InOrder(s.commands, disk, s.received[k].id))
            && (forall j, k :: 0 <= j < k < |s.received| ==> s.received[j].id != s.received[k].id)
  {
    hide Next, InStep, Measured, Run, InOrder, InRange, Polite, AtStandstill, Ordered;
    var s := states[|acts|];
    PipelineEqualsInOrderExecution(states, acts, w, handlers, disk);
    PoliteRunKeepsOrdered(states, acts, w, handlers, disk);
    RunKeepsWhole(states, acts, handlers, disk, {w});
    OrderedIsStaffed(s, w);
    StandstillExactlyWhenQuiet(s);
    ReceivedOnce(s);
  }

  lemma OrderedIsStaffed(s: State, w: Tid)
    requires Ordered(s, w)
    ensures Staffed(s) && w in s.workers
  {
    hide DiskSettled, Buffered, Separate;
  }

  lemma ReceivedOnce(s: State)
    requires InStep(s)
    ensures forall j, k :: 0 <= j < k < |s.received| ==> s.received[j].id != s.received[k].id
  {
    hide Accounted, Sized, Framed, Stream, PayloadSize;
    assert forall k :: 0 <= k < |s.received| ==> s.received[k] == s.frames[k];
  }
}

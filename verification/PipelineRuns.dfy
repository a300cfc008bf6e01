/** Runs of a lone worker: any requests outstanding together may be served in
    any order. */
module PipelineRuns {
  import opened Bytes
  import opened Wire
  import opened Disk
  import opened Pipeline
  import opened PipelineSafety
  import opened PipelineOrder
  import opened PipelineTheorems

  const HANDLERS: map<u32, Handler> := map[NBD_CMD_READ := ReadHandler, NBD_CMD_WRITE := WriteHandler]

  /** By the lone worker 0, from the given file. */
  ghost predicate Reached(s: State, disk: Contents)
  {
    Reachable(s, HANDLERS, disk, {0})
  }

  lemma Follow(s: State, a: Action, s': State, disk: Contents) returns (r: State)
    requires Reached(s, disk) && Next(s, a, s')
    ensures r == s' && Reached(r, disk)
  {
    hide Initial, Next;
    r := s';
    var states, acts :| IsExecution(states, acts) && Initial(states[0], HANDLERS, disk, {0}) && s == states[|acts|];
    var states', acts' := states + [s'], acts + [a];
    assert IsExecution(states', acts') && states'[0] == states[0] && states'[|acts'|] == s';
  }

  lemma NothingSent(disk: Contents) returns (s: State)
    ensures Reached(s, disk) && s.initial == disk == s.disk
    ensures s.commands == [] && s.pending == map[] && s.handlers == HANDLERS && s.accepted == 0 && s.queue == {}
    ensures s.workers == map[0 := Waiting] && s.mutex.Free? && s.heap == map[] && s.frames == []
  {
    var tids := {0};
    s := State([], map[], [], 0, HANDLERS, 0, {}, map w | w in tids :: Waiting, Free, map[], [], [], [], false, 0, disk, disk);
    assert IsExecution([s], []) && Initial([s][0], HANDLERS, disk, {0}) && s == [s][0];
  }

  /** A buffer as the request comes with it: a read's may hold anything. */
  function Buffer(c: Command): (b: seq<byte>)
    requires c.Read? || c.Write?
    ensures |b| == SizeOf(c) && Allocates(c, b)
  {
    match c
    case Read(_, _, len) => seq(len, k => 0)
    case Write(_, _, data) => data
  }

  /** Requests that may be outstanding together. */
  ghost predicate Together(cs: seq<Command>, size: nat)
  {
    && (forall i :: 0 <= i < |cs| ==> Sendable(cs[i], size))
    && (forall i, j :: 0 <= i < j < |cs| ==> cs[i].handle != cs[j].handle)
  }

  lemma TogetherInRange(cs: seq<Command>, size: nat)
    requires Together(cs, size)
    ensures AllInRange(cs, size)
  {
  }

  /** The first n of them sent, nothing else done. */
  lemma {:induction false} Sent(cs: seq<Command>, n: nat, disk: Contents) returns (s: State)
    requires Together(cs, |disk|) && n <= |cs|
    ensures Reached(s, disk) && s.initial == disk == s.disk && s.commands == cs[..n]
    ensures forall h :: h in s.pending ==> exists i :: 0 <= i < n && cs[i].handle == h
    ensures s.handlers == HANDLERS && s.accepted == 0 && s.queue == {}
    ensures s.workers == map[0 := Waiting] && s.mutex.Free? && s.heap == map[] && s.frames == []
    decreases n
  {
    hide Reached, Sendable;
    if n == 0 {
      s := NothingSent(disk);
    } else {
      var m := n - 1;
      s := Sent(cs, m, disk);
      var c := cs[m];
      var s1 := Follow(s, Action.Send(c), s.(commands := s.commands + [c], pending := s.pending[c.handle := m]), disk);
      assert cs[..n] == cs[..m] + [c];
      s := s1;
    }
  }

  /** All sent, the first n of them queued. */
  ghost predicate Queued(s: State, cs: seq<Command>, n: nat, disk: Contents)
  {
    && Reached(s, disk) && s.initial == disk == s.disk && s.commands == cs && s.handlers == HANDLERS
    && s.accepted == n && s.queue == Below(n) && s.heap.Keys == Below(n)
    && s.workers == map[0 := Waiting] && s.mutex.Free? && s.frames == []
    && forall i :: i in s.heap && i < |cs| && (cs[i].Read? || cs[i].Write?) ==> s.heap[i] == Buffer(cs[i])
  }

  lemma {:induction false} AcceptedSome(cs: seq<Command>, n: nat, disk: Contents) returns (s: State)
    requires Together(cs, |disk|) && n <= |cs|
    ensures Queued(s, cs, n, disk)
    decreases n
  {
    hide Reached, Buffer;
    if n == 0 {
      s := Sent(cs, |cs|, disk);
      assert cs[..|cs|] == cs && Below(0) == {} && s.heap.Keys == {};
    } else {
      var m := n - 1;
      s := AcceptedSome(cs, m, disk);
      s := AcceptedNext(s, cs, m, n, disk);
    }
  }

  lemma AcceptedNext(s: State, cs: seq<Command>, m: nat, n: nat, disk: Contents) returns (s': State)
    requires Queued(s, cs, m, disk) && m < |cs| && n == m + 1 && (cs[m].Read? || cs[m].Write?)
    ensures Queued(s', cs, n, disk)
  {
    hide Reached, Allocates, Sends, Takes, Seeks, Transfers, Locks, Writes, Finishes, Receives;
    var b := Buffer(cs[m]);
    s' := Follow(s, Accept(b), s.(accepted := n, queue := s.queue + {m}, heap := s.heap[m := b]), disk);
    assert s'.heap.Keys == s.heap.Keys + {m};
  }

  /** All of cs accepted, those in the queue not yet touched, the worker free. */
  ghost predicate Standing(s: State, cs: seq<Command>, disk: Contents)
  {
    && Reached(s, disk) && s.commands == cs && s.handlers == HANDLERS && s.accepted == |cs|
    && s.initial == disk && |s.disk| == |disk|
    && s.workers == map[0 := Waiting] && s.mutex.Free?
    && (forall id :: id in s.queue ==> id < |cs| && id in s.heap)
    && (forall id :: id in s.queue && (cs[id].Read? || cs[id].Write?) ==> s.heap[id] == Buffer(cs[id]))
  }

  lemma AllQueued(cs: seq<Command>, disk: Contents) returns (s: State)
    requires Together(cs, |disk|)
    ensures Standing(s, cs, disk) && s.queue == Below(|cs|) && s.disk == disk && s.frames == []
  {
    hide Reached, Buffer;
    s := AcceptedSome(cs, |cs|, disk);
  }

  /** The worker takes one request from the queue through to its reply. */
  lemma Serve(s: State, id: nat, cs: seq<Command>, disk: Contents) returns (s': State)
    requires Standing(s, cs, disk) && id in s.queue && Sendable(cs[id], |disk|)
    ensures Standing(s', cs, disk) && s'.queue == s.queue - {id} && InRange(cs[id], |s.disk|)
    ensures s'.disk == After(cs[id], s.disk)
    ensures s'.frames == s.frames + [Frame(id, cs[id].handle, Payload(cs[id], s.disk))]
  {
    hide Reached, After, Payload, InRange, FrameBytes, Buffer;
    var s1 := Follow(s, Action.Take(0, id), s.(queue := s.queue - {id}, workers := map[0 := Holding(id)]), disk);
    var s2 := Operate(s1, id, disk);
    s' := SendReply(s2, id, disk);
  }

  /** Seek, and the transfer in one turn of the loop, or in none. */
  lemma Operate(s: State, id: nat, disk: Contents) returns (s': State)
    requires Reached(s, disk) && s.handlers == HANDLERS && id < |s.commands| && id in s.heap
    requires s.workers == map[0 := Holding(id)] && |s.disk| == |disk| == |s.initial|
    requires Sendable(s.commands[id], |disk|) && s.heap[id] == Buffer(s.commands[id])
    ensures InRange(s.commands[id], |s.disk|)
    ensures Reached(s', disk) && id in s'.heap && s'.workers == map[0 := Moving(id, |s'.heap[id]|)]
    ensures s' == s.(workers := s'.workers, position := s'.position, disk := After(s.commands[id], s.disk), heap := s'.heap)
    ensures s'.heap.Keys == s.heap.Keys && (forall i :: i in s.heap && i != id ==> s'.heap[i] == s.heap[i])
    ensures FrameOf(s', id) == Frame(id, s.commands[id].handle, Payload(s.commands[id], s.disk))
  {
    hide Reached;
    var c := s.commands[id];
    SeeksIn(s, id);
    s' := Follow(s, Seek(0), s.(workers := map[0 := Moving(id, 0)], position := c.from), disk);
    if SizeOf(c) > 0 {
      var s1 := MoveAll(s', id);
      s' := Follow(s', Transfer(0, SizeOf(c)), s1, disk);
    }
  }

  lemma SeeksIn(s: State, id: nat)
    requires s.handlers == HANDLERS && id < |s.commands| && s.workers == map[0 := Holding(id)]
    requires Sendable(s.commands[id], |s.initial|)
    ensures Next(s, Seek(0), s.(workers := map[0 := Moving(id, 0)], position := s.commands[id].from))
  {
    assert s.workers[0 := Moving(id, 0)] == map[0 := Moving(id, 0)];
  }

  lemma MoveAll(s: State, id: nat) returns (s': State)
    requires s.handlers == HANDLERS && id < |s.commands| && id in s.heap && s.workers == map[0 := Moving(id, 0)]
    requires Sendable(s.commands[id], |s.disk|) && s.position == s.commands[id].from
    requires s.heap[id] == Buffer(s.commands[id]) && SizeOf(s.commands[id]) > 0
    ensures Next(s, Transfer(0, SizeOf(s.commands[id])), s')
    ensures s' == s.(workers := map[0 := Moving(id, |s.heap[id]|)], position := s'.position,
                     disk := After(s.commands[id], s.disk), heap := s'.heap)
    ensures s'.heap.Keys == s.heap.Keys && (forall i :: i in s.heap && i != id ==> s'.heap[i] == s.heap[i])
    ensures |s'.heap[id]| == |s.heap[id]|
    ensures s.commands[id].Read? ==> s'.heap[id] == Payload(s.commands[id], s.disk)
  {
    hide ReadsOn, WritesOn, Sendable, Buffer, Splice, Payload;
    if s.commands[id].Read? {
      s' := ReadAll(s, id);
    } else {
      s' := WriteAll(s, id);
    }
  }

  lemma ReadAll(s: State, id: nat) returns (s': State)
    requires id < |s.commands| && id in s.heap && s.workers == map[0 := Moving(id, 0)] && s.commands[id].Read?
    requires Sendable(s.commands[id], |s.disk|) && s.position == s.commands[id].from
    requires s.heap[id] == Buffer(s.commands[id]) && SizeOf(s.commands[id]) > 0
    ensures ReadsOn(s, 0, id, 0, SizeOf(s.commands[id]), s')
    ensures s' == s.(workers := map[0 := Moving(id, |s.heap[id]|)], position := s'.position, heap := s'.heap)
    ensures s'.heap.Keys == s.heap.Keys && (forall i :: i in s.heap && i != id ==> s'.heap[i] == s.heap[i])
    ensures |s'.heap[id]| == |s.heap[id]|
    ensures InRange(s.commands[id], |s.disk|) && s'.heap[id] == Payload(s.commands[id], s.disk)
  {
    var c, n := s.commands[id], SizeOf(s.commands[id]);
    assert s.workers[0 := Moving(id, 0 + n)] == map[0 := Moving(id, n)];
    var bytes := s.disk[s.position..s.position + n];
    var buffer := Splice(s.heap[id], 0, bytes);
    assert buffer == bytes == Slice(s.disk, c.from, c.len);
    s' := s.(workers := map[0 := Moving(id, n)], position := s.position + n, heap := s.heap[id := buffer]);
  }

  lemma WriteAll(s: State, id: nat) returns (s': State)
    requires id < |s.commands| && id in s.heap && s.workers == map[0 := Moving(id, 0)] && s.commands[id].Write?
    requires Sendable(s.commands[id], |s.disk|) && s.position == s.commands[id].from
    requires s.heap[id] == Buffer(s.commands[id]) && SizeOf(s.commands[id]) > 0
    ensures WritesOn(s, 0, id, 0, SizeOf(s.commands[id]), s')
    ensures InRange(s.commands[id], |s.disk|)
    ensures s' == s.(workers := map[0 := Moving(id, |s.heap[id]|)], position := s'.position,
                     disk := After(s.commands[id], s.disk))
  {
    hide Splice;
    var c, n := s.commands[id], SizeOf(s.commands[id]);
    assert s.workers[0 := Moving(id, 0 + n)] == map[0 := Moving(id, n)];
    assert s.heap[id][0..0 + n] == c.data;
    s' := s.(workers := map[0 := Moving(id, n)], position := s.position + n, disk := WriteAt(s.disk, s.position, c.data));
  }

  lemma SendReply(s: State, id: nat, disk: Contents) returns (s': State)
    requires Reached(s, disk) && id < |s.commands| && id in s.heap
    requires s.workers == map[0 := Moving(id, |s.heap[id]|)] && s.mutex.Free?
    ensures Reached(s', disk)
    ensures s' == s.(workers := map[0 := Waiting], heap := s.heap - {id}, freed := s'.freed,
                     frames := s.frames + [FrameOf(s, id)], outgoing := s'.outgoing)
  {
    hide Reached, Sends, Accepts, Takes, Seeks, Transfers, Writes, Receives, FrameBytes;
    FrameIsWhole(FrameOf(s, id));
    var s1 := Follow(s, Lock(0), s.(workers := map[0 := Sending(id, 0)], mutex := HeldBy(0)), disk);
    var s2 := WriteFrame(s1, id, disk);
    s' := Follow(s2, Finish(0), s2.(workers := map[0 := Waiting], mutex := Free, heap := s2.heap - {id}, freed := s2.freed + [id]), disk);
  }

  /** The header by one write and the data, if there is any, by another. */
  lemma WriteFrame(s: State, id: nat, disk: Contents) returns (s': State)
    requires Reached(s, disk) && id < |s.commands| && id in s.heap && s.workers == map[0 := Sending(id, 0)]
    ensures Reached(s', disk)
    ensures s' == s.(workers := map[0 := Sending(id, |FrameBytes(FrameOf(s, id))|)],
                     frames := s.frames + [FrameOf(s, id)], outgoing := s'.outgoing)
  {
    hide Reached, FrameBytes, Sends, Accepts, Takes, Seeks, Transfers, Locks, Finishes, Receives;
    var f := FrameOf(s, id);
    var bytes, all := FrameBytes(f), |FrameBytes(f)|;
    FrameIsWhole(f);
    var frames := if all == REPLY_SIZE then s.frames + [f] else s.frames;
    s' := Follow(s, Action.Write(0, REPLY_SIZE), s.(workers := map[0 := Sending(id, REPLY_SIZE)],
                                              outgoing := s.outgoing + bytes[0..REPLY_SIZE], frames := frames), disk);
    if all > REPLY_SIZE {
      s' := WriteRest(s', id, f, disk);
    }
  }

  lemma WriteRest(s: State, id: nat, f: Frame, disk: Contents) returns (s': State)
    requires Reached(s, disk) && id < |s.commands| && id in s.heap && f == FrameOf(s, id)
    requires s.workers == map[0 := Sending(id, REPLY_SIZE)] && |FrameBytes(f)| > REPLY_SIZE
    ensures Reached(s', disk)
    ensures s' == s.(workers := map[0 := Sending(id, |FrameBytes(f)|)], frames := s.frames + [f], outgoing := s'.outgoing)
  {
    hide Reached, FrameBytes, Sends, Accepts, Takes, Seeks, Transfers, Locks, Finishes, Receives;
    var bytes, all := FrameBytes(f), |FrameBytes(f)|;
    s' := Follow(s, Action.Write(0, all - REPLY_SIZE), s.(workers := map[0 := Sending(id, all)],
                                              outgoing := s.outgoing + bytes[REPLY_SIZE..all], frames := s.frames + [f]), disk);
  }

  /** Everything in the queue but one request, in some order. */
  lemma {:induction false} ServeAllBut(s: State, keep: nat, cs: seq<Command>, disk: Contents) returns (s': State)
    requires Standing(s, cs, disk) && Together(cs, |disk|) && keep in s.queue
    ensures Standing(s', cs, disk) && s'.queue == {keep}
    decreases |s.queue|
  {
    hide Reached, Buffer, Sendable, After, Payload, InRange;
    if id :| id in s.queue && id != keep {
      var s1 := Serve(s, id, cs, disk);
      assert |s1.queue| == |s.queue| - 1;
      s' := ServeAllBut(s1, keep, cs, disk);
    } else {
      s' := s;
      assert s.queue == {keep};
    }
  }

  /** Every frame written, and the file at rest, are those of arrival order. */
  ghost predicate InOrderSoFar(s: State, disk: Contents)
    requires AllInRange(s.commands, |disk|)
  {
    && (forall k :: 0 <= k < |s.frames| ==>
          s.frames[k].id < |s.commands| && s.frames[k].payload == InOrder(s.commands, disk, s.frames[k].id))
    && (AtRest(s, 0) ==> s.disk == Run(s.commands, disk))
  }

  /** All runs of a lone worker on these commands. */
  ghost predicate AlwaysInOrder(cs: seq<Command>, disk: Contents)
    requires AllInRange(cs, |disk|)
  {
    forall s :: Reached(s, disk) && s.commands == cs ==> InOrderSoFar(s, disk)
  }

  lemma SettledInOrder(s: State, disk: Contents)
    requires InStep(s) && Settled(s, 0) && s.initial == disk && AllInRange(s.commands, |disk|)
    ensures InOrderSoFar(s, disk)
  {
    hide InStep, Settled, InOrder, InRange, AtRest;
    SettledFrames(s, 0);
    if AtRest(s, 0) {
      AllApplied(s, 0);
    }
  }

  lemma CommandsOnlyGrow(s: State, a: Action, s': State)
    requires Next(s, a, s')
    ensures s.commands <= s'.commands
  {
    hide Splice, WriteAt, MayMove, Sendable, Understands, FrameBytes, Allocates;
  }

  lemma SettledMeansWorker(s: State)
    requires Settled(s, 0)
    ensures 0 in s.workers
  {
    hide DiskSettled, Buffered;
  }

  lemma InitiallySettled(s: State, handlers: map<u32, Handler>, disk: Contents)
    requires Initial(s, handlers, disk, {0}) && RightHandlers(handlers)
    ensures Settled(s, 0) && s.initial == disk
  {
    InitiallyOrdered(s, 0, handlers, disk);
    StartsFrom(s, handlers, disk, 0);
  }
}

/** One worker: whatever order the queue hands requests out in, and however its
    transfers are split, the file and every reply are those of executing the
    requests in arrival order, provided the client never has two clashing
    requests outstanding. */
module PipelineOrder {
  import opened Bytes
  import opened Wire
  import opened Disk
  import opened Pipeline
  import opened PipelineSafety

  /** What a client can check before it sends c. */
  ghost predicate Polite(s: State, c: Command)
  {
    forall h :: h in s.pending && s.pending[h] < |s.commands| ==> !Clash(s.commands[s.pending[h]], c)
  }

  ghost predicate PoliteRun(states: seq<State>, acts: seq<Action>)
  {
    IsExecution(states, acts) && forall k :: 0 <= k < |acts| && acts[k].Send? ==> Polite(states[k], acts[k].c)
  }

  /** An unanswered command clashes with nothing sent after it. */
  ghost predicate Separate(s: State)
  {
    forall i: nat, j: nat :: i < j < |s.commands| && Clash(s.commands[i], s.commands[j]) ==> Received(s.received, i)
  }

  /** w is inside its transfer. */
  ghost predicate Midway(s: State, w: Tid)
    requires w in s.workers
  {
    s.workers[w].Moving? && s.workers[w].id in s.heap && s.workers[w].done < |s.heap[s.workers[w].id]|
  }

  /** The commands whose memory operation is over. */
  ghost function Applied(s: State, w: Tid): set<nat>
    requires w in s.workers
  {
    Below(s.accepted) - s.queue - (if s.workers[w].Holding? || Midway(s, w) then {s.workers[w].id} else {})
  }

  /** The data a reply to command i carries when everything before it, and
      nothing else, has taken effect. */
  function InOrder(cs: seq<Command>, initial: Contents, i: nat): (s: seq<byte>)
    requires i < |cs| && AllInRange(cs, |initial|)
  {
    Payload(cs[i], Run(cs[..i], initial))
  }

  ghost predicate RightHandlers(handlers: map<u32, Handler>)
  {
    && NBD_CMD_READ in handlers && handlers[NBD_CMD_READ] == ReadHandler
    && NBD_CMD_WRITE in handlers && handlers[NBD_CMD_WRITE] == WriteHandler
  }

  ghost predicate DiskHolds(cs: seq<Command>, done: set<nat>, initial: Contents, disk: Contents)
  {
    |disk| == |initial| && forall p :: 0 <= p < |disk| ==> disk[p] == LatestByte(cs, done, initial, p)
  }

  /** The same, but for the first k bytes of c, which are written already. */
  ghost predicate DiskMidway(cs: seq<Command>, done: set<nat>, initial: Contents, disk: Contents, c: Command, k: nat)
    requires c.Write? && k <= |c.data|
  {
    |disk| == |initial|
    && forall p :: 0 <= p < |disk| ==>
         disk[p] == if c.from <= p < c.from + k then c.data[p - c.from] else LatestByte(cs, done, initial, p)
  }

  ghost predicate Buffered(s: State, done: set<nat>)
    requires AllInRange(s.commands, |s.initial|)
  {
    && (forall id :: id in s.heap && id < |s.commands| && s.commands[id].Write? ==> s.heap[id] == s.commands[id].data)
    && (forall id :: id in s.heap && id < |s.commands| && s.commands[id].Read? && id in done ==>
          s.heap[id] == InOrder(s.commands, s.initial, id))
    && (forall k :: 0 <= k < |s.frames| && s.frames[k].id < |s.commands| ==>
          s.frames[k].payload == InOrder(s.commands, s.initial, s.frames[k].id))
  }

  /** Where the transfer of command i stands after k bytes. */
  ghost predicate TransferSettled(s: State, done: set<nat>, i: nat, k: nat)
    requires AllInRange(s.commands, |s.initial|) && i in s.heap
  {
    && i < |s.commands| && (s.commands[i].Read? || s.commands[i].Write?)
    && |s.heap[i]| == SizeOf(s.commands[i]) && k <= |s.heap[i]|
    && s.position == s.commands[i].from + k
    && (s.commands[i].Read? ==>
          DiskHolds(s.commands, done, s.initial, s.disk)
          && s.heap[i][..k] == InOrder(s.commands, s.initial, i)[..k])
    && (s.commands[i].Write? ==> DiskMidway(s.commands, done, s.initial, s.disk, s.commands[i], k))
  }

  ghost predicate DiskSettled(s: State, w: Tid)
    requires w in s.workers && AllInRange(s.commands, |s.initial|)
  {
    if Midway(s, w) then TransferSettled(s, Applied(s, w), s.workers[w].id, s.workers[w].done)
    else DiskHolds(s.commands, Applied(s, w), s.initial, s.disk)
  }

  /** The lone worker w has applied what it has as if in arrival order. */
  ghost predicate Settled(s: State, w: Tid)
  {
    && s.workers.Keys == {w} && RightHandlers(s.handlers)
    && AllInRange(s.commands, |s.initial|)
    && DiskSettled(s, w)
    && Buffered(s, Applied(s, w))
  }

  /** Applying command i next does not break that: a read sees what in-order
      execution shows it, a write leaves the latest bytes by arrival. */
  ghost predicate Harmless(cs: seq<Command>, done: set<nat>, initial: Contents, i: nat)
  {
    && i < |cs| && AllInRange(cs, |initial|)
    && (cs[i].Read? ==> forall k: nat :: k < cs[i].len ==>
          LatestByte(cs, done, initial, cs[i].from + k) == InOrder(cs, initial, i)[k])
    && (cs[i].Write? ==> forall p: nat :: p < |initial| ==>
          LatestByte(cs, done + {i}, initial, p)
          == if Covers(cs[i], p) then cs[i].data[p - cs[i].from] else LatestByte(cs, done, initial, p))
  }

  ghost predicate Ordered(s: State, w: Tid)
  {
    Settled(s, w) && Separate(s)
  }

  // ---- The two operations ----

  /** A read is harmless where nothing it clashes with is on the wrong side. */
  lemma ReadIsInOrder(cs: seq<Command>, done: set<nat>, initial: Contents, i: nat)
    requires AllInRange(cs, |initial|) && i < |cs| && cs[i].Read?
    requires forall k: nat :: k < i && k !in done ==> !Clash(cs[k], cs[i])
    requires forall k: nat :: i < k < |cs| && k in done ==> !Clash(cs[i], cs[k])
    ensures Harmless(cs, done, initial, i)
  {
    hide LatestByte, Run, InOrder, Clash;
    InOrderSize(cs, initial, i);
    forall k: nat | k < cs[i].len
      ensures LatestByte(cs, done, initial, cs[i].from + k) == InOrder(cs, initial, i)[k]
    {
      ReadByteIsInOrder(cs, done, initial, i, k);
    }
  }

  lemma ReadByteIsInOrder(cs: seq<Command>, done: set<nat>, initial: Contents, i: nat, k: nat)
    requires AllInRange(cs, |initial|) && i < |cs| && cs[i].Read? && k < cs[i].len
    requires forall j: nat :: j < i && j !in done ==> !Clash(cs[j], cs[i])
    requires forall j: nat :: i < j < |cs| && j in done ==> !Clash(cs[i], cs[j])
    ensures LatestByte(cs, done, initial, cs[i].from + k) == InOrder(cs, initial, i)[k]
  {
    hide LatestByte, Run;
    var p, before, all := cs[i].from + k, cs[..i], Below(i);
    forall j: nat | i <= j < |cs| && Covers(cs[j], p) ensures j !in done {
      assert j != i ==> Conflict(cs[i], cs[j]);
    }
    LatestStopsAt(cs, i, done, initial, p);
    forall j: nat | j < |before| && Covers(before[j], p) ensures j in done {
      assert Conflict(cs[j], cs[i]);
    }
    LatestDependsOn(before, done, all, initial, p);
    PayloadHoldsLatest(before, cs[i], all, initial, k);
  }

  /** A write is harmless where no later command it clashes with is applied. */
  lemma WriteIsInOrder(cs: seq<Command>, done: set<nat>, initial: Contents, i: nat)
    requires AllInRange(cs, |initial|) && i < |cs| && cs[i].Write?
    requires forall k: nat :: i < k < |cs| && k in done ==> !Clash(cs[i], cs[k])
    ensures Harmless(cs, done, initial, i)
  {
    hide LatestByte, Clash;
    forall p: nat | p < |initial|
      ensures LatestByte(cs, done + {i}, initial, p)
           == if Covers(cs[i], p) then cs[i].data[p - cs[i].from] else LatestByte(cs, done, initial, p)
    {
      if Covers(cs[i], p) {
        forall k: nat | i < k < |cs| && k in done + {i} && Covers(cs[k], p)
          ensures cs[k].data[p - cs[k].from] == cs[i].data[p - cs[i].from]
        {
          SharedByte(cs[i], cs[k], p);
        }
        LatestAgrees(cs, done + {i}, initial, i, p);
      } else {
        LatestDependsOn(cs, done, done + {i}, initial, p);
      }
    }
  }

  lemma SharedByte(c: Command, d: Command, p: nat)
    requires Covers(c, p) && Covers(d, p) && !Clash(c, d)
    ensures c.data[p - c.from] == d.data[p - d.from]
  {
  }

  lemma {:induction false} LatestAgrees(cs: seq<Command>, done: set<nat>, initial: Contents, i: nat, p: nat)
    requires i < |cs| && i in done && p < |initial| && Covers(cs[i], p)
    requires forall k: nat :: i < k < |cs| && k in done && Covers(cs[k], p) ==>
               cs[k].data[p - cs[k].from] == cs[i].data[p - cs[i].from]
    ensures LatestByte(cs, done, initial, p) == cs[i].data[p - cs[i].from]
    decreases |cs|
  {
    var n := |cs| - 1;
    if i < n && !(n in done && Covers(cs[n], p)) {
      LatestAgrees(cs[..n], done, initial, i, p);
    }
  }

  // ---- The steps ----

  lemma SendKeepsSeparate(s: State, c: Command, s': State)
    requires Answered(s) && Synchronised(s) && Separate(s) && Sends(s, c, s') && Polite(s, c)
    ensures Separate(s')
  {
    hide Clash, Sendable, Stream, PayloadSize;
    forall i: nat, j: nat | i < j < |s'.commands| && Clash(s'.commands[i], s'.commands[j])
      ensures Received(s'.received, i)
    {
      assert s'.commands[i] == s.commands[i];
      if j < |s.commands| {
        assert s'.commands[j] == s.commands[j];
      }
    }
  }

  lemma OthersKeepSeparate(s: State, a: Action, s': State)
    requires Separate(s) && Next(s, a, s') && !a.Send?
    ensures Separate(s')
  {
    hide Clash, Understands, FrameBytes, Splice, WriteAt, MayMove, Sendable, Allocates;
    forall i: nat | Received(s.received, i) ensures Received(s'.received, i) {
      var k :| 0 <= k < |s.received| && s.received[k].id == i;
      assert s'.received[k].id == i;
    }
  }

  lemma SendKeepsLatest(cs: seq<Command>, c: Command, done: set<nat>, initial: Contents, p: nat)
    requires p < |initial| && |cs| !in done
    ensures LatestByte(cs + [c], done, initial, p) == LatestByte(cs, done, initial, p)
  {
    hide LatestByte;
    LatestStopsAt(cs + [c], |cs|, done, initial, p);
    assert (cs + [c])[..|cs|] == cs;
  }

  lemma SendKeepsDisk(cs: seq<Command>, c: Command, done: set<nat>, initial: Contents, disk: Contents)
    requires DiskHolds(cs, done, initial, disk) && |cs| !in done
    ensures DiskHolds(cs + [c], done, initial, disk)
  {
    hide LatestByte;
    forall p | 0 <= p < |disk| ensures disk[p] == LatestByte(cs + [c], done, initial, p) {
      SendKeepsLatest(cs, c, done, initial, p);
    }
  }

  lemma SendKeepsDiskMidway(cs: seq<Command>, c: Command, done: set<nat>, initial: Contents, disk: Contents, d: Command, k: nat)
    requires d.Write? && k <= |d.data|
    requires DiskMidway(cs, done, initial, disk, d, k) && |cs| !in done
    ensures DiskMidway(cs + [c], done, initial, disk, d, k)
  {
    hide LatestByte;
    forall p | 0 <= p < |disk| ensures LatestByte(cs + [c], done, initial, p) == LatestByte(cs, done, initial, p) {
      SendKeepsLatest(cs, c, done, initial, p);
    }
  }

  lemma SendKeepsInOrder(cs: seq<Command>, c: Command, initial: Contents, i: nat)
    requires AllInRange(cs + [c], |initial|) && AllInRange(cs, |initial|) && i < |cs|
    ensures InOrder(cs + [c], initial, i) == InOrder(cs, initial, i)
  {
    assert (cs + [c])[..i] == cs[..i];
  }

  lemma SendKeepsBuffered(s: State, c: Command, s': State, done: set<nat>)
    requires AllInRange(s.commands, |s.initial|) && AllInRange(s'.commands, |s'.initial|)
    requires Sized(s) && Answered(s) && Buffered(s, done) && Sends(s, c, s')
    ensures Buffered(s', done)
  {
    hide InOrder, Sendable, SizeOf, PayloadSize;
    forall i: nat | i < |s.commands| ensures InOrder(s'.commands, s'.initial, i) == InOrder(s.commands, s.initial, i) {
      SendKeepsInOrder(s.commands, c, s.initial, i);
    }
  }

  lemma SendKeepsTransfer(s: State, c: Command, s': State, done: set<nat>, i: nat, k: nat)
    requires AllInRange(s.commands, |s.initial|) && AllInRange(s'.commands, |s'.initial|) && i in s.heap
    requires TransferSettled(s, done, i, k) && Sends(s, c, s') && |s.commands| !in done
    ensures TransferSettled(s', done, i, k)
  {
    hide InOrder, Sendable, DiskHolds, DiskMidway, InRange;
    assert s'.commands[i] == s.commands[i];
    if s.commands[i].Read? {
      SendKeepsDisk(s.commands, c, done, s.initial, s.disk);
      SendKeepsInOrder(s.commands, c, s.initial, i);
    } else {
      SendKeepsDiskMidway(s.commands, c, done, s.initial, s.disk, s.commands[i], k);
    }
  }

  lemma SendKeepsSettled(s: State, w: Tid, c: Command, s': State)
    requires InStep(s) && Settled(s, w) && Sends(s, c, s')
    ensures Settled(s', w)
  {
    hide Accounted, Framed, DiskHolds, TransferSettled, Buffered, Ids, Distinct, NoTwice, SetOf, LatestByte, InRange;
    assert AllInRange(s'.commands, |s'.initial|);
    assert Midway(s', w) == Midway(s, w) && Applied(s', w) == Applied(s, w);
    AppliedIsAccepted(s, w);
    if Midway(s, w) {
      SendKeepsTransfer(s, c, s', Applied(s, w), s.workers[w].id, s.workers[w].done);
    } else {
      SendKeepsDisk(s.commands, c, Applied(s, w), s.initial, s.disk);
    }
    SendKeepsBuffered(s, c, s', Applied(s, w));
  }

  lemma AppliedIsAccepted(s: State, w: Tid)
    requires Accounted(s) && w in s.workers
    ensures |s.commands| !in Applied(s, w) && s.accepted !in Applied(s, w)
    ensures s.workers[w].Holding? || Midway(s, w) ==> s.workers[w].id !in Applied(s, w)
  {
  }

  /** Steps that touch neither the file nor what has been applied. */
  lemma SettledElsewhere(s: State, w: Tid, s': State)
    requires Settled(s, w) && w in s'.workers && s'.workers.Keys == s.workers.Keys
    requires s'.commands == s.commands && s'.initial == s.initial && s'.disk == s.disk && s'.handlers == s.handlers
    requires Midway(s', w) <==> Midway(s, w)
    requires Midway(s, w) ==>
               s'.workers[w] == s.workers[w] && s'.position == s.position
               && s'.heap[s.workers[w].id] == s.heap[s.workers[w].id]
    requires Applied(s', w) == Applied(s, w) && Buffered(s', Applied(s, w))
    ensures Settled(s', w)
  {
    hide DiskHolds, DiskMidway, Buffered, InOrder, InRange;
  }

  lemma AcceptKeepsSettled(s: State, w: Tid, buffer: seq<byte>, s': State)
    requires InStep(s) && Settled(s, w) && Accepts(s, buffer, s')
    ensures Settled(s', w)
  {
    hide Sized, Framed, Synchronised, Answered, DiskSettled, InOrder, InRange, Ids, Distinct, NoTwice, SetOf;
    AppliedIsAccepted(s, w);
    NotInHand(s, w);
    AcceptAppliesNothing(s, w, s');
    SettledElsewhere(s, w, s');
  }

  lemma NotInHand(s: State, w: Tid)
    requires Accounted(s) && w in s.workers
    ensures s.workers[w] != Waiting ==> IdOf(s.workers[w]) != s.accepted && IdOf(s.workers[w]) in s.heap
  {
    if s.workers[w] != Waiting {
      InHandInHeap(s, w);
    }
  }

  lemma AcceptAppliesNothing(s: State, w: Tid, s': State)
    requires w in s.workers && w in s'.workers && s'.workers == s.workers
    requires Midway(s', w) == Midway(s, w)
    requires s'.accepted == s.accepted + 1 && s'.queue == s.queue + {s.accepted}
    ensures Applied(s', w) == Applied(s, w)
  {
  }

  lemma TakeKeepsSettled(s: State, w: Tid, v: Tid, id: nat, s': State)
    requires Settled(s, w) && Takes(s, v, id, s')
    ensures Settled(s', w)
  {
    hide DiskSettled, InOrder, InRange;
    assert v == w;
    assert Applied(s', w) == Applied(s, w);
    SettledElsewhere(s, w, s');
  }

  lemma LockKeepsSettled(s: State, w: Tid, v: Tid, s': State)
    requires Settled(s, w) && Locks(s, v, s')
    ensures Settled(s', w)
  {
    hide DiskSettled, InOrder, InRange;
    assert v == w;
    assert Applied(s', w) == Applied(s, w);
    SettledElsewhere(s, w, s');
  }

  lemma FinishKeepsSettled(s: State, w: Tid, v: Tid, s': State)
    requires Settled(s, w) && Finishes(s, v, s')
    ensures Settled(s', w)
  {
    hide DiskSettled, InOrder, InRange, FrameBytes;
    assert v == w;
    assert Applied(s', w) == Applied(s, w);
    SettledElsewhere(s, w, s');
  }

  lemma ReceiveKeepsSettled(s: State, w: Tid, s': State)
    requires Settled(s, w) && Receives(s, s')
    ensures Settled(s', w)
  {
    hide DiskSettled, InOrder, InRange, FrameBytes, Understands;
    var f :| Understands(s, f) && Moves(s, f, s');
    assert Applied(s', w) == Applied(s, w);
    SettledElsewhere(s, w, s');
  }

  /** A frame completed by the lone worker carries what its buffer holds. */
  lemma WriteKeepsSettled(s: State, w: Tid, v: Tid, k: nat, s': State)
    requires InStep(s) && Settled(s, w) && Writes(s, v, k, s')
    ensures Settled(s', w)
  {
    hide Sized, Framed, Synchronised, Answered, DiskSettled, InOrder, InRange, FrameBytes, Accounted;
    assert v == w;
    assert Applied(s', w) == Applied(s, w);
    var id := s.workers[w].id;
    SenderIsApplied(s, w);
    assert s'.frames == s.frames || s'.frames == s.frames + [FrameOf(s, id)];
    FrameCarriesBuffer(s, id);
    SettledElsewhere(s, w, s');
  }

  lemma SenderIsApplied(s: State, w: Tid)
    requires Accounted(s) && w in s.workers && s.workers[w].Sending?
    ensures s.workers[w].id in Applied(s, w)
  {
    InHandInHeap(s, w);
  }

  lemma FrameCarriesBuffer(s: State, id: nat)
    requires AllInRange(s.commands, |s.initial|) && id < |s.commands| && id in s.heap
    requires s.commands[id].Read? ==> s.heap[id] == InOrder(s.commands, s.initial, id)
    ensures FrameOf(s, id).payload == InOrder(s.commands, s.initial, id)
  {
  }

  // ---- The memory operation ----

  /** The command in the worker's hands clashes with none that is applied and
      came later, and none that is not applied and came earlier. */
  lemma HeldIsSeparate(s: State, w: Tid, i: nat)
    requires InStep(s) && Ordered(s, w) && (s.workers[w].Holding? || Midway(s, w)) && i == s.workers[w].id
    ensures i < s.accepted <= |s.commands| && i !in Applied(s, w)
    ensures forall k: nat :: i < k < |s.commands| ==> !Clash(s.commands[i], s.commands[k])
    ensures forall k: nat :: k < i && k !in Applied(s, w) ==> !Clash(s.commands[k], s.commands[i])
  {
    hide Sized, Framed, DiskSettled, Buffered, Clash, InRange;
    InHandInHeap(s, w);
    NotAppliedNotReceived(s, w, i);
    forall k: nat | k < i && k !in Applied(s, w) ensures !Clash(s.commands[k], s.commands[i]) {
      NotAppliedNotReceived(s, w, k);
    }
  }

  /** An accepted request whose memory operation is not over has no reply. */
  lemma NotAppliedNotReceived(s: State, w: Tid, i: nat)
    requires InStep(s) && w in s.workers && i < s.accepted && i !in Applied(s, w)
    ensures !Received(s.received, i)
  {
    hide Sized, Answered, Stream, FrameBytes, Applied;
    if Received(s.received, i) {
      var k :| 0 <= k < |s.received| && s.received[k].id == i;
      assert s.received[k] == s.frames[k];
      FramesAreApplied(s, w, k);
      assert false;
    }
  }

  lemma FramesAreApplied(s: State, w: Tid, k: nat)
    requires Accounted(s) && Framed(s) && w in s.workers && k < |s.frames|
    ensures s.frames[k].id in Below(s.accepted) ==> s.frames[k].id in Applied(s, w)
  {
    hide Stream, FrameBytes;
    if k < |s.freed| {
      assert s.freed[k] in SetOf(s.freed);
      if s.workers[w] != Waiting {
        assert IdOf(s.workers[w]) in Ids(s.workers);
      }
    } else {
      var v := s.mutex.w;
      assert PartlySent(s, s.workers[v].id, s.workers[v].sent);
      InHandInHeap(s, v);
      if s.workers[w] != Waiting && v != w {
        NobodyElseHas(s, v, w);
      }
    }
  }

  lemma ReadKeepsDisk(cs: seq<Command>, done: set<nat>, initial: Contents, disk: Contents, i: nat)
    requires DiskHolds(cs, done, initial, disk) && i < |cs| && (cs[i].Write? ==> cs[i].data == [])
    ensures DiskHolds(cs, done + {i}, initial, disk)
  {
    hide LatestByte;
    forall p | 0 <= p < |disk| ensures disk[p] == LatestByte(cs, done + {i}, initial, p) {
      LatestDependsOn(cs, done, done + {i}, initial, p);
    }
  }

  /** What the worker has is whole, and in range. */
  lemma HeldIsWhole(s: State, w: Tid)
    requires InStep(s) && Settled(s, w) && (s.workers[w].Holding? || s.workers[w].Moving?)
    ensures var i := s.workers[w].id;
            && i in s.heap && i < |s.commands| && Sendable(s.commands[i], |s.initial|)
            && |s.heap[i]| == SizeOf(s.commands[i]) && i in Below(s.accepted) && i !in s.queue
  {
    hide Framed, Answered, Synchronised, Buffered, DiskSettled;
    InHandInHeap(s, w);
  }

  lemma SeekKeepsSettled(s: State, w: Tid, v: Tid, s': State)
    requires InStep(s) && Settled(s, w) && Seeks(s, v, s')
    ensures Settled(s', w)
  {
    hide InStep, DiskHolds, Buffered, InOrder, InRange;
    assert v == w;
    HeldIsWhole(s, w);
    var i, done := s.workers[w].id, Applied(s, w);
    if |s.heap[i]| == 0 {
      assert Applied(s', w) == done + {i};
      ReadKeepsDisk(s.commands, done, s.initial, s.disk, i);
      EmptyIsBuffered(s, s', done, i);
    } else {
      assert Applied(s', w) == done;
      NothingMoved(s', done, i);
      BufferedElsewhere(s, s', done);
    }
  }

  lemma EmptyIsBuffered(s: State, s': State, done: set<nat>, i: nat)
    requires AllInRange(s.commands, |s.initial|) && Buffered(s, done) && i in s.heap && s.heap[i] == []
    requires i < |s.commands| && Sendable(s.commands[i], |s.initial|) && SizeOf(s.commands[i]) == 0
    requires s'.commands == s.commands && s'.initial == s.initial && s'.heap == s.heap && s'.frames == s.frames
    ensures Buffered(s', done + {i})
  {
  }

  lemma BufferedElsewhere(s: State, s': State, done: set<nat>)
    requires AllInRange(s.commands, |s.initial|) && Buffered(s, done)
    requires s'.commands == s.commands && s'.initial == s.initial && s'.heap == s.heap && s'.frames == s.frames
    ensures Buffered(s', done)
  {
    hide InOrder;
  }

  lemma NothingMoved(s: State, done: set<nat>, i: nat)
    requires AllInRange(s.commands, |s.initial|) && i in s.heap && i < |s.commands|
    requires (s.commands[i].Read? || s.commands[i].Write?) && |s.heap[i]| == SizeOf(s.commands[i])
    requires s.position == s.commands[i].from && DiskHolds(s.commands, done, s.initial, s.disk)
    ensures TransferSettled(s, done, i, 0)
  {
    hide InOrder, LatestByte;
  }

  /** One turn of the lone worker's read loop. */
  lemma ReadMovesOn(s: State, w: Tid, k: nat, s': State, i: nat, at: nat, done: set<nat>)
    requires AllInRange(s.commands, |s.initial|) && i in s.heap && TransferSettled(s, done, i, at) && s.commands[i].Read?
    requires Harmless(s.commands, done, s.initial, i)
    requires w in s.workers && at < |s.heap[i]| && ReadsOn(s, w, i, at, k, s')
    ensures TransferSettled(s', done, i, at + k)
  {
    hide LatestByte, InOrder;
    var c := s.commands[i];
    assert InRange(c, |s.disk|) && s.position + (|s.heap[i]| - at) <= |s.disk|;
    var expected, buffer := InOrder(s.commands, s.initial, i), s'.heap[i];
    InOrderSize(s.commands, s.initial, i);
    forall j | 0 <= j < at + k ensures buffer[j] == expected[j] {
      if j < at {
        assert s.heap[i][..at][j] == expected[..at][j];
      } else {
        assert buffer[j] == s.disk[c.from + j];
      }
    }
  }

  lemma InOrderSize(cs: seq<Command>, initial: Contents, i: nat)
    requires i < |cs| && AllInRange(cs, |initial|)
    ensures |InOrder(cs, initial, i)| == PayloadSize(cs[i])
  {
  }

  /** One turn of the lone worker's write loop. */
  lemma WriteMovesOn(s: State, w: Tid, k: nat, s': State, i: nat, at: nat, done: set<nat>)
    requires AllInRange(s.commands, |s.initial|) && i in s.heap && TransferSettled(s, done, i, at) && s.commands[i].Write?
    requires s.heap[i] == s.commands[i].data
    requires w in s.workers && at < |s.heap[i]| && WritesOn(s, w, i, at, k, s')
    ensures TransferSettled(s', done, i, at + k)
  {
    hide LatestByte, InOrder;
    var c := s.commands[i];
    assert InRange(c, |s.disk|);
  }

  /** The transfer of command i, still going on or over. */
  lemma TransferOver(s: State, done: set<nat>, i: nat)
    requires AllInRange(s.commands, |s.initial|) && i in s.heap && TransferSettled(s, done, i, |s.heap[i]|)
    requires Harmless(s.commands, done, s.initial, i)
    ensures DiskHolds(s.commands, done + {i}, s.initial, s.disk)
    ensures s.commands[i].Read? ==> s.heap[i] == InOrder(s.commands, s.initial, i)
  {
    hide LatestByte, InOrder;
    var c := s.commands[i];
    if c.Read? {
      ReadKeepsDisk(s.commands, done, s.initial, s.disk, i);
      InOrderSize(s.commands, s.initial, i);
      assert s.heap[i][..|s.heap[i]|] == s.heap[i];
    }
  }

  /** Whoever the client is: what matters is that the operation is harmless. */
  ghost predicate HandlesHarmlessly(s: State, w: Tid)
    requires w in s.workers
  {
    Midway(s, w) && Harmless(s.commands, Applied(s, w), s.initial, s.workers[w].id)
  }

  /** One turn of the loop, whichever handler runs it. */
  lemma MovesOn(s: State, w: Tid, k: nat, s': State)
    requires Settled(s, w) && Transfers(s, w, k, s') && HandlesHarmlessly(s, w)
    ensures var i := s.workers[w].id;
            i in s'.heap && TransferSettled(s', Applied(s, w), i, s.workers[w].done + k)
  {
    hide TransferSettled, Harmless, InOrder, InRange, ReadsOn, WritesOn;
    var Moving(i, at) := s.workers[w];
    assert TransferSettled(s, Applied(s, w), i, at);
    if s.commands[i].Read? {
      MovesKeepHeap(s, w, k, s');
      ReadMovesOn(s, w, k, s', i, at, Applied(s, w));
    } else {
      MovesKeepHeap(s, w, k, s');
      WriteMovesOn(s, w, k, s', i, at, Applied(s, w));
    }
  }

  lemma MovesKeepHeap(s: State, w: Tid, k: nat, s': State)
    requires w in s.workers && s.workers[w].Moving? && Transfers(s, w, k, s')
    ensures s'.heap.Keys == s.heap.Keys && |s'.heap[s.workers[w].id]| == |s.heap[s.workers[w].id]|
    ensures s'.workers == s.workers[w := Moving(s.workers[w].id, s.workers[w].done + k)]
    ensures s'.commands == s.commands && s'.initial == s.initial && s'.handlers == s.handlers
    ensures s'.accepted == s.accepted && s'.queue == s.queue && s'.frames == s.frames
    ensures forall id :: id in s.heap && id != s.workers[w].id ==> s'.heap[id] == s.heap[id]
  {
    hide MayMove, WriteAt;
  }

  lemma MovesKeepWrites(s: State, w: Tid, k: nat, s': State)
    requires Settled(s, w) && Transfers(s, w, k, s')
    ensures s.workers[w].id < |s.commands|
    ensures s.commands[s.workers[w].id].Write? ==> s'.heap == s.heap
  {
    hide MayMove, WriteAt, DiskSettled, Buffered, Splice;
  }

  lemma TransferKeepsSettled(s: State, w: Tid, v: Tid, k: nat, s': State)
    requires InStep(s) && Settled(s, w) && Transfers(s, v, k, s') && w in s.workers && HandlesHarmlessly(s, w)
    ensures Settled(s', w)
  {
    hide InStep, Transfers, TransferSettled, DiskHolds, Buffered, Harmless, InOrder, InRange;
    MoverIsAlone(s, w, v, k, s');
    MovesOn(s, w, k, s');
    MovesKeepHeap(s, w, k, s');
    MovesKeepWrites(s, w, k, s');
    HeldIsWhole(s, w);
    var i, done := s.workers[w].id, Applied(s, w);
    AppliedParts(s);
    AppliedIsAccepted(s, w);
    if s.workers[w].done + k < |s.heap[i]| {
      assert Applied(s', w) == done;
      TransferBuffered(s, s', done, i);
    } else {
      TransferBounds(s', done, i, s.workers[w].done + k);
      assert Applied(s', w) == done + {i};
      TransferOver(s', done, i);
      TransferBufferedWhole(s, s', done, i);
    }
  }

  lemma MoverIsAlone(s: State, w: Tid, v: Tid, k: nat, s': State)
    requires Settled(s, w) && Transfers(s, v, k, s')
    ensures v == w && w in s.workers && s.workers[w].Moving?
  {
    hide DiskSettled, Buffered, ReadsOn, WritesOn;
  }

  lemma AppliedParts(s: State)
    requires InStep(s)
    ensures Accounted(s)
  {
  }

  lemma TransferBounds(s: State, done: set<nat>, i: nat, k: nat)
    requires AllInRange(s.commands, |s.initial|) && i in s.heap && TransferSettled(s, done, i, k)
    ensures k <= |s.heap[i]|
  {
  }

  lemma TransferBuffered(s: State, s': State, done: set<nat>, i: nat)
    requires AllInRange(s.commands, |s.initial|) && Buffered(s, done) && i !in done && i < |s.commands|
    requires s'.commands == s.commands && s'.initial == s.initial && s'.frames == s.frames && s'.heap.Keys == s.heap.Keys
    requires forall id :: id in s.heap && id != i ==> s'.heap[id] == s.heap[id]
    requires s.commands[i].Write? ==> s'.heap == s.heap
    ensures Buffered(s', done)
  {
    hide InOrder;
  }

  lemma TransferBufferedWhole(s: State, s': State, done: set<nat>, i: nat)
    requires AllInRange(s.commands, |s.initial|) && Buffered(s, done) && i !in done && i < |s.commands| && i in s.heap
    requires s'.commands == s.commands && s'.initial == s.initial && s'.frames == s.frames && s'.heap.Keys == s.heap.Keys
    requires forall id :: id in s.heap && id != i ==> s'.heap[id] == s.heap[id]
    requires s.commands[i].Write? ==> s'.heap == s.heap
    requires s.commands[i].Read? ==> s'.heap[i] == InOrder(s.commands, s.initial, i)
    ensures Buffered(s', done + {i})
  {
    hide InOrder;
  }

  lemma StepKeepsSettled(s: State, w: Tid, a: Action, s': State)
    requires InStep(s) && Settled(s, w) && Next(s, a, s')
    requires a.Transfer? ==> w in s.workers && HandlesHarmlessly(s, w)
    ensures Settled(s', w)
  {
    hide InStep, Settled, HandlesHarmlessly, Sends, Accepts, Takes, Seeks, Transfers, Locks, Writes, Finishes, Receives;
    match a
    case Send(c) => SendKeepsSettled(s, w, c, s');
    case Accept(buffer) => AcceptKeepsSettled(s, w, buffer, s');
    case Take(v, id) => TakeKeepsSettled(s, w, v, id, s');
    case Seek(v) => SeekKeepsSettled(s, w, v, s');
    case Transfer(v, k) => TransferKeepsSettled(s, w, v, k, s');
    case Lock(v) => LockKeepsSettled(s, w, v, s');
    case Write(v, k) => WriteKeepsSettled(s, w, v, k, s');
    case Finish(v) => FinishKeepsSettled(s, w, v, s');
    case Receive => ReceiveKeepsSettled(s, w, s');
  }

  // ---- Every run of a polite client ----

  lemma SeparateIsHarmless(s: State, w: Tid)
    requires InStep(s) && Ordered(s, w) && Midway(s, w)
    ensures HandlesHarmlessly(s, w)
  {
    hide InStep, Buffered, DiskSettled, InOrder, Clash, InRange, Harmless;
    var i := s.workers[w].id;
    HeldIsSeparate(s, w, i);
    HeldIsWhole(s, w);
    if s.commands[i].Read? {
      ReadIsInOrder(s.commands, Applied(s, w), s.initial, i);
    } else {
      WriteIsInOrder(s.commands, Applied(s, w), s.initial, i);
    }
  }

  lemma StepKeepsOrdered(s: State, w: Tid, a: Action, s': State)
    requires InStep(s) && Ordered(s, w) && Next(s, a, s') && (a.Send? ==> Polite(s, a.c))
    ensures Ordered(s', w)
  {
    hide InStep, Settled, Separate, Polite, HandlesHarmlessly, Next;
    if a.Transfer? {
      TransferIsMidway(s, w, a, s');
      SeparateIsHarmless(s, w);
    }
    StepKeepsSettled(s, w, a, s');
    if a.Send? {
      SendStep(s, a.c, s');
      Answers(s);
      SendKeepsSeparate(s, a.c, s');
    } else {
      OthersKeepSeparate(s, a, s');
    }
  }

  lemma TransferIsMidway(s: State, w: Tid, a: Action, s': State)
    requires Settled(s, w) && Next(s, a, s') && a.Transfer?
    ensures a.w == w && w in s.workers && Midway(s, w)
  {
    hide DiskSettled, Buffered, ReadsOn, WritesOn;
  }

  lemma SendStep(s: State, c: Command, s': State)
    requires Next(s, Send(c), s')
    ensures Sends(s, c, s')
  {
  }

  lemma Answers(s: State)
    requires InStep(s)
    ensures Answered(s) && Synchronised(s)
  {
  }

  lemma InitiallyOrdered(s: State, w: Tid, handlers: map<u32, Handler>, disk: Contents)
    requires Initial(s, handlers, disk, {w}) && RightHandlers(handlers)
    ensures Ordered(s, w)
  {
    assert Applied(s, w) == {};
  }

  lemma {:induction false} PoliteRunKeepsOrdered(states: seq<State>, acts: seq<Action>, w: Tid, handlers: map<u32, Handler>, disk: Contents)
    requires PoliteRun(states, acts) && Initial(states[0], handlers, disk, {w}) && RightHandlers(handlers)
    ensures InStep(states[|acts|]) && Ordered(states[|acts|], w) && states[|acts|].initial == disk
    decreases |acts|
  {
    hide InStep, Ordered, Next, Initial, Polite, RightHandlers;
    if acts == [] {
      InitiallyInStep(states[0], handlers, disk, {w});
      InitiallyOrdered(states[0], w, handlers, disk);
      StartsFrom(states[0], handlers, disk, w);
    } else {
      var m := |acts| - 1;
      PoliteRunKeepsOrdered(states[..m + 1], acts[..m], w, handlers, disk);
      assert PoliteRun(states, acts) && (acts[m].Send? ==> Polite(states[m], acts[m].c));
      StepKeepsInStep(states[m], acts[m], states[m + 1]);
      StepKeepsOrdered(states[m], w, acts[m], states[m + 1]);
      InitialStays(states[m], acts[m], states[m + 1]);
    }
  }

  lemma StartsFrom(s: State, handlers: map<u32, Handler>, disk: Contents, w: Tid)
    requires Initial(s, handlers, disk, {w})
    ensures s.initial == disk
  {
  }

  lemma InitialStays(s: State, a: Action, s': State)
    requires Next(s, a, s')
    ensures s'.initial == s.initial
  {
    hide Splice, WriteAt, MayMove, Sendable, Understands, FrameBytes, Allocates;
  }

  lemma SettledFrames(s: State, w: Tid)
    requires InStep(s) && Settled(s, w)
    ensures forall k :: 0 <= k < |s.frames| ==>
              && s.frames[k].id < |s.commands|
              && s.frames[k].handle == s.commands[s.frames[k].id].handle
              && s.frames[k].payload == InOrder(s.commands, s.initial, s.frames[k].id)
  {
    hide Accounted, Sized, Framed, Synchronised, DiskSettled, InOrder, PayloadSize, InRange;
  }

  ghost predicate AtRest(s: State, w: Tid)
  {
    s.accepted == |s.commands| && s.queue == {} && w in s.workers && s.workers[w] == Waiting
  }

  /** The law of the pipeline.  Whatever the queue's tie-breaking, every reply
      the client has understood carries what executing the requests one by one
      in arrival order would have read, and when nothing is left to do the file
      is the fold of all writes in arrival order. */
  lemma PipelineEqualsInOrderExecution(states: seq<State>, acts: seq<Action>, w: Tid, handlers: map<u32, Handler>, disk: Contents)
    requires PoliteRun(states, acts) && Initial(states[0], handlers, disk, {w}) && RightHandlers(handlers)
    ensures var s := states[|acts|];
            && AllInRange(s.commands, |disk|)
            && (forall k :: 0 <= k < |s.received| ==>
                  && s.received[k].id < |s.commands|
                  && s.received[k].handle == s.commands[s.received[k].id].handle
                  && s.received[k].payload == InOrder(s.commands, disk, s.received[k].id))
            && (AtRest(s, w) ==> s.disk == Run(s.commands, disk))
  {
    hide InStep, Settled, InOrder, InRange, Initial, Polite, Next, RightHandlers, Separate, AtRest;
    PoliteRunKeepsOrdered(states, acts, w, handlers, disk);
    var s := states[|acts|];
    SettledInRange(s, w);
    SettledFrames(s, w);
    ReceivedIsPrefix(s);
    forall k | 0 <= k < |s.received| ensures s.received[k] == s.frames[k] {
    }
    if AtRest(s, w) {
      AllApplied(s, w);
    }
  }

  lemma SettledInRange(s: State, w: Tid)
    requires Settled(s, w)
    ensures AllInRange(s.commands, |s.initial|)
  {
  }

  lemma AllApplied(s: State, w: Tid)
    requires InStep(s) && Settled(s, w) && AtRest(s, w)
    ensures s.disk == Run(s.commands, s.initial)
  {
    hide InStep, Buffered, LatestByte;
    var expected := Run(s.commands, s.initial);
    assert Applied(s, w) == Below(|s.commands|);
    forall p | 0 <= p < |s.disk| ensures s.disk[p] == expected[p] {
      RunHoldsLatest(s.commands, Applied(s, w), s.initial, p);
    }
  }
}

/** What every step of the pipeline keeps, for any number of workers: each
    request is in one place and released once, replies are never interleaved,
    and the client understands every byte it gets. */
module PipelineSafety {
  import opened Bytes
  import opened Wire
  import opened Disk
  import opened Pipeline

  // ---- Each request in one place ----

  function IdOf(p: Phase): (id: nat)
    requires p != Waiting
  {
    match p
    case Holding(id) => id
    case Moving(id, _) => id
    case Sending(id, _) => id
  }

  /** The requests in workers' hands. */
  ghost function Ids(workers: map<Tid, Phase>): set<nat>
  {
    set w | w in workers && workers[w] != Waiting :: IdOf(workers[w])
  }

  ghost predicate Distinct(workers: map<Tid, Phase>)
  {
    forall v, w :: v in workers && w in workers && v != w && workers[v] != Waiting && workers[w] != Waiting ==>
                     IdOf(workers[v]) != IdOf(workers[w])
  }

  ghost function SetOf(ids: seq<nat>): set<nat>
  {
    set i | i in ids
  }

  ghost predicate NoTwice(ids: seq<nat>)
  {
    forall j, k :: 0 <= j < k < |ids| ==> ids[j] != ids[k]
  }

  ghost function Below(n: nat): (s: set<nat>)
    ensures forall i: nat :: i in s <==> i < n
  {
    if n == 0 then {} else Below(n - 1) + {n - 1}
  }

  /** Accepted requests are the disjoint union of the queued, those in a
      worker's hands, and the finished; the heap holds the objects of the first
      two. */
  ghost predicate Partition(n: nat, queue: set<nat>, hand: set<nat>, finished: set<nat>, heap: set<nat>)
  {
    && queue + hand + finished == Below(n)
    && queue !! hand !! finished
    && heap == queue + hand
  }

  lemma PartitionAccepts(n: nat, n': nat, queue: set<nat>, hand: set<nat>, finished: set<nat>, heap: set<nat>)
    requires Partition(n, queue, hand, finished, heap) && n' == n + 1
    ensures Partition(n', queue + {n}, hand, finished, heap + {n})
  {
  }

  lemma PartitionTakes(n: nat, queue: set<nat>, hand: set<nat>, finished: set<nat>, heap: set<nat>, id: nat)
    requires Partition(n, queue, hand, finished, heap) && id in queue
    ensures Partition(n, queue - {id}, hand + {id}, finished, heap) && id !in hand
  {
  }

  lemma PartitionFinishes(n: nat, queue: set<nat>, hand: set<nat>, finished: set<nat>, heap: set<nat>, id: nat)
    requires Partition(n, queue, hand, finished, heap) && id in hand
    ensures Partition(n, queue, hand - {id}, finished + {id}, heap - {id})
    ensures id in heap && id !in finished && id < n
  {
  }

  /** Finished requests have been deleted, each once. */
  ghost predicate Accounted(s: State)
  {
    && s.accepted <= |s.commands|
    && Partition(s.accepted, s.queue, Ids(s.workers), SetOf(s.freed), s.heap.Keys)
    && Distinct(s.workers) && NoTwice(s.freed)
  }

  lemma IdsKept(workers: map<Tid, Phase>, w: Tid, p: Phase)
    requires w in workers && workers[w] != Waiting && p != Waiting && IdOf(p) == IdOf(workers[w])
    requires Distinct(workers)
    ensures Ids(workers[w := p]) == Ids(workers) && Distinct(workers[w := p])
  {
    var workers' := workers[w := p];
    forall id | id in Ids(workers) ensures id in Ids(workers') {
      var v :| v in workers && workers[v] != Waiting && IdOf(workers[v]) == id;
      assert workers'[v] != Waiting && IdOf(workers'[v]) == id;
    }
  }

  lemma IdsTaken(workers: map<Tid, Phase>, w: Tid, id: nat)
    requires w in workers && workers[w] == Waiting && id !in Ids(workers) && Distinct(workers)
    ensures Ids(workers[w := Holding(id)]) == Ids(workers) + {id} && Distinct(workers[w := Holding(id)])
  {
    var workers' := workers[w := Holding(id)];
    forall v, u | v in workers' && u in workers' && v != u && workers'[v] != Waiting && workers'[u] != Waiting
      ensures IdOf(workers'[v]) != IdOf(workers'[u])
    {
      assert v != w ==> IdOf(workers[v]) in Ids(workers);
      assert u != w ==> IdOf(workers[u]) in Ids(workers);
    }
    forall i | i in Ids(workers) + {id} ensures i in Ids(workers') {
      if i == id {
        assert IdOf(workers'[w]) == id;
      } else {
        var v :| v in workers && workers[v] != Waiting && IdOf(workers[v]) == i;
        assert workers'[v] == workers[v];
      }
    }
  }

  lemma IdsDropped(workers: map<Tid, Phase>, w: Tid)
    requires w in workers && workers[w] != Waiting && Distinct(workers)
    ensures Ids(workers[w := Waiting]) == Ids(workers) - {IdOf(workers[w])} && Distinct(workers[w := Waiting])
    ensures IdOf(workers[w]) in Ids(workers)
  {
    var id, workers' := IdOf(workers[w]), workers[w := Waiting];
    forall i | i in Ids(workers) - {id} ensures i in Ids(workers') {
      var v :| v in workers && workers[v] != Waiting && IdOf(workers[v]) == i;
      assert workers'[v] == workers[v];
    }
  }

  lemma SetOfGrows(ids: seq<nat>, id: nat)
    requires NoTwice(ids) && id !in SetOf(ids)
    ensures SetOf(ids + [id]) == SetOf(ids) + {id} && NoTwice(ids + [id])
  {
  }

  lemma AcceptKeepsAccounted(s: State, buffer: seq<byte>, s': State)
    requires Accounted(s) && Accepts(s, buffer, s')
    ensures Accounted(s')
  {
    hide Partition, Ids, SetOf, Distinct, NoTwice, Allocates;
    assert s'.heap.Keys == s.heap.Keys + {s.accepted};
    PartitionAccepts(s.accepted, s'.accepted, s.queue, Ids(s.workers), SetOf(s.freed), s.heap.Keys);
  }

  lemma TakeKeepsAccounted(s: State, w: Tid, id: nat, s': State)
    requires Accounted(s) && Takes(s, w, id, s')
    ensures Accounted(s')
  {
    hide Partition, Ids, SetOf, Distinct, NoTwice;
    PartitionTakes(s.accepted, s.queue, Ids(s.workers), SetOf(s.freed), s.heap.Keys, id);
    IdsTaken(s.workers, w, id);
  }

  lemma FinishKeepsAccounted(s: State, w: Tid, s': State)
    requires Accounted(s) && Finishes(s, w, s')
    ensures Accounted(s')
  {
    hide Partition, Ids, SetOf, Distinct, NoTwice, FrameBytes;
    var id := IdOf(s.workers[w]);
    IdsDropped(s.workers, w);
    PartitionFinishes(s.accepted, s.queue, Ids(s.workers), SetOf(s.freed), s.heap.Keys, id);
    SetOfGrows(s.freed, id);
    assert s'.heap.Keys == s.heap.Keys - {id};
  }

  lemma SeekKeepsAccounted(s: State, w: Tid, s': State)
    requires Accounted(s) && Seeks(s, w, s')
    ensures Accounted(s')
  {
    hide Partition, Ids, SetOf, Distinct, NoTwice, Sendable;
    IdsKept(s.workers, w, s'.workers[w]);
  }

  lemma TransferKeepsAccounted(s: State, w: Tid, k: nat, s': State)
    requires Accounted(s) && Transfers(s, w, k, s')
    ensures Accounted(s')
  {
    hide Partition, Ids, SetOf, Distinct, NoTwice, Splice, WriteAt, MayMove;
    IdsKept(s.workers, w, s'.workers[w]);
    assert s'.heap.Keys == s.heap.Keys;
  }

  lemma LockKeepsAccounted(s: State, w: Tid, s': State)
    requires Accounted(s) && Locks(s, w, s')
    ensures Accounted(s')
  {
    hide Partition, Ids, SetOf, Distinct, NoTwice;
    IdsKept(s.workers, w, s'.workers[w]);
  }

  lemma WriteKeepsAccounted(s: State, w: Tid, k: nat, s': State)
    requires Accounted(s) && Writes(s, w, k, s')
    ensures Accounted(s')
  {
    hide Partition, Ids, SetOf, Distinct, NoTwice, FrameBytes;
    IdsKept(s.workers, w, s'.workers[w]);
  }

  lemma ClientKeepsAccounted(s: State, a: Action, s': State)
    requires Accounted(s) && Next(s, a, s') && (a.Send? || a.Receive?)
    ensures Accounted(s')
  {
    hide Partition, Distinct, NoTwice, Understands, Sendable;
  }

  lemma StepKeepsAccounted(s: State, a: Action, s': State)
    requires Accounted(s) && Next(s, a, s')
    ensures Accounted(s')
  {
    hide Accounted, Sends, Accepts, Takes, Seeks, Transfers, Locks, Writes, Finishes, Receives;
    match a
    case Accept(buffer) => AcceptKeepsAccounted(s, buffer, s');
    case Take(w, id) => TakeKeepsAccounted(s, w, id, s');
    case Finish(w) => FinishKeepsAccounted(s, w, s');
    case Seek(w) => SeekKeepsAccounted(s, w, s');
    case Transfer(w, k) => TransferKeepsAccounted(s, w, k, s');
    case Lock(w) => LockKeepsAccounted(s, w, s');
    case Write(w, k) => WriteKeepsAccounted(s, w, k, s');
    case _ => ClientKeepsAccounted(s, a, s');
  }

  // ---- Whole requests, whole buffers ----

  ghost predicate Sized(s: State)
  {
    && |s.disk| >= |s.initial| && (!s.grows ==> |s.disk| == |s.initial|)
    && (forall i :: 0 <= i < |s.commands| ==> Sendable(s.commands[i], |s.initial|))
    && (forall id :: id in s.heap ==> id < |s.commands| && |s.heap[id]| == SizeOf(s.commands[id]))
  }

  lemma TransferKeepsSized(s: State, w: Tid, k: nat, s': State)
    requires Sized(s) && Transfers(s, w, k, s')
    ensures Sized(s')
  {
    hide Sendable;
  }

  lemma StepKeepsSized(s: State, a: Action, s': State)
    requires Sized(s) && Next(s, a, s')
    ensures Sized(s')
  {
    hide Splice, WriteAt, Understands, FrameBytes, InRange, MayMove;
    if a.Transfer? {
      TransferKeepsSized(s, a.w, a.k, s');
    }
  }

  // ---- Replies are never interleaved ----

  /** Complete frames, then the part of one frame that the holder of the mutex
      has written. */
  ghost predicate Framed(s: State)
  {
    && (forall w :: w in s.workers && s.workers[w].Sending? <==> s.mutex == HeldBy(w))
    && (forall k :: 0 <= k < |s.freed| ==> k < |s.frames| && s.frames[k].id == s.freed[k])
    && match s.mutex
       case Free => |s.frames| == |s.freed| && s.outgoing == Stream(s.frames)
       case HeldBy(w) => w in s.workers && s.workers[w].Sending? && PartlySent(s, s.workers[w].id, s.workers[w].sent)
  }

  ghost predicate PartlySent(s: State, id: nat, sent: nat)
  {
    && id < |s.commands| && id in s.heap
    && var f := FrameOf(s, id);
       && sent <= |FrameBytes(f)|
       && if sent == |FrameBytes(f)|
          then |s.frames| == |s.freed| + 1 && s.frames[|s.freed|] == f && s.outgoing == Stream(s.frames)
          else |s.frames| == |s.freed| && s.outgoing == Stream(s.frames) + FrameBytes(f)[..sent]
  }

  lemma InHandInHeap(s: State, w: Tid)
    requires Accounted(s) && w in s.workers && s.workers[w] != Waiting
    ensures IdOf(s.workers[w]) in s.heap && IdOf(s.workers[w]) < s.accepted <= |s.commands|
    ensures s.accepted !in s.heap && IdOf(s.workers[w]) !in s.queue
  {
    assert IdOf(s.workers[w]) in Ids(s.workers);
  }

  lemma NobodyElseHas(s: State, v: Tid, w: Tid)
    requires Accounted(s) && v in s.workers && w in s.workers && v != w
    requires s.workers[v] != Waiting && s.workers[w] != Waiting
    ensures IdOf(s.workers[v]) != IdOf(s.workers[w])
  {
  }

  /** The sender's frame and what it has written of it are as before. */
  lemma FramedElsewhere(s: State, s': State)
    requires Framed(s) && s'.mutex == s.mutex && s'.frames == s.frames && s'.freed == s.freed && s'.outgoing == s.outgoing
    requires forall w :: w in s'.workers && s'.workers[w].Sending? <==> s.mutex == HeldBy(w)
    requires s.mutex.HeldBy? ==>
               var w := s.mutex.w;
               && PartlySent(s, s.workers[w].id, s.workers[w].sent)
               && s'.workers[w] == s.workers[w]
               && s.workers[w].id < |s'.commands| && s.workers[w].id in s'.heap
               && FrameOf(s', s.workers[w].id) == FrameOf(s, s.workers[w].id)
    ensures Framed(s')
  {
  }

  lemma AcceptKeepsFramed(s: State, buffer: seq<byte>, s': State)
    requires Accounted(s) && Framed(s) && Accepts(s, buffer, s')
    ensures Framed(s')
  {
    hide FrameBytes, Stream, Accounted;
    if s.mutex.HeldBy? {
      InHandInHeap(s, s.mutex.w);
    }
    FramedElsewhere(s, s');
  }

  lemma TransferKeepsFramed(s: State, w: Tid, k: nat, s': State)
    requires Accounted(s) && Framed(s) && Transfers(s, w, k, s')
    ensures Framed(s')
  {
    hide FrameBytes, Stream, Accounted, Splice, WriteAt, MayMove;
    if s.mutex.HeldBy? {
      InHandInHeap(s, s.mutex.w);
      NobodyElseHas(s, s.mutex.w, w);
    }
    FramedElsewhere(s, s');
  }

  lemma LockKeepsFramed(s: State, w: Tid, s': State)
    requires Accounted(s) && Framed(s) && Locks(s, w, s')
    ensures Framed(s')
  {
    hide Stream, Accounted;
    InHandInHeap(s, w);
    assert s'.workers[w].Sending?;
    var f := FrameOf(s', s'.workers[w].id);
    assert Stream(s.frames) + FrameBytes(f)[..0] == Stream(s.frames);
  }

  lemma WriteKeepsFramed(s: State, w: Tid, k: nat, s': State)
    requires Framed(s) && Writes(s, w, k, s')
    ensures Framed(s')
  {
    hide FrameBytes, Stream;
    var Sending(id, sent) := s.workers[w];
    var f := FrameOf(s, id);
    assert s.mutex == HeldBy(w) && PartlySent(s, id, sent);
    FrameIsWhole(f);
    assert sent < sent + k <= |FrameBytes(f)|;
    assert s'.workers[w] == Sending(id, sent + k) && FrameOf(s', id) == f;
    MoreIsWritten(s, f, sent, sent + k, s'.outgoing);
    assert s'.frames == if sent + k == |FrameBytes(f)| then s.frames + [f] else s.frames;
    assert PartlySent(s', id, sent + k);
  }

  lemma FrameIsWhole(f: Frame)
    ensures |FrameBytes(f)| == REPLY_SIZE + |f.payload|
  {
  }

  lemma MoreIsWritten(s: State, f: Frame, sent: nat, sent': nat, outgoing: seq<byte>)
    requires sent <= sent' <= |FrameBytes(f)|
    requires s.outgoing == Stream(s.frames) + FrameBytes(f)[..sent]
    requires outgoing == s.outgoing + FrameBytes(f)[sent..sent']
    ensures outgoing == Stream(s.frames) + FrameBytes(f)[..sent']
    ensures sent' == |FrameBytes(f)| ==> outgoing == Stream(s.frames + [f])
  {
    hide FrameBytes;
    var bytes := FrameBytes(f);
    assert bytes[..sent] + bytes[sent..sent'] == bytes[..sent'];
    assert (Stream(s.frames) + bytes[..sent]) + bytes[sent..sent'] == Stream(s.frames) + bytes[..sent'];
    assert (s.frames + [f])[..|s.frames|] == s.frames;
    assert bytes[..|bytes|] == bytes;
  }

  lemma FinishKeepsFramed(s: State, w: Tid, s': State)
    requires Framed(s) && Finishes(s, w, s')
    ensures Framed(s')
  {
    hide FrameBytes, Stream;
    assert s.mutex == HeldBy(w) && PartlySent(s, s.workers[w].id, s.workers[w].sent);
  }

  lemma OthersKeepFramed(s: State, a: Action, s': State)
    requires Accounted(s) && Framed(s) && Next(s, a, s') && (a.Send? || a.Receive? || a.Take? || a.Seek?)
    ensures Framed(s')
  {
    hide FrameBytes, Stream, Understands, Sendable, Accounted;
    if s.mutex.HeldBy? {
      InHandInHeap(s, s.mutex.w);
    }
    FramedElsewhere(s, s');
  }

  lemma StepKeepsFramed(s: State, a: Action, s': State)
    requires Accounted(s) && Framed(s) && Next(s, a, s')
    ensures Framed(s')
  {
    hide Accounted, Framed, Sends, Accepts, Takes, Seeks, Transfers, Locks, Writes, Finishes, Receives;
    match a
    case Accept(buffer) => AcceptKeepsFramed(s, buffer, s');
    case Transfer(w, k) => TransferKeepsFramed(s, w, k, s');
    case Lock(w) => LockKeepsFramed(s, w, s');
    case Write(w, k) => WriteKeepsFramed(s, w, k, s');
    case Finish(w) => FinishKeepsFramed(s, w, s');
    case _ => OthersKeepFramed(s, a, s');
  }

  // ---- The client understands what it gets ----

  /** Every complete frame answers a request that was sent, with its handle and
      as many bytes as it asked for, and no request is answered twice. */
  ghost predicate Answered(s: State)
  {
    && (forall k :: 0 <= k < |s.frames| ==>
          && s.frames[k].id < s.accepted <= |s.commands|
          && s.frames[k].handle == s.commands[s.frames[k].id].handle
          && |s.frames[k].payload| == PayloadSize(s.commands[s.frames[k].id]))
    && (forall j, k :: 0 <= j < k < |s.frames| ==> s.frames[j].id != s.frames[k].id)
  }

  ghost predicate Received(fs: seq<Frame>, id: nat)
  {
    exists k :: 0 <= k < |fs| && fs[k].id == id
  }

  /** The client has understood a prefix of the complete frames, and its table
      holds exactly the requests it has no answer to. */
  ghost predicate Synchronised(s: State)
  {
    && |s.received| <= |s.frames| && s.received == s.frames[..|s.received|]
    && s.consumed == |Stream(s.received)|
    && (forall h :: h in s.pending ==> s.pending[h] < |s.commands| && s.commands[s.pending[h]].handle == h
                                       && !Received(s.received, s.pending[h]))
    && (forall i: nat :: i < |s.commands| && !Received(s.received, i) ==>
          s.commands[i].handle in s.pending && s.pending[s.commands[i].handle] == i)
  }

  lemma WriteKeepsAnswered(s: State, w: Tid, k: nat, s': State)
    requires Accounted(s) && Sized(s) && Framed(s) && Answered(s) && Writes(s, w, k, s')
    ensures Answered(s')
  {
    hide FrameBytes, Stream, Accounted, Sendable, InRange;
    InHandInHeap(s, w);
    var Sending(id, sent) := s.workers[w];
    assert s.mutex == HeldBy(w) && PartlySent(s, id, sent);
    var f := FrameOf(s, id);
    if s'.frames == s.frames + [f] {
      FreshlyWritten(s, w);
      FrameFits(s, id);
    }
  }

  lemma FreshlyWritten(s: State, w: Tid)
    requires Accounted(s) && Framed(s) && w in s.workers && s.workers[w] != Waiting
    requires |s.frames| == |s.freed|
    ensures forall k :: 0 <= k < |s.frames| ==> s.frames[k].id != IdOf(s.workers[w])
  {
    hide Stream, FrameBytes;
    assert IdOf(s.workers[w]) in Ids(s.workers);
    forall k | 0 <= k < |s.frames| ensures s.frames[k].id != IdOf(s.workers[w]) {
      assert s.freed[k] in SetOf(s.freed);
    }
  }

  lemma FrameFits(s: State, id: nat)
    requires Sized(s) && id in s.heap
    ensures FrameOf(s, id).handle == s.commands[id].handle
    ensures |FrameOf(s, id).payload| == PayloadSize(s.commands[id])
  {
  }

  lemma AnsweredElsewhere(s: State, s': State)
    requires Answered(s) && s'.frames == s.frames && s.commands <= s'.commands
    requires s.accepted <= s'.accepted <= |s'.commands|
    ensures Answered(s')
  {
    hide PayloadSize;
    forall k | 0 <= k < |s.frames| ensures s'.commands[s'.frames[k].id] == s.commands[s.frames[k].id] {
    }
  }

  lemma OthersKeepAnswered(s: State, a: Action, s': State)
    requires s.accepted <= |s.commands|
    requires Answered(s) && Next(s, a, s') && !a.Write?
    ensures Answered(s')
  {
    hide Answered, FrameBytes, Understands, Sendable, InRange, Splice, WriteAt, MayMove, Allocates, PayloadSize;
    AnsweredElsewhere(s, s');
  }

  lemma StepKeepsAnswered(s: State, a: Action, s': State)
    requires Accounted(s) && Sized(s) && Framed(s) && Answered(s) && Next(s, a, s')
    ensures Answered(s')
  {
    hide Sized, Framed, Answered, Writes;
    if a.Write? {
      WriteKeepsAnswered(s, a.w, a.k, s');
    } else {
      OthersKeepAnswered(s, a, s');
    }
  }

  /** The n-th frame stands in the stream right after those before it. */
  lemma {:induction false} FrameInStream(fs: seq<Frame>, n: nat)
    requires n < |fs|
    ensures Stream(fs[..n]) + FrameBytes(fs[n]) <= Stream(fs)
    decreases |fs|
  {
    hide FrameBytes;
    var m := |fs| - 1;
    if n < m {
      FrameInStream(fs[..m], n);
      assert fs[..m][..n] == fs[..n];
    }
  }

  /** Bytes that start like a frame decode to its handle and no error. */
  lemma FrameHeader(f: Frame, s: seq<byte>)
    requires |s| == REPLY_SIZE && s <= FrameBytes(f)
    ensures DecodeReply(s) == Reply(NBD_REPLY_MAGIC, 0, f.handle)
  {
    ReplyArrives(0, f.handle);
    assert s == ReplyHeader(0, f.handle);
  }

  /** What lies ahead of the client in the reply stream. */
  lemma AheadOfClient(s: State)
    requires Framed(s) && Synchronised(s)
    ensures s.consumed <= |s.outgoing|
    ensures |s.received| < |s.frames| ==> FrameBytes(s.frames[|s.received|]) <= s.outgoing[s.consumed..]
    ensures |s.received| == |s.frames| && s.mutex.Free? ==> s.outgoing[s.consumed..] == []
    ensures |s.received| == |s.frames| && s.mutex.HeldBy? ==>
              var Sending(id, sent) := s.workers[s.mutex.w];
              PartlySent(s, id, sent) && s.outgoing[s.consumed..] <= FrameBytes(FrameOf(s, id))
              && |s.outgoing[s.consumed..]| < |FrameBytes(FrameOf(s, id))|
  {
    hide FrameBytes, Stream, FrameOf;
    var n := |s.received|;
    if n < |s.frames| {
      FrameInStream(s.frames, n);
      assert Stream(s.frames) <= s.outgoing;
    } else {
      assert s.received == s.frames;
      if s.mutex.HeldBy? {
        var Sending(id, sent) := s.workers[s.mutex.w];
        assert PartlySent(s, id, sent);
        var bytes := FrameBytes(FrameOf(s, id));
        FrameIsWhole(FrameOf(s, id));
        assert s.outgoing[s.consumed..] == if sent == |bytes| then [] else bytes[..sent];
      }
    }
  }

  lemma HeaderAhead(s: State, f: Frame)
    requires HeaderArrived(s)
    requires FrameBytes(f) <= s.outgoing[s.consumed..] || s.outgoing[s.consumed..] <= FrameBytes(f)
    ensures NextReply(s) == Reply(NBD_REPLY_MAGIC, 0, f.handle)
  {
    hide FrameBytes, DecodeReply;
    FrameIsWhole(f);
    var ahead, bytes := s.outgoing[s.consumed..], s.outgoing[s.consumed..s.consumed + REPLY_SIZE];
    assert bytes == ahead[..REPLY_SIZE] && bytes <= ahead && bytes <= FrameBytes(f);
    FrameHeader(f, bytes);
  }

  lemma PayloadAhead(s: State, f: Frame)
    requires s.consumed <= |s.outgoing| && FrameBytes(f) <= s.outgoing[s.consumed..]
    ensures HeaderArrived(s) && s.consumed + REPLY_SIZE + |f.payload| <= |s.outgoing|
    ensures s.outgoing[s.consumed + REPLY_SIZE..s.consumed + REPLY_SIZE + |f.payload|] == f.payload
  {
    hide ReplyHeader;
    var ahead := s.outgoing[s.consumed..];
    assert FrameBytes(f)[REPLY_SIZE..] == f.payload;
    assert ahead[REPLY_SIZE..REPLY_SIZE + |f.payload|] == f.payload;
    assert s.outgoing[s.consumed + REPLY_SIZE..s.consumed + REPLY_SIZE + |f.payload|] == ahead[REPLY_SIZE..REPLY_SIZE + |f.payload|];
  }

  ghost predicate InStep(s: State)
  {
    Accounted(s) && Sized(s) && Framed(s) && Answered(s) && Synchronised(s)
  }

  /** A complete frame ahead of the client is what it understands, and all it
      understands. */
  lemma CompleteFrameUnderstood(s: State, f: Frame)
    requires InStep(s) && |s.received| < |s.frames|
    ensures Understands(s, f) <==> f == s.frames[|s.received|]
  {
    hide FrameBytes, Stream, Accounted, Sized, Framed, PayloadSize, DecodeReply;
    AheadOfClient(s);
    var g := s.frames[|s.received|];
    PayloadAhead(s, g);
    HeaderAhead(s, g);
    assert !Received(s.received, g.id);
  }

  /** Part of a frame is not mistaken for a whole one. */
  lemma PartialFrameNotUnderstood(s: State, f: Frame)
    requires InStep(s) && |s.received| == |s.frames|
    ensures !Understands(s, f)
  {
    AheadOfClient(s);
    hide FrameBytes, Stream, Accounted, Sized, PayloadSize, DecodeReply;
    if HeaderArrived(s) {
      assert |s.outgoing[s.consumed..]| >= REPLY_SIZE;
      var w := s.mutex.w;
      var Sending(id, sent) := s.workers[w];
      var g := FrameOf(s, id);
      HeaderAhead(s, g);
      FrameFits(s, id);
      FrameIsWhole(g);
      assert s.received == s.frames;
      SenderNotReceived(s, w);
    }
  }

  lemma SenderNotReceived(s: State, w: Tid)
    requires InStep(s) && s.mutex == HeldBy(w) && s.received == s.frames
    requires s.consumed < |s.outgoing|
    ensures !Received(s.received, s.workers[w].id)
  {
    hide FrameBytes, Accounted, Sized, PayloadSize;
    assert PartlySent(s, s.workers[w].id, s.workers[w].sent);
    FreshlyWritten(s, w);
  }

  /** The reply stream, in whatever order the workers produced it, is understood
      in one way only: as the complete frames in the order they were written. */
  lemma RepliesAreUnambiguous(s: State, f: Frame)
    requires InStep(s)
    ensures Understands(s, f) <==> |s.received| < |s.frames| && f == s.frames[|s.received|]
  {
    hide Understands, InStep;
    ReceivedIsPrefix(s);
    if |s.received| < |s.frames| {
      CompleteFrameUnderstood(s, f);
    } else {
      PartialFrameNotUnderstood(s, f);
    }
  }

  lemma ReceivedIsPrefix(s: State)
    requires InStep(s)
    ensures |s.received| <= |s.frames| && s.received == s.frames[..|s.received|]
  {
  }

  lemma SendKeepsSynchronised(s: State, c: Command, s': State)
    requires Answered(s) && Synchronised(s) && Sends(s, c, s')
    ensures Synchronised(s')
  {
    hide Stream, Sendable, PayloadSize;
    var n := |s.commands|;
    assert !Received(s.received, n) by {
      forall k | 0 <= k < |s.received| ensures s.received[k].id != n {
        assert s.received[k] == s.frames[k];
      }
    }
    forall i: nat | i < |s'.commands| && !Received(s'.received, i)
      ensures s'.commands[i].handle in s'.pending && s'.pending[s'.commands[i].handle] == i
    {
      if i < n {
        assert s'.commands[i] == s.commands[i];
      }
    }
  }

  lemma ReceiveKeepsSynchronised(s: State, s': State)
    requires InStep(s) && Receives(s, s')
    ensures Synchronised(s')
  {
    hide FrameBytes, Accounted, Sized, Framed, Understands;
    var f :| Understands(s, f) && Moves(s, f, s');
    RepliesAreUnambiguous(s, f);
    ReceivedFits(s, s', f);
  }

  lemma ReceivedFits(s: State, s': State, f: Frame)
    requires Answered(s) && Synchronised(s) && |s.received| < |s.frames| && f == s.frames[|s.received|]
    requires Moves(s, f, s')
    ensures Synchronised(s')
  {
    hide FrameBytes, PayloadSize;
    var n := |s.received|;
    assert s'.received == s.received + [f] == s'.frames[..n + 1];
    assert s'.received[..n] == s.received;
    assert forall i: nat :: Received(s'.received, i) <==> Received(s.received, i) || i == f.id by {
      assert s'.received[n] == f;
      assert forall k :: 0 <= k < n ==> s'.received[k] == s.received[k];
    }
    assert !Received(s.received, f.id) && s.pending[f.handle] == f.id;
  }

  lemma OthersLeaveClient(s: State, a: Action, s': State)
    requires Next(s, a, s') && !a.Send? && !a.Receive?
    ensures s'.commands == s.commands && s'.pending == s.pending && s'.received == s.received
    ensures s'.consumed == s.consumed && s.frames <= s'.frames
  {
    hide FrameBytes, Sendable, Splice, WriteAt, MayMove, Allocates, ReplyHeader;
  }

  lemma OthersKeepSynchronised(s: State, a: Action, s': State)
    requires Synchronised(s) && Next(s, a, s') && !a.Send? && !a.Receive?
    ensures Synchronised(s')
  {
    hide Next, Stream;
    OthersLeaveClient(s, a, s');
  }

  lemma StepKeepsSynchronised(s: State, a: Action, s': State)
    requires InStep(s) && Next(s, a, s')
    ensures Synchronised(s')
  {
    hide Accounted, Sized, Framed, Answered, Synchronised, Sends, Receives;
    match a
    case Send(c) => SendKeepsSynchronised(s, c, s');
    case Receive => ReceiveKeepsSynchronised(s, s');
    case _ => OthersKeepSynchronised(s, a, s');
  }

  // ---- Every run ----

  lemma StepKeepsInStep(s: State, a: Action, s': State)
    requires InStep(s) && Next(s, a, s')
    ensures InStep(s')
  {
    hide Accounted, Sized, Framed, Answered, Synchronised, Next;
    StepKeepsAccounted(s, a, s');
    StepKeepsSized(s, a, s');
    StepKeepsFramed(s, a, s');
    StepKeepsAnswered(s, a, s');
    StepKeepsSynchronised(s, a, s');
  }

  lemma InitiallyInStep(s: State, handlers: map<u32, Handler>, disk: Contents, tids: set<Tid>)
    requires Initial(s, handlers, disk, tids)
    ensures InStep(s)
  {
    assert Ids(s.workers) == {} && Below(0) == {};
  }

  /** Any number of workers, any interleaving of their short writes, any order
      of replies. */
  lemma {:induction false} RunKeepsInStep(states: seq<State>, acts: seq<Action>, handlers: map<u32, Handler>, disk: Contents, tids: set<Tid>)
    requires IsExecution(states, acts) && Initial(states[0], handlers, disk, tids)
    ensures InStep(states[|acts|])
    decreases |acts|
  {
    hide InStep, Next, Initial;
    if acts == [] {
      InitiallyInStep(states[0], handlers, disk, tids);
    } else {
      var m := |acts| - 1;
      RunKeepsInStep(states[..m + 1], acts[..m], handlers, disk, tids);
      StepKeepsInStep(states[m], acts[m], states[m + 1]);
    }
  }
}

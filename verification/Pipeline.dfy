/** The concurrent request pipeline: a client on one end of the socket, and on
    the other NBDProxy, the task queue, any number of workers and the memory
    they share.  A step is what one of them does between two points where
    another may run. */
module Pipeline {
  import opened Bytes
  import opened Wire
  import opened Disk
  import WaitableQueue

  type Tid = nat

  datatype Handler = ReadHandler | WriteHandler

  /** A reply frame; id is the arrival number of the request it answers. */
  datatype Frame = Frame(id: nat, handle: Handle, payload: seq<byte>)

  function FrameBytes(f: Frame): (s: seq<byte>)
  {
    ReplyHeader(0, f.handle) + f.payload
  }

  function Stream(fs: seq<Frame>): (s: seq<byte>)
  {
    if fs == [] then [] else Stream(fs[..|fs| - 1]) + FrameBytes(fs[|fs| - 1])
  }

  datatype Phase =
    | Waiting                       // in Dequeue
    | Holding(id: nat)              // has the task, before lseek
    | Moving(id: nat, done: nat)    // in the transfer loop, done bytes moved
    | Sending(id: nat, sent: nat)   // holds m_mutex, sent bytes of the frame written

  datatype Holder = Free | HeldBy(w: Tid)

  datatype State = State(
    // the client
    commands: seq<Command>,         // everything sent, in order
    pending: map<Handle, nat>,      // requests without a reply yet
    received: seq<Frame>,           // replies understood so far
    consumed: nat,                  // bytes of the reply stream they took
    // the server
    handlers: map<u32, Handler>,    // the factory
    accepted: nat,                  // how many commands OnSocketReady has taken
    queue: set<nat>,
    workers: map<Tid, Phase>,
    mutex: Holder,                  // NBDProxy::m_mutex
    heap: map<nat, seq<byte>>,      // live request objects with their data buffers
    frames: seq<Frame>,             // frames completely written
    freed: seq<nat>,                // request objects deleted, in order
    outgoing: seq<byte>,            // bytes written to the socket
    // the file that all workers share by one descriptor
    grows: bool,                    // a regular file; else a device of fixed size
    position: nat,
    initial: Contents,
    disk: Contents)

  ghost predicate Initial(s: State, handlers: map<u32, Handler>, disk: Contents, tids: set<Tid>)
  {
    s == State([], map[], [], 0, handlers, 0, {}, map w | w in tids :: Waiting, Free,
               map[], [], [], [], s.grows, 0, disk, disk)
  }

  /** The requests the pipeline is for: READ and WRITE that fit the file and
      whose offset and length survive NBDRWReq. */
  predicate Sendable(c: Command, size: nat)
  {
    && InRange(c, size)
    && match c
       case Read(_, from, len) => from < TWO_TO_THE_31 && len < TWO_TO_THE_31
       case Write(_, from, data) => from < TWO_TO_THE_31 && |data| < TWO_TO_THE_31
       case _ => false
  }

  function KindOf(c: Command): (k: u32)
    requires c.Read? || c.Write?
  {
    if c.Read? then NBD_CMD_READ else NBD_CMD_WRITE
  }

  function SizeOf(c: Command): (n: nat)
    requires c.Read? || c.Write?
  {
    if c.Read? then c.len else |c.data|
  }

  function PayloadSize(c: Command): (n: nat)
  {
    if c.Read? then c.len else 0
  }

  /** The frame Done writes for request id from its buffer. */
  function FrameOf(s: State, id: nat): (f: Frame)
    requires id < |s.commands| && id in s.heap
  {
    Frame(id, s.commands[id].handle, if s.commands[id].Read? then s.heap[id] else [])
  }

  datatype Action =
    | Send(c: Command)
    | Accept(buffer: seq<byte>)
    | Take(w: Tid, id: nat)
    | Seek(w: Tid)
    | Transfer(w: Tid, k: nat)
    | Lock(w: Tid)
    | Write(w: Tid, k: nat)
    | Finish(w: Tid)
    | Receive

  ghost predicate Next(s: State, a: Action, s': State)
  {
    match a
    case Send(c) => Sends(s, c, s')
    case Accept(buffer) => Accepts(s, buffer, s')
    case Take(w, id) => Takes(s, w, id, s')
    case Seek(w) => Seeks(s, w, s')
    case Transfer(w, k) => Transfers(s, w, k, s')
    case Lock(w) => Locks(s, w, s')
    case Write(w, k) => Writes(s, w, k, s')
    case Finish(w) => Finishes(s, w, s')
    case Receive => Receives(s, s')
  }

  ghost predicate Sends(s: State, c: Command, s': State)
  {
    && Sendable(c, |s.initial|) && c.handle !in s.pending
    && s' == s.(commands := s.commands + [c], pending := s.pending[c.handle := |s.commands|])
  }

  /** OnSocketReady and RequestCB: allocate, read a write's data, enqueue. */
  ghost predicate Accepts(s: State, buffer: seq<byte>, s': State)
  {
    && s.accepted < |s.commands| && Allocates(s.commands[s.accepted], buffer)
    && s' == s.(accepted := s.accepted + 1, queue := s.queue + {s.accepted}, heap := s.heap[s.accepted := buffer])
  }

  /** A worker dequeues a request task. */
  ghost predicate Takes(s: State, w: Tid, id: nat, s': State)
  {
    && id in s.queue && w in s.workers && s.workers[w] == Waiting
    && s' == s.(queue := s.queue - {id}, workers := s.workers[w := Holding(id)])
  }

  /** The handler for the request's key is made, and moves the one file position
      to the request's offset. */
  ghost predicate Seeks(s: State, w: Tid, s': State)
  {
    && w in s.workers && s.workers[w].Holding?
    && var id := s.workers[w].id;
       && id < |s.commands| && Sendable(s.commands[id], |s.initial|) && KindOf(s.commands[id]) in s.handlers
       && s' == s.(workers := s.workers[w := Moving(id, 0)], position := s.commands[id].from)
  }

  /** One turn of the transfer loop of the read or write handler, wherever the
      position is by now. */
  ghost predicate Transfers(s: State, w: Tid, k: nat, s': State)
  {
    && w in s.workers && s.workers[w].Moving?
    && var Moving(id, done) := s.workers[w];
       && id < |s.commands| && (s.commands[id].Read? || s.commands[id].Write?)
       && KindOf(s.commands[id]) in s.handlers
       && id in s.heap && done < |s.heap[id]|
       && match s.handlers[KindOf(s.commands[id])]
          case ReadHandler => ReadsOn(s, w, id, done, k, s')
          case WriteHandler => WritesOn(s, w, id, done, k, s')
  }

  ghost predicate ReadsOn(s: State, w: Tid, id: nat, done: nat, k: nat, s': State)
    requires w in s.workers && id in s.heap && done < |s.heap[id]|
  {
    && MayMove(k, |s.heap[id]| - done, s.position, |s.disk|, false)
    && var bytes := if k == 0 then [] else s.disk[s.position..s.position + k];
       s' == s.(workers := s.workers[w := Moving(id, done + k)], position := s.position + k,
                heap := s.heap[id := Splice(s.heap[id], done, bytes)])
  }

  ghost predicate WritesOn(s: State, w: Tid, id: nat, done: nat, k: nat, s': State)
    requires w in s.workers && id in s.heap && done < |s.heap[id]|
  {
    && MayMove(k, |s.heap[id]| - done, s.position, |s.disk|, s.grows)
    && s' == s.(workers := s.workers[w := Moving(id, done + k)], position := s.position + k,
                disk := WriteAt(s.disk, s.position, s.heap[id][done..done + k]))
  }

  /** The transfer is complete; Done acquires m_mutex. */
  ghost predicate Locks(s: State, w: Tid, s': State)
  {
    && w in s.workers && s.workers[w].Moving? && s.mutex.Free?
    && s.workers[w].id in s.heap && s.workers[w].done == |s.heap[s.workers[w].id]|
    && s' == s.(workers := s.workers[w := Sending(s.workers[w].id, 0)], mutex := HeldBy(w))
  }

  /** One short write: first of the header, then, by a separate loop, of the
      data. */
  ghost predicate Writes(s: State, w: Tid, k: nat, s': State)
  {
    && w in s.workers && s.workers[w].Sending?
    && var Sending(id, sent) := s.workers[w];
       && id < |s.commands| && id in s.heap && k > 0
       && var bytes := FrameBytes(FrameOf(s, id));
          && sent + k <= (if sent < REPLY_SIZE then REPLY_SIZE else |bytes|)
          && s' == s.(workers := s.workers[w := Sending(id, sent + k)], outgoing := s.outgoing + bytes[sent..sent + k],
                      frames := if sent + k == |bytes| then s.frames + [FrameOf(s, id)] else s.frames)
  }

  /** The end of Done: both deletes, and the lock released. */
  ghost predicate Finishes(s: State, w: Tid, s': State)
  {
    && w in s.workers && s.workers[w].Sending?
    && var Sending(id, sent) := s.workers[w];
       && id < |s.commands| && id in s.heap && sent == |FrameBytes(FrameOf(s, id))|
       && s' == s.(workers := s.workers[w := Waiting], mutex := Free, heap := s.heap - {id}, freed := s.freed + [id])
  }

  /** The client understands one more reply. */
  ghost predicate Receives(s: State, s': State)
  {
    exists f :: Understands(s, f) && Moves(s, f, s')
  }

  ghost predicate Moves(s: State, f: Frame, s': State)
  {
    s' == s.(received := s.received + [f], pending := s.pending - {f.handle}, consumed := s.consumed + |FrameBytes(f)|)
  }

  /** OnSocketReady: a write's buffer is filled from the socket, a read's holds
      whatever the allocator left there. */
  predicate Allocates(c: Command, buffer: seq<byte>)
  {
    match c
    case Read(_, _, len) => |buffer| == len
    case Write(_, _, data) => buffer == data
    case _ => false
  }

  /** The client's parser, at its place in the stream: a reply header whose
      handle is pending, then as many bytes as that request asked for. */
  ghost predicate Understands(s: State, f: Frame)
  {
    && HeaderArrived(s)
    && NextReply(s).magic == NBD_REPLY_MAGIC && NextReply(s).error == 0
    && NextReply(s).handle in s.pending
    && f.id == s.pending[NextReply(s).handle] < |s.commands|
    && f.handle == NextReply(s).handle
    && var n := s.consumed + REPLY_SIZE;
       var len := PayloadSize(s.commands[f.id]);
       n + len <= |s.outgoing| && f.payload == s.outgoing[n..n + len]
  }

  predicate HeaderArrived(s: State)
  {
    s.consumed + REPLY_SIZE <= |s.outgoing|
  }

  function NextReply(s: State): (r: Reply)
    requires HeaderArrived(s)
  {
    DecodeReply(s.outgoing[s.consumed..s.consumed + REPLY_SIZE])
  }

  ghost predicate IsExecution(states: seq<State>, acts: seq<Action>)
  {
    && |states| == |acts| + 1
    && forall k :: 0 <= k < |acts| ==> Next(states[k], acts[k], states[k + 1])
  }

  /** Request tasks all have priority LOW, so whichever is queued may be the top
      of the priority queue: Take picks any. */
  lemma AnyRequestMayBeTop(items: multiset<WaitableQueue.Task>, id: nat)
    requires forall t :: t in items ==> t.UserTask? && t.priority == WaitableQueue.LOW
    ensures WaitableQueue.IsTop(items, WaitableQueue.UserTask(id, WaitableQueue.LOW))
            <==> WaitableQueue.UserTask(id, WaitableQueue.LOW) in items
  {
  }
}

/** The objects behind the pipeline's steps, run by one thread: NBDProxy on its
    socket, MemoryFile on its descriptor, and a request task with its handler. */
module RequestEngine {
  import opened Bytes
  import opened Wire
  import opened Disk
  import opened Transfers
  import opened Pipeline
  import opened PipelineOrder
  import Buse
  import Factory

  /** Finished; OutOfBounds: a transfer is asked for bytes its buffer does not
      have; NeverReturns: the loop meets the end of the file and, not checking
      its results, has no way out. */
  datatype Outcome = Finished | OutOfBounds | NeverReturns

  /** A negative int is a size_t beyond any buffer. */
  predicate HasBytes(req: NBDRWReq)
  {
    0 <= req.m_size <= req.m_data.Length
  }

  /** What becomes of the transfer of a request at the given place. */
  function TransferOutcome(req: NBDRWReq, start: nat, size: nat, grows: bool): (outcome: Outcome)
  {
    if !HasBytes(req) then OutOfBounds
    else if !grows && !Fits(start, req.m_size, size) then NeverReturns
    else Finished
  }

  class NBDRWReq {
    const m_type: u32
    const m_size: int32
    const m_offset: int32
    const m_handle: Handle
    const m_data: array<byte>

    constructor (r: RwRequest, data: array<byte>)
      ensures m_type == r.kind && m_size == r.size && m_offset == r.offset && m_handle == r.handle && m_data == data
    {
      m_type, m_size, m_offset, m_handle, m_data := r.kind, r.size, r.offset, r.handle, data;
    }

    /** The request object carries command c unharmed. */
    ghost predicate Describes(c: Command)
    {
      && (c.Read? || c.Write?)
      && m_type == KindOf(c) && m_handle == c.handle
      && m_size == SizeOf(c) == m_data.Length && m_offset == c.from
    }
  }

  class NBDProxy {
    const socket: Socket
    ghost var live: set<NBDRWReq>  // allocated and not yet deleted

    constructor (socket: Socket)
      ensures this.socket == socket && live == {}
    {
      this.socket := socket;
      live := {};
    }

    /** The request read off the socket, or null where the original never
        returns (the stream ended) or calls back without an NBDRWReq. */
    method OnSocketReady() returns (req: NBDRWReq?)
      modifies socket`incoming, this`live
      ensures req != null ==>
                && fresh(req) && fresh(req.m_data) && live == old(live) + {req}
                && |old(socket.incoming)| >= REQUEST_SIZE
      ensures req == null ==> live == old(live)
      ensures forall c, rest | Sendable(c, TWO_TO_THE_64) && old(socket.incoming) == Buse.Encode(c) + rest ::
                req != null && req.Describes(c) && socket.incoming == rest
                && (c.Write? ==> req.m_data[..] == c.data)
      ensures req != null <==>
                && |old(socket.incoming)| >= 28
                && (FromBE(old(socket.incoming)[4..8]) == 0
                    || (FromBE(old(socket.incoming)[4..8]) == 1
                        && FromBE(old(socket.incoming)[24..28]) <= |old(socket.incoming)| - 28))
      ensures req != null ==>
                DecodeRwRequest(old(socket.incoming)[..28]) == RwRequest(req.m_type, req.m_size, req.m_offset, req.m_handle)
    {
      ghost var stream := socket.incoming;
      var request := new byte[REQUEST_SIZE];
      var ok := ReadAll(socket, request, REQUEST_SIZE);
      if !ok {
        return null;
      }
      assert request[..] == stream[..REQUEST_SIZE];
      ghost var tail := socket.incoming;
      forall c, rest | Sendable(c, TWO_TO_THE_64) && stream == Buse.Encode(c) + rest
        ensures Arrives(c, rest, request[..], tail)
      {
        CommandArrives(c, rest, stream);
      }
      Buse.HeaderByBytes(request[..]);
      assert request[..][4..8] == stream[4..8] && request[..][24..28] == stream[24..28];
      req := MakeRequest(DecodeRwRequest(request[..]), DecodeHeader(request[..]).len);
    }

    /** The switch of OnSocketReady, once the header has been read. */
    method MakeRequest(r: RwRequest, len: nat) returns (req: NBDRWReq?)
      modifies socket`incoming, this`live
      ensures req != null <==> r.kind == NBD_CMD_READ || (r.kind == NBD_CMD_WRITE && len <= |old(socket.incoming)|)
      ensures req == null ==> live == old(live)
      ensures req != null ==>
                && fresh(req) && fresh(req.m_data) && live == old(live) + {req} && req.m_data.Length == len
                && req.m_type == r.kind && req.m_size == r.size && req.m_offset == r.offset && req.m_handle == r.handle
      ensures req != null && r.kind == NBD_CMD_READ ==> socket.incoming == old(socket.incoming)
      ensures req != null && r.kind == NBD_CMD_WRITE ==>
                socket.incoming == old(socket.incoming)[len..] && req.m_data[..] == old(socket.incoming)[..len]
    {
      var temp;
      if r.kind == NBD_CMD_READ {
        temp := new byte[len];
      } else if r.kind == NBD_CMD_WRITE {
        temp := new byte[len];
        var ok := ReadAll(socket, temp, len);
        if !ok {
          return null;
        }
        assert temp[..] == temp[..len];
      } else {
        return null;
      }
      req := new NBDRWReq(r, temp);
      live := live + {req};
    }

    /** The reply, and the end of the request object.  An int size is handed to
        write_all as a size_t: unless the buffer has as many bytes, what follows
        the header is not defined. */
    method Done(req: NBDRWReq) returns (outcome: Outcome)
      requires req in live
      modifies socket`outgoing, this`live
      ensures outcome == if req.m_type == NBD_CMD_READ && !HasBytes(req) then OutOfBounds else Finished
      ensures live == if outcome == Finished then old(live) - {req} else old(live)
      ensures socket.outgoing == old(socket.outgoing) + ReplyHeader(0, req.m_handle)
                                 + if outcome == Finished && req.m_type == NBD_CMD_READ then req.m_data[..req.m_size] else []
    {
      WriteAll(socket, ReplyHeader(0, req.m_handle));
      if req.m_type == NBD_CMD_READ {
        if !HasBytes(req) {
          return OutOfBounds;
        }
        WriteAll(socket, req.m_data[..req.m_size]);
      }
      live := live - {req};
      return Finished;
    }
  }

  /** What OnSocketReady sees of an encoded command once it has the header. */
  ghost predicate Arrives(c: Command, rest: seq<byte>, header: seq<byte>, tail: seq<byte>)
    requires c.Read? || c.Write?
  {
    && |header| == REQUEST_SIZE
    && DecodeHeader(header).len == SizeOf(c)
    && DecodeRwRequest(header) == RwRequest(KindOf(c), AsInt32(SizeOf(c)), AsInt32(c.from), c.handle)
    && AsInt32(SizeOf(c)) == SizeOf(c) && AsInt32(c.from) == c.from
    && tail == (if c.Write? then c.data else []) + rest
  }

  lemma CommandArrives(c: Command, rest: seq<byte>, stream: seq<byte>)
    requires Sendable(c, TWO_TO_THE_64) && stream == Buse.Encode(c) + rest
    ensures |stream| >= REQUEST_SIZE
    ensures Arrives(c, rest, stream[..REQUEST_SIZE], stream[REQUEST_SIZE..])
  {
    hide EncodeHeader, DecodeHeader, DecodeRwRequest;
    var h := Buse.HeaderOf(c);
    assert stream[..REQUEST_SIZE] == EncodeHeader(h);
    HeaderRoundTrip(h);
    RwRequestArrives(h);
    AsInt32Exact(SizeOf(c));
    AsInt32Exact(c.from);
  }

  /** The pipeline's requests are those for bytes of the file that reach the
      file operations with the right place and count. */
  lemma SendableExactlyWhen(c: Command, size: nat, h: Header)
    requires h == Buse.HeaderOf(c)
    ensures Sendable(c, size) <==>
              && (h.kind == 0 || h.kind == 1)
              && (h.len == 0 || h.from + h.len <= size)
              && Targets(DecodeRwRequest(EncodeHeader(h)), h)
  {
    hide DecodeRwRequest, EncodeHeader, Targets;
    TransferTargetsRequest(h, DecodeRwRequest(EncodeHeader(h)));
  }

  class MemoryFile {
    const file: File

    constructor (file: File)
      ensures this.file == file
    {
      this.file := file;
    }

    /** Seek, then one whole transfer however the file splits it. */
    method Read(req: NBDRWReq) returns (outcome: Outcome)
      modifies file`position, req.m_data
      ensures var start := SeekTarget(req.m_offset, old(file.position));
              && outcome == TransferOutcome(req, start, |file.content|, false)
              && (outcome == Finished ==> req.m_data[..req.m_size] == Slice(file.content, start, req.m_size))
              && (outcome == OutOfBounds ==> req.m_data[..] == old(req.m_data[..]))
    {
      file.LSeek(req.m_offset);
      if !HasBytes(req) {
        return OutOfBounds;
      }
      var ok := ReadFully(file, req.m_data, req.m_size);
      outcome := if ok then Finished else NeverReturns;
    }

    method Write(req: NBDRWReq) returns (outcome: Outcome)
      modifies file`position, file`content
      ensures var start := SeekTarget(req.m_offset, old(file.position));
              && outcome == TransferOutcome(req, start, |old(file.content)|, file.grows)
              && file.content == match outcome
                                 case Finished => WriteAt(old(file.content), start, req.m_data[..req.m_size])
                                 case OutOfBounds => old(file.content)
                                 case NeverReturns => WhatFits(old(file.content), start, req.m_data[..req.m_size])
    {
      file.LSeek(req.m_offset);
      if !HasBytes(req) {
        return OutOfBounds;
      }
      var ok := WriteFully(file, req.m_data[..req.m_size]);
      outcome := if ok then Finished else NeverReturns;
    }
  }

  /** The factory gives each request its own kind of handler exactly when the
      first one registered for each of the two keys is the right one. */
  lemma FirstRegistrationsDecide(adds: seq<(u32, Handler)>, r: nat, w: nat)
    requires Factory.FirstFor(adds, NBD_CMD_READ, r) && Factory.FirstFor(adds, NBD_CMD_WRITE, w)
    ensures RightHandlers(Factory.AddAll(adds)) <==> adds[r].1 == ReadHandler && adds[w].1 == WriteHandler
  {
    Factory.FirstRegistrationWins(adds, NBD_CMD_READ, r);
    Factory.FirstRegistrationWins(adds, NBD_CMD_WRITE, w);
  }

  /** RETask::operator() with the handler it creates: the memory operation of the
      pipeline's lone worker, then the reply. */
  method RunTask(factory: Factory.Factory<u32, Handler>, proxy: NBDProxy, mem: MemoryFile, req: NBDRWReq, ghost c: Command)
    requires factory.Valid() && req.m_type in factory.m_map
    requires req in proxy.live && req.Describes(c)
    requires Sendable(c, |mem.file.content|)
    modifies proxy.socket`outgoing, proxy`live, mem.file`position, mem.file`content, req.m_data
    ensures proxy.live == old(proxy.live) - {req}
    ensures proxy.socket.outgoing == old(proxy.socket.outgoing)
              + ReplyHeader(0, c.handle) + (if c.Read? then req.m_data[..] else [])
    ensures Factory.AddAll(factory.adds)[KindOf(c)] == ReadHandler ==>
              mem.file.content == old(mem.file.content) && req.m_data[..] == Slice(old(mem.file.content), c.from, SizeOf(c))
    ensures Factory.AddAll(factory.adds)[KindOf(c)] == WriteHandler ==>
              mem.file.content == Splice(old(mem.file.content), c.from, old(req.m_data[..])) && req.m_data[..] == old(req.m_data[..])
    ensures RightHandlers(Factory.AddAll(factory.adds)) && (c.Write? ==> old(req.m_data[..]) == c.data) ==>
              && mem.file.content == After(c, old(mem.file.content))
              && proxy.socket.outgoing == old(proxy.socket.outgoing) + ReplyHeader(0, c.handle) + Payload(c, old(mem.file.content))
  {
    var handler := factory.Create(req.m_type);
    PerformOperation(handler, mem, req, c);
    var outcome := proxy.Done(req);
    assert req.m_data[..req.m_size] == req.m_data[..];
  }

  /** The first half of ReadHandler's or WriteHandler's operator(). */
  method PerformOperation(handler: Handler, mem: MemoryFile, req: NBDRWReq, ghost c: Command)
    requires req.Describes(c) && Sendable(c, |mem.file.content|)
    modifies mem.file`position, mem.file`content, req.m_data
    ensures handler == ReadHandler ==>
              mem.file.content == old(mem.file.content) && req.m_data[..] == Slice(old(mem.file.content), c.from, SizeOf(c))
    ensures handler == WriteHandler ==>
              mem.file.content == Splice(old(mem.file.content), c.from, old(req.m_data[..])) && req.m_data[..] == old(req.m_data[..])
  {
    match handler
    case ReadHandler =>
      var outcome := mem.Read(req);
      assert req.m_data[..req.m_size] == req.m_data[..];
    case WriteHandler =>
      assert req.m_data[..req.m_size] == req.m_data[..];
      var outcome := mem.Write(req);
  }
}

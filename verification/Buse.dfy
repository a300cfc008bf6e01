/** serve_nbd: the request loop of the block-device server, against a disk
    that is a plain array of bytes. */
module Buse {
  import opened Bytes
  import opened Wire
  import opened Disk
  import opened Options
  import opened Transfers

  // ---- What a client sends and what it is owed ----

  /** The optional entries of struct buse_operations: what each returns when it
      is called for the request with the given number in the session. */
  datatype Callbacks = Callbacks(flush: Option<nat -> u32>, trim: Option<(nat, u64, u32) -> u32>)

  /** The word stored in the error field of the reply to request k. */
  function FlushWord(aop: Callbacks, k: nat): (w: u32)
  {
    if aop.flush.Some? then aop.flush.value(k) else 0
  }

  function TrimWord(aop: Callbacks, k: nat, from: u64, len: u32): (w: u32)
  {
    if aop.trim.Some? then aop.trim.value(k, from, len) else 0
  }

  function HeaderOf(c: Command): (h: Header)
  {
    match c
    case Read(handle, from, len) => Header(NBD_REQUEST_MAGIC, NBD_CMD_READ, handle, from, len)
    case Write(handle, from, data) => Header(NBD_REQUEST_MAGIC, NBD_CMD_WRITE, handle, from, |data|)
    case Flush(handle, from, len) => Header(NBD_REQUEST_MAGIC, NBD_CMD_FLUSH, handle, from, len)
    case Trim(handle, from, len) => Header(NBD_REQUEST_MAGIC, NBD_CMD_TRIM, handle, from, len)
  }

  function Encode(c: Command): (s: seq<byte>)
  {
    EncodeHeader(HeaderOf(c)) + if c.Write? then c.data else []
  }

  function EncodeAll(cs: seq<Command>): (s: seq<byte>)
  {
    if cs == [] then [] else Encode(cs[0]) + EncodeAll(cs[1..])
  }

  datatype Ending = Eof | Disc(handle: Handle, from: u64, len: u32)

  function EncodeEnding(e: Ending): (s: seq<byte>)
  {
    match e
    case Eof => []
    case Disc(handle, from, len) => EncodeHeader(Header(NBD_REQUEST_MAGIC, NBD_CMD_DISC, handle, from, len))
  }

  /** The bytes of a request as the protocol lays them out. */
  lemma RequestOnTheWire(c: Command)
    ensures var s := Encode(c);
            && |s| == 28 + (if c.Write? then |c.data| else 0)
            && s[..8] == [0x25, 0x60, 0x95, 0x13, 0, 0, 0, if c.Read? then 0 else if c.Write? then 1 else if c.Flush? then 3 else 4]
            && s[8..16] == c.handle
            && FromBE(s[16..24]) == c.from
            && FromBE(s[24..28]) == (if c.Write? then |c.data| else c.len)
            && s[28..] == (if c.Write? then c.data else [])
  {
    var kind: byte := if c.Read? then 0 else if c.Write? then 1 else if c.Flush? then 3 else 4;
    var header := EncodeHeader(HeaderOf(c));
    HeaderOnTheWire(HeaderOf(c), kind);
    hide EncodeHeader, FromBE;
    var s := Encode(c);
    assert s[..8] == header[..8] && s[8..16] == header[8..16];
    assert s[16..24] == header[16..24] && s[24..28] == header[24..28];
  }

  lemma EndingOnTheWire(e: Ending)
    ensures EncodeEnding(e) == [] <==> e.Eof?
    ensures e.Disc? ==> var s := EncodeEnding(e);
            && |s| == 28 && s[..8] == [0x25, 0x60, 0x95, 0x13, 0, 0, 0, 2]
            && s[8..16] == e.handle && FromBE(s[16..24]) == e.from && FromBE(s[24..28]) == e.len
  {
    if e.Disc? {
      HeaderOnTheWire(Header(NBD_REQUEST_MAGIC, NBD_CMD_DISC, e.handle, e.from, e.len), 2);
    }
  }

  lemma HeaderOnTheWire(h: Header, kind: byte)
    requires h.magic == 0x2560_9513 && h.kind == kind
    ensures var s := EncodeHeader(h);
            && |s| == 28 && s[..8] == [0x25, 0x60, 0x95, 0x13, 0, 0, 0, kind] && s[8..16] == h.handle
            && FromBE(s[16..24]) == h.from && FromBE(s[24..28]) == h.len
  {
    hide FromBE;
    HeaderNumbers(h);
    var s := EncodeHeader(h);
    WordOnTheWire(h.magic, [0x25, 0x60, 0x95, 0x13], 0x25, 0x60, 0x95, 0x13);
    WordOnTheWire(h.kind, [0, 0, 0, kind], 0, 0, 0, kind);
    assert s[..4] == ToBE(h.magic, 4) && s[4..8] == ToBE(h.kind, 4);
    assert s[..8] == s[..4] + s[4..8];
  }

  lemma HeaderNumbers(h: Header)
    ensures FromBE(EncodeHeader(h)[16..24]) == h.from && FromBE(EncodeHeader(h)[24..28]) == h.len
  {
    var s := EncodeHeader(h);
    Pow256Values();
    assert s[16..24] == ToBE(h.from, 8) && s[24..28] == ToBE(h.len, 4);
    BigEndianRoundTrip(h.from, 8);
    BigEndianRoundTrip(h.len, 4);
  }

  /** The reply to c as request k of the session. */
  function ReplyFrame(aop: Callbacks, k: nat, c: Command, disk: Contents): (s: seq<byte>)
    requires InRange(c, |disk|)
  {
    var word := match c
      case Flush(_, _, _) => FlushWord(aop, k)
      case Trim(_, from, len) => TrimWord(aop, k, from, len)
      case _ => 0;
    ReplyHeader(word, c.handle) + Payload(c, disk)
  }

  /** One frame per command, in order, numbered from k; a read carries what the disk holds once
      the commands before it have taken effect. */
  function ReplyStream(aop: Callbacks, k: nat, cs: seq<Command>, disk: Contents): (s: seq<byte>)
    requires AllInRange(cs, |disk|)
  {
    if cs == [] then []
    else
      var n := |cs| - 1;
      ReplyStream(aop, k, cs[..n], disk) + ReplyFrame(aop, k + n, cs[n], Run(cs[..n], disk))
  }

  lemma {:induction false} ReplyStreamFirst(aop: Callbacks, k: nat, cs: seq<Command>, disk: Contents)
    requires cs != [] && AllInRange(cs, |disk|)
    ensures ReplyStream(aop, k, cs, disk)
         == ReplyFrame(aop, k, cs[0], disk) + ReplyStream(aop, k + 1, cs[1..], After(cs[0], disk))
    decreases |cs|
  {
    hide ReplyFrame, After;
    var n := |cs| - 1;
    if n > 0 {
      ReplyStreamFirst(aop, k, cs[..n], disk);
      assert cs[..n][1..] == cs[1..][..n - 1];
    }
  }

  /** A client reads success from every reply but those to FLUSH and TRIM, and
      from these what the callback returned, byte-swapped, or success where
      there is none. */
  lemma FrameArrives(aop: Callbacks, k: nat, c: Command, disk: Contents)
    requires InRange(c, |disk|)
    ensures var s := ReplyFrame(aop, k, c, disk);
            && |s| == 16 + |Payload(c, disk)| && s[16..] == Payload(c, disk)
            && DecodeReply(s[..16]) == Reply(0x6744_6698,
                 if c.Flush? && aop.flush.Some? then Ntohl(aop.flush.value(k))
                 else if c.Trim? && aop.trim.Some? then Ntohl(aop.trim.value(k, c.from, c.len))
                 else 0, c.handle)
  {
    hide DecodeReply, ReplyHeader;
    var word: u32 := if c.Flush? && aop.flush.Some? then aop.flush.value(k)
      else if c.Trim? && aop.trim.Some? then aop.trim.value(k, c.from, c.len)
      else 0;
    var s := ReplyFrame(aop, k, c, disk);
    assert s == ReplyHeader(word, c.handle) + Payload(c, disk);
    assert s[..16] == ReplyHeader(word, c.handle);
    ReplyArrives(word, c.handle);
  }

  /** The length of the replies to cs. */
  function ReplyLength(cs: seq<Command>): (n: nat)
  {
    if cs == [] then 0
    else ReplyLength(cs[..|cs| - 1]) + 16 + if cs[|cs| - 1].Read? then cs[|cs| - 1].len else 0
  }

  lemma {:induction false} StreamLength(aop: Callbacks, k: nat, cs: seq<Command>, disk: Contents)
    requires AllInRange(cs, |disk|)
    ensures |ReplyStream(aop, k, cs, disk)| == ReplyLength(cs)
    decreases |cs|
  {
    hide ReplyFrame, Run;
    if cs != [] {
      var n := |cs| - 1;
      StreamLength(aop, k, cs[..n], disk);
      FrameArrives(aop, k + n, cs[n], Run(cs[..n], disk));
    }
  }

  /** The reply to command i follows those to the commands before it. */
  lemma {:induction false} FrameInPlace(aop: Callbacks, k: nat, cs: seq<Command>, disk: Contents, i: nat)
    requires i < |cs| && AllInRange(cs, |disk|)
    ensures var f := ReplyFrame(aop, k + i, cs[i], Run(cs[..i], disk));
            FoundAt(f, ReplyStream(aop, k, cs, disk), ReplyLength(cs[..i]))
    decreases |cs|
  {
    hide ReplyFrame, Run, ReplyLength, FoundAt;
    var n := |cs| - 1;
    var before, last := ReplyStream(aop, k, cs[..n], disk), ReplyFrame(aop, k + n, cs[n], Run(cs[..n], disk));
    if i < n {
      FrameInPlace(aop, k, cs[..n], disk, i);
      assert cs[..n][..i] == cs[..i];
      FoundBefore(ReplyFrame(aop, k + i, cs[i], Run(cs[..i], disk)), before, ReplyLength(cs[..i]), last);
    } else {
      StreamLength(aop, k, cs[..n], disk);
      FoundLast(last, before);
    }
  }

  predicate FoundAt(f: seq<byte>, s: seq<byte>, at: nat)
  {
    at + |f| <= |s| && s[at..at + |f|] == f
  }

  lemma FoundBefore(f: seq<byte>, s: seq<byte>, at: nat, t: seq<byte>)
    requires FoundAt(f, s, at)
    ensures FoundAt(f, s + t, at)
  {
  }

  lemma FoundLast(f: seq<byte>, s: seq<byte>)
    ensures FoundAt(f, s + f, |s|)
  {
  }

  /** A reply header at a place in a stream says that a request succeeded. */
  predicate SuccessAt(s: seq<byte>, at: nat, handle: Handle)
  {
    at + 16 <= |s| && DecodeReply(s[at..at + 16]) == Reply(0x6744_6698, 0, handle)
  }

  /** No callback, or none that reports an error. */
  ghost predicate Quiet(aop: Callbacks)
  {
    && (aop.flush.Some? ==> forall k :: aop.flush.value(k) == 0)
    && (aop.trim.Some? ==> forall k, from, len :: aop.trim.value(k, from, len) == 0)
  }

  /** Then every request is answered in its place with success, and a read
      with its data. */
  lemma QuietReply(aop: Callbacks, k: nat, cs: seq<Command>, disk: Contents, i: nat)
    requires i < |cs| && AllInRange(cs, |disk|) && Quiet(aop)
    ensures var s, at, payload := ReplyStream(aop, k, cs, disk), ReplyLength(cs[..i]), Payload(cs[i], Run(cs[..i], disk));
            SuccessAt(s, at, cs[i].handle) && FoundAt(payload, s, at + 16)
  {
    hide ReplyStream, ReplyLength, ReplyFrame, Run, DecodeReply, Payload;
    var s, at := ReplyStream(aop, k, cs, disk), ReplyLength(cs[..i]);
    var f := ReplyFrame(aop, k + i, cs[i], Run(cs[..i], disk));
    FrameInPlace(aop, k, cs, disk, i);
    FrameArrives(aop, k + i, cs[i], Run(cs[..i], disk));
    assert f[..16] == s[at..at + 16] && f[16..] == s[at + 16..at + |f|];
    ReplyArrives(0, cs[i].handle);
  }

  /** The first n of cs are answered with success, from a place in s on. */
  ghost predicate AllSucceed(cs: seq<Command>, n: nat, s: seq<byte>, place: nat)
    requires n <= |cs|
  {
    forall i: nat :: i < n ==> SuccessAt(s, place + ReplyLength(cs[..i]), cs[i].handle)
  }

  lemma QuietReplies(aop: Callbacks, cs: seq<Command>, n: nat, disk: Contents, sent: seq<byte>, s: seq<byte>)
    requires n <= |cs| && AllInRange(cs, |disk|) && Quiet(aop)
    requires s == sent + ReplyStream(aop, 0, cs[..n], disk)
    ensures AllSucceed(cs, n, s, |sent|)
  {
    hide ReplyStream, ReplyLength, Run, SuccessAt, Quiet;
    forall i: nat | i < n ensures SuccessAt(s, |sent| + ReplyLength(cs[..i]), cs[i].handle) {
      SuccessAmong(aop, cs, n, disk, i);
      SuccessFurther(sent, ReplyStream(aop, 0, cs[..n], disk), ReplyLength(cs[..i]), cs[i].handle);
    }
  }

  lemma SuccessAmong(aop: Callbacks, cs: seq<Command>, n: nat, disk: Contents, i: nat)
    requires i < n <= |cs| && AllInRange(cs, |disk|) && Quiet(aop)
    ensures SuccessAt(ReplyStream(aop, 0, cs[..n], disk), ReplyLength(cs[..i]), cs[i].handle)
  {
    hide ReplyStream, ReplyLength, Run, SuccessAt, FoundAt, Payload, Quiet;
    QuietReply(aop, 0, cs[..n], disk, i);
    assert cs[..n][..i] == cs[..i];
  }

  lemma SuccessFurther(sent: seq<byte>, s: seq<byte>, at: nat, handle: Handle)
    requires SuccessAt(s, at, handle)
    ensures SuccessAt(sent + s, |sent| + at, handle)
  {
    assert (sent + s)[|sent| + at..|sent| + at + 16] == s[at..at + 16];
  }

  // ---- The server loop as a function of its whole input ----

  /** Running: the loop goes on.  AssertFailed: one of serve_nbd's assertions
      aborts the process.  OutOfBounds: the backend is asked for bytes it does
      not have.  ExitFailure: fetching a header failed. */
  datatype Status = Running | ExitSuccess | ExitFailure | AssertFailed | OutOfBounds

  datatype Served = Served(output: seq<byte>, disk: Contents, rest: seq<byte>, status: Status)

  /** One turn of the loop, after k of them. */
  function Turn(aop: Callbacks, k: nat, input: seq<byte>, disk: Contents): (r: Served)
    ensures |r.disk| == |disk|
    ensures r.status == Running ==> |r.rest| < |input|
  {
    if input == [] then Served([], disk, [], ExitSuccess)
    else if |input| < REQUEST_SIZE then Served([], disk, [], AssertFailed)
    else Answer(aop, k, DecodeHeader(input[..REQUEST_SIZE]), input[REQUEST_SIZE..], disk)
  }

  /** The switch on the request type, once the header has been read. */
  function Answer(aop: Callbacks, k: nat, request: Header, input: seq<byte>, disk: Contents): (r: Served)
    ensures |r.disk| == |disk| && |r.rest| <= |input|
  {
    var from, len := request.from, request.len;
    if request.magic != NBD_REQUEST_MAGIC then
      Served([], disk, input, AssertFailed)
    else if request.kind == NBD_CMD_READ then
      if !Fits(from, len, |disk|) then Served([], disk, input, OutOfBounds)
      else Served(ReplyHeader(0, request.handle) + Slice(disk, from, len), disk, input, Running)
    else if request.kind == NBD_CMD_WRITE then
      if len > |input| then Served([], disk, [], AssertFailed)
      else if !Fits(from, len, |disk|) then Served([], disk, input[len..], OutOfBounds)
      else Served(ReplyHeader(0, request.handle), Splice(disk, from, input[..len]), input[len..], Running)
    else if request.kind == NBD_CMD_DISC then
      Served([], disk, input, ExitSuccess)
    else if request.kind == NBD_CMD_FLUSH then
      Served(ReplyHeader(FlushWord(aop, k), request.handle), disk, input, Running)
    else if request.kind == NBD_CMD_TRIM then
      Served(ReplyHeader(TrimWord(aop, k, request.from, request.len), request.handle), disk, input, Running)
    else
      Served([], disk, input, AssertFailed)
  }

  lemma HeaderByBytes(s: seq<byte>)
    requires |s| == REQUEST_SIZE
    ensures var h := DecodeHeader(s);
            && h.magic == FromBE(s[..4]) && h.kind == FromBE(s[4..8]) && h.handle == s[8..16]
            && h.from == FromBE(s[16..24]) && h.len == FromBE(s[24..28])
  {
    NtohlReadsBigEndian(s[..4]);
    NtohlReadsBigEndian(s[4..8]);
    NtohllReadsBigEndian(s[16..24]);
    NtohlReadsBigEndian(s[24..28]);
  }

  /** How a turn ends, by the bytes on the stream: success at its end or at a
      DISC; an assertion for a header cut short, another magic, an unknown type
      or a write's missing data.  A turn that ends the loop has no effect. */
  lemma TurnByBytes(aop: Callbacks, k: nat, s: seq<byte>, disk: Contents)
    ensures Turn(aop, k, s, disk).status ==
      if s == [] then ExitSuccess
      else if |s| < 28 || FromBE(s[..4]) != 0x2560_9513 || FromBE(s[4..8]) > 4 then AssertFailed
      else if FromBE(s[4..8]) == 1 && FromBE(s[24..28]) > |s| - 28 then AssertFailed
      else if FromBE(s[4..8]) == 2 then ExitSuccess
      else if FromBE(s[4..8]) > 2 || FromBE(s[24..28]) == 0 || FromBE(s[16..24]) + FromBE(s[24..28]) <= |disk| then Running
      else OutOfBounds
    ensures Turn(aop, k, s, disk).status != Running ==>
      Turn(aop, k, s, disk).output == [] && Turn(aop, k, s, disk).disk == disk
  {
    if |s| >= 28 {
      HeaderByBytes(s[..REQUEST_SIZE]);
      hide FromBE, DecodeHeader, ReplyHeader, Splice, Slice;
      assert s[..28][..4] == s[..4] && s[..28][4..8] == s[4..8];
      assert s[..28][16..24] == s[16..24] && s[..28][24..28] == s[24..28];
    }
  }

  /** The loop, after k turns, for at most the given number more. */
  function Serve(aop: Callbacks, k: nat, input: seq<byte>, disk: Contents, turns: nat): (r: Served)
    ensures |r.disk| == |disk|
    decreases turns
  {
    if turns == 0 then Served([], disk, input, Running)
    else
      var t := Turn(aop, k, input, disk);
      if t.status != Running then t
      else
        var r := Serve(aop, k + 1, t.rest, t.disk, turns - 1);
        r.(output := t.output + r.output)
  }

  /** Running the loop n turns and then m more. */
  lemma {:induction false} ServeResumes(aop: Callbacks, k: nat, input: seq<byte>, disk: Contents, n: nat, m: nat, r: Served, s: Served)
    requires r == Serve(aop, k, input, disk, n) && r.status == Running
    requires s == Serve(aop, k + n, r.rest, r.disk, m)
    ensures Serve(aop, k, input, disk, n + m) == s.(output := r.output + s.output)
    decreases n
  {
    hide Turn;
    if n == 0 {
      assert [] + s.output == s.output;
    } else {
      var t := Turn(aop, k, input, disk);
      var r' := Serve(aop, k + 1, t.rest, t.disk, n - 1);
      ServeResumes(aop, k + 1, t.rest, t.disk, n - 1, m, r', s);
      assert (t.output + r'.output) + s.output == t.output + (r'.output + s.output);
    }
  }

  lemma AnswerServes(aop: Callbacks, k: nat, c: Command, rest: seq<byte>, disk: Contents)
    requires InRange(c, |disk|)
    ensures Answer(aop, k, HeaderOf(c), (if c.Write? then c.data else []) + rest, disk)
         == Served(ReplyFrame(aop, k, c, disk), After(c, disk), rest, Running)
  {
    hide ReplyHeader, Splice, Slice;
    var tail := (if c.Write? then c.data else []) + rest;
    if c.Write? {
      assert tail[..|c.data|] == c.data && tail[|c.data|..] == rest;
    } else {
      assert tail == rest;
    }
  }

  lemma TurnServes(aop: Callbacks, k: nat, c: Command, rest: seq<byte>, disk: Contents)
    requires InRange(c, |disk|)
    ensures Turn(aop, k, Encode(c) + rest, disk) == Served(ReplyFrame(aop, k, c, disk), After(c, disk), rest, Running)
  {
    hide Answer, ReplyFrame, After, EncodeHeader, DecodeHeader, HeaderOf;
    var input, header := Encode(c) + rest, EncodeHeader(HeaderOf(c));
    var tail := (if c.Write? then c.data else []) + rest;
    assert input == header + tail;
    assert input[..REQUEST_SIZE] == header && input[REQUEST_SIZE..] == tail;
    HeaderRoundTrip(HeaderOf(c));
    AnswerServes(aop, k, c, rest, disk);
  }

  /** Whatever follows them on the stream, in-range commands are all carried
      out and answered in order, and the loop then faces the rest. */
  lemma {:induction false} ServeRefinesDisk(aop: Callbacks, k: nat, cs: seq<Command>, rest: seq<byte>, disk: Contents)
    requires AllInRange(cs, |disk|)
    ensures Serve(aop, k, EncodeAll(cs) + rest, disk, |cs|)
         == Served(ReplyStream(aop, k, cs, disk), Run(cs, disk), rest, Running)
    decreases |cs|
  {
    hide Turn, ReplyFrame, Encode, After;
    if cs == [] {
      assert [] + rest == rest;
    } else {
      var c, cs' := cs[0], cs[1..];
      assert EncodeAll(cs) + rest == Encode(c) + (EncodeAll(cs') + rest);
      TurnServes(aop, k, c, EncodeAll(cs') + rest, disk);
      ServeRefinesDisk(aop, k + 1, cs', rest, After(c, disk));
      ReplyStreamFirst(aop, k, cs, disk);
    }
  }

  lemma {:induction false} EncodeAllSplits(cs: seq<Command>, n: nat)
    requires n <= |cs|
    ensures EncodeAll(cs) == EncodeAll(cs[..n]) + EncodeAll(cs[n..])
    decreases n
  {
    hide Encode;
    if n == 0 {
      assert cs[0..] == cs;
    } else {
      EncodeAllSplits(cs[1..], n - 1);
      assert cs[1..][..n - 1] == cs[..n][1..] && cs[1..][n - 1..] == cs[n..];
    }
  }

  /** Cut off after n turns, the server has done the first n commands, all of
      them and nothing else. */
  lemma InterruptedSession(aop: Callbacks, k: nat, cs: seq<Command>, rest: seq<byte>, disk: Contents, n: nat)
    requires AllInRange(cs, |disk|) && n <= |cs|
    ensures Serve(aop, k, EncodeAll(cs) + rest, disk, n)
         == Served(ReplyStream(aop, k, cs[..n], disk), Run(cs[..n], disk), EncodeAll(cs[n..]) + rest, Running)
  {
    hide EncodeAll, ReplyStream, Run, Turn;
    EncodeAllSplits(cs, n);
    assert (EncodeAll(cs[..n]) + EncodeAll(cs[n..])) + rest == EncodeAll(cs[..n]) + (EncodeAll(cs[n..]) + rest);
    ServeRefinesDisk(aop, k, cs[..n], EncodeAll(cs[n..]) + rest, disk);
  }

  lemma TurnEnds(aop: Callbacks, k: nat, e: Ending, junk: seq<byte>, disk: Contents)
    requires e.Eof? ==> junk == []
    ensures Turn(aop, k, EncodeEnding(e) + junk, disk) == Served([], disk, junk, ExitSuccess)
  {
    if e.Disc? {
      var h := Header(NBD_REQUEST_MAGIC, NBD_CMD_DISC, e.handle, e.from, e.len);
      var input := EncodeEnding(e) + junk;
      assert input[..REQUEST_SIZE] == EncodeHeader(h) && input[REQUEST_SIZE..] == junk;
      HeaderRoundTrip(h);
    }
  }

  /** A whole session: exactly the commands and the ending are consumed, the
      output is one reply per command, the disk is the fold of the writes. */
  lemma SessionRefinesDisk(aop: Callbacks, k: nat, cs: seq<Command>, e: Ending, junk: seq<byte>, disk: Contents, turns: nat)
    requires AllInRange(cs, |disk|) && turns > |cs|
    requires e.Eof? ==> junk == []
    ensures Serve(aop, k, EncodeAll(cs) + EncodeEnding(e) + junk, disk, turns)
         == Served(ReplyStream(aop, k, cs, disk), Run(cs, disk), junk, ExitSuccess)
  {
    hide Turn, EncodeEnding, EncodeAll, ReplyStream, Run;
    var rest := EncodeEnding(e) + junk;
    assert EncodeAll(cs) + EncodeEnding(e) + junk == EncodeAll(cs) + rest;
    ServeRefinesDisk(aop, k, cs, rest, disk);
    var r := Serve(aop, k, EncodeAll(cs) + rest, disk, |cs|);
    TurnEnds(aop, k + |cs|, e, junk, Run(cs, disk));
    var s := Serve(aop, k + |cs|, rest, Run(cs, disk), turns - |cs|);
    ServeResumes(aop, k, EncodeAll(cs) + rest, disk, |cs|, turns - |cs|, r, s);
    assert ReplyStream(aop, k, cs, disk) + [] == ReplyStream(aop, k, cs, disk);
  }

  /** Conversely, a turn that keeps the loop running has read one in-range
      command, which its header and the bytes it took after it encode. */
  lemma AnswerAccepts(aop: Callbacks, k: nat, h: Header, tail: seq<byte>, disk: Contents) returns (c: Command)
    requires Answer(aop, k, h, tail, disk).status == Running
    ensures InRange(c, |disk|) && HeaderOf(c) == h
    ensures tail == (if c.Write? then c.data else []) + Answer(aop, k, h, tail, disk).rest
  {
    hide ReplyHeader, Splice, Slice;
    if h.kind == NBD_CMD_READ {
      c := Read(h.handle, h.from, h.len);
    } else if h.kind == NBD_CMD_WRITE {
      c := Write(h.handle, h.from, tail[..h.len]);
    } else if h.kind == NBD_CMD_FLUSH {
      c := Flush(h.handle, h.from, h.len);
    } else {
      c := Trim(h.handle, h.from, h.len);
    }
  }

  lemma TurnAccepts(aop: Callbacks, k: nat, input: seq<byte>, disk: Contents) returns (c: Command)
    requires Turn(aop, k, input, disk).status == Running
    ensures InRange(c, |disk|)
    ensures input == Encode(c) + Turn(aop, k, input, disk).rest
  {
    hide Answer, EncodeHeader, DecodeHeader, HeaderOf;
    var h, tail := DecodeHeader(input[..REQUEST_SIZE]), input[REQUEST_SIZE..];
    HeaderBytesRoundTrip(input[..REQUEST_SIZE]);
    c := AnswerAccepts(aop, k, h, tail, disk);
    assert input == EncodeHeader(h) + tail;
  }

  lemma TurnEnded(aop: Callbacks, k: nat, input: seq<byte>, disk: Contents) returns (e: Ending)
    requires Turn(aop, k, input, disk).status == ExitSuccess
    ensures input == EncodeEnding(e) + Turn(aop, k, input, disk).rest
    ensures e.Eof? ==> Turn(aop, k, input, disk).rest == []
  {
    hide EncodeHeader, DecodeHeader, ReplyHeader, Splice, Slice;
    if input == [] {
      e := Eof;
    } else {
      var h := DecodeHeader(input[..REQUEST_SIZE]);
      HeaderBytesRoundTrip(input[..REQUEST_SIZE]);
      e := Disc(h.handle, h.from, h.len);
      assert input == EncodeHeader(h) + input[REQUEST_SIZE..];
    }
  }

  /** Only such a stream makes serve_nbd exit in success. */
  lemma {:induction false} SuccessMeansSession(aop: Callbacks, k: nat, input: seq<byte>, disk: Contents, turns: nat)
    returns (cs: seq<Command>, e: Ending)
    requires Serve(aop, k, input, disk, turns).status == ExitSuccess
    ensures |cs| < turns && AllInRange(cs, |disk|)
    ensures input == EncodeAll(cs) + EncodeEnding(e) + Serve(aop, k, input, disk, turns).rest
    ensures e.Eof? ==> Serve(aop, k, input, disk, turns).rest == []
    decreases turns
  {
    hide Turn, Encode, EncodeEnding;
    var t := Turn(aop, k, input, disk);
    if t.status == Running {
      var c := TurnAccepts(aop, k, input, disk);
      var cs';
      cs', e := SuccessMeansSession(aop, k + 1, t.rest, t.disk, turns - 1);
      cs := [c] + cs';
      assert cs[1..] == cs';
    } else {
      cs := [];
      e := TurnEnded(aop, k, input, disk);
    }
  }

  // ---- The server itself ----

  /** What the read and write entries of the table act on: busexmp's memory
      block, or loopback's device. */
  datatype Backend = Memory(data: array<byte>) | Loopback(file: File)
  {
    function Contents(): (disk: seq<byte>)
      reads Footprint()
    {
      match this
      case Memory(data) => data[..]
      case Loopback(file) => file.content
    }

    function Footprint(): set<object>
    {
      match this
      case Memory(data) => {data}
      case Loopback(file) => {file}
    }
  }

  method XmpRead(data: array<byte>, buf: array<byte>, len: nat, offset: nat)
    requires Fits(offset, len, data.Length) && len <= buf.Length && buf != data
    modifies buf
    ensures buf[..len] == Slice(data[..], offset, len)
  {
    forall i | 0 <= i < len {
      buf[i] := data[offset + i];
    }
  }

  method XmpWrite(data: array<byte>, buf: array<byte>, len: nat, offset: nat)
    requires Fits(offset, len, data.Length) && len <= buf.Length && buf != data
    modifies data
    ensures data[..] == Splice(old(data[..]), offset, old(buf[..len]))
  {
    forall i | 0 <= i < len {
      data[offset + i] := buf[i];
    }
  }

  /** However the device splits the transfer, one whole slice of it. */
  method LoopbackRead(file: File, buf: array<byte>, len: nat, offset: nat) returns (ok: bool)
    requires len <= buf.Length
    modifies file`position, buf
    ensures ok <==> Fits(offset, len, |file.content|)
    ensures ok ==> buf[..len] == Slice(file.content, offset, len)
  {
    file.LSeek(offset);
    ok := ReadFully(file, buf, len);
  }

  method LoopbackWrite(file: File, buf: array<byte>, len: nat, offset: nat) returns (ok: bool)
    requires len <= buf.Length
    modifies file`position, file`content
    ensures ok <==> file.grows || Fits(offset, len, |old(file.content)|)
    ensures ok ==> file.content == WriteAt(old(file.content), offset, buf[..len])
    ensures Fits(offset, len, |old(file.content)|) ==> file.content == Splice(old(file.content), offset, buf[..len])
  {
    file.LSeek(offset);
    ok := WriteFully(file, buf[..len]);
  }

  /** aop->read through the table. */
  method BackendRead(b: Backend, buf: array<byte>, len: nat, from: nat)
    requires Fits(from, len, |b.Contents()|) && len <= buf.Length && buf !in b.Footprint()
    modifies b.Footprint(), buf
    ensures buf[..len] == Slice(old(b.Contents()), from, len)
    ensures b.Contents() == old(b.Contents())
  {
    match b
    case Memory(data) =>
      XmpRead(data, buf, len, from);
    case Loopback(file) =>
      var ok := LoopbackRead(file, buf, len, from);
  }

  /** aop->write through the table. */
  method BackendWrite(b: Backend, buf: array<byte>, len: nat, from: nat)
    requires Fits(from, len, |b.Contents()|) && len <= buf.Length && buf !in b.Footprint()
    modifies b.Footprint()
    ensures b.Contents() == Splice(old(b.Contents()), from, old(buf[..len]))
  {
    match b
    case Memory(data) =>
      XmpWrite(data, buf, len, from);
    case Loopback(file) =>
      var ok := LoopbackWrite(file, buf, len, from);
  }

  /** NBD_CMD_READ: fetch, then the reply, then the data. */
  method ServeRead(sk: Socket, b: Backend, request: Header)
    requires Fits(request.from, request.len, |b.Contents()|) && sk !in b.Footprint()
    modifies sk`outgoing, b.Footprint()
    ensures sk.outgoing == old(sk.outgoing) + (ReplyHeader(0, request.handle) + Slice(old(b.Contents()), request.from, request.len))
    ensures b.Contents() == old(b.Contents())
  {
    var chunk := new byte[request.len];
    BackendRead(b, chunk, request.len, request.from);
    WriteAll(sk, ReplyHeader(0, request.handle));
    WriteAll(sk, chunk[..]);
  }

  /** NBD_CMD_WRITE: the data, then the backend, then the reply. */
  method ServeWrite(sk: Socket, b: Backend, request: Header) returns (status: Status)
    requires sk !in b.Footprint()
    modifies sk, b.Footprint()
    ensures var len := request.len;
            status == if len > |old(sk.incoming)| then AssertFailed
                      else if !Fits(request.from, len, |old(b.Contents())|) then OutOfBounds
                      else Running
    ensures sk.incoming == if status == AssertFailed then [] else old(sk.incoming)[request.len..]
    ensures status != Running ==> sk.outgoing == old(sk.outgoing) && b.Contents() == old(b.Contents())
    ensures status == Running ==>
              sk.outgoing == old(sk.outgoing) + ReplyHeader(0, request.handle)
              && b.Contents() == Splice(old(b.Contents()), request.from, old(sk.incoming)[..request.len])
  {
    var chunk := new byte[request.len];
    var ok := ReadAll(sk, chunk, request.len);
    if !ok {
      return AssertFailed;
    }
    if !Fits(request.from, request.len, |b.Contents()|) {
      return OutOfBounds;
    }
    BackendWrite(b, chunk, request.len, request.from);
    WriteAll(sk, ReplyHeader(0, request.handle));
    return Running;
  }

  /** The switch of serve_nbd on one request whose header has been read. */
  method ServeRequest(sk: Socket, b: Backend, aop: Callbacks, k: nat, request: Header) returns (status: Status)
    requires sk !in b.Footprint()
    modifies sk, b.Footprint()
    ensures var r := Answer(aop, k, request, old(sk.incoming), old(b.Contents()));
            status == r.status && sk.incoming == r.rest && b.Contents() == r.disk
            && sk.outgoing == old(sk.outgoing) + r.output
  {
    assert sk.outgoing == sk.outgoing + [];
    if request.magic != NBD_REQUEST_MAGIC {
      return AssertFailed;
    }
    if request.kind == NBD_CMD_READ {
      if !Fits(request.from, request.len, |b.Contents()|) {
        return OutOfBounds;
      }
      ServeRead(sk, b, request);
    } else if request.kind == NBD_CMD_WRITE {
      status := ServeWrite(sk, b, request);
      return;
    } else if request.kind == NBD_CMD_DISC {
      return ExitSuccess;
    } else if request.kind == NBD_CMD_FLUSH {
      WriteAll(sk, ReplyHeader(FlushWord(aop, k), request.handle));
    } else if request.kind == NBD_CMD_TRIM {
      WriteAll(sk, ReplyHeader(TrimWord(aop, k, request.from, request.len), request.handle));
    } else {
      return AssertFailed;
    }
    return Running;
  }

  /** How the single read of a header went: as much as the stream had, up to a
      whole header; cut short, as a stream socket may, which an assertion does
      not let pass; or failed, which ends in EXIT_FAILURE. */
  datatype Fetch = Whole | Torn | Failed

  /** One turn of the loop, after k of them. */
  method ServeTurn(sk: Socket, b: Backend, aop: Callbacks, k: nat) returns (status: Status, ghost fetch: Fetch)
    requires sk !in b.Footprint()
    modifies sk, b.Footprint()
    ensures fetch != Whole ==> && status == (if fetch == Torn then AssertFailed else ExitFailure)
                               && sk.outgoing == old(sk.outgoing) && b.Contents() == old(b.Contents())
    ensures fetch == Torn ==> |old(sk.incoming)| > 1
    ensures fetch == Failed ==> sk.incoming == old(sk.incoming)
    ensures fetch == Whole ==> var t := Turn(aop, k, old(sk.incoming), old(b.Contents()));
                               status == t.status && sk.incoming == t.rest && b.Contents() == t.disk
                               && sk.outgoing == old(sk.outgoing) + t.output
  {
    ghost var available := sk.incoming;
    assert sk.outgoing == sk.outgoing + [];
    var request := new byte[REQUEST_SIZE];
    var bytesRead := sk.ReadOrFail(request, REQUEST_SIZE);
    if bytesRead == -1 {
      return ExitFailure, Failed;
    }
    if bytesRead == 0 {
      return ExitSuccess, Whole;
    }
    if bytesRead < REQUEST_SIZE {
      fetch := if bytesRead < |available| then Torn else Whole;
      return AssertFailed, fetch;
    }
    assert request[..] == available[..REQUEST_SIZE];
    status := ServeRequest(sk, b, aop, k, DecodeHeader(request[..]));
    fetch := Whole;
  }

  /** serve_nbd: whole turns until one of them does not go on, or a header is
      torn or not fetched after served of them. */
  method ServeNbd(sk: Socket, b: Backend, aop: Callbacks)
    returns (status: Status, ghost fetch: Fetch, ghost served: nat)
    requires sk !in b.Footprint()
    modifies sk, b.Footprint()
    ensures var r := Serve(aop, 0, old(sk.incoming), old(b.Contents()), served);
            && sk.outgoing == old(sk.outgoing) + r.output
            && b.Contents() == r.disk
            && (fetch == Whole ==> status == r.status != Running && sk.incoming == r.rest)
            && (fetch != Whole ==> status == (if fetch == Torn then AssertFailed else ExitFailure) && r.status == Running)
            && (fetch == Torn ==> |r.rest| > 1)
            && (fetch == Failed ==> sk.incoming == r.rest)
  {
    ghost var input, disk, sent := sk.incoming, b.Contents(), sk.outgoing;
    served := 0;
    var k := 0;
    assert sent == sent + [];
    while true
      invariant k == served
      invariant var r := Serve(aop, 0, input, disk, served);
                && r.status == Running && sk.incoming == r.rest
                && sk.outgoing == sent + r.output && b.Contents() == r.disk
      decreases |sk.incoming|
    {
      LastTurn(aop, input, disk, served, sent);
      status, fetch := ServeTurn(sk, b, aop, k);
      if status != Running {
        served := if fetch == Whole then served + 1 else served;
        return;
      }
      k, served := k + 1, served + 1;
    }
  }

  /** serve_nbd facing the encoding of in-range commands: it either does them
      all and answers each in order, or stops fetching a header after a prefix
      of them, done and answered. */
  method ServeSession(sk: Socket, b: Backend, aop: Callbacks, ghost cs: seq<Command>, ghost e: Ending, ghost junk: seq<byte>)
    returns (status: Status, ghost fetch: Fetch, ghost served: nat)
    requires sk !in b.Footprint() && AllInRange(cs, |b.Contents()|)
    requires sk.incoming == EncodeAll(cs) + EncodeEnding(e) + junk && (e.Eof? ==> junk == [])
    modifies sk, b.Footprint()
    ensures fetch == Whole ==> && status == ExitSuccess && sk.incoming == junk
                               && sk.outgoing == old(sk.outgoing) + ReplyStream(aop, 0, cs, old(b.Contents()))
                               && b.Contents() == Run(cs, old(b.Contents()))
    ensures fetch != Whole ==> && status == (if fetch == Torn then AssertFailed else ExitFailure) && served <= |cs|
                               && sk.outgoing == old(sk.outgoing) + ReplyStream(aop, 0, cs[..served], old(b.Contents()))
                               && b.Contents() == Run(cs[..served], old(b.Contents()))
    ensures Quiet(aop) ==> AllSucceed(cs, if fetch == Whole then |cs| else served, sk.outgoing, |old(sk.outgoing)|)
  {
    ghost var disk, sent := b.Contents(), sk.outgoing;
    hide ReplyStream, Run, EncodeAll, EncodeEnding, AllSucceed, Quiet, Serve;
    status, fetch, served := ServeNbd(sk, b, aop);
    SessionOutcome(aop, cs, e, junk, disk, served);
    if Quiet(aop) {
      ghost var n := if fetch == Whole then |cs| else served;
      assert cs[..|cs|] == cs;
      QuietReplies(aop, cs, n, disk, sent, sk.outgoing);
    }
  }

  lemma SessionOutcome(aop: Callbacks, cs: seq<Command>, e: Ending, junk: seq<byte>, disk: Contents, turns: nat)
    requires AllInRange(cs, |disk|)
    requires e.Eof? ==> junk == []
    ensures var r := Serve(aop, 0, EncodeAll(cs) + EncodeEnding(e) + junk, disk, turns);
            if turns <= |cs|
            then r.status == Running && r.output == ReplyStream(aop, 0, cs[..turns], disk) && r.disk == Run(cs[..turns], disk)
            else r == Served(ReplyStream(aop, 0, cs, disk), Run(cs, disk), junk, ExitSuccess)
  {
    hide EncodeAll, EncodeEnding, Serve, ReplyStream, Run;
    if turns <= |cs| {
      assert EncodeAll(cs) + EncodeEnding(e) + junk == EncodeAll(cs) + (EncodeEnding(e) + junk);
      InterruptedSession(aop, 0, cs, EncodeEnding(e) + junk, disk, turns);
    } else {
      SessionRefinesDisk(aop, 0, cs, e, junk, disk, turns);
    }
  }

  /** One more turn from where n turns left off. */
  lemma LastTurn(aop: Callbacks, input: seq<byte>, disk: Contents, n: nat, sent: seq<byte>)
    requires Serve(aop, 0, input, disk, n).status == Running
    ensures var r := Serve(aop, 0, input, disk, n);
            var t := Turn(aop, n, r.rest, r.disk);
            && Serve(aop, 0, input, disk, n + 1) == t.(output := r.output + t.output)
            && sent + (r.output + t.output) == (sent + r.output) + t.output
  {
    hide Turn;
    var r := Serve(aop, 0, input, disk, n);
    var t, s := Turn(aop, n, r.rest, r.disk), Serve(aop, n, r.rest, r.disk, 1);
    assert t.output + [] == t.output;
    ServeResumes(aop, 0, input, disk, n, 1, r, s);
  }
}

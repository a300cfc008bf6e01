/** The NBD transmission format: 28-byte request headers, 16-byte simple
    replies, and the two ways the programs decode a request. */
module Wire {
  import opened Bytes

  const NBD_REQUEST_MAGIC: u32 := 0x2560_9513
  const NBD_REPLY_MAGIC: u32 := 0x6744_6698

  const NBD_CMD_READ: u32 := 0
  const NBD_CMD_WRITE: u32 := 1
  const NBD_CMD_DISC: u32 := 2
  const NBD_CMD_FLUSH: u32 := 3
  const NBD_CMD_TRIM: u32 := 4

  const REQUEST_SIZE: nat := 28
  const REPLY_SIZE: nat := 16

  type Handle = h: seq<byte> | |h| == 8 witness [0, 0, 0, 0, 0, 0, 0, 0]

  datatype Header = Header(magic: u32, kind: u32, handle: Handle, from: u64, len: u32)

  /** What a client puts on the wire: every number most significant byte first. */
  function EncodeHeader(h: Header): (s: seq<byte>)
    ensures |s| == REQUEST_SIZE
  {
    ToBE(h.magic, 4) + ToBE(h.kind, 4) + h.handle + ToBE(h.from, 8) + ToBE(h.len, 4)
  }

  function LoadWord(s: seq<byte>): (w: u32)
    requires |s| == 4
  {
    Pow256Values();
    FromLE(s)
  }

  function LoadLong(s: seq<byte>): (w: u64)
    requires |s| == 8
  {
    Pow256Values();
    FromLE(s)
  }

  /** Four bytes in transmission order. */
  lemma WordOnTheWire(n: u32, s: seq<byte>, a: int, b: int, c: int, d: int)
    requires s == [a, b, c, d] && n == 256 * (256 * (256 * a + b) + c) + d
    ensures ToBE(n, 4) == s
  {
    assert a == s[0] && b == s[1] && c == s[2] && d == s[3];
    assert Reversed(s) == [d, c, b, a];
    assert FromLE([a]) == a;
    assert FromLE([b, a]) == b + 256 * a;
    assert FromLE([c, b, a]) == c + 256 * (b + 256 * a);
    assert FromBE(s) == n;
    BigEndianRoundTripBytes(s);
  }

  /** What the server makes of the packed struct it read: little-endian loads
      followed by ntohl and ntohll. */
  function DecodeHeader(s: seq<byte>): (h: Header)
    requires |s| == REQUEST_SIZE
  {
    Header(Ntohl(LoadWord(s[..4])), Ntohl(LoadWord(s[4..8])), s[8..16],
           Ntohll(LoadLong(s[16..24])), Ntohl(LoadWord(s[24..28])))
  }

  lemma WordArrives(s: seq<byte>, n: u32)
    requires s == ToBE(n, 4)
    ensures Ntohl(LoadWord(s)) == n
  {
    Pow256Values();
    NtohlReadsBigEndian(s);
    BigEndianRoundTrip(n, 4);
  }

  lemma LongArrives(s: seq<byte>, n: u64)
    requires s == ToBE(n, 8)
    ensures Ntohll(LoadLong(s)) == n
  {
    Pow256Values();
    NtohllReadsBigEndian(s);
    BigEndianRoundTrip(n, 8);
  }

  lemma HeaderRoundTrip(h: Header)
    ensures DecodeHeader(EncodeHeader(h)) == h
  {
    var s := EncodeHeader(h);
    WordArrives(s[..4], h.magic);
    WordArrives(s[4..8], h.kind);
    LongArrives(s[16..24], h.from);
    WordArrives(s[24..28], h.len);
    assert s[8..16] == h.handle;
  }

  lemma WordReturns(s: seq<byte>)
    requires |s| == 4
    ensures ToBE(Ntohl(LoadWord(s)), 4) == s
  {
    NtohlReadsBigEndian(s);
    BigEndianRoundTripBytes(s);
  }

  lemma LongReturns(s: seq<byte>)
    requires |s| == 8
    ensures ToBE(Ntohll(LoadLong(s)), 8) == s
  {
    NtohllReadsBigEndian(s);
    BigEndianRoundTripBytes(s);
  }

  /** No two byte strings decode to the same header. */
  lemma HeaderBytesRoundTrip(s: seq<byte>)
    requires |s| == REQUEST_SIZE
    ensures EncodeHeader(DecodeHeader(s)) == s
  {
    WordReturns(s[..4]);
    WordReturns(s[4..8]);
    LongReturns(s[16..24]);
    WordReturns(s[24..28]);
    assert s == s[..4] + s[4..8] + s[8..16] + s[16..24] + s[24..28];
  }

  /** What the reply's magic field holds. */
  const REPLY_MAGIC_BYTES: seq<byte> := [0x67, 0x44, 0x66, 0x98]

  /** It is htonl(NBD_REPLY_MAGIC) as the host stores it. */
  lemma ReplyMagicIsStored()
    ensures REPLY_MAGIC_BYTES == ToLE(Ntohl(NBD_REPLY_MAGIC), 4)
  {
    Pow256Values();
    assert FromBE(REPLY_MAGIC_BYTES) == NBD_REPLY_MAGIC by {
      assert Reversed(REPLY_MAGIC_BYTES) == [0x98, 0x66, 0x44, 0x67];
      assert FromLE([0x67]) == 0x67;
      assert FromLE([0x44, 0x67]) == 0x44 + 256 * 0x67;
      assert FromLE([0x66, 0x44, 0x67]) == 0x66 + 256 * 0x6744;
      assert FromLE([0x98, 0x66, 0x44, 0x67]) == 0x98 + 256 * 0x674466;
    }
    NtohlReadsBigEndian(REPLY_MAGIC_BYTES);
    StoreLoaded(REPLY_MAGIC_BYTES);
    NtohlTwice(FromLE(REPLY_MAGIC_BYTES));
  }

  /** The 16 bytes of struct nbd_reply; errorWord is the host word stored in
      the error field. */
  function ReplyHeader(errorWord: u32, handle: Handle): (s: seq<byte>)
    ensures |s| == REPLY_SIZE
  {
    REPLY_MAGIC_BYTES + ToLE(errorWord, 4) + handle
  }

  lemma ReplyOnTheWire(errorWord: u32, handle: Handle)
    ensures ReplyHeader(errorWord, handle) == [0x67, 0x44, 0x66, 0x98] + ToLE(errorWord, 4) + handle
    ensures |ReplyHeader(errorWord, handle)| == 16
  {
  }

  datatype Reply = Reply(magic: u32, error: u32, handle: Handle)

  /** The client's reading of a simple reply, by the protocol. */
  function DecodeReply(s: seq<byte>): (r: Reply)
    requires |s| == REPLY_SIZE
  {
    Pow256Values();
    Reply(FromBE(s[..4]), FromBE(s[4..8]), s[8..16])
  }

  /** The server stores a callback's error code without htonl, so a client
      reads it byte-swapped; only the magic, the handle and a zero error are
      always right. */
  lemma ReplyArrives(errorWord: u32, handle: Handle)
    ensures DecodeReply(ReplyHeader(errorWord, handle)) == Reply(NBD_REPLY_MAGIC, Ntohl(errorWord), handle)
    ensures Ntohl(0) == 0
  {
    var s := ReplyHeader(errorWord, handle);
    ReplyMagicIsStored();
    assert s[..4] == REPLY_MAGIC_BYTES;
    assert s[4..8] == ToLE(errorWord, 4);
    assert s[8..16] == handle;
    NtohlTwice(NBD_REPLY_MAGIC);
    assert ToLE(0, 4) == [0, 0, 0, 0] == Reversed(ToLE(0, 4));
    LoadStored(0, 4);
  }

  /** A nonzero error code survives exactly when its four bytes read the same
      in both directions. */
  lemma ErrorArrivesIntact(errorWord: u32, handle: Handle)
    ensures DecodeReply(ReplyHeader(errorWord, handle)).error == errorWord
            <==> Reversed(ToLE(errorWord, 4)) == ToLE(errorWord, 4)
  {
    Pow256Values();
    ReplyArrives(errorWord, handle);
    LoadStored(errorWord, 4);
    StoreLoaded(Reversed(ToLE(errorWord, 4)));
  }

  // ---- NBDRWReq: the proxy keeps size and offset in 32-bit ints ----

  type int32 = i: int | -0x8000_0000 <= i < 0x8000_0000

  function AsInt32(n: nat): (i: int32)
  {
    var low := n % TWO_TO_THE_32;
    if low < TWO_TO_THE_31 then low else low - TWO_TO_THE_32
  }

  /** An int count passed as size_t. */
  function AsSize(i: int32): (n: nat)
  {
    if i < 0 then i + TWO_TO_THE_64 else i
  }

  /** lseek refuses a negative offset and leaves the position alone. */
  function SeekTarget(offset: int, position: nat): (p: nat)
  {
    if offset < 0 then position else offset
  }

  datatype RwRequest = RwRequest(kind: u32, size: int32, offset: int32, handle: Handle)

  function DecodeRwRequest(s: seq<byte>): (r: RwRequest)
    requires |s| == REQUEST_SIZE
  {
    RwRequest(Ntohl(LoadWord(s[4..8])), AsInt32(Ntohl(LoadWord(s[24..28]))),
              AsInt32(Be64toh(LoadLong(s[16..24]))), s[8..16])
  }

  lemma RwRequestArrives(h: Header)
    ensures DecodeRwRequest(EncodeHeader(h)) == RwRequest(h.kind, AsInt32(h.len), AsInt32(h.from), h.handle)
  {
    HeaderRoundTrip(h);
    NtohllIsBe64toh(LoadLong(EncodeHeader(h)[16..24]));
  }

  lemma AsInt32Exact(n: nat)
    ensures AsInt32(n) == n <==> n < TWO_TO_THE_31
  {
  }

  /** The number modulo 2^32 that an int can hold. */
  lemma AsInt32Wraps(n: nat)
    ensures (n - AsInt32(n)) % 0x1_0000_0000 == 0
  {
  }

  /** A negative size is its value modulo 2^64. */
  lemma AsSizeWraps(i: int32)
    ensures 0 <= AsSize(i) < 0x1_0000_0000_0000_0000 && (AsSize(i) - i) % 0x1_0000_0000_0000_0000 == 0
  {
  }

  /** Exactly the requests whose offset and length are below 2^31 keep both. */
  lemma RwRequestIntact(h: Header, r: RwRequest)
    requires r == DecodeRwRequest(EncodeHeader(h))
    ensures r.kind == h.kind && r.handle == h.handle
    ensures r.offset == h.from && r.size == h.len <==> h.from < TWO_TO_THE_31 && h.len < TWO_TO_THE_31
  {
    RwRequestArrives(h);
    AsInt32Exact(h.from);
    AsInt32Exact(h.len);
  }

  /** Seek and count go to the bytes the client meant, wherever the file
      position stands. */
  ghost predicate Targets(r: RwRequest, h: Header)
  {
    forall position: nat :: SeekTarget(r.offset, position) == h.from && AsSize(r.size) == h.len
  }

  /** They do exactly when offset and length are below 2^31. */
  lemma TransferTargetsRequest(h: Header, r: RwRequest)
    requires r == DecodeRwRequest(EncodeHeader(h))
    ensures Targets(r, h) <==> h.from < TWO_TO_THE_31 && h.len < TWO_TO_THE_31
  {
    RwRequestIntact(h, r);
    assert AsSize(r.size) == h.len <==> r.size == h.len;
    assert r.offset == h.from ==> forall position: nat :: SeekTarget(r.offset, position) == h.from;
    assert SeekTarget(r.offset, h.from + 1) == h.from ==> r.offset == h.from;
  }

  /** Beyond them the seek goes to the offset modulo 2^32 or, exactly when that
      is 2^31 or more, nowhere. */
  lemma SeekWraps(h: Header, r: RwRequest, position: nat)
    requires r == DecodeRwRequest(EncodeHeader(h))
    ensures SeekTarget(r.offset, position)
         == if h.from % 0x1_0000_0000 < 0x8000_0000 then h.from % 0x1_0000_0000 else position
  {
    RwRequestArrives(h);
    AsInt32Wraps(h.from);
  }
}

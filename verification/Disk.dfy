/** The reference: a disk is a fixed-size array of bytes. */
module Disk {
  import opened Bytes
  import opened Wire

  type Contents = seq<byte>

  /** Write data: its length fits the request's 32-bit field. */
  type Block = s: seq<byte> | |s| < TWO_TO_THE_32

  datatype Command =
    | Read(handle: Handle, from: u64, len: u32)
    | Write(handle: Handle, from: u64, data: Block)
    | Flush(handle: Handle, from: u64, len: u32)
    | Trim(handle: Handle, from: u64, len: u32)

  /** Nothing to transfer is in range anywhere. */
  predicate Fits(from: nat, len: nat, size: nat)
  {
    len == 0 || from + len <= size
  }

  predicate InRange(c: Command, size: nat)
  {
    match c
    case Read(_, from, len) => Fits(from, len, size)
    case Write(_, from, data) => Fits(from, |data|, size)
    case _ => true
  }

  predicate AllInRange(cs: seq<Command>, size: nat)
  {
    forall k :: 0 <= k < |cs| ==> InRange(cs[k], size)
  }

  function Slice(disk: Contents, from: nat, len: nat): (s: seq<byte>)
    requires Fits(from, len, |disk|)
    ensures |s| == len
  {
    if len == 0 then [] else disk[from..from + len]
  }

  function Splice(disk: Contents, from: nat, data: seq<byte>): (d: Contents)
    requires Fits(from, |data|, |disk|)
    ensures |d| == |disk|
    ensures forall p :: 0 <= p < |d| ==> d[p] == if from <= p < from + |data| then data[p - from] else disk[p]
  {
    if data == [] then disk else disk[..from] + data + disk[from + |data|..]
  }

  lemma SpliceOnward(disk: Contents, from: nat, a: seq<byte>, b: seq<byte>)
    requires Fits(from, |a| + |b|, |disk|)
    ensures Splice(Splice(disk, from, a), from + |a|, b) == Splice(disk, from, a + b)
  {
  }

  lemma SpliceFurther(disk: Contents, from: nat, data: seq<byte>, at: nat, k: nat)
    requires at + k <= |data| && Fits(from, at + k, |disk|)
    ensures Splice(Splice(disk, from, data[..at]), from + at, data[at..][..k]) == Splice(disk, from, data[..at + k])
  {
    SpliceOnward(disk, from, data[..at], data[at..][..k]);
    assert data[..at] + data[at..][..k] == data[..at + k];
  }

  /** What a regular file becomes when it is written at any place: beyond its end
      it grows, over a gap with zeros. */
  function WriteAt(disk: Contents, from: nat, data: seq<byte>): (d: Contents)
    ensures |d| >= |disk|
    ensures Fits(from, |data|, |disk|) ==> d == Splice(disk, from, data)
  {
    if Fits(from, |data|, |disk|) then Splice(disk, from, data)
    else Splice(disk + seq(from + |data| - |disk|, k => 0), from, data)
  }

  lemma WriteAtSize(disk: Contents, from: nat, data: seq<byte>)
    ensures |WriteAt(disk, from, data)| == if data == [] || from + |data| <= |disk| then |disk| else from + |data|
  {
  }

  lemma ByteWritten(disk: Contents, from: nat, data: seq<byte>, p: nat)
    requires p < |WriteAt(disk, from, data)|
    ensures WriteAt(disk, from, data)[p]
         == if from <= p < from + |data| then data[p - from] else if p < |disk| then disk[p] else 0
  {
  }

  lemma WriteAtFurther(disk: Contents, from: nat, data: seq<byte>, at: nat, k: nat)
    requires at + k <= |data|
    ensures WriteAt(WriteAt(disk, from, data[..at]), from + at, data[at..][..k]) == WriteAt(disk, from, data[..at + k])
  {
    hide WriteAt;
    var first, second, whole := data[..at], data[at..][..k], data[..at + k];
    var half := WriteAt(disk, from, first);
    var one, other := WriteAt(half, from + at, second), WriteAt(disk, from, whole);
    WriteAtSize(disk, from, first);
    WriteAtSize(half, from + at, second);
    WriteAtSize(disk, from, whole);
    forall p: nat | p < |one| ensures one[p] == other[p] {
      if p < |half| {
        ByteWritten(disk, from, first, p);
      }
      ByteWritten(half, from + at, second, p);
      ByteWritten(disk, from, whole, p);
    }
  }

  /** How many bytes one read(2) or write(2) of at most rest may move at a
      position: any positive number of them, and 0 only at an end that does not
      give way. */
  predicate MayMove(k: nat, rest: nat, position: nat, size: nat, grows: bool)
  {
    && k <= rest
    && (k == 0 <==> position >= size && !grows)
    && (k > 0 && !grows ==> position + k <= size)
  }

  /** The disk after one command, and the data its reply carries. */
  function After(c: Command, disk: Contents): (d: Contents)
    requires InRange(c, |disk|)
    ensures |d| == |disk|
  {
    if c.Write? then Splice(disk, c.from, c.data) else disk
  }

  function Payload(c: Command, disk: Contents): (s: seq<byte>)
    requires InRange(c, |disk|)
  {
    if c.Read? then Slice(disk, c.from, c.len) else []
  }

  function Run(cs: seq<Command>, disk: Contents): (d: Contents)
    requires AllInRange(cs, |disk|)
    ensures |d| == |disk|
  {
    if cs == [] then disk else Run(cs[1..], After(cs[0], disk))
  }

  lemma {:induction false} RunLast(cs: seq<Command>, disk: Contents)
    requires cs != [] && AllInRange(cs, |disk|)
    ensures Run(cs, disk) == After(cs[|cs| - 1], Run(cs[..|cs| - 1], disk))
  {
    if |cs| > 1 {
      RunLast(cs[1..], After(cs[0], disk));
      assert cs[1..][..|cs| - 2] == cs[..|cs| - 1][1..];
    }
  }

  predicate Covers(c: Command, p: nat)
  {
    c.Write? && c.from <= p < c.from + |c.data|
  }

  lemma ByteAfter(c: Command, disk: Contents, p: nat)
    requires InRange(c, |disk|) && p < |disk|
    ensures After(c, disk)[p] == if Covers(c, p) then c.data[p - c.from] else disk[p]
  {
  }

  lemma ByteRead(c: Command, disk: Contents, k: nat)
    requires InRange(c, |disk|) && c.Read? && k < c.len
    ensures |Payload(c, disk)| == c.len && Payload(c, disk)[k] == disk[c.from + k]
  {
  }

  /** What position p holds when, of the commands cs, those whose indices are
      in done have taken effect, in the order of cs: the byte of the latest
      such write that covers p. */
  function LatestByte(cs: seq<Command>, done: set<nat>, disk: Contents, p: nat): (b: byte)
    requires p < |disk|
    decreases |cs|
  {
    if cs == [] then disk[p]
    else
      var n := |cs| - 1;
      if n in done && Covers(cs[n], p) then cs[n].data[p - cs[n].from]
      else LatestByte(cs[..n], done, disk, p)
  }

  /** The fold of the writes holds at every position the latest write to it. */
  lemma {:induction false} RunHoldsLatest(cs: seq<Command>, done: set<nat>, disk: Contents, p: nat)
    requires AllInRange(cs, |disk|) && p < |disk|
    requires forall k: nat :: k < |cs| ==> k in done
    ensures Run(cs, disk)[p] == LatestByte(cs, done, disk, p)
    decreases |cs|
  {
    if cs != [] {
      RunLast(cs, disk);
      RunHoldsLatest(cs[..|cs| - 1], done, disk, p);
    }
  }

  /** A read after the commands cs carries, at each of its positions, the
      latest write to it, or the initial byte. */
  lemma PayloadHoldsLatest(cs: seq<Command>, c: Command, done: set<nat>, disk: Contents, k: nat)
    requires AllInRange(cs, |disk|) && InRange(c, |disk|)
    requires forall i: nat :: i < |cs| ==> i in done
    requires c.Read? && k < c.len
    ensures Payload(c, Run(cs, disk))[k] == LatestByte(cs, done, disk, c.from + k)
  {
    RunHoldsLatest(cs, done, disk, c.from + k);
  }

  /** Only the done writes that cover p matter. */
  lemma {:induction false} LatestDependsOn(cs: seq<Command>, done: set<nat>, done': set<nat>, disk: Contents, p: nat)
    requires p < |disk|
    requires forall k: nat :: k < |cs| && Covers(cs[k], p) ==> (k in done <==> k in done')
    ensures LatestByte(cs, done, disk, p) == LatestByte(cs, done', disk, p)
    decreases |cs|
  {
    if cs != [] {
      LatestDependsOn(cs[..|cs| - 1], done, done', disk, p);
    }
  }

  /** Commands from index n on that do not write p can be forgotten. */
  lemma {:induction false} LatestStopsAt(cs: seq<Command>, n: nat, done: set<nat>, disk: Contents, p: nat)
    requires p < |disk| && n <= |cs|
    requires forall k: nat :: n <= k < |cs| && Covers(cs[k], p) ==> k !in done
    ensures LatestByte(cs, done, disk, p) == LatestByte(cs[..n], done, disk, p)
    decreases |cs|
  {
    if n == |cs| {
      assert cs[..n] == cs;
    } else {
      var m := |cs| - 1;
      LatestStopsAt(cs[..m], n, done, disk, p);
      assert cs[..m][..n] == cs[..n];
    }
  }

  /** Two commands conflict when their ranges share a position and they are
      not both reads. */
  predicate Conflict(c: Command, d: Command)
  {
    match (c, d)
    case (Write(_, f, data), Write(_, g, data')) => Overlap(f, |data|, g, |data'|)
    case (Write(_, f, data), Read(_, g, len)) => Overlap(f, |data|, g, len)
    case (Read(_, f, len), Write(_, g, data)) => Overlap(f, len, g, |data|)
    case _ => false
  }

  /** Both write, and the same byte wherever both do. */
  ghost predicate Agree(c: Command, d: Command)
  {
    c.Write? && d.Write? && forall p: nat :: Covers(c, p) && Covers(d, p) ==> c.data[p - c.from] == d.data[p - d.from]
  }

  /** Their order matters to somebody. */
  ghost predicate Clash(c: Command, d: Command)
  {
    Conflict(c, d) && !Agree(c, d)
  }

  predicate Overlap(f: nat, m: nat, g: nat, n: nat)
  {
    m > 0 && n > 0 && f < g + n && g < f + m
  }
}

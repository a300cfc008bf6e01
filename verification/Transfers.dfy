/** Descriptors whose system calls may move fewer bytes than asked, and the
    loops that turn them into whole transfers. */
module Transfers {
  import opened Bytes
  import opened Wire
  import opened Disk

  /** One end of a stream socket. */
  class Socket {
    var incoming: seq<byte>  // sent by the peer, not yet read
    var outgoing: seq<byte>  // written so far

    constructor (bytes: seq<byte>)
      ensures incoming == bytes && outgoing == []
    {
      incoming, outgoing := bytes, [];
    }

    /** read(2): any positive number of the bytes asked for; 0 only at the end. */
    method Read(buf: array<byte>, at: nat, n: nat) returns (k: nat)
      requires at + n <= buf.Length
      modifies this`incoming, buf
      ensures k <= n && k <= |old(incoming)|
      ensures k == 0 <==> n == 0 || old(incoming) == []
      ensures buf[..] == buf[..at] + old(incoming)[..k] + buf[at + k..]
      ensures buf[..at] == old(buf[..at]) && buf[at + k..] == old(buf[at + k..])
      ensures incoming == old(incoming)[k..]
    {
      if n == 0 || incoming == [] {
        return 0;
      }
      k :| 0 < k <= n && k <= |incoming|;
      Store(buf, at, incoming[..k]);
      incoming := incoming[k..];
    }

    /** read(2) where the caller allows for its failing: -1, and nothing moved. */
    method ReadOrFail(buf: array<byte>, n: nat) returns (k: int)
      requires n <= buf.Length
      modifies this`incoming, buf
      ensures k == -1 || (0 <= k <= n && k <= |old(incoming)|)
      ensures k == -1 ==> incoming == old(incoming)
      ensures k == 0 <==> k != -1 && (n == 0 || old(incoming) == [])
      ensures k >= 0 ==> buf[..k] == old(incoming)[..k] && incoming == old(incoming)[k..]
    {
      if * {
        return -1;
      }
      k := Read(buf, 0, n);
    }

    /** write(2): any positive number of the bytes offered. */
    method Write(data: seq<byte>) returns (k: nat)
      modifies this`outgoing
      ensures k <= |data| && (k == 0 <==> data == [])
      ensures outgoing == old(outgoing) + data[..k]
    {
      if data == [] {
        return 0;
      }
      k :| 0 < k <= |data|;
      outgoing := outgoing + data[..k];
    }
  }

  /** An open file with its position: a regular file, which grows when written
      past its end, or a block device, which does not. */
  class File {
    const grows: bool
    var content: seq<byte>
    var position: nat

    constructor (content: seq<byte>, grows: bool)
      ensures this.content == content && this.grows == grows && position == 0
    {
      this.content, this.grows, position := content, grows, 0;
    }

    method LSeek(offset: int)
      modifies this`position
      ensures position == SeekTarget(offset, old(position))
    {
      if offset >= 0 {
        position := offset;
      }
    }

    method Read(buf: array<byte>, at: nat, n: nat) returns (k: nat)
      requires at + n <= buf.Length && n > 0
      modifies this`position, buf
      ensures MayMove(k, n, old(position), |content|, false) && position == old(position) + k
      ensures k > 0 ==> buf[..] == buf[..at] + content[old(position)..position] + buf[at + k..]
      ensures buf[..at] == old(buf[..at]) && buf[at + k..] == old(buf[at + k..])
    {
      if position >= |content| {
        return 0;
      }
      k :| 0 < k <= n && position + k <= |content|;
      Store(buf, at, content[position..position + k]);
      position := position + k;
    }

    method Write(data: seq<byte>) returns (k: nat)
      requires data != []
      modifies this`position, this`content
      ensures MayMove(k, |data|, old(position), |old(content)|, grows) && position == old(position) + k
      ensures content == WriteAt(old(content), old(position), data[..k])
    {
      if position >= |content| && !grows {
        return 0;
      }
      k :| 0 < k <= |data| && (!grows ==> position + k <= |content|);
      content := WriteAt(content, position, data[..k]);
      position := position + k;
    }
  }

  method Store(buf: array<byte>, at: nat, data: seq<byte>)
    requires at + |data| <= buf.Length
    modifies buf
    ensures buf[..] == Splice(old(buf[..]), at, data)
    ensures buf[at..at + |data|] == data
    ensures buf[..at] == old(buf[..at]) && buf[at + |data|..] == old(buf[at + |data|..])
  {
    forall i | 0 <= i < |data| {
      buf[at + i] := data[i];
    }
  }

  /** Fill count bytes from the stream; fails when the stream ends first. */
  method ReadAll(sk: Socket, buf: array<byte>, count: nat) returns (ok: bool)
    requires count <= buf.Length
    modifies sk`incoming, buf
    ensures ok <==> count <= |old(sk.incoming)|
    ensures ok ==> buf[..count] == old(sk.incoming)[..count] && sk.incoming == old(sk.incoming)[count..]
    ensures !ok ==> sk.incoming == []
    ensures buf[count..] == old(buf[count..])
  {
    ghost var all := sk.incoming;
    var at: nat, remaining: nat := 0, count;
    while remaining > 0
      invariant at + remaining == count
      invariant at <= |all| && sk.incoming == all[at..]
      invariant buf[..at] == all[..at]
      invariant buf[count..] == old(buf[count..])
    {
      var k := sk.Read(buf, at, remaining);
      if k == 0 {
        return false;
      }
      assert buf[..at + k] == all[..at + k];
      at, remaining := at + k, remaining - k;
    }
    return true;
  }

  method WriteAll(sk: Socket, data: seq<byte>)
    modifies sk`outgoing
    ensures sk.outgoing == old(sk.outgoing) + data
  {
    var rest := data;
    while |rest| > 0
      invariant |rest| <= |data| && rest == data[|data| - |rest|..]
      invariant sk.outgoing == old(sk.outgoing) + data[..|data| - |rest|]
    {
      var k := sk.Write(rest);
      rest := rest[k..];
    }
  }

  /** Read len bytes at the file position, as loopback_read's loop does. */
  method ReadFully(f: File, buf: array<byte>, len: nat) returns (ok: bool)
    requires len <= buf.Length
    modifies f`position, buf
    ensures ok <==> Fits(old(f.position), len, |f.content|)
    ensures ok ==> f.position == old(f.position) + len
    ensures ok ==> buf[..len] == Slice(f.content, old(f.position), len)
    ensures buf[len..] == old(buf[len..])
  {
    ghost var start := f.position;
    var at: nat, remaining: nat := 0, len;
    while remaining > 0
      invariant at + remaining == len && f.position == start + at
      invariant at > 0 ==> f.position <= |f.content| && buf[..at] == f.content[start..f.position]
      invariant buf[len..] == old(buf[len..])
    {
      var k := f.Read(buf, at, remaining);
      if k == 0 {
        return false;
      }
      assert buf[..at + k] == f.content[start..f.position];
      at, remaining := at + k, remaining - k;
    }
    return true;
  }

  /** Write data at the file position; a device that fills up fails the loop
      after taking what fits. */
  method WriteFully(f: File, data: seq<byte>) returns (ok: bool)
    modifies f`position, f`content
    ensures ok <==> f.grows || Fits(old(f.position), |data|, |old(f.content)|)
    ensures ok ==> f.position == old(f.position) + |data|
    ensures ok ==> f.content == WriteAt(old(f.content), old(f.position), data)
    ensures !ok ==> f.content == WhatFits(old(f.content), old(f.position), data)
  {
    ghost var disk, start := f.content, f.position;
    var at: nat, remaining: nat := 0, |data|;
    while remaining > 0
      invariant at + remaining == |data| && f.position == start + at
      invariant f.content == WriteAt(disk, start, data[..at])
      invariant !f.grows ==> Fits(start, at, |disk|)
    {
      var k := f.Write(data[at..]);
      if k == 0 {
        return false;
      }
      WriteAtFurther(disk, start, data, at, k);
      at, remaining := at + k, remaining - k;
    }
    assert data[..at] == data;
    return true;
  }

  /** A full device after it took what it could of data it has no room for. */
  function WhatFits(disk: Contents, from: nat, data: seq<byte>): (d: Contents)
    requires !Fits(from, |data|, |disk|)
  {
    if from >= |disk| then disk else Splice(disk, from, data[..|disk| - from])
  }
}

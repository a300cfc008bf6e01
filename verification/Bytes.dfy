/** Byte strings, the numbers they stand for in either byte order, and the
    byte-order conversions of a little-endian host. */
module Bytes {

  type byte = b: int | 0 <= b < 256

  const TWO_TO_THE_31: nat := 0x8000_0000
  const TWO_TO_THE_32: nat := 0x1_0000_0000
  const TWO_TO_THE_64: nat := 0x1_0000_0000_0000_0000

  type u32 = n: int | 0 <= n < TWO_TO_THE_32
  type u64 = n: int | 0 <= n < TWO_TO_THE_64

  function Pow256(k: nat): (p: nat)
    ensures p > 0
  {
    if k == 0 then 1 else 256 * Pow256(k - 1)
  }

  lemma Pow256Values()
    ensures Pow256(4) == TWO_TO_THE_32
    ensures Pow256(8) == TWO_TO_THE_64
  {
    assert Pow256(2) == 0x1_0000;
    assert Pow256(4) == 256 * (256 * Pow256(2));
    assert Pow256(6) == 256 * (256 * Pow256(4));
    assert Pow256(8) == 256 * (256 * Pow256(6));
  }

  function Reversed<T>(s: seq<T>): (r: seq<T>)
    ensures |r| == |s|
  {
    seq(|s|, k requires 0 <= k < |s| => s[|s| - 1 - k])
  }

  lemma ReversedTwice<T>(s: seq<T>)
    ensures Reversed(Reversed(s)) == s
  {
    var r := Reversed(Reversed(s));
    assert |r| == |s| && forall k :: 0 <= k < |s| ==> r[k] == s[k];
  }

  lemma ReversedConcat<T>(s: seq<T>, t: seq<T>)
    ensures Reversed(s + t) == Reversed(t) + Reversed(s)
  {
  }

  /** The number a byte string stands for, least significant byte first. */
  function FromLE(s: seq<byte>): (n: nat)
    ensures n < Pow256(|s|)
  {
    if s == [] then 0 else s[0] + 256 * FromLE(s[1..])
  }

  /** The k low-order bytes of n, least significant first: how a
      little-endian host stores a k-byte word. */
  function ToLE(n: nat, k: nat): (s: seq<byte>)
    ensures |s| == k
  {
    if k == 0 then [] else [n % 256] + ToLE(n / 256, k - 1)
  }

  function FromBE(s: seq<byte>): (n: nat)
    ensures n < Pow256(|s|)
  {
    FromLE(Reversed(s))
  }

  function ToBE(n: nat, k: nat): (s: seq<byte>)
    ensures |s| == k
  {
    Reversed(ToLE(n, k))
  }

  lemma {:induction false} LoadStored(n: nat, k: nat)
    requires n < Pow256(k)
    ensures FromLE(ToLE(n, k)) == n
  {
    if k > 0 {
      LoadStored(n / 256, k - 1);
      assert ToLE(n, k)[1..] == ToLE(n / 256, k - 1);
    }
  }

  lemma {:induction false} StoreLoaded(s: seq<byte>)
    ensures ToLE(FromLE(s), |s|) == s
  {
    if s != [] {
      var n := FromLE(s);
      assert n % 256 == s[0] && n / 256 == FromLE(s[1..]);
      StoreLoaded(s[1..]);
    }
  }

  lemma BigEndianRoundTrip(n: nat, k: nat)
    requires n < Pow256(k)
    ensures FromBE(ToBE(n, k)) == n
  {
    ReversedTwice(ToLE(n, k));
    LoadStored(n, k);
  }

  lemma BigEndianRoundTripBytes(s: seq<byte>)
    ensures ToBE(FromBE(s), |s|) == s
  {
    StoreLoaded(Reversed(s));
    ReversedTwice(s);
  }

  lemma {:induction false} FromLEConcat(s: seq<byte>, t: seq<byte>)
    ensures FromLE(s + t) == FromLE(s) + Pow256(|s|) * FromLE(t)
  {
    if s == [] {
      assert s + t == t;
    } else {
      assert (s + t)[1..] == s[1..] + t;
      FromLEConcat(s[1..], t);
      Scale(FromLE(s[1..]), Pow256(|s| - 1), FromLE(t));
    }
  }

  lemma Scale(low: nat, weight: nat, high: nat)
    ensures 256 * (low + weight * high) == 256 * low + 256 * weight * high
  {
  }

  /** ntohl on a little-endian host: the big-endian reading of the bytes the
      word occupies in memory. */
  function Ntohl(x: u32): (y: u32)
  {
    Pow256Values();
    FromBE(ToLE(x, 4))
  }

  /** be64toh on a little-endian host. */
  function Be64toh(x: u64): (y: u64)
  {
    Pow256Values();
    FromBE(ToLE(x, 8))
  }

  /** The hand-written ntohll: swap each half, then swap the halves. */
  function Ntohll(a: u64): (y: u64)
  {
    var lo: u32 := a % TWO_TO_THE_32;
    var hi: u32 := a / TWO_TO_THE_32;
    Ntohl(lo) * TWO_TO_THE_32 + Ntohl(hi)
  }

  lemma NtohlReadsBigEndian(s: seq<byte>)
    requires |s| == 4
    ensures FromLE(s) < TWO_TO_THE_32
    ensures Ntohl(FromLE(s)) == FromBE(s)
  {
    Pow256Values();
    StoreLoaded(s);
  }

  lemma NtohlTwice(x: u32)
    ensures Ntohl(Ntohl(x)) == x
  {
    Pow256Values();
    var s := ToLE(x, 4);
    StoreLoaded(Reversed(s));
    ReversedTwice(s);
    LoadStored(x, 4);
  }

  /** ntohll turns the word a little-endian host loads from eight bytes into
      the big-endian value of those bytes. */
  lemma NtohllReadsBigEndian(s: seq<byte>)
    requires |s| == 8
    ensures FromLE(s) < TWO_TO_THE_64
    ensures Ntohll(FromLE(s)) == FromBE(s)
  {
    assert s == s[..4] + s[4..];
    NtohllReadsHalves(s[..4], s[4..]);
  }

  lemma NtohllReadsHalves(l: seq<byte>, h: seq<byte>)
    requires |l| == |h| == 4
    ensures FromLE(l + h) < TWO_TO_THE_64
    ensures Ntohll(FromLE(l + h)) == FromBE(l + h)
  {
    NtohlReadsBigEndian(l);
    NtohlReadsBigEndian(h);
    var lo: u32, hi: u32 := FromLE(l), FromLE(h);
    var lo': u32, hi': u32 := Ntohl(lo), Ntohl(hi);
    var word: u64 := NtohllOfHalves(lo, hi);
    assert FromLE(l + h) == word by { FourPlusFour(l, h); }
    assert FromBE(l + h) == Ntohll(word) by {
      ReversedConcat(l, h);
      FourPlusFour(Reversed(h), Reversed(l));
    }
  }

  lemma FourPlusFour(l: seq<byte>, h: seq<byte>)
    requires |l| == |h| == 4
    ensures FromLE(l + h) == FromLE(l) + TWO_TO_THE_32 * FromLE(h)
  {
    Pow256Values();
    FromLEConcat(l, h);
  }

  lemma NtohllOfHalves(lo: u32, hi: u32) returns (word: u64)
    ensures word == lo + TWO_TO_THE_32 * hi
    ensures Ntohll(word) == Ntohl(hi) + TWO_TO_THE_32 * Ntohl(lo)
  {
    Halves(lo, hi);
    word := lo + TWO_TO_THE_32 * hi;
  }

  lemma Halves(lo: u32, hi: u32)
    ensures (lo + TWO_TO_THE_32 * hi) % TWO_TO_THE_32 == lo
    ensures (lo + TWO_TO_THE_32 * hi) / TWO_TO_THE_32 == hi
    ensures lo + TWO_TO_THE_32 * hi < TWO_TO_THE_64
  {
  }

  lemma NtohllTwice(a: u64)
    ensures Ntohll(Ntohll(a)) == a
  {
    Pow256Values();
    var s := ToLE(a, 8);
    LoadStored(a, 8);
    NtohllReadsBigEndian(s);
    NtohllReadsBigEndian(Reversed(s));
    ReversedTwice(s);
  }

  /** The hand-written ntohll and the library's be64toh are one function. */
  lemma NtohllIsBe64toh(a: u64)
    ensures Ntohll(a) == Be64toh(a)
  {
    Pow256Values();
    LoadStored(a, 8);
    NtohllReadsBigEndian(ToLE(a, 8));
  }
}

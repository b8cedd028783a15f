/** Variable-length integers of section 16 of RFC 9000, as the octets buffers read and write them. */
module Varint {
  import opened Bytes

  const LIMIT: nat := 0x4000_0000_0000_0000

  function Pow256(n: nat): (p: nat)
    ensures p >= 1
  {
    if n == 0 then 1 else 256 * Pow256(n - 1)
  }

  /** Big-endian value of a byte string. */
  function FromBytes(s: seq<byte>): nat {
    if s == [] then 0 else 256 * FromBytes(s[..|s| - 1]) + s[|s| - 1]
  }

  lemma {:induction false} ZeroBytes(s: seq<byte>)
    requires forall i :: 0 <= i < |s| ==> s[i] == 0
    ensures FromBytes(s) == 0
  {
    if s != [] {
      ZeroBytes(s[..|s| - 1]);
    }
  }

  /** The `n` low-order bytes of `v`, most significant first. */
  function ToBytes(v: nat, n: nat): (s: seq<byte>)
    ensures |s| == n
  {
    if n == 0 then [] else ToBytes(v / 256, n - 1) + [v % 256]
  }

  /** Shortest of the four encodings, by the usable bits of each (6, 14, 30, 62). */
  function Length(v: nat): (n: nat)
    requires v < LIMIT
  {
    if v < 0x40 then 1 else if v < 0x4000 then 2 else if v < 0x4000_0000 then 4 else 8
  }

  /** Length announced by the two high bits of the first byte. */
  function AnnouncedLength(first: byte): nat {
    if first < 64 then 1 else if first < 128 then 2 else if first < 192 then 4 else 8
  }

  function LengthTag(n: nat): nat {
    if n == 1 then 0 else if n == 2 then 64 else if n == 4 then 128 else 192
  }

  function Encode(v: nat): seq<byte>
    requires v < LIMIT
  {
    TopBits(v);
    var b := ToBytes(v, Length(v));
    b[0 := b[0] + LengthTag(Length(v))]
  }

  /** Value and number of bytes consumed, or None when the buffer is too short. */
  function Decode(s: seq<byte>): Option<(nat, nat)> {
    if s == [] || |s| < AnnouncedLength(s[0]) then None
    else
      var n := AnnouncedLength(s[0]);
      Some((FromBytes(s[..n][0 := s[0] % 64]), n))
  }

  lemma {:induction false} ToBytesHead(v: nat, n: nat)
    requires n > 0 && v < 64 * Pow256(n - 1)
    ensures ToBytes(v, n)[0] < 64
  {
    if n > 1 {
      ToBytesHead(v / 256, n - 1);
    }
  }

  /** The value leaves the two tag bits of its first byte clear. */
  lemma {:induction false} TopBits(v: nat)
    requires v < LIMIT
    ensures ToBytes(v, Length(v))[0] < 64
  {
    FitsLength(v);
    ToBytesHead(v, Length(v));
  }

  lemma {:induction false} FromToBytes(v: nat, n: nat)
    requires v < Pow256(n)
    ensures FromBytes(ToBytes(v, n)) == v
  {
    if n > 0 {
      FromToBytes(v / 256, n - 1);
      assert ToBytes(v, n)[..n - 1] == ToBytes(v / 256, n - 1);
    }
  }

  lemma {:induction false} ToFromBytes(s: seq<byte>)
    ensures FromBytes(s) < Pow256(|s|) && ToBytes(FromBytes(s), |s|) == s
  {
    if s != [] {
      var front, last := s[..|s| - 1], s[|s| - 1];
      ToFromBytes(front);
      LastByte(FromBytes(front), last);
      hide FromBytes, ToBytes, Pow256;
      FromBytesLast(front, last);
      ToBytesLast(FromBytes(front), last, |front|);
      PowerNext(|front|);
      assert s == front + [last];
    }
  }

  lemma {:induction false} LastByte(v: nat, x: byte)
    ensures (256 * v + x) / 256 == v && (256 * v + x) % 256 == x
  {
  }

  lemma {:induction false} FromBytesLast(front: seq<byte>, last: byte)
    ensures FromBytes(front + [last]) == 256 * FromBytes(front) + last
  {
    assert (front + [last])[..|front|] == front;
  }

  lemma {:induction false} ToBytesLast(v: nat, x: byte, n: nat)
    ensures ToBytes(256 * v + x, n + 1) == ToBytes(v, n) + [x]
  {
    LastByte(v, x);
  }

  lemma {:induction false} PowerNext(n: nat)
    ensures Pow256(n + 1) == 256 * Pow256(n)
  {
  }

  lemma {:induction false} FromBytesHead(s: seq<byte>)
    requires s != [] && s[0] < 64
    ensures FromBytes(s) < 64 * Pow256(|s| - 1)
  {
    if |s| == 1 {
      assert s[..0] == [];
      assert FromBytes(s[..0]) == 0;
    } else {
      FromBytesHead(s[..|s| - 1]);
    }
  }

  lemma {:induction false} Powers()
    ensures Pow256(0) == 1 && Pow256(1) == 0x100 && Pow256(2) == 0x1_0000 && Pow256(3) == 0x100_0000
    ensures Pow256(4) == 0x1_0000_0000 && Pow256(7) == 0x100_0000_0000_0000 && Pow256(8) == 0x1_0000_0000_0000_0000
  {
    assert Pow256(2) == 256 * Pow256(1) == 256 * 256 * Pow256(0);
    assert Pow256(4) == 256 * Pow256(3) == 256 * 256 * Pow256(2);
    assert Pow256(6) == 256 * Pow256(5) == 256 * 256 * Pow256(4);
    assert Pow256(8) == 256 * Pow256(7) == 256 * 256 * Pow256(6);
  }

  /** A value that leaves the tag bits clear fits its bytes. */
  lemma {:induction false} FitsLength(v: nat)
    requires v < LIMIT
    ensures v < 64 * Pow256(Length(v) - 1)
  {
    Powers();
  }

  lemma {:induction false} TaggedHead(first: byte, n: nat)
    requires first < 64 && n in {1, 2, 4, 8}
    ensures first + LengthTag(n) < 256
    ensures AnnouncedLength(first + LengthTag(n)) == n && (first + LengthTag(n)) % 64 == first
  {
  }

  /** Decoding undoes encoding whatever follows, and consumes exactly the encoding. */
  lemma {:induction false} RoundTrip(v: nat, rest: seq<byte>)
    requires v < LIMIT
    ensures |Encode(v)| == Length(v)
    ensures Decode(Encode(v) + rest) == Some((v, Length(v)))
  {
    var n, s := Length(v), Encode(v) + rest;
    var b := ToBytes(v, n);
    TopBits(v);
    FitsLength(v);
    FromToBytes(v, n);
    TaggedHead(b[0], n);
    assert s[..n] == Encode(v);
    assert s[..n][0 := s[0] % 64] == b;
  }

  /** What Decode accepts is some value below 2^62; the bytes are its shortest form exactly when the lengths agree. */
  lemma {:induction false} DecodeCanonical(s: seq<byte>)
    requires Decode(s).Some?
    ensures var (v, n) := Decode(s).value;
      && 1 <= n <= |s| && v < LIMIT && Length(v) <= n
      && (s[..n] == Encode(v) <==> n == Length(v))
  {
    var (v, n) := Decode(s).value;
    var t := s[..n][0 := s[0] % 64];
    FromBytesHead(t);
    LengthFits(v, n);
    ToFromBytes(t);
    TaggedHead(t[0], n);
    if n == Length(v) {
      assert ToBytes(v, n) == t;
      assert t[0] + LengthTag(n) == s[0];
      assert Encode(v) == s[..n];
    } else {
      RoundTrip(v, []);
    }
  }

  lemma {:induction false} LengthFits(v: nat, n: nat)
    requires n in {1, 2, 4, 8} && v < 64 * Pow256(n - 1)
    ensures v < LIMIT && Length(v) <= n
  {
    Powers();
  }

  /** Bytes after the announced length never change the result. */
  lemma {:induction false} DecodeLocal(s: seq<byte>, t: seq<byte>)
    requires Decode(s).Some?
    ensures Decode(s + t) == Decode(s)
  {
    var n := AnnouncedLength(s[0]);
    assert (s + t)[..n] == s[..n];
  }

  /** Bytes at a place and behind it, the highest first. */
  function Big(s: seq<byte>, from: nat, n: nat): nat
    requires from + n <= |s|
    decreases n
  {
    if n == 0 then 0 else s[from] as nat * Pow256(n - 1) + Big(s, from + 1, n - 1)
  }

  lemma {:induction false} BigSnoc(s: seq<byte>, from: nat, n: nat)
    requires n > 0 && from + n <= |s|
    ensures Big(s, from, n) == 256 * Big(s, from, n - 1) + s[from + n - 1]
    decreases n
  {
    if n > 1 {
      BigSnoc(s, from + 1, n - 1);
      assert Pow256(n - 1) == 256 * Pow256(n - 2);
    }
  }

  lemma {:induction false} FromBytesBig(s: seq<byte>, t: seq<byte>, n: nat)
    requires n <= |s| && n <= |t| && forall i :: 0 <= i < n ==> s[i] == t[i]
    ensures FromBytes(s[..n]) == Big(t, 0, n)
  {
    if n > 0 {
      FromBytesBig(s, t, n - 1);
      BigSnoc(t, 0, n);
      assert s[..n][..n - 1] == s[..n - 1];
    }
  }

  lemma {:induction false} Untagged(s: seq<byte>, n: nat)
    requires 0 < n <= |s|
    ensures FromBytes(s[..n][0 := s[0] % 64]) == Big(s, 0, n) - s[0] as nat / 0x40 * 0x40 * Pow256(n - 1)
  {
    var t := s[..n][0 := s[0] % 64];
    FromBytesBig(t, t, n);
    assert t[..n] == t;
    SameTail(s, t, 1, n - 1);
    hide FromBytes, Pow256;
    HighBits(s[0] as nat, Pow256(n - 1));
  }

  /** Section 16 of RFC 9000: the two high bits of the first byte tell the length, and the other bits are the value, the
      highest first; nothing is read while bytes are missing. */
  lemma {:induction false} DecodeExact(s: seq<byte>)
    ensures s == [] ==> Decode(s) == None
    ensures s != [] ==>
      var n := if s[0] < 0x40 then 1 else if s[0] < 0x80 then 2 else if s[0] < 0xC0 then 4 else 8;
      Decode(s) == if |s| < n then None else Some((Big(s, 0, n) - s[0] as nat / 0x40 * 0x40 * Pow256(n - 1), n))
  {
    if s != [] && |s| >= AnnouncedLength(s[0]) {
      Untagged(s, AnnouncedLength(s[0]));
      hide FromBytes, Big, Pow256;
    }
  }

  lemma {:induction false} SameTail(s: seq<byte>, t: seq<byte>, from: nat, n: nat)
    requires from + n <= |s| && from + n <= |t| && forall i :: from <= i < from + n ==> s[i] == t[i]
    ensures Big(s, from, n) == Big(t, from, n)
    decreases n
  {
    if n > 0 {
      SameTail(s, t, from + 1, n - 1);
    }
  }

  lemma {:induction false} HighBits(x: nat, p: nat)
    ensures x % 64 * p == x * p - x / 64 * 64 * p
  {
    assert x == x / 64 * 64 + x % 64;
    assert x * p == (x / 64 * 64 + x % 64) * p == x / 64 * 64 * p + x % 64 * p;
  }
}

/** Internet checksums and the UDP-in-IPv4 packets of the exit-address probe (exitip.rs; RFC 1071, RFC 768, RFC 791 section 3.1). */
module ExitPacket {
  import opened Bytes

  type u32 = n: int | 0 <= n < 0x1_0000_0000

  const MAX_PAYLOAD: nat := 65507

  /** Sum of the big-endian 16-bit words, an odd last byte counting as the high half of one. */
  function WordSum(b: seq<byte>): nat {
    if b == [] then 0
    else if |b| == 1 then HighByte(b[0])
    else U16At(b, 0) as nat + WordSum(b[2..])
  }

  function HighByte(b: byte): nat {
    var n: int := b;
    256 * n
  }

  /** Sums of the bytes at even and at odd offsets. */
  function HighBytes(b: seq<byte>): nat {
    if b == [] then 0 else b[0] as int + LowBytes(b[1..])
  }

  function LowBytes(b: seq<byte>): nat {
    if b == [] then 0 else HighBytes(b[1..])
  }

  /** The sum of section 1 of RFC 1071: bytes at even offsets are the high ones of their words, and a zero fills the last. */
  lemma {:induction false} WordSumIs(b: seq<byte>)
    ensures WordSum(b) == 256 * HighBytes(b) + LowBytes(b)
    ensures |b| % 2 == 1 ==> WordSum(b) == WordSum(b + [0])
  {
    if |b| >= 2 {
      WordSumIs(b[2..]);
      assert b[1..][1..] == b[2..];
      assert (b + [0])[2..] == b[2..] + [0];
      var hi: int, lo: int := b[0], b[1];
      assert U16At(b, 0) == 256 * hi + lo;
    } else if |b| == 1 {
      assert b[1..] == [] && (b + [0])[2..] == [];
    }
  }

  lemma {:induction false} WordSumBound(b: seq<byte>)
    ensures WordSum(b) <= 0xffff * ((|b| + 1) / 2)
  {
    if |b| > 1 {
      WordSumBound(b[2..]);
    }
  }

  /** The accumulator is 32 bits wide; the bound on the input is what keeps it from overflowing. */
  method OnesComplementSum(bytes: seq<byte>, start: u32) returns (sum: u32)
    requires start + 0xffff * ((|bytes| + 1) / 2) < 0x1_0000_0000
    ensures sum == start + WordSum(bytes)
  {
    var i := 0;
    sum := start;
    WordSumBound(bytes);
    assert bytes[0..] == bytes;
    while i + 1 < |bytes|
      invariant 0 <= i <= |bytes| && sum + WordSum(bytes[i..]) == start + WordSum(bytes)
    {
      WordSumBound(bytes[i + 2..]);
      assert bytes[i..][2..] == bytes[i + 2..];
      sum := sum + U16At(bytes, i);
      i := i + 2;
    }
    if i < |bytes| {
      sum := sum + HighByte(bytes[i]);
    }
  }

  /** Folding the carries back until sixteen bits remain: zero stays zero, anything else lands in
      1..65535 in its residue class modulo 65535. */
  function Folded(sum: nat): (f: nat)
    ensures f <= 0xffff
    ensures f == if sum == 0 then 0 else 1 + (sum - 1) % 0xffff
    decreases sum
  {
    if sum < 0x1_0000 then sum
    else
      assert sum == 0xffff * (sum / 0x1_0000) + (sum % 0x1_0000 + sum / 0x1_0000);
      SameResidue(sum - 1, sum / 0x1_0000, sum % 0x1_0000 + sum / 0x1_0000 - 1);
      Folded(sum % 0x1_0000 + sum / 0x1_0000)
  }

  lemma {:induction false} SameResidue(a: nat, q: nat, b: nat)
    requires a == 0xffff * q + b
    ensures a % 0xffff == b % 0xffff
  {
    if q > 0 {
      SameResidue(a - 0xffff, q - 1, b);
    }
  }

  method Fold(sum: u32) returns (r: u16)
    ensures r == 0xffff - Folded(sum)
  {
    var s := sum;
    while s / 0x1_0000 != 0
      invariant Folded(s) == Folded(sum)
      decreases s
    {
      s := s % 0x1_0000 + s / 0x1_0000;
    }
    r := 0xffff - s;
  }

  /** What a receiver checks: the words, checksum included, sum to minus zero. */
  predicate Checks(sum: nat) {
    Folded(sum) == 0xffff
  }

  /** Adding the complement of a folded sum, or all ones in its place when it is zero, makes the sum check. */
  lemma {:induction false} ComplementChecks(sum: nat)
    ensures sum > 0 ==> Checks(sum + (0xffff - Folded(sum)))
    ensures Folded(sum) == 0xffff ==> Checks(sum + 0xffff)
  {
    if sum > 0 {
      var f := Folded(sum);
      var q := (sum - 1) / 0xffff;
      assert sum + (0xffff - f) == 0xffff * (q + 1);
      SameResidue(sum + (0xffff - f) - 1, q, 0xfffe);
      if f == 0xffff {
        SameResidue(sum + 0xffff - 1, 1, sum - 1);
      }
    }
  }

  /** Filling in a zeroed word at an even offset adds its value to the sum. */
  lemma {:induction false} WordSumPatch(s: seq<byte>, k: nat, w: u16)
    requires k % 2 == 0 && k + 1 < |s| && s[k] == 0 && s[k + 1] == 0
    ensures WordSum(Patched(s, k, w)) == WordSum(s) + w
  {
    var t := Patched(s, k, w);
    if k == 0 {
      assert t[2..] == s[2..];
    } else {
      assert t[2..] == Patched(s[2..], k - 2, w);
      WordSumPatch(s[2..], k - 2, w);
    }
  }

  function Patched(s: seq<byte>, k: nat, w: u16): seq<byte>
    requires k + 1 < |s|
  {
    s[k := Be16(w)[0]][k + 1 := Be16(w)[1]]
  }

  predicate IsIpv4(a: seq<byte>) {
    |a| == 4
  }

  /** The payload of a UDP packet from `src`:`sport` to port `dport`, when `packet` is one. */
  function UdpPayload(packet: seq<byte>, src: seq<byte>, sport: u16, dport: u16): Option<seq<byte>> {
    if |packet| < 20 || packet[0] / 16 != 4 then None
    else
      var words: int := packet[0] % 16;
      var ihl := words * 4;
      if ihl < 20 || |packet| < ihl + 8 || packet[9] != 17 then None
      else if U16At(packet, 6) % 0x2000 != 0 then None
      else if packet[12..16] != src then None
      else
        var udp := packet[ihl..];
        if U16At(udp, 0) != sport || U16At(udp, 2) != dport then None
        else
          var len := U16At(udp, 4);
          if len < 8 || len > |udp| then None else Some(udp[8..len])
  }

  /** The fields of a UDP packet over IPv4 that is no fragment but the first, with this source and these ports: its header
      length from the low half of the first byte, its payload as long as the UDP length says. */
  predicate CarriesUdp(packet: seq<byte>, src: seq<byte>, sport: u16, dport: u16, payload: seq<byte>) {
    && |packet| >= 28 && 0x45 <= packet[0] <= 0x4f && packet[9] == 17
    && packet[6] % 32 == 0 && packet[7] == 0 && packet[12..16] == src
    && var words: int := packet[0];
    && var at := 4 * (words - 64);
    && |packet| >= at + 8 + |payload|
    && packet[at..at + 6] == Be16(sport) + Be16(dport) + Be16((8 + |payload|) % 0x1_0000) && |payload| < 0x1_0000 - 8
    && packet[at + 8..at + 8 + |payload|] == payload
  }

  lemma {:induction false} WordIs(b: seq<byte>, i: nat, w: u16)
    requires i + 1 < |b|
    ensures U16At(b, i) == w <==> b[i..i + 2] == Be16(w)
  {
    var hi: int, lo: int := b[i], b[i + 1];
    assert b[i..i + 2] == [b[i], b[i + 1]];
    assert U16At(b, i) == 256 * hi + lo;
    assert w == 256 * (w / 256) + w % 256;
  }

  lemma {:induction false} FragmentIs(packet: seq<byte>)
    requires |packet| >= 20
    ensures U16At(packet, 6) % 0x2000 == 0 <==> packet[6] % 32 == 0 && packet[7] == 0
  {
    var hi: int, lo: int := packet[6], packet[7];
    assert 256 * hi + lo == 0x2000 * (hi / 32) + (256 * (hi % 32) + lo);
  }

  /** A payload is read from a packet if and only if it is such a packet and carries it. */
  lemma {:induction false} PayloadExact(packet: seq<byte>, src: seq<byte>, sport: u16, dport: u16, payload: seq<byte>)
    ensures UdpPayload(packet, src, sport, dport) == Some(payload) <==> CarriesUdp(packet, src, sport, dport, payload)
  {
    if |packet| >= 28 && 0x45 <= packet[0] <= 0x4f {
      var words: int := packet[0];
      var at := 4 * (words - 64);
      FragmentIs(packet);
      assert packet[0] % 16 == words - 64;
      if |packet| >= at + 8 {
        DatagramIs(packet, at, sport, dport, payload);
      }
    }
  }

  lemma {:induction false} DatagramIs(packet: seq<byte>, at: nat, sport: u16, dport: u16, payload: seq<byte>)
    requires |packet| >= at + 8
    ensures var udp := packet[at..];
      (U16At(udp, 0) == sport && U16At(udp, 2) == dport && 8 <= U16At(udp, 4) <= |udp| && udp[8..U16At(udp, 4)] == payload) <==>
      (|packet| >= at + 8 + |payload| && |payload| < 0x1_0000 - 8
       && packet[at..at + 6] == Be16(sport) + Be16(dport) + Be16((8 + |payload|) % 0x1_0000)
       && packet[at + 8..at + 8 + |payload|] == payload)
  {
    var udp := packet[at..];
    WordIs(udp, 0, sport);
    WordIs(udp, 2, dport);
    WordIs(udp, 4, (8 + |payload|) % 0x1_0000);
    hide Be16;
    assert udp[0..2] + udp[2..4] + udp[4..6] == packet[at..at + 6];
    assert packet[at..at + 6][..2] == udp[0..2] && packet[at..at + 6][2..4] == udp[2..4] && packet[at..at + 6][4..] == udp[4..6];
    var all := Be16(sport) + Be16(dport) + Be16((8 + |payload|) % 0x1_0000);
    assert all[..2] == Be16(sport) && all[2..4] == Be16(dport) && all[4..] == Be16((8 + |payload|) % 0x1_0000);
    if |udp| >= 8 + |payload| {
      assert udp[8..8 + |payload|] == packet[at + 8..at + 8 + |payload|];
    }
  }

  /** The checksum a receiver of `pkt` computes over the pseudo-header and the datagram. */
  function PseudoSum(pkt: seq<byte>): nat
    requires |pkt| >= 28
  {
    WordSum(pkt[12..20]) + 17 + (|pkt| - 20) + WordSum(pkt[20..])
  }

  lemma {:induction false} WordSumAppend(a: seq<byte>, b: seq<byte>)
    requires |a| % 2 == 0
    ensures WordSum(a + b) == WordSum(a) + WordSum(b)
  {
    if a == [] {
      assert a + b == b;
    } else {
      var s := a + b;
      WordSumAppend(a[2..], b);
      assert s[2..] == a[2..] + b && s[0] == a[0] && s[1] == a[1];
      hide WordSum;
      WordSumNext(s);
      WordSumNext(a);
    }
  }

  lemma {:induction false} WordSumNext(b: seq<byte>)
    requires |b| >= 2
    ensures WordSum(b) == U16At(b, 0) + WordSum(b[2..])
  {
  }

  /** The pseudo-header of RFC 768: both addresses, a zero, the protocol and the length, in front of the datagram. */
  lemma {:induction false} PseudoSumIs(pkt: seq<byte>)
    requires 28 <= |pkt| < 0x1_0000
    ensures PseudoSum(pkt) == WordSum(pkt[12..20] + ([0, 17] + Be16(|pkt| - 20) + pkt[20..]))
  {
    hide WordSum;
    var front: seq<byte>, length, udp := [0, 17], Be16(|pkt| - 20), pkt[20..];
    WordSumAppend(pkt[12..20], front + length + udp);
    WordSumAppend(front + length, udp);
    WordSumAppend(front, length);
    WordSumNext(front);
    WordSumNext(length);
    NoWords();
    assert front[2..] == [] && length[2..] == [];
  }

  lemma {:induction false} NoWords()
    ensures WordSum([]) == 0
  {
  }

  method BuildHeader(src: seq<byte>, dst: seq<byte>, totalLen: u16, ident: u16) returns (pkt: seq<byte>)
    requires IsIpv4(src) && IsIpv4(dst)
    ensures |pkt| == 20 && pkt[0] == 0x45 && U16At(pkt, 2) == totalLen && U16At(pkt, 4) == ident && U16At(pkt, 6) == 0
    ensures pkt[1] == 0 && pkt[8] == 64 && pkt[9] == 17 && pkt[12..16] == src && pkt[16..20] == dst
    ensures Checks(WordSum(pkt))
  {
    hide WordSum, Folded;
    pkt := [0x45, 0x00] + Be16(totalLen) + Be16(ident) + [0x00, 0x00] + [64] + [17] + [0x00, 0x00] + src + dst;
    var headerSum := OnesComplementSum(pkt[0..20], 0);
    var ipCsum := Fold(headerSum);
    assert pkt[0..20] == pkt;
    HeaderChecks(pkt, ipCsum);
    pkt := Patched(pkt, 10, ipCsum);
  }

  method BuildUdpIpv4(src: seq<byte>, dst: seq<byte>, sport: u16, dport: u16, payload: seq<byte>, ident: u16)
    returns (pkt: seq<byte>)
    requires IsIpv4(src) && IsIpv4(dst) && |payload| <= MAX_PAYLOAD
    ensures |pkt| == 28 + |payload| && U16At(pkt, 2) == |pkt| && pkt[12..16] == src && pkt[16..20] == dst
    ensures pkt[0] == 0x45 && pkt[1] == 0 && pkt[8] == 64 && pkt[9] == 17 && U16At(pkt, 4) == ident && U16At(pkt, 6) == 0
    ensures Checks(WordSum(pkt[..20]))
    ensures Checks(PseudoSum(pkt)) && U16At(pkt, 26) != 0
    ensures UdpPayload(pkt, src, sport, dport) == Some(payload)
    ensures forall k :: 0 <= k < |pkt| ==> UdpPayload(pkt[..k], src, sport, dport) == None
  {
    hide WordSum, Folded, UdpPayload;
    var udpLen := 8 + |payload|;
    var totalLen := 20 + udpLen;
    var header := BuildHeader(src, dst, totalLen, ident);
    var datagram := Be16(sport) + Be16(dport) + Be16(udpLen) + [0x00, 0x00] + payload;
    pkt := header + datagram;
    assert pkt[20..] == datagram && pkt[12..20] == header[12..20];
    var sum := OnesComplementSum(pkt[12..20], 0);
    WordSumBound(pkt[12..20]);
    sum := sum + 17;
    sum := sum + udpLen;
    sum := OnesComplementSum(pkt[20..], sum);
    var udpCsum := Fold(sum);
    if udpCsum == 0 {
      udpCsum := 0xffff;
    }
    pkt := Patched(pkt, 26, udpCsum);
    assert pkt[..20] == header && pkt[12..20] == header[12..20];
    assert pkt[20..] == Patched(datagram, 6, udpCsum);
    WordSumPatch(datagram, 6, udpCsum);
    ComplementChecks(sum);
    assert pkt[28..] == payload;
    HeaderFields(pkt, header);
    PayloadOf(pkt, src, sport, dport, payload);
  }

  lemma {:induction false} HeaderFields(pkt: seq<byte>, header: seq<byte>)
    requires |header| == 20 && header <= pkt
    ensures forall i :: 0 <= i < 20 ==> pkt[i] == header[i]
    ensures pkt[12..16] == header[12..16] && pkt[16..20] == header[16..20]
  {
  }

  lemma {:induction false} HeaderChecks(bare: seq<byte>, csum: u16)
    requires |bare| == 20 && bare[0] == 0x45 && bare[10] == 0 && bare[11] == 0
    requires csum == 0xffff - Folded(WordSum(bare))
    ensures Checks(WordSum(Patched(bare, 10, csum)))
  {
    WordSumPatch(bare, 10, csum);
    ComplementChecks(WordSum(bare));
  }

  /** A packet with these fields yields its payload, and no proper prefix of it yields anything. */
  lemma {:induction false} PayloadOf(pkt: seq<byte>, src: seq<byte>, sport: u16, dport: u16, payload: seq<byte>)
    requires |pkt| == 28 + |payload| && |payload| <= MAX_PAYLOAD
    requires pkt[0] == 0x45 && pkt[9] == 17 && U16At(pkt, 6) == 0 && pkt[12..16] == src
    requires U16At(pkt, 20) == sport && U16At(pkt, 22) == dport && U16At(pkt, 24) == 8 + |payload|
    requires pkt[28..] == payload
    ensures UdpPayload(pkt, src, sport, dport) == Some(payload)
    ensures forall k :: 0 <= k < |pkt| ==> UdpPayload(pkt[..k], src, sport, dport) == None
  {
    var udp := pkt[20..];
    assert U16At(udp, 0) == sport && U16At(udp, 2) == dport && U16At(udp, 4) == 8 + |payload|;
    assert udp[8..8 + |payload|] == payload;
    forall k | 0 <= k < |pkt| ensures UdpPayload(pkt[..k], src, sport, dport) == None {
      if k >= 28 {
        assert U16At(pkt[..k][20..], 4) == U16At(pkt, 24);
      }
    }
  }
}

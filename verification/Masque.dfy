/** Datagram and capsule codecs, and the capsule bodies (masque.rs; RFC 9297 sections 2.1 and 3.2, RFC 9484 sections 4.7 and 6). */
module Masque {
  import opened Bytes
  import Varint

  const CAPSULE_DATAGRAM: nat := 0
  const CAPSULE_ADDRESS_ASSIGN: nat := 1
  const CAPSULE_ADDRESS_REQUEST: nat := 2
  const CAPSULE_ROUTE_ADVERTISEMENT: nat := 3
  const CONNECT_IP_CONTEXT_ID: nat := 0

  datatype AssignedAddress = AssignedAddress(requestId: nat, ipVersion: byte, address: seq<byte>, prefixLen: byte)

  datatype RouteAdvertisement = RouteAdvertisement(ipVersion: byte, start: seq<byte>, end: seq<byte>, protocol: byte)

  datatype Capsule =
    | AddressAssign(addresses: seq<AssignedAddress>)
    | AddressRequest
    | Datagram(payload: seq<byte>)
    | Routes(routes: seq<RouteAdvertisement>)
    | Unknown(kind: nat, payload: seq<byte>)

  /* ---- encoders: a zeroed buffer of a computed size, filled from the front ---- */

  function VarintLen(v: nat): nat {
    if v < 64 then 1 else if v < 16384 then 2 else if v < 1_073_741_824 then 4 else 8
  }

  function Zeros(n: nat): seq<byte> {
    seq(n, _ => 0)
  }

  function Filled(cap: nat, written: seq<byte>): seq<byte>
    requires |written| <= cap
  {
    written + Zeros(cap - |written|)
  }

  function EncodeCapsule(kind: nat, value: seq<byte>): seq<byte>
    requires kind < Varint.LIMIT && |value| < Varint.LIMIT
  {
    Varint.RoundTrip(kind, []);
    Varint.RoundTrip(|value|, []);
    Filled(VarintLen(kind) + VarintLen(|value|) + |value|, Varint.Encode(kind) + Varint.Encode(|value|) + value)
  }

  function QuarterStreamId(streamId: nat): nat {
    streamId / 4
  }

  function EncodeIpDatagram(streamId: nat, packet: seq<byte>): seq<byte>
    requires streamId < 0x1_0000_0000_0000_0000
  {
    Varint.RoundTrip(QuarterStreamId(streamId), []);
    Varint.RoundTrip(CONNECT_IP_CONTEXT_ID, []);
    Filled(VarintLen(QuarterStreamId(streamId)) + VarintLen(CONNECT_IP_CONTEXT_ID) + |packet|,
           Varint.Encode(QuarterStreamId(streamId)) + Varint.Encode(CONNECT_IP_CONTEXT_ID) + packet)
  }

  datatype DatagramResult = TooShort | NotOurs | Packet(packet: seq<byte>)

  function DecodeIpDatagram(datagram: seq<byte>, expectStreamId: nat): DatagramResult {
    match Varint.Decode(datagram)
    case None => TooShort
    case Some((qsid, a)) =>
      if qsid != QuarterStreamId(expectStreamId) then NotOurs
      else
        Varint.DecodeCanonical(datagram);
        match Varint.Decode(datagram[a..])
        case None => TooShort
        case Some((ctx, b)) =>
          if ctx != CONNECT_IP_CONTEXT_ID then NotOurs
          else
            Varint.DecodeCanonical(datagram[a..]);
            Packet(datagram[a + b..])
  }

  /** What one stream encodes, a stream with the same quarter id decodes; any other stream refuses it. */
  lemma {:induction false} DatagramRoundTrip(streamId: nat, packet: seq<byte>, otherId: nat)
    requires streamId < 0x1_0000_0000_0000_0000
    ensures DecodeIpDatagram(EncodeIpDatagram(streamId, packet), otherId)
         == if otherId / 4 == streamId / 4 then Packet(packet) else NotOurs
  {
    var q, ctx := Varint.Encode(streamId / 4), Varint.Encode(CONNECT_IP_CONTEXT_ID);
    DatagramBytes(streamId, packet);
    Varint.RoundTrip(streamId / 4, ctx + packet);
    Varint.RoundTrip(CONNECT_IP_CONTEXT_ID, packet);
    hide Varint.Decode, Varint.Encode, EncodeIpDatagram;
    var d := q + (ctx + packet);
    assert d[|q|..] == ctx + packet;
    assert d[|q| + |ctx|..] == packet;
  }

  lemma {:induction false} DatagramBytes(streamId: nat, packet: seq<byte>)
    requires streamId < 0x1_0000_0000_0000_0000
    ensures EncodeIpDatagram(streamId, packet) == Varint.Encode(streamId / 4) + (Varint.Encode(CONNECT_IP_CONTEXT_ID) + packet)
  {
    hide Varint.Encode;
    Varint.RoundTrip(streamId / 4, []);
    Varint.RoundTrip(CONNECT_IP_CONTEXT_ID, []);
    var q, ctx := Varint.Encode(streamId / 4), Varint.Encode(CONNECT_IP_CONTEXT_ID);
    assert q + ctx + packet + Zeros(0) == q + (ctx + packet);
  }

  /* ---- datagram payloads inside HTTP/2 capsules ---- */

  predicate LooksLikeIpPacket(data: seq<byte>) {
    data != [] && data[0] / 16 in {4, 6} && |data| >= 20
  }

  function StripDatagramContext(payload: seq<byte>): Option<seq<byte>> {
    if payload == [] then None
    else
      match Varint.Decode(payload)
      case Some((ctx, n)) =>
        Varint.DecodeCanonical(payload);
        if ctx == CONNECT_IP_CONTEXT_ID && LooksLikeIpPacket(payload[n..]) then Some(payload[n..])
        else Bare(payload)
      case None => Bare(payload)
  }

  function Bare(payload: seq<byte>): Option<seq<byte>> {
    if LooksLikeIpPacket(payload) then Some(payload) else None
  }

  /** The one kind of bare packet that is mistaken for a prefixed one: an IPv4 packet with a zero
      header length and a zero second byte, whose tail happens to look like a packet itself. */
  predicate ReadsAsPrefixed(packet: seq<byte>) {
    |packet| >= 22 && packet[0] == 0x40 && packet[1] == 0 && packet[2] / 16 in {4, 6}
  }

  /** A prefixed packet always survives; a bare one survives exactly when it does not read as prefixed. */
  lemma {:induction false} StripKeepsPacket(packet: seq<byte>)
    requires |packet| >= 20 && packet[0] / 16 in {4, 6}
    ensures StripDatagramContext([0] + packet) == Some(packet)
    ensures StripDatagramContext(packet) == Some(packet) <==> !ReadsAsPrefixed(packet)
    ensures packet[0] % 16 != 0 || packet[0] / 16 == 6 ==> StripDatagramContext(packet) == Some(packet)
  {
    var framed: seq<byte> := [0] + packet;
    assert framed[..1][0 := framed[0] % 64] == [0];
    assert [0][..0] == [];
    assert Varint.FromBytes([0]) == 0;
    assert framed[1..] == packet;
    var t := packet[..2][0 := packet[0] % 64];
    assert Varint.Decode(packet) == Some((Varint.FromBytes(t), 2));
    assert t[..1] == [t[0]] && t[..1][..0] == [];
    assert Varint.FromBytes(t[..1]) == t[0];
    if ReadsAsPrefixed(packet) {
      assert StripDatagramContext(packet) == Some(packet[2..]);
      assert |packet[2..]| != |packet|;
    }
  }

  /** An IPv4 or IPv6 packet, by its version and the least length of its header. */
  predicate IsPacket(data: seq<byte>) {
    |data| >= 20 && (0x40 <= data[0] < 0x50 || 0x60 <= data[0] < 0x70)
  }

  /** What comes out of a datagram payload: the packet behind context 0 in a varint of any length, or else the payload itself,
      and in either case only when it is a packet. */
  lemma {:induction false} StripExact(payload: seq<byte>)
    ensures var front := Varint.Decode(payload);
      var prefixed := front.Some? && front.value.0 == 0 && front.value.1 <= |payload| && IsPacket(payload[front.value.1..]);
      StripDatagramContext(payload) ==
        if prefixed then Some(payload[front.value.1..]) else if IsPacket(payload) then Some(payload) else None
  {
    if Varint.Decode(payload).Some? {
      Varint.DecodeCanonical(payload);
    }
    hide Varint.Decode;
    NothingDecodes();
  }

  lemma {:induction false} NothingDecodes()
    ensures Varint.Decode([]) == None
  {
  }

  /** A datagram is taken for its packet if and only if it begins with this stream's quarter id and then context 0, each in
      a varint of any length; one that is cut inside these is too short, and any other is not ours. */
  lemma {:induction false} DatagramExact(datagram: seq<byte>, streamId: nat)
    ensures DecodeIpDatagram(datagram, streamId) ==
      match Varint.Decode(datagram)
      case None => TooShort
      case Some((id, a)) =>
        if id != streamId / 4 || a > |datagram| then NotOurs
        else
          match Varint.Decode(datagram[a..])
          case None => TooShort
          case Some((context, b)) => if context == 0 && a + b <= |datagram| then Packet(datagram[a + b..]) else NotOurs
  {
    if Varint.Decode(datagram).Some? {
      var (id, a) := Varint.Decode(datagram).value;
      Varint.DecodeCanonical(datagram);
      if Varint.Decode(datagram[a..]).Some? {
        Varint.DecodeCanonical(datagram[a..]);
      }
    }
  }

  /** Such packets exist, and lose their first two bytes: two bytes in front of any packet. */
  lemma {:induction false} BareIsStripped(packet: seq<byte>)
    requires IsPacket(packet)
    ensures var bare := [0x40, 0] + packet;
      LooksLikeIpPacket(bare) && ReadsAsPrefixed(bare) && StripDatagramContext(bare) == Some(packet)
  {
    var bare: seq<byte> := [0x40, 0] + packet;
    assert bare[2..] == packet;
    var t := bare[..2][0 := bare[0] % 64];
    assert t == [0, 0];
    Varint.ZeroBytes(t);
    assert Varint.Decode(bare) == Some((0, 2));
  }

  /* ---- capsule bodies ---- */

  /** A list already read, followed by the outcome of reading the rest. */
  function Following<T>(out: seq<T>, more: Option<seq<T>>): Option<seq<T>> {
    if more.None? then None else Some(out + more.value)
  }

  lemma {:induction false} FollowingNothing<T>(more: Option<seq<T>>)
    ensures Following([], more) == more
  {
    if more.Some? {
      assert [] + more.value == more.value;
    }
  }

  lemma {:induction false} FollowingStep<T>(out: seq<T>, item: T, more: Option<seq<T>>)
    ensures Following(out, Following([item], more)) == Following(out + [item], more)
  {
    if more.Some? {
      assert out + ([item] + more.value) == (out + [item]) + more.value;
    }
  }

  function AddressLength(ipVersion: byte): Option<nat> {
    if ipVersion == 4 then Some(4) else if ipVersion == 6 then Some(16) else None
  }

  /** One assigned address and what follows it. */
  function OneAddress(v: seq<byte>): (r: Option<(AssignedAddress, seq<byte>)>)
    ensures r.Some? ==> |r.value.1| < |v|
  {
    match Varint.Decode(v)
    case None => None
    case Some((id, n)) =>
      Varint.DecodeCanonical(v);
      var w := v[n..];
      if w == [] then None
      else
        match AddressLength(w[0])
        case None => None
        case Some(len) =>
          if |w| < len + 2 then None
          else Some((AssignedAddress(id, w[0], w[1..1 + len], w[1 + len]), w[len + 2..]))
  }

  function Addresses(v: seq<byte>): Option<seq<AssignedAddress>>
    decreases |v|
  {
    if v == [] then Some([])
    else
      match OneAddress(v)
      case None => None
      case Some((a, rest)) =>
        Following([a], Addresses(rest))
  }

  method ParseAddressAssign(value: seq<byte>) returns (r: Option<seq<AssignedAddress>>)
    ensures r == Addresses(value)
  {
    var rest, out := value, [];
    FollowingNothing(Addresses(value));
    while rest != []
      invariant Addresses(value) == Following(out, Addresses(rest))
      decreases |rest|
    {
      var one := OneAddress(rest);
      if one.None? {
        return None;
      }
      out := out + [one.value.0];
      rest := one.value.1;
      FollowingStep(out[..|out| - 1], one.value.0, Addresses(rest));
      assert out == out[..|out| - 1] + [one.value.0];
    }
    assert out + [] == out;
    return Some(out);
  }

  predicate ValidAddress(a: AssignedAddress) {
    a.requestId < Varint.LIMIT && ((a.ipVersion == 4 && |a.address| == 4) || (a.ipVersion == 6 && |a.address| == 16))
  }

  function AddressBytes(a: AssignedAddress): seq<byte>
    requires ValidAddress(a)
  {
    Varint.Encode(a.requestId) + ([a.ipVersion] + a.address + [a.prefixLen])
  }

  /** Section 4.7.1 of RFC 9484: request id, version, address, prefix length, repeated. */
  function SerializeAddresses(list: seq<AssignedAddress>): seq<byte>
    requires forall i :: 0 <= i < |list| ==> ValidAddress(list[i])
  {
    if list == [] then []
    else
      assert ValidAddress(list[0]);
      AddressBytes(list[0]) + SerializeAddresses(list[1..])
  }

  lemma {:induction false} AddressReads(a: AssignedAddress, tail: seq<byte>)
    requires ValidAddress(a)
    ensures OneAddress(AddressBytes(a) + tail) == Some((a, tail))
  {
    var id, w := Varint.Encode(a.requestId), [a.ipVersion] + a.address + [a.prefixLen] + tail;
    Varint.RoundTrip(a.requestId, w);
    hide Varint.Encode, Varint.Decode;
    var v := id + w;
    assert AddressBytes(a) + tail == v;
    assert v[|id|..] == w;
    Pieces(a.ipVersion, a.address, a.prefixLen, tail);
  }

  lemma {:induction false} Pieces(first: byte, middle: seq<byte>, last: byte, tail: seq<byte>)
    ensures var w := [first] + middle + [last] + tail;
      && w[0] == first && w[1 + |middle|] == last
      && w[1..1 + |middle|] == middle && w[|middle| + 2..] == tail
  {
    var w := [first] + middle + [last] + tail;
    assert w[..1 + |middle|] == [first] + middle;
  }

  lemma {:induction false} AddressInFront(v: seq<byte>, a: AssignedAddress, rest: seq<byte>, list: seq<AssignedAddress>)
    requires v != [] && OneAddress(v) == Some((a, rest)) && Addresses(rest) == Some(list)
    ensures Addresses(v) == Some([a] + list)
  {
    hide OneAddress;
  }

  lemma {:induction false} SerializedFirst(list: seq<AssignedAddress>)
    requires list != [] && forall i :: 0 <= i < |list| ==> ValidAddress(list[i])
    ensures ValidAddress(list[0]) && AddressBytes(list[0]) != []
    ensures SerializeAddresses(list) == AddressBytes(list[0]) + SerializeAddresses(list[1..])
  {
    hide Varint.Encode;
    assert ValidAddress(list[0]);
  }

  lemma {:induction false} AddressesRoundTrip(list: seq<AssignedAddress>)
    requires forall i :: 0 <= i < |list| ==> ValidAddress(list[i])
    ensures Addresses(SerializeAddresses(list)) == Some(list)
  {
    if list != [] {
      hide *;
      var tail := list[1..];
      SerializedFirst(list);
      AddressReads(list[0], SerializeAddresses(tail));
      AddressesRoundTrip(tail);
      AddressInFront(SerializeAddresses(list), list[0], SerializeAddresses(tail), tail);
      assert list == [list[0]] + tail;
    }
  }

  /** The bytes spell this list of addresses, each request id in a varint of any length. */
  predicate SpellsAddresses(v: seq<byte>, list: seq<AssignedAddress>)
    decreases |list|
  {
    if list == [] then v == []
    else
      && ValidAddress(list[0]) && Varint.Decode(v).Some? && Varint.Decode(v).value.0 == list[0].requestId
      && var n, a := Varint.Decode(v).value.1, list[0];
      && n <= |v| && |v[n..]| >= |a.address| + 2
      && v[n..][..|a.address| + 2] == [a.ipVersion] + a.address + [a.prefixLen]
      && SpellsAddresses(v[n..][|a.address| + 2..], list[1..])
  }

  lemma {:induction false} OneAddressSpelt(v: seq<byte>, a: AssignedAddress, rest: seq<byte>)
    ensures OneAddress(v) == Some((a, rest)) <==>
      && ValidAddress(a) && Varint.Decode(v).Some? && Varint.Decode(v).value.0 == a.requestId
      && var n := Varint.Decode(v).value.1;
      && n <= |v| && |v[n..]| >= |a.address| + 2
      && v[n..][..|a.address| + 2] == [a.ipVersion] + a.address + [a.prefixLen] && rest == v[n..][|a.address| + 2..]
  {
    if Varint.Decode(v).Some? {
      Varint.DecodeCanonical(v);
      hide Varint.Decode;
      var n := Varint.Decode(v).value.1;
      var w, k := v[n..], |a.address|;
      if |w| >= k + 2 {
        var front := [a.ipVersion] + a.address + [a.prefixLen];
        assert w[..k + 2] == [w[0]] + w[1..1 + k] + [w[1 + k]];
        if w[..k + 2] == front {
          assert w[0] == front[0] == a.ipVersion && w[1 + k] == front[1 + k] == a.prefixLen;
          assert w[1..1 + k] == w[..k + 2][1..1 + k] == front[1..1 + k] == a.address;
        }
      }
    }
  }

  /** A body is accepted with a list if and only if it spells it. */
  lemma {:induction false} AddressesExact(v: seq<byte>, list: seq<AssignedAddress>)
    ensures Addresses(v) == Some(list) <==> SpellsAddresses(v, list)
    decreases |list|
  {
    if v == [] {
      NothingSpelt(list);
    } else if list == [] {
      NotEmptyList(v);
    } else {
      hide ValidAddress;
      if OneAddress(v).Some? {
        var (b, after) := OneAddress(v).value;
        OneAddressSpelt(v, b, after);
        OneAddressSpelt(v, list[0], after);
        AddressesExact(after, list[1..]);
        FollowingFirst(b, Addresses(after), list);
      }
      if SpellsAddresses(v, list) {
        var n := Varint.Decode(v).value.1;
        OneAddressSpelt(v, list[0], v[n..][|list[0].address| + 2..]);
      }
    }
  }

  lemma {:induction false} NothingSpelt(list: seq<AssignedAddress>)
    ensures Addresses([]) == Some(list) <==> SpellsAddresses([], list)
  {
  }

  lemma {:induction false} NotEmptyList(v: seq<byte>)
    requires v != []
    ensures Addresses(v) != Some([])
  {
    hide OneAddress;
  }

  lemma {:induction false} FollowingFirst<T>(b: T, more: Option<seq<T>>, list: seq<T>)
    requires list != []
    ensures Following([b], more) == Some(list) <==> b == list[0] && more == Some(list[1..])
  {
    assert list == [list[0]] + list[1..];
    if more.Some? {
      assert ([b] + more.value)[1..] == more.value;
    }
  }

  function OneRoute(v: seq<byte>): (r: Option<(RouteAdvertisement, seq<byte>)>)
    ensures r.Some? ==> |r.value.1| < |v|
  {
    if v == [] then None
    else
      match AddressLength(v[0])
      case None => None
      case Some(len) =>
        if |v| < 2 * len + 2 then None
        else Some((RouteAdvertisement(v[0], v[1..1 + len], v[1 + len..1 + 2 * len], v[1 + 2 * len]), v[2 * len + 2..]))
  }

  function RouteList(v: seq<byte>): Option<seq<RouteAdvertisement>>
    decreases |v|
  {
    if v == [] then Some([])
    else
      match OneRoute(v)
      case None => None
      case Some((a, rest)) =>
        Following([a], RouteList(rest))
  }

  method ParseRouteAdvertisement(value: seq<byte>) returns (r: Option<seq<RouteAdvertisement>>)
    ensures r == RouteList(value)
  {
    var rest, out := value, [];
    FollowingNothing(RouteList(value));
    while rest != []
      invariant RouteList(value) == Following(out, RouteList(rest))
      decreases |rest|
    {
      var one := OneRoute(rest);
      if one.None? {
        return None;
      }
      out := out + [one.value.0];
      rest := one.value.1;
      FollowingStep(out[..|out| - 1], one.value.0, RouteList(rest));
      assert out == out[..|out| - 1] + [one.value.0];
    }
    assert out + [] == out;
    return Some(out);
  }

  predicate ValidRoute(r: RouteAdvertisement) {
    ((r.ipVersion == 4 && |r.start| == 4) || (r.ipVersion == 6 && |r.start| == 16)) && |r.start| == |r.end|
  }

  /** Section 4.7.3 of RFC 9484. */
  function SerializeRoutes(list: seq<RouteAdvertisement>): seq<byte> {
    if list == [] then []
    else [list[0].ipVersion] + list[0].start + list[0].end + [list[0].protocol] + SerializeRoutes(list[1..])
  }

  predicate AllRoutes(list: seq<RouteAdvertisement>) {
    forall i :: 0 <= i < |list| ==> ValidRoute(list[i])
  }

  lemma {:induction false} OneRouteForward(r: RouteAdvertisement, tail: seq<byte>)
    requires ValidRoute(r)
    ensures OneRoute([r.ipVersion] + r.start + r.end + [r.protocol] + tail) == Some((r, tail))
  {
    var n, v := |r.start|, [r.ipVersion] + r.start + r.end + [r.protocol] + tail;
    assert v[1..1 + n] == r.start && v[1 + n..1 + 2 * n] == r.end;
    assert v[1 + 2 * n] == r.protocol && v[2 * n + 2..] == tail;
  }

  lemma {:induction false} RoutesRoundTrip(list: seq<RouteAdvertisement>)
    requires AllRoutes(list)
    ensures RouteList(SerializeRoutes(list)) == Some(list)
  {
    if list != [] {
      assert ValidRoute(list[0]);
      OneRouteForward(list[0], SerializeRoutes(list[1..]));
      RoutesRoundTrip(list[1..]);
      assert list == [list[0]] + list[1..];
    }
  }

  lemma {:induction false} OneRouteBackward(v: seq<byte>)
    requires OneRoute(v).Some?
    ensures var (a, rest) := OneRoute(v).value;
      ValidRoute(a) && v == [a.ipVersion] + a.start + a.end + [a.protocol] + rest
  {
  }

  lemma {:induction false} RoutesOnly(v: seq<byte>)
    requires RouteList(v).Some?
    ensures AllRoutes(RouteList(v).value) && v == SerializeRoutes(RouteList(v).value)
    decreases |v|
  {
    if v != [] {
      hide OneRoute;
      var (a, rest) := OneRoute(v).value;
      OneRouteBackward(v);
      RoutesOnly(rest);
      var more := RouteList(rest).value;
      assert RouteList(v).value == [a] + more;
      assert ([a] + more)[1..] == more;
    }
  }

  /** The parser accepts exactly the serialisations of well-formed route lists, and returns that list. */
  lemma {:induction false} RoutesExact(v: seq<byte>, list: seq<RouteAdvertisement>)
    ensures RouteList(v) == Some(list) <==> AllRoutes(list) && v == SerializeRoutes(list)
  {
    if AllRoutes(list) {
      RoutesRoundTrip(list);
    }
    if RouteList(v).Some? {
      RoutesOnly(v);
    }
  }
}

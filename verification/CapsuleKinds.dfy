/** What each kind of capsule is delivered as, by its number and its bytes. */
module CapsuleKinds {
  import opened Bytes
  import opened Masque
  import opened CapsuleStream
  import Varint

  /** The list of routes a body spells, in the order it has them. */
  predicate SpellsRoutes(v: seq<byte>, list: seq<RouteAdvertisement>) {
    AllRoutes(list) && v == SerializeRoutes(list)
  }

  /** What a capsule of this kind and value is. */
  ghost predicate Means(kind: nat, value: seq<byte>, step: Step) {
    match step
    case Parsed(Datagram(payload)) => kind == 0 && payload == value
    case Parsed(AddressAssign(list)) => kind == 1 && SpellsAddresses(value, list)
    case Parsed(AddressRequest) => kind == 2
    case Parsed(Routes(list)) => kind == 3 && SpellsRoutes(value, list)
    case Parsed(Unknown(k, v)) => kind > 3 && k == kind && v == value
    case Malformed =>
      (kind == 1 && forall list :: !SpellsAddresses(value, list)) || (kind == 3 && forall list :: !SpellsRoutes(value, list))
    case NeedMore => false
  }

  lemma {:induction false} MeansIt(kind: nat, value: seq<byte>, step: Step)
    ensures Interpret(kind, value) == step <==> Means(kind, value, step)
  {
    hide Addresses, RouteList, SpellsRoutes, SpellsAddresses;
    forall list: seq<AssignedAddress> ensures Addresses(value) == Some(list) <==> SpellsAddresses(value, list) {
      AddressesExact(value, list);
    }
    forall list: seq<RouteAdvertisement> ensures RouteList(value) == Some(list) <==> SpellsRoutes(value, list) {
      RoutesSpelt(value, list);
    }
    assert Addresses(value).Some? ==> SpellsAddresses(value, Addresses(value).value);
    assert RouteList(value).Some? ==> SpellsRoutes(value, RouteList(value).value);
  }

  lemma {:induction false} RoutesSpelt(value: seq<byte>, list: seq<RouteAdvertisement>)
    ensures RouteList(value) == Some(list) <==> SpellsRoutes(value, list)
  {
    RoutesExact(value, list);
  }

  /** A kind and a length in front of a value, each a varint of any length. */
  ghost predicate FrameParts(buf: seq<byte>, kind: nat, value: seq<byte>, size: nat, a: nat, b: nat) {
    && a <= |buf| && a + b + |value| == size <= |buf|
    && Varint.Decode(buf) == Some((kind, a)) && Varint.Decode(buf[a..]) == Some((|value|, b)) && buf[a + b..size] == value
  }

  /** Of any bytes at all a whole capsule is read if and only if they begin with one. */
  lemma {:induction false} FrameExact(buf: seq<byte>, kind: nat, value: seq<byte>, size: nat)
    ensures NextFrame(buf) == Whole(kind, value, size) <==> exists a, b :: FrameParts(buf, kind, value, size, a, b)
  {
    hide Varint.Decode;
    if NextFrame(buf) == Whole(kind, value, size) {
      var a := Varint.Decode(buf).value.1;
      assert FrameParts(buf, kind, value, size, a, Varint.Decode(buf[a..]).value.1);
    }
  }

  /** One capsule of any kind below the varint limit, in front of anything: what is delivered first is what it means, a body
      that spells no list and no other being malformed and the end of the drain. */
  lemma {:induction false} Delivered(kind: nat, value: seq<byte>, rest: seq<byte>, step: Step)
    requires kind < Varint.LIMIT && |value| < Varint.LIMIT && Means(kind, value, step)
    ensures Drained(EncodeCapsule(kind, value) + rest) ==
      if step.Malformed? then ([step], rest) else ([step] + Drained(rest).0, Drained(rest).1)
  {
    MeansIt(kind, value, step);
    CapsuleRoundTrip(kind, value, rest);
    hide NextFrame, EncodeCapsule, Interpret, Means, Drained;
    var e := EncodeCapsule(kind, value);
    assert (e + rest)[|e|..] == rest;
    DrainOne(e + rest);
  }

  /** A packet in a datagram capsule comes out whole. */
  lemma {:induction false} DatagramDelivered(packet: seq<byte>, rest: seq<byte>)
    requires |packet| < Varint.LIMIT
    ensures Drained(EncodeCapsule(0, packet) + rest) == ([Parsed(Datagram(packet))] + Drained(rest).0, Drained(rest).1)
  {
    hide Drained;
    Delivered(0, packet, rest, Parsed(Datagram(packet)));
  }

  /** Assigned addresses come out as they were serialised. */
  lemma {:induction false} AddressesDelivered(list: seq<AssignedAddress>, rest: seq<byte>)
    requires (forall i :: 0 <= i < |list| ==> ValidAddress(list[i])) && |SerializeAddresses(list)| < Varint.LIMIT
    ensures Drained(EncodeCapsule(1, SerializeAddresses(list)) + rest) == ([Parsed(AddressAssign(list))] + Drained(rest).0, Drained(rest).1)
  {
    AddressesRoundTrip(list);
    AddressesExact(SerializeAddresses(list), list);
    hide Drained, SerializeAddresses, SpellsAddresses, EncodeCapsule;
    Delivered(1, SerializeAddresses(list), rest, Parsed(AddressAssign(list)));
  }

  /** And so do routes. */
  lemma {:induction false} RoutesDelivered(list: seq<RouteAdvertisement>, rest: seq<byte>)
    requires AllRoutes(list) && |SerializeRoutes(list)| < Varint.LIMIT
    ensures Drained(EncodeCapsule(3, SerializeRoutes(list)) + rest) == ([Parsed(Routes(list))] + Drained(rest).0, Drained(rest).1)
  {
    hide Drained, SerializeRoutes, AllRoutes, EncodeCapsule;
    Delivered(3, SerializeRoutes(list), rest, Parsed(Routes(list)));
  }

  function AsCapsules(packets: seq<seq<byte>>): seq<RawCapsule> {
    if packets == [] then [] else [RawCapsule(0, packets[0])] + AsCapsules(packets[1..])
  }

  function AsSteps(packets: seq<seq<byte>>): seq<Step> {
    if packets == [] then [] else [Parsed(Datagram(packets[0]))] + AsSteps(packets[1..])
  }

  lemma {:induction false} PacketsMean(packets: seq<seq<byte>>)
    requires forall i :: 0 <= i < |packets| ==> |packets[i]| < Varint.LIMIT
    ensures AllSendable(AsCapsules(packets)) && Meanings(AsCapsules(packets)) == AsSteps(packets)
    ensures |AsCapsules(packets)| == |packets| && forall i :: 0 <= i < |packets| ==> AsCapsules(packets)[i] == RawCapsule(0, packets[i])
  {
    if packets != [] {
      PacketsMean(packets[1..]);
      MeansIt(0, packets[0], Parsed(Datagram(packets[0])));
      hide Interpret;
      assert AsCapsules(packets)[1..] == AsCapsules(packets[1..]);
    }
  }

  /** A stream of packets in datagram capsules, however it is cut into reads and the reads into batches that leave room for
      one capsule: exactly the packets are delivered, in order. */
  lemma {:induction false} PacketsDelivered(packets: seq<seq<byte>>, batches: seq<seq<seq<byte>>>, widest: nat)
    requires forall i :: 0 <= i < |packets| ==> |packets[i]| < Varint.LIMIT && |EncodeCapsule(0, packets[i])| + widest <= 0x4_0000
    requires widest <= 0x4_0000 && forall i :: 0 <= i < |batches| ==> |Concat(batches[i])| <= widest
    requires AllSendable(AsCapsules(packets)) && Sent(batches) == Stream(AsCapsules(packets))
    ensures Received([], batches) == (AsSteps(packets), [])
  {
    PacketsMean(packets);
    hide EncodeCapsule, Received, Stream, Sent, Concat, Sendable, Meanings, AsCapsules, AsSteps;
    AnyCutDeliversAll(AsCapsules(packets), batches, widest);
  }
}

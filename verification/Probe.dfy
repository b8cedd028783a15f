/** The exit-address probe as a whole (exitip.rs, Probe): the packet it sends and the replies it accepts and reads. */
module Probe {
  import opened Bytes
  import opened ExitPacket
  import opened DnsQuery
  import R = DnsReader

  const DNS_PORT: u16 := 53
  const QTYPE_TXT: u16 := 16
  const QCLASS_CH: u16 := 3
  const RESOLVER: seq<byte> := [1, 1, 1, 1]

  /** The labels of whoami.cloudflare. */
  const WHOAMI: seq<seq<byte>> := [[119, 104, 111, 97, 109, 105], [99, 108, 111, 117, 100, 102, 108, 97, 114, 101]]

  /** The question as section 4.1.2 of RFC 1035 writes it: whoami.cloudflare, type TXT, class CH. */
  function WhoamiQuestion(): seq<byte> {
    [6, 119, 104, 111, 97, 109, 105, 10, 99, 108, 111, 117, 100, 102, 108, 97, 114, 101, 0, 0, 16, 0, 3]
  }

  datatype Probe = Probe(packet: seq<byte>, sport: u16, id: u16, name: seq<seq<byte>>)

  predicate Matches(p: Probe, packet: seq<byte>) {
    var payload := UdpPayload(packet, RESOLVER, DNS_PORT, p.sport);
    payload.Some? && Answers(payload.value, p.id, p.name, QTYPE_TXT, QCLASS_CH)
  }

  /** `parse` trims a text and reads an address from it, if it is one. */
  function Read<A>(p: Probe, packet: seq<byte>, lossy: R.Lossy, parse: string -> Option<A>): Option<A> {
    var payload := UdpPayload(packet, RESOLVER, DNS_PORT, p.sport);
    if payload.None? then None
    else
      var text := R.TxtOf(lossy, payload.value);
      if text.None? then None else parse(text.value)
  }

  /** A new probe from its three random numbers: it carries its own question, from a port in its own range. */
  method Whoami(src: seq<byte>, id: u16, draw: u16, ident: u16) returns (p: Probe)
    requires IsIpv4(src)
    ensures p.id == id && p.name == WHOAMI && p.sport == 20000 + (if draw < 40000 then draw else draw - 40000)
    ensures |p.packet| >= 28 && p.packet[16..20] == [1, 1, 1, 1]
    ensures UdpPayload(p.packet, src, p.sport, 53) == Some(Be16(id) + [0x01, 0x00, 0, 1, 0, 0, 0, 0, 0, 0] + WhoamiQuestion())
  {
    hide QuerySection, UdpPayload;
    var sport: u16 := 20000 + draw % 40000;
    var query := BuildQuery(id, WHOAMI, QTYPE_TXT, QCLASS_CH);
    QueryFits();
    var packet := BuildUdpIpv4(src, RESOLVER, sport, DNS_PORT, query, ident);
    p := Probe(packet, sport, id, WHOAMI);
  }

  lemma {:induction false} QueryFits()
    ensures QuerySection(WHOAMI, QTYPE_TXT, QCLASS_CH) == WhoamiQuestion()
  {
    assert WHOAMI[1..][1..] == [];
    assert LabelBytes(WHOAMI) == OneLabel(WHOAMI[0]) + (OneLabel(WHOAMI[1]) + LabelBytes([]));
  }

  /** A response to the probe's question: its id, the response bit, and the one question as it was asked. */
  predicate Echoes(p: Probe, m: R.Message) {
    && R.ValidMessage(m) && m.id == p.id && m.flags[0] >= 0x80
    && m.questions == [R.Question(R.Name(p.name, None), QTYPE_TXT, QCLASS_CH)]
  }

  lemma {:induction false} SameLabels(labels: seq<seq<byte>>)
    requires forall i :: 0 <= i < |labels| ==> 1 <= |labels[i]| <= 63
    ensures LabelBytes(labels) == R.Labels(labels) && AllFit(labels)
  {
    if labels != [] {
      assert 1 <= |labels[0]| <= 63;
      assert forall i :: 0 <= i < |labels| - 1 ==> labels[1..][i] == labels[i + 1];
      SameLabels(labels[1..]);
    }
  }

  lemma {:induction false} MessageParts(p: Probe, m: R.Message)
    requires Echoes(p, m)
    ensures R.MessageBytes(m) == Be16(p.id) + m.flags + Be16(1) + (Be16(|m.answers|) + m.counts)
      + QuerySection(p.name, QTYPE_TXT, QCLASS_CH) + (R.RecordsBytes(m.answers) + m.rest)
    ensures AllFit(p.name)
  {
    assert R.ValidName(m.questions[0].name);
    assert forall i :: 0 <= i < |p.name| ==> R.ValidLabel(p.name[i]);
    SameLabels(p.name);
    hide R.Labels, LabelBytes, AllFit, R.RecordsBytes;
    assert m.questions[1..] == [];
    var question := R.QuestionBytes(m.questions[0]);
    assert R.QuestionsBytes(m.questions) == question + [] == question;
    assert question == QuerySection(p.name, QTYPE_TXT, QCLASS_CH);
    assert R.Header(m) == Be16(p.id) + m.flags + Be16(1) + (Be16(|m.answers|) + m.counts);
  }

  /** A packet that brings such a response is accepted, and read as the address in its first TXT record. */
  lemma {:induction false} ReplyAccepted<A>(p: Probe, packet: seq<byte>, m: R.Message, lossy: R.Lossy, parse: string -> Option<A>)
    requires Echoes(p, m) && UdpPayload(packet, RESOLVER, DNS_PORT, p.sport) == Some(R.MessageBytes(m))
    ensures Matches(p, packet)
    ensures Read(p, packet, lossy, parse) ==
      var text := R.TextOfFirst(lossy, m.answers); if text.None? then None else parse(text.value)
  {
    MessageParts(p, m);
    R.ReadsFirstTxt(lossy, m);
    hide R.MessageBytes, R.TxtOf, R.TextOfFirst, UdpPayload, QuerySection, Answers, R.RecordsBytes, AllFit;
    EchoRecognised(p.id, m.flags, Be16(|m.answers|) + m.counts, p.name, QTYPE_TXT, QCLASS_CH, R.RecordsBytes(m.answers) + m.rest);
  }

  /** The reply of the resolver, built as the probe's own packets are: accepted and read whole, and refused by both at
      every length short of that. */
  method Reply<A>(p: Probe, dst: seq<byte>, m: R.Message, ident: u16, ghost lossy: R.Lossy, ghost parse: string -> Option<A>)
    returns (packet: seq<byte>)
    requires Echoes(p, m) && IsIpv4(dst) && |R.MessageBytes(m)| <= MAX_PAYLOAD
    ensures Matches(p, packet)
    ensures Read(p, packet, lossy, parse) ==
      var text := R.TextOfFirst(lossy, m.answers); if text.None? then None else parse(text.value)
    ensures forall k :: 0 <= k < |packet| ==> !Matches(p, packet[..k]) && Read(p, packet[..k], lossy, parse) == None
  {
    hide R.MessageBytes, R.TextOfFirst, R.TxtOf, UdpPayload, Answers;
    packet := BuildUdpIpv4(RESOLVER, dst, DNS_PORT, p.sport, R.MessageBytes(m), ident);
    ReplyAccepted(p, packet, m, lossy, parse);
  }
}

/** The VLESS-over-WebSocket relay (edge-worker.js): header parsing, TCP and DNS forwarding, replies. */
module EdgeRelay {
  import opened Bytes

  datatype Host = V4(octets: seq<byte>) | Name(bytes: seq<byte>) | V6(octets: seq<byte>)

  datatype Header = Header(version: byte, cmd: byte, port: u16, host: Host, rest: seq<byte>)

  /** The address at `q`, and the bytes after it. A domain length read exactly at the end of the
      buffer is JavaScript's undefined: the host comes out empty and the rest is the whole buffer. */
  function Address(buf: seq<byte>, atype: byte, q: nat): Option<(Host, seq<byte>)>
    requires q <= |buf|
  {
    if atype == 1 then
      if |buf| < q + 4 then None else Some((V4(buf[q..q + 4]), buf[q + 4..]))
    else if atype == 2 then
      if |buf| == q then Some((Name([]), buf))
      else
        var len := buf[q];
        if |buf| < q + 1 + len then None else Some((Name(buf[q + 1..q + 1 + len]), buf[q + 1 + len..]))
    else if atype == 3 then
      if |buf| < q + 16 then None else Some((V6(buf[q..q + 16]), buf[q + 16..]))
    else None
  }

  function ParsedHeader(buf: seq<byte>, id: seq<byte>): Option<Header>
    requires |id| == 16
  {
    if |buf| < 24 || buf[1..17] != id then None
    else
      var addon: int := buf[17];
      var p := 18 + addon;
      if |buf| < p + 4 then None
      else
        match Address(buf, buf[p + 3], p + 4)
        case None => None
        case Some((host, rest)) =>
          if buf[p] != 1 && buf[p] != 2 then None
          else Some(Header(buf[0], buf[p], U16At(buf, p + 1), host, rest))
  }

  method ParseHeader(buf: seq<byte>, id: seq<byte>) returns (h: Option<Header>)
    requires |id| == 16
    ensures h == ParsedHeader(buf, id)
  {
    if |buf| < 24 {
      return None;
    }
    var version := buf[0];
    for i := 0 to 16
      invariant forall j :: 0 <= j < i ==> buf[1 + j] == id[j]
    {
      if buf[1 + i] != id[i] {
        assert buf[1..17][i] != id[i];
        return None;
      }
    }
    assert buf[1..17] == id;
    var p: int := 17;
    var optLen: int := buf[p];
    p := p + 1 + optLen;
    if |buf| < p + 4 {
      return None;
    }
    var cmd, port, atype := buf[p], U16At(buf, p + 1), buf[p + 3];
    var address := Address(buf, atype, p + 4);
    if address.None? {
      return None;
    }
    if cmd != 1 && cmd != 2 {
      return None;
    }
    return Some(Header(version, cmd, port, address.value.0, address.value.1));
  }

  /* ---- one client connection ---- */

  datatype Stage = Head | Tcp | Udp

  /** What the session holds, and every effect it has had so far. */
  datatype Session = Session(
    stage: Stage,
    pending: seq<byte>,
    udpBuf: seq<byte>,
    responseHeader: Option<seq<byte>>,
    piping: bool,
    dialled: seq<(Host, u16)>,
    forwarded: seq<byte>,
    queries: seq<seq<byte>>,
    replies: seq<seq<byte>>,
    sent: seq<seq<byte>>,
    closeAsked: bool)

  const FRESH: Session := Session(Head, [], [], None, false, [], [], [], [], [], false)

  /** What the resolver does with the n-th query, and whether the client is still there to be told. */
  datatype DohReply = Unanswered | Answered(body: seq<byte>, clientOpen: bool)

  datatype World = World(connects: bool, doh: nat -> DohReply)

  /** One reply to the client; the response header goes in front of the first. */
  function Replied(s: Session, payload: seq<byte>): Session {
    s.(replies := s.replies + [payload],
       sent := s.sent + [if s.responseHeader.Some? then s.responseHeader.value + payload else payload],
       responseHeader := None)
  }

  function LengthPrefixed(body: seq<byte>): seq<byte> {
    [|body| / 256 % 256, |body| % 256] + body
  }

  /** The loop over complete [length][query] frames. */
  function Answering(w: World, s: Session): Session
    decreases |s.udpBuf|
  {
    if |s.udpBuf| < 2 || |s.udpBuf| < 2 + U16At(s.udpBuf, 0) then s
    else
      var len := U16At(s.udpBuf, 0);
      var taken := s.(udpBuf := s.udpBuf[2 + len..], queries := s.queries + [s.udpBuf[2..2 + len]]);
      match w.doh(|s.queries|)
      case Unanswered => taken.(closeAsked := true)
      case Answered(body, clientOpen) =>
        if !clientOpen then taken else Answering(w, Replied(taken, LengthPrefixed(body)))
  }

  lemma {:induction false} AnswerNone(w: World, s: Session)
    requires |s.udpBuf| < 2 || |s.udpBuf| < 2 + U16At(s.udpBuf, 0)
    ensures Answering(w, s) == s
  {
  }

  lemma {:induction false} AnswerNext(w: World, s: Session)
    requires |s.udpBuf| >= 2 && |s.udpBuf| >= 2 + U16At(s.udpBuf, 0)
    ensures var len := U16At(s.udpBuf, 0);
      var taken := s.(udpBuf := s.udpBuf[2 + len..], queries := s.queries + [s.udpBuf[2..2 + len]]);
      Answering(w, s) ==
        match w.doh(|s.queries|)
        case Unanswered => taken.(closeAsked := true)
        case Answered(body, clientOpen) => if clientOpen then Answering(w, Replied(taken, LengthPrefixed(body))) else taken
  {
  }

  lemma {:induction false} RepliedKeeps(s: Session, payload: seq<byte>)
    ensures Replied(s, payload).udpBuf == s.udpBuf
  {
  }

  function UdpData(w: World, s: Session, chunk: seq<byte>): Session {
    Answering(w, s.(udpBuf := s.udpBuf + chunk))
  }

  function HeaderData(w: World, s: Session, chunk: seq<byte>, id: seq<byte>): Session
    requires |id| == 16
  {
    var t := s.(pending := s.pending + chunk);
    match ParsedHeader(t.pending, id)
    case None => t.(closeAsked := t.closeAsked || |t.pending| > 512)
    case Some(h) =>
      var u := t.(responseHeader := Some([h.version, 0]));
      if h.cmd == 2 then
        if h.port != 53 then u.(closeAsked := true) else UdpData(w, u.(stage := Udp), h.rest)
      else if !w.connects then u.(stage := Tcp, closeAsked := true)
      else u.(stage := Tcp, piping := true, dialled := u.dialled + [(h.host, h.port)], forwarded := u.forwarded + h.rest)
  }

  function DataStep(w: World, s: Session, chunk: seq<byte>, id: seq<byte>): Session
    requires |id| == 16
  {
    match s.stage
    case Head => HeaderData(w, s, chunk, id)
    case Tcp => if s.dialled != [] then s.(forwarded := s.forwarded + chunk) else s.(closeAsked := true)
    case Udp => UdpData(w, s, chunk)
  }

  /** A chunk from the destination; the pipe ends when the client is gone. */
  function ReplyStep(s: Session, chunk: seq<byte>, clientOpen: bool): Session {
    if !s.piping then s
    else if clientOpen then Replied(s, chunk)
    else s.(piping := false, closeAsked := true)
  }

  class EdgeSession {
    const id: seq<byte>
    const world: World
    var stage: Stage
    var pending: seq<byte>
    var udpBuf: seq<byte>
    var responseHeader: Option<seq<byte>>
    var piping: bool
    var dialled: seq<(Host, u16)>
    var forwarded: seq<byte>
    var queries: seq<seq<byte>>
    var replies: seq<seq<byte>>
    var sent: seq<seq<byte>>
    var closeAsked: bool

    ghost function View(): Session
      reads this
    {
      Session(stage, pending, udpBuf, responseHeader, piping, dialled, forwarded, queries, replies, sent, closeAsked)
    }

    constructor (id: seq<byte>, world: World)
      requires |id| == 16
      ensures this.id == id && this.world == world && View() == FRESH
    {
      this.id, this.world := id, world;
      stage, pending, udpBuf, responseHeader, piping := Head, [], [], None, false;
      dialled, forwarded, queries, replies, sent, closeAsked := [], [], [], [], [], false;
    }

    method Send(payload: seq<byte>)
      modifies this
      ensures View() == Replied(old(View()), payload)
    {
      replies := replies + [payload];
      if responseHeader.Some? {
        sent := sent + [responseHeader.value + payload];
        responseHeader := None;
      } else {
        sent := sent + [payload];
      }
    }

    method OnUdp(chunk: seq<byte>)
      modifies this
      ensures View() == UdpData(world, old(View()), chunk)
    {
      hide Answering, Replied;
      udpBuf := udpBuf + chunk;
      while |udpBuf| >= 2
        invariant Answering(world, View()) == UdpData(world, old(View()), chunk)
        decreases |udpBuf|
      {
        var len: int := U16At(udpBuf, 0);
        if |udpBuf| < 2 + len {
          break;
        }
        AnswerNext(world, View());
        var query := udpBuf[2..2 + len];
        var reply := world.doh(|queries|);
        queries := queries + [query];
        udpBuf := udpBuf[2 + len..];
        match reply {
          case Unanswered =>
            closeAsked := true;
            return;
          case Answered(body, clientOpen) =>
            if !clientOpen {
              return;
            }
            RepliedKeeps(View(), LengthPrefixed(body));
            Send(LengthPrefixed(body));
        }
      }
      AnswerNone(world, View());
    }

    method OnData(chunk: seq<byte>)
      requires |id| == 16
      modifies this
      ensures View() == DataStep(world, old(View()), chunk, id)
    {
      if stage == Head {
        pending := pending + chunk;
        var h := ParseHeader(pending, id);
        if h.None? {
          if |pending| > 512 {
            closeAsked := true;
          }
          return;
        }
        responseHeader := Some([h.value.version, 0]);
        if h.value.cmd == 2 {
          if h.value.port != 53 {
            closeAsked := true;
            return;
          }
          stage := Udp;
          OnUdp(h.value.rest);
          return;
        }
        stage := Tcp;
        if !world.connects {
          closeAsked := true;
          return;
        }
        dialled := dialled + [(h.value.host, h.value.port)];
        forwarded := forwarded + h.value.rest;
        piping := true;
        return;
      }
      if stage == Tcp {
        if dialled == [] {
          closeAsked := true;
        } else {
          forwarded := forwarded + chunk;
        }
      } else {
        OnUdp(chunk);
      }
    }

    method OnReply(chunk: seq<byte>, clientOpen: bool)
      modifies this
      ensures View() == ReplyStep(old(View()), chunk, clientOpen)
    {
      if piping {
        if clientOpen {
          Send(chunk);
        } else {
          piping := false;
          closeAsked := true;
        }
      }
    }
  }
}

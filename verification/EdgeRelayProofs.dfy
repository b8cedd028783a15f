/** How the relay's output depends on the way the client's bytes are cut into frames. */
module EdgeRelayProofs {
  import opened Bytes
  import opened EdgeRelay

  /* ---- valid headers ---- */

  /** A VLESS request header as a client writes it. */
  datatype Request = Request(version: byte, addon: seq<byte>, cmd: byte, port: u16, host: Host)

  predicate ValidHost(h: Host) {
    match h
    case V4(a) => |a| == 4
    case Name(n) => 1 <= |n| < 256
    case V6(a) => |a| == 16
  }

  predicate ValidRequest(r: Request) {
    |r.addon| < 256 && r.cmd in {1, 2} && ValidHost(r.host)
  }

  function AddressType(h: Host): byte {
    match h
    case V4(_) => 1
    case Name(_) => 2
    case V6(_) => 3
  }

  function AddressBytes(h: Host): seq<byte>
    requires ValidHost(h)
  {
    match h
    case V4(a) => a
    case Name(n) => [|n|] + n
    case V6(a) => a
  }

  /** Everything up to and including the address type. */
  function FrontBytes(r: Request, id: seq<byte>): seq<byte>
    requires ValidRequest(r) && |id| == 16
  {
    [r.version] + id + [|r.addon|] + r.addon + [r.cmd] + Be16(r.port) + [AddressType(r.host)]
  }

  function HeaderBytes(r: Request, id: seq<byte>): seq<byte>
    requires ValidRequest(r) && |id| == 16
  {
    FrontBytes(r, id) + AddressBytes(r.host)
  }

  lemma {:induction false} FrontFields(r: Request, id: seq<byte>, tail: seq<byte>)
    requires ValidRequest(r) && |id| == 16
    ensures var b, p := FrontBytes(r, id) + tail, 18 + |r.addon|;
      && |FrontBytes(r, id)| == p + 4
      && b[0] == r.version && b[1..17] == id && b[17] == |r.addon|
      && b[p] == r.cmd && U16At(b, p + 1) == r.port && b[p + 3] == AddressType(r.host)
      && b[p + 4..] == tail
  {
    var b, p := FrontBytes(r, id) + tail, 18 + |r.addon|;
    assert b[1..17] == id;
    assert b[p + 1] == Be16(r.port)[0] && b[p + 2] == Be16(r.port)[1];
    assert b[p + 4..] == tail;
  }

  /** A complete header is read back with whatever follows it. */
  lemma {:induction false} HeaderRoundTrip(r: Request, id: seq<byte>, body: seq<byte>)
    requires ValidRequest(r) && |id| == 16
    ensures ParsedHeader(HeaderBytes(r, id) + body, id) == Some(Header(r.version, r.cmd, r.port, r.host, body))
  {
    var tail := AddressBytes(r.host) + body;
    var b, q := FrontBytes(r, id) + tail, 22 + |r.addon|;
    FrontFields(r, id, tail);
    assert b == HeaderBytes(r, id) + body;
    assert forall i :: 0 <= i < |tail| ==> b[q + i] == tail[i];
    match r.host
    case V4(a) =>
      assert b[q..q + 4] == a && b[q + 4..] == body;
    case Name(n) =>
      assert b[q] == |n| && b[q + 1..q + 1 + |n|] == n && b[q + 1 + |n|..] == body;
    case V6(a) =>
      assert b[q..q + 16] == a && b[q + 16..] == body;
  }

  /** The one length at which an incomplete header parses: a domain address whose length byte is the
      next byte to come, behind an addon long enough that 24 bytes are already there. */
  predicate MisreadAt(r: Request, n: nat) {
    r.host.Name? && |r.addon| >= 2 && n == 22 + |r.addon|
  }

  lemma {:induction false} HeaderPrefix(r: Request, id: seq<byte>, p: seq<byte>)
    requires ValidRequest(r) && |id| == 16 && p <= HeaderBytes(r, id) && |p| < |HeaderBytes(r, id)|
    ensures ParsedHeader(p, id) ==
      if MisreadAt(r, |p|) then Some(Header(r.version, r.cmd, r.port, Name([]), p)) else None
  {
    var h, q := HeaderBytes(r, id), 22 + |r.addon|;
    FrontFields(r, id, AddressBytes(r.host));
    if |p| >= 24 {
      assert p[1..17] == h[1..17] && p[17] == h[17];
      if |p| >= q {
        assert p[q - 4] == h[q - 4] && p[q - 3] == h[q - 3] && p[q - 2] == h[q - 2] && p[q - 1] == h[q - 1];
        if |p| > q {
          assert p[q] == h[q] == AddressBytes(r.host)[0];
        }
      }
    }
  }

  /* ---- runs ---- */

  datatype Event = Data(chunk: seq<byte>) | Reply(chunk: seq<byte>, clientOpen: bool)

  function Step(w: World, s: Session, e: Event, id: seq<byte>): Session
    requires |id| == 16
  {
    match e
    case Data(chunk) => DataStep(w, s, chunk, id)
    case Reply(chunk, clientOpen) => ReplyStep(s, chunk, clientOpen)
  }

  function Run(w: World, s: Session, events: seq<Event>, id: seq<byte>): Session
    requires |id| == 16
    decreases |events|
  {
    if events == [] then s else Run(w, Step(w, s, events[0], id), events[1..], id)
  }

  /** The client's bytes in one event. */
  function SentBy(e: Event): seq<byte> {
    match e
    case Data(chunk) => chunk
    case Reply(_, _) => []
  }

  /** All bytes the client sends in a run. */
  function DataOf(events: seq<Event>): seq<byte> {
    if events == [] then [] else SentBy(events[0]) + DataOf(events[1..])
  }

  /** Some frame ends exactly `n` bytes into the stream, `have` of which came before these events. */
  predicate FrameEndsAt(events: seq<Event>, have: nat, n: nat) {
    events != [] &&
    if events[0].Data?
    then have + |events[0].chunk| == n || FrameEndsAt(events[1..], have + |events[0].chunk|, n)
    else FrameEndsAt(events[1..], have, n)
  }

  /** The cut that defeats the header parser. */
  predicate Misread(r: Request, events: seq<Event>, have: nat) {
    r.host.Name? && |r.addon| >= 2 && FrameEndsAt(events, have, 22 + |r.addon|)
  }

  lemma {:induction false} NoLaterEnd(events: seq<Event>, have: nat, n: nat)
    requires have > n
    ensures !FrameEndsAt(events, have, n)
  {
    if events != [] {
      NoLaterEnd(events[1..], if events[0].Data? then have + |events[0].chunk| else have, n);
    }
  }

  lemma {:induction false} Regroup<T>(a: seq<T>, b: seq<T>, c: seq<T>, ab: seq<T>)
    requires a + b == ab
    ensures a + (b + c) == ab + c
  {
  }

  /** A connected session and one more event. */
  lemma {:induction false} TcpStep(w: World, s: Session, e: Event, id: seq<byte>)
    requires |id| == 16 && s.stage == Tcp && s.dialled != []
    ensures var t := Step(w, s, e, id);
      && t.stage == Tcp && t.dialled == s.dialled
      && t.forwarded == s.forwarded + SentBy(e)
      && (e.Data? || e.clientOpen ==> t.closeAsked == s.closeAsked)
  {
    hide HeaderData, UdpData;
    assert e.Reply? ==> s.forwarded + [] == s.forwarded;
  }

  /** Once the destination is connected, every further byte goes to it and nothing else changes there. */
  lemma {:induction false} TcpRun(w: World, s: Session, events: seq<Event>, id: seq<byte>)
    requires |id| == 16 && s.stage == Tcp && s.dialled != []
    ensures var t := Run(w, s, events, id); t.dialled == s.dialled && t.forwarded == s.forwarded + DataOf(events)
    decreases |events|
  {
    hide Step;
    if events == [] {
      assert s.forwarded + [] == s.forwarded;
    } else {
      TcpStep(w, s, events[0], id);
      var t := Step(w, s, events[0], id);
      TcpRun(w, t, events[1..], id);
      Regroup(s.forwarded, SentBy(events[0]), DataOf(events[1..]), t.forwarded);
    }
  }

  /** A session still waiting for the header, with a proper prefix of it. */
  predicate Waiting(s: Session, r: Request, id: seq<byte>)
    requires ValidRequest(r) && |id| == 16
  {
    s.stage == Head && s.pending <= HeaderBytes(r, id) && |s.pending| < |HeaderBytes(r, id)|
    && s.dialled == [] && s.forwarded == [] && s.udpBuf == [] && s.queries == [] && !s.piping && !MisreadAt(r, |s.pending|)
  }

  lemma {:induction false} WaitingData(s: Session, chunk: seq<byte>, later: seq<byte>, r: Request, id: seq<byte>, body: seq<byte>)
    requires ValidRequest(r) && |id| == 16 && Waiting(s, r, id)
    requires s.pending + (chunk + later) == HeaderBytes(r, id) + body
    ensures var now := s.pending + chunk;
      && now + later == HeaderBytes(r, id) + body
      && (|now| >= |HeaderBytes(r, id)| ==>
            ParsedHeader(now, id) == Some(Header(r.version, r.cmd, r.port, r.host, now[|HeaderBytes(r, id)|..]))
            && now[|HeaderBytes(r, id)|..] + later == body)
      && (|now| < |HeaderBytes(r, id)| ==>
            now <= HeaderBytes(r, id)
            && ParsedHeader(now, id) == if MisreadAt(r, |now|) then Some(Header(r.version, r.cmd, r.port, Name([]), now)) else None)
  {
    var now, h := s.pending + chunk, HeaderBytes(r, id);
    assert now + later == s.pending + (chunk + later);
    TwoSplits(now, later, h, body);
    if |now| >= |h| {
      HeaderRoundTrip(r, id, now[|h|..]);
    } else {
      HeaderPrefix(r, id, now);
    }
  }

  /** One frame of a TCP request that is still waiting for its header. */
  lemma {:induction false} TcpFirstFrame(w: World, s: Session, chunk: seq<byte>, later: seq<byte>, r: Request, id: seq<byte>, body: seq<byte>)
    requires ValidRequest(r) && r.cmd == 1 && |id| == 16 && Waiting(s, r, id) && w.connects
    requires s.pending + (chunk + later) == HeaderBytes(r, id) + body
    ensures var t, now, h := DataStep(w, s, chunk, id), |s.pending| + |chunk|, HeaderBytes(r, id);
      if now >= |h| then t.stage == Tcp && t.dialled == [(r.host, r.port)] && t.forwarded + later == body
      else if MisreadAt(r, now) then t.stage == Tcp && t.dialled == [(Name([]), r.port)] && t.forwarded + later == h + body
      else Waiting(t, r, id) && t.pending == s.pending + chunk
  {
    hide ParsedHeader, HeaderBytes, UdpData;
    WaitingData(s, chunk, later, r, id, body);
    var h, now := HeaderBytes(r, id), s.pending + chunk;
    if |now| >= |h| {
      assert [] + now[|h|..] == now[|h|..];
    } else if MisreadAt(r, |now|) {
      assert [] + now == now;
    }
  }

  /** What TCP comes to when the cut does or does not defeat the parser. */
  predicate TcpOutcome(t: Session, misread: bool, r: Request, id: seq<byte>, body: seq<byte>)
    requires ValidRequest(r) && |id| == 16
  {
    if misread then t.dialled == [(Name([]), r.port)] && t.forwarded == HeaderBytes(r, id) + body
    else t.dialled == [(r.host, r.port)] && t.forwarded == body
  }

  /** TCP from any waiting session: where the relay dials and what it forwards. */
  lemma {:induction false} TcpFromWaiting(w: World, s: Session, events: seq<Event>, r: Request, id: seq<byte>, body: seq<byte>)
    requires ValidRequest(r) && r.cmd == 1 && |id| == 16 && Waiting(s, r, id) && w.connects
    requires s.pending + DataOf(events) == HeaderBytes(r, id) + body
    ensures TcpOutcome(Run(w, s, events, id), Misread(r, events, |s.pending|), r, id, body)
    decreases |events|, 0
  {
    hide DataStep, HeaderBytes, TcpOutcome;
    if events == [] {
    } else if events[0].Reply? {
      assert DataOf(events) == DataOf(events[1..]);
      TcpFromWaiting(w, s, events[1..], r, id, body);
    } else {
      TcpFromFrame(w, s, events[0].chunk, events[1..], r, id, body);
    }
  }

  lemma {:induction false} TcpFromFrame(w: World, s: Session, chunk: seq<byte>, rest: seq<Event>, r: Request, id: seq<byte>, body: seq<byte>)
    requires ValidRequest(r) && r.cmd == 1 && |id| == 16 && Waiting(s, r, id) && w.connects
    requires s.pending + (chunk + DataOf(rest)) == HeaderBytes(r, id) + body
    ensures var now := |s.pending| + |chunk|;
      TcpOutcome(Run(w, DataStep(w, s, chunk, id), rest, id), MisreadAt(r, now) || Misread(r, rest, now), r, id, body)
    decreases |rest|, 1
  {
    hide DataStep, HeaderBytes;
    var t, now := DataStep(w, s, chunk, id), |s.pending| + |chunk|;
    TcpFirstFrame(w, s, chunk, DataOf(rest), r, id, body);
    LaterThanMisread(r, id, rest, now);
    if now >= |HeaderBytes(r, id)| || MisreadAt(r, now) {
      TcpRun(w, t, rest, id);
    } else {
      assert s.pending + (chunk + DataOf(rest)) == t.pending + DataOf(rest);
      TcpFromWaiting(w, t, rest, r, id, body);
    }
  }

  lemma {:induction false} LaterThanMisread(r: Request, id: seq<byte>, events: seq<Event>, now: nat)
    requires ValidRequest(r) && |id| == 16
    ensures now >= |HeaderBytes(r, id)| ==> !MisreadAt(r, now) && !Misread(r, events, now)
  {
    FrontFields(r, id, AddressBytes(r.host));
    if now >= |HeaderBytes(r, id)| {
      NoLaterEnd(events, now, 22 + |r.addon|);
    }
  }

  /** TCP, for every valid request, every cut and any interleaving of replies: the relay dials the
      requested host and forwards exactly the bytes after the header, if and only if no frame ends just
      before the domain length behind an addon of two or more bytes. */
  lemma {:induction false} TcpExact(w: World, events: seq<Event>, r: Request, id: seq<byte>, body: seq<byte>)
    requires ValidRequest(r) && r.cmd == 1 && |id| == 16 && w.connects
    requires DataOf(events) == HeaderBytes(r, id) + body
    ensures var t := Run(w, FRESH, events, id);
      && (t.dialled == [(r.host, r.port)] && t.forwarded == body <==> !Misread(r, events, 0))
      && (Misread(r, events, 0) ==> t.dialled == [(Name([]), r.port)] && t.forwarded == DataOf(events))
  {
    FrontFields(r, id, AddressBytes(r.host));
    assert [] + DataOf(events) == DataOf(events);
    TcpFromWaiting(w, FRESH, events, r, id, body);
  }

  /* ---- giving up on a header ---- */

  /** Some frame ends at least `lo` and fewer than `hi` bytes into the stream. */
  predicate FrameEndsWithin(events: seq<Event>, have: nat, lo: nat, hi: nat) {
    events != [] &&
    if events[0].Data?
    then lo <= have + |events[0].chunk| < hi || FrameEndsWithin(events[1..], have + |events[0].chunk|, lo, hi)
    else FrameEndsWithin(events[1..], have, lo, hi)
  }

  predicate ClientStays(events: seq<Event>) {
    forall i :: 0 <= i < |events| ==> events[i].Data? || events[i].clientOpen
  }

  lemma {:induction false} NoneWithin(events: seq<Event>, have: nat, lo: nat, hi: nat)
    requires have >= hi
    ensures !FrameEndsWithin(events, have, lo, hi)
  {
    if events != [] {
      NoneWithin(events[1..], if events[0].Data? then have + |events[0].chunk| else have, lo, hi);
    }
  }

  /** A buffer that holds a whole frame at its front. */
  predicate Framed(b: seq<byte>) {
    |b| >= 2 && |b| >= 2 + U16At(b, 0)
  }

  /** Every query is answered and the client stays. */
  ghost predicate AlwaysAnswers(w: World) {
    forall n :: w.doh(n).Answered? && w.doh(n).clientOpen
  }

  /** A request the relay serves: TCP to a destination that accepts, or DNS with every query answered. */
  ghost predicate Served(w: World, r: Request) {
    if r.cmd == 1 then w.connects else r.port == 53 && AlwaysAnswers(w)
  }

  /** The header is behind this session, and nothing it still does asks for a close. */
  ghost predicate Settled(w: World, s: Session) {
    (s.stage == Tcp && s.dialled != []) || (s.stage == Udp && AlwaysAnswers(w))
  }

  lemma {:induction false} AnsweringAsks(w: World, s: Session)
    requires AlwaysAnswers(w)
    ensures Answering(w, s).closeAsked == s.closeAsked && Answering(w, s).stage == s.stage
    decreases |s.udpBuf|
  {
    if Framed(s.udpBuf) {
      var len := U16At(s.udpBuf, 0);
      var taken := s.(udpBuf := s.udpBuf[2 + len..], queries := s.queries + [s.udpBuf[2..2 + len]]);
      AnsweringAsks(w, Replied(taken, LengthPrefixed(w.doh(|s.queries|).body)));
    }
  }

  lemma {:induction false} SettledStep(w: World, s: Session, e: Event, id: seq<byte>)
    requires |id| == 16 && Settled(w, s) && (e.Data? || e.clientOpen)
    ensures Settled(w, Step(w, s, e, id)) && Step(w, s, e, id).closeAsked == s.closeAsked
  {
    hide HeaderData, Answering;
    if s.stage == Udp && e.Data? {
      AnsweringAsks(w, s.(udpBuf := s.udpBuf + e.chunk));
    }
  }

  lemma {:induction false} SettledStays(w: World, s: Session, events: seq<Event>, id: seq<byte>)
    requires |id| == 16 && Settled(w, s) && ClientStays(events)
    ensures Run(w, s, events, id).closeAsked == s.closeAsked
    decreases |events|
  {
    hide Step, Settled;
    if events != [] {
      SettledStep(w, s, events[0], id);
      SettledStays(w, Step(w, s, events[0], id), events[1..], id);
    }
  }

  /** A served request settles with its header, or with the misread one, and a frame that leaves it waiting asks for
      a close when it leaves more than 512 bytes. */
  lemma {:induction false} FrameCloses(w: World, s: Session, chunk: seq<byte>, later: seq<byte>, r: Request, id: seq<byte>, body: seq<byte>)
    requires ValidRequest(r) && |id| == 16 && Waiting(s, r, id) && Served(w, r)
    requires s.pending + (chunk + later) == HeaderBytes(r, id) + body
    ensures var t, now := DataStep(w, s, chunk, id), |s.pending| + |chunk|;
      if now >= |HeaderBytes(r, id)| || MisreadAt(r, now) then Settled(w, t) && t.closeAsked == s.closeAsked
      else Waiting(t, r, id) && t.pending == s.pending + chunk && t.closeAsked == (s.closeAsked || now > 512)
  {
    hide ParsedHeader, HeaderBytes, Answering;
    WaitingData(s, chunk, later, r, id, body);
    var now := s.pending + chunk;
    var h := ParsedHeader(now, id);
    if h.Some? && r.cmd == 2 {
      var u := s.(pending := now, responseHeader := Some([h.value.version, 0]), stage := Udp);
      AnsweringAsks(w, u.(udpBuf := u.udpBuf + h.value.rest));
    }
  }

  lemma {:induction false} CloseFromWaiting(w: World, s: Session, events: seq<Event>, r: Request, id: seq<byte>, body: seq<byte>)
    requires ValidRequest(r) && |id| == 16 && Waiting(s, r, id) && Served(w, r) && ClientStays(events)
    requires s.pending + DataOf(events) == HeaderBytes(r, id) + body
    ensures Run(w, s, events, id).closeAsked <==>
      (s.closeAsked || (!Misread(r, events, |s.pending|) && FrameEndsWithin(events, |s.pending|, 513, |HeaderBytes(r, id)|)))
    decreases |events|, 0
  {
    hide DataStep, HeaderBytes, Served;
    if events == [] {
    } else if events[0].Reply? {
      assert DataOf(events) == DataOf(events[1..]);
      CloseFromWaiting(w, s, events[1..], r, id, body);
    } else {
      CloseFromFrame(w, s, events[0].chunk, events[1..], r, id, body);
    }
  }

  lemma {:induction false} CloseFromFrame(w: World, s: Session, chunk: seq<byte>, rest: seq<Event>, r: Request, id: seq<byte>, body: seq<byte>)
    requires ValidRequest(r) && |id| == 16 && Waiting(s, r, id) && Served(w, r) && ClientStays(rest)
    requires s.pending + (chunk + DataOf(rest)) == HeaderBytes(r, id) + body
    ensures var now, h := |s.pending| + |chunk|, |HeaderBytes(r, id)|;
      Run(w, DataStep(w, s, chunk, id), rest, id).closeAsked <==>
        (s.closeAsked || (!(MisreadAt(r, now) || Misread(r, rest, now)) && (513 <= now < h || FrameEndsWithin(rest, now, 513, h))))
    decreases |rest|, 1
  {
    hide DataStep, HeaderBytes, Served, Settled;
    var t, now, h := DataStep(w, s, chunk, id), |s.pending| + |chunk|, |HeaderBytes(r, id)|;
    FrameCloses(w, s, chunk, DataOf(rest), r, id, body);
    LaterThanMisread(r, id, rest, now);
    if now >= h || MisreadAt(r, now) {
      SettledStays(w, t, rest, id);
      if now >= h {
        NoneWithin(rest, now, 513, h);
      }
    } else {
      assert s.pending + (chunk + DataOf(rest)) == t.pending + DataOf(rest);
      CloseFromWaiting(w, t, rest, r, id, body);
      if now > 512 {
        NoLaterEnd(rest, now, 22 + |r.addon|);
      }
    }
  }

  /** While client and destination stay, the relay asks to close a valid request exactly when the cut does not defeat
      the parser and some frame leaves it with more than 512 bytes and the header still incomplete; a header of at
      most 513 bytes never has it ask. */
  lemma {:induction false} LongHeaderCloses(w: World, events: seq<Event>, r: Request, id: seq<byte>, body: seq<byte>)
    requires ValidRequest(r) && |id| == 16 && Served(w, r) && ClientStays(events)
    requires DataOf(events) == HeaderBytes(r, id) + body
    ensures Run(w, FRESH, events, id).closeAsked <==>
      !Misread(r, events, 0) && FrameEndsWithin(events, 0, 513, |HeaderBytes(r, id)|)
    ensures |HeaderBytes(r, id)| <= 513 ==> !Run(w, FRESH, events, id).closeAsked
  {
    hide Served, Run;
    FrontFields(r, id, AddressBytes(r.host));
    assert [] + DataOf(events) == DataOf(events);
    CloseFromWaiting(w, FRESH, events, r, id, body);
    if |HeaderBytes(r, id)| <= 513 {
      EmptyWithin(events, 0, |HeaderBytes(r, id)|);
    }
  }

  lemma {:induction false} EmptyWithin(events: seq<Event>, have: nat, hi: nat)
    requires hi <= 513
    ensures !FrameEndsWithin(events, have, 513, hi)
  {
    if events != [] {
      EmptyWithin(events[1..], if events[0].Data? then have + |events[0].chunk| else have, hi);
    }
  }

  /* ---- DNS over UDP ---- */

  /** The queries in a byte string of [length][query] frames, and the incomplete frame at its end. */
  function Queries(b: seq<byte>): seq<seq<byte>>
    decreases |b|
  {
    if |b| < 2 || |b| < 2 + U16At(b, 0) then []
    else
      var len := U16At(b, 0);
      [b[2..2 + len]] + Queries(b[2 + len..])
  }

  function Unfinished(b: seq<byte>): seq<byte>
    decreases |b|
  {
    if |b| < 2 || |b| < 2 + U16At(b, 0) then b
    else
      var len := U16At(b, 0);
      Unfinished(b[2 + len..])
  }

  /** The frame at the front is not touched by what is appended. */
  lemma {:induction false} FrontKept(a: seq<byte>, b: seq<byte>)
    requires Framed(a)
    ensures Framed(a + b) && U16At(a + b, 0) == U16At(a, 0)
    ensures var end := 2 + U16At(a, 0); (a + b)[2..end] == a[2..end] && (a + b)[end..] == a[end..] + b
  {
    assert (a + b)[0] == a[0] && (a + b)[1] == a[1];
  }

  lemma {:induction false} OneFrame(b: seq<byte>)
    requires Framed(b)
    ensures var end := 2 + U16At(b, 0);
      Queries(b) == [b[2..end]] + Queries(b[end..]) && Unfinished(b) == Unfinished(b[end..])
  {
  }

  lemma {:induction false} QueriesAppend(a: seq<byte>, b: seq<byte>)
    ensures Queries(a + b) == Queries(a) + Queries(Unfinished(a) + b)
    ensures Unfinished(a + b) == Unfinished(Unfinished(a) + b)
    decreases |a|
  {
    if Framed(a) {
      hide Queries, Unfinished;
      var end := 2 + U16At(a, 0);
      FrontKept(a, b);
      OneFrame(a);
      OneFrame(a + b);
      QueriesAppend(a[end..], b);
      Regroup([a[2..end]], Queries(a[end..]), Queries(Unfinished(a) + b), Queries(a));
    } else {
      assert Queries(a) == [] && Unfinished(a) == a;
    }
  }

  /** What is taken out of the buffer is what is asked, whether or not the loop stops early. */
  lemma {:induction false} AnsweringKeepsQueries(w: World, s: Session)
    ensures var t := Answering(w, s);
      && t.queries + Queries(t.udpBuf) == s.queries + Queries(s.udpBuf)
      && Unfinished(t.udpBuf) == Unfinished(s.udpBuf)
      && t.stage == s.stage && t.dialled == s.dialled && t.forwarded == s.forwarded && t.piping == s.piping
      && (AlwaysAnswers(w) ==> Queries(t.udpBuf) == [] && t.closeAsked == s.closeAsked)
    decreases |s.udpBuf|
  {
    var b := s.udpBuf;
    if Framed(b) {
      hide Queries, Unfinished;
      var end := 2 + U16At(b, 0);
      var taken := s.(udpBuf := b[end..], queries := s.queries + [b[2..end]]);
      OneFrame(b);
      Regroup(s.queries, [b[2..end]], Queries(b[end..]), taken.queries);
      match w.doh(|s.queries|)
      case Unanswered =>
      case Answered(body, clientOpen) =>
        if clientOpen {
          AnsweringKeepsQueries(w, Replied(taken, LengthPrefixed(body)));
        }
    }
  }

  /** The queries asked so far and those still in the buffer are those of all the bytes fed in. */
  predicate FedWith(s: Session, fed: seq<byte>) {
    s.queries + Queries(s.udpBuf) == Queries(fed) && Unfinished(s.udpBuf) == Unfinished(fed)
  }

  lemma {:induction false} UdpFeed(w: World, s: Session, fed: seq<byte>, chunk: seq<byte>)
    requires FedWith(s, fed)
    ensures UdpOutcome(w, UdpData(w, s, chunk), fed + chunk)
    ensures UdpData(w, s, chunk).stage == s.stage
  {
    AnsweringKeepsQueries(w, s.(udpBuf := s.udpBuf + chunk));
    QueriesAppend(fed, chunk);
    QueriesAppend(s.udpBuf, chunk);
    Regroup(s.queries, Queries(s.udpBuf), Queries(Unfinished(fed) + chunk), Queries(fed));
  }

  lemma {:induction false} UdpRun(w: World, s: Session, events: seq<Event>, id: seq<byte>, fed: seq<byte>)
    requires |id| == 16 && s.stage == Udp && UdpOutcome(w, s, fed)
    ensures UdpOutcome(w, Run(w, s, events, id), fed + DataOf(events))
    decreases |events|
  {
    hide ParsedHeader, Answering, Queries, Unfinished;
    if events == [] {
      assert fed + [] == fed;
    } else {
      var t := Step(w, s, events[0], id);
      if events[0].Data? {
        UdpFeed(w, s, fed, events[0].chunk);
        UdpRun(w, t, events[1..], id, fed + events[0].chunk);
        assert (fed + events[0].chunk) + DataOf(events[1..]) == fed + DataOf(events);
      } else {
        UdpRun(w, t, events[1..], id, fed);
        assert DataOf(events) == DataOf(events[1..]);
      }
    }
  }

  /** One frame of a DNS request that is still waiting for its header; `first` is what reaches the unframer. */
  lemma {:induction false} UdpFirstFrame(w: World, s: Session, chunk: seq<byte>, later: seq<byte>, r: Request, id: seq<byte>, body: seq<byte>)
    returns (first: seq<byte>)
    requires ValidRequest(r) && r.cmd == 2 && r.port == 53 && |id| == 16 && Waiting(s, r, id)
    requires s.pending + (chunk + later) == HeaderBytes(r, id) + body
    ensures var t, now, h := DataStep(w, s, chunk, id), |s.pending| + |chunk|, HeaderBytes(r, id);
      if now >= |h| || MisreadAt(r, now) then
        t.stage == Udp && UdpOutcome(w, t, first) && first + later == Fed(now < |h|, r, id, body)
      else Waiting(t, r, id) && t.pending == s.pending + chunk
  {
    hide ParsedHeader;
    WaitingData(s, chunk, later, r, id, body);
    var h, now := HeaderBytes(r, id), s.pending + chunk;
    first := if |now| >= |h| then now[|h|..] else now;
    if |now| >= |h| || MisreadAt(r, |now|) {
      var u := s.(pending := now, responseHeader := Some([r.version, 0]), stage := Udp);
      assert DataStep(w, s, chunk, id) == UdpData(w, u, first);
      assert FedWith(u, []);
      UdpFeed(w, u, [], first);
      assert [] + first == first;
    }
  }

  ghost predicate UdpOutcome(w: World, t: Session, fed: seq<byte>) {
    FedWith(t, fed) && (AlwaysAnswers(w) ==> Queries(t.udpBuf) == [])
  }

  /** The bytes that reach the DNS unframer in all. */
  function Fed(misread: bool, r: Request, id: seq<byte>, body: seq<byte>): seq<byte>
    requires ValidRequest(r) && |id| == 16
  {
    if misread then HeaderBytes(r, id) + body else body
  }

  lemma {:induction false} UdpFromWaiting(w: World, s: Session, events: seq<Event>, r: Request, id: seq<byte>, body: seq<byte>)
    requires ValidRequest(r) && r.cmd == 2 && r.port == 53 && |id| == 16 && Waiting(s, r, id)
    requires s.pending + DataOf(events) == HeaderBytes(r, id) + body
    ensures UdpOutcome(w, Run(w, s, events, id), Fed(Misread(r, events, |s.pending|), r, id, body))
    decreases |events|, 0
  {
    hide DataStep, HeaderBytes, Queries, Unfinished;
    if events == [] {
    } else if events[0].Reply? {
      assert DataOf(events) == DataOf(events[1..]);
      UdpFromWaiting(w, s, events[1..], r, id, body);
    } else {
      UdpFromFrame(w, s, events[0].chunk, events[1..], r, id, body);
    }
  }

  lemma {:induction false} UdpFromFrame(w: World, s: Session, chunk: seq<byte>, rest: seq<Event>, r: Request, id: seq<byte>, body: seq<byte>)
    requires ValidRequest(r) && r.cmd == 2 && r.port == 53 && |id| == 16 && Waiting(s, r, id)
    requires s.pending + (chunk + DataOf(rest)) == HeaderBytes(r, id) + body
    ensures var now := |s.pending| + |chunk|;
      UdpOutcome(w, Run(w, DataStep(w, s, chunk, id), rest, id), Fed(MisreadAt(r, now) || Misread(r, rest, now), r, id, body))
    decreases |rest|, 1
  {
    hide DataStep, HeaderBytes, Queries, Unfinished;
    var t, now := DataStep(w, s, chunk, id), |s.pending| + |chunk|;
    var first := UdpFirstFrame(w, s, chunk, DataOf(rest), r, id, body);
    LaterThanMisread(r, id, rest, now);
    if now >= |HeaderBytes(r, id)| || MisreadAt(r, now) {
      UdpRun(w, t, rest, id, first);
    } else {
      assert s.pending + (chunk + DataOf(rest)) == t.pending + DataOf(rest);
      UdpFromWaiting(w, t, rest, r, id, body);
    }
  }

  /** DNS, for every valid request to port 53 and every cut: the queries asked, with those still
      buffered, are exactly the framed queries of the bytes after the header unless the cut defeats the
      parser, and then those of the whole stream. With every query answered nothing complete stays buffered. */
  lemma {:induction false} UdpExact(w: World, events: seq<Event>, r: Request, id: seq<byte>, body: seq<byte>)
    requires ValidRequest(r) && r.cmd == 2 && r.port == 53 && |id| == 16
    requires DataOf(events) == HeaderBytes(r, id) + body
    ensures var t := Run(w, FRESH, events, id);
      var fed := if Misread(r, events, 0) then DataOf(events) else body;
      && t.queries + Queries(t.udpBuf) == Queries(fed)
      && (AlwaysAnswers(w) ==> t.queries == Queries(fed) && t.udpBuf == Unfinished(fed))
  {
    FrontFields(r, id, AddressBytes(r.host));
    assert [] + DataOf(events) == DataOf(events);
    UdpFromWaiting(w, FRESH, events, r, id, body);
    var t := Run(w, FRESH, events, id);
    if AlwaysAnswers(w) {
      DrainedIsUnfinished(t.udpBuf);
      assert t.queries + [] == t.queries;
    }
  }

  lemma {:induction false} DrainedIsUnfinished(b: seq<byte>)
    requires Queries(b) == []
    ensures Unfinished(b) == b
  {
  }

  /* ---- the exceptional cuts, for every request that has one ---- */

  /** Two frames, the first of `n` bytes. */
  function CutAt(stream: seq<byte>, n: nat): seq<Event>
    requires n <= |stream|
  {
    [Data(stream[..n]), Data(stream[n..])]
  }

  lemma {:induction false} CutIsWhole(stream: seq<byte>, n: nat, m: nat, hi: nat)
    requires n <= |stream| && m != |stream|
    ensures DataOf(CutAt(stream, n)) == stream && ClientStays(CutAt(stream, n))
    ensures FrameEndsAt(CutAt(stream, n), 0, m) <==> m == n
    ensures n < hi ==> FrameEndsWithin(CutAt(stream, n), 0, n, hi)
  {
    var events := CutAt(stream, n);
    var last := events[1..];
    assert events[0] == Data(stream[..n]) && last == [Data(stream[n..])] && last[1..] == [];
    assert DataOf(last) == stream[n..] + DataOf(last[1..]) == stream[n..] + [];
    assert stream[..n] + stream[n..] == stream;
    assert !FrameEndsAt(last[1..], |stream|, m);
    assert FrameEndsAt(last, n, m) <==> |stream| == m;
  }

  /** Every request by name with two or more addon bytes has a cut that defeats the parser: TCP dials an empty name
      and forwards the header along with the body, DNS looks for queries in the header too. */
  lemma {:induction false} NameCutOff(w: World, r: Request, id: seq<byte>, body: seq<byte>)
    requires ValidRequest(r) && |id| == 16 && Served(w, r) && r.host.Name? && |r.addon| >= 2
    ensures var stream, n := HeaderBytes(r, id) + body, 22 + |r.addon|;
      && n < |stream|
      && var t := Run(w, FRESH, CutAt(stream, n), id);
        if r.cmd == 1 then t.dialled == [(Name([]), r.port)] && t.forwarded == stream
        else t.queries == Queries(stream) && t.udpBuf == Unfinished(stream)
  {
    hide Run, Queries, Unfinished;
    var stream, n := HeaderBytes(r, id) + body, 22 + |r.addon|;
    FrontFields(r, id, AddressBytes(r.host));
    CutIsWhole(stream, n, n, n);
    if r.cmd == 1 {
      TcpExact(w, CutAt(stream, n), r, id, body);
    } else {
      UdpExact(w, CutAt(stream, n), r, id, body);
    }
  }

  /** Every header of more than 513 bytes has a cut on which the relay gives up, and there are such headers. */
  lemma {:induction false} LongHeaderCut(w: World, r: Request, id: seq<byte>, body: seq<byte>)
    requires ValidRequest(r) && |id| == 16 && Served(w, r) && |HeaderBytes(r, id)| > 513
    ensures Run(w, FRESH, CutAt(HeaderBytes(r, id) + body, 513), id).closeAsked
  {
    hide Run, Served;
    var stream := HeaderBytes(r, id) + body;
    FrontFields(r, id, AddressBytes(r.host));
    CutIsWhole(stream, 513, 22 + |r.addon|, |HeaderBytes(r, id)|);
    LongHeaderCloses(w, CutAt(stream, 513), r, id, body);
  }

  lemma {:induction false} LongestHeader(r: Request, id: seq<byte>)
    requires ValidRequest(r) && |id| == 16
    ensures |HeaderBytes(r, id)| <= 533
    ensures |HeaderBytes(r, id)| == 533 <==> |r.addon| == 255 && r.host.Name? && |r.host.bytes| == 255
  {
    FrontFields(r, id, AddressBytes(r.host));
  }

  /* ---- the response header ---- */

  /** One reply sent per payload, in order, with [version, 0] in front of the first and only the first. */
  predicate HeaderOnce(s: Session, stream: seq<byte>) {
    && |s.sent| == |s.replies|
    && (s.responseHeader.Some? ==> stream != [] && s.responseHeader.value == [stream[0], 0] && s.replies == [])
    && (s.responseHeader.None? && s.replies == [] ==> s.stage == Head || !s.piping)
    && (s.stage == Head ==> s.pending == stream && s.replies == [] && !s.piping && s.udpBuf == [])
    && (s.stage == Udp ==> s.responseHeader.Some? || s.replies != [])
    && (s.replies != [] ==> stream != [] && s.sent[0] == [stream[0], 0] + s.replies[0])
    && (forall i :: 1 <= i < |s.sent| ==> s.sent[i] == s.replies[i])
  }

  lemma {:induction false} RepliedOnce(s: Session, payload: seq<byte>, stream: seq<byte>)
    requires HeaderOnce(s, stream) && s.stage != Head && (s.piping || s.stage == Udp)
    ensures HeaderOnce(Replied(s, payload), stream)
  {
  }

  lemma {:induction false} AnsweringOnce(w: World, s: Session, stream: seq<byte>)
    requires HeaderOnce(s, stream) && s.stage == Udp
    ensures HeaderOnce(Answering(w, s), stream)
    decreases |s.udpBuf|
  {
    var b := s.udpBuf;
    if |b| < 2 || |b| < 2 + U16At(b, 0) {
    } else {
      var len := U16At(b, 0);
      var taken := s.(udpBuf := b[2 + len..], queries := s.queries + [b[2..2 + len]]);
      assert HeaderOnce(taken, stream);
      match w.doh(|s.queries|)
      case Unanswered =>
      case Answered(body, clientOpen) =>
        if clientOpen {
          RepliedOnce(taken, LengthPrefixed(body), stream);
          AnsweringOnce(w, Replied(taken, LengthPrefixed(body)), stream);
        }
    }
  }

  lemma {:induction false} HeadOnce(w: World, s: Session, chunk: seq<byte>, id: seq<byte>)
    requires |id| == 16 && s.stage == Head && HeaderOnce(s, s.pending)
    ensures HeaderOnce(HeaderData(w, s, chunk, id), s.pending + chunk)
  {
    hide ParsedHeader, Answering;
    var longer := s.pending + chunk;
    var h := ParsedHeader(longer, id);
    if h.Some? {
      ParsedNotEmpty(longer, id);
      if h.value.cmd == 2 && h.value.port == 53 {
        var u := s.(pending := longer, responseHeader := Some([h.value.version, 0]), stage := Udp, udpBuf := [] + h.value.rest);
        AnsweringOnce(w, u, longer);
      }
    }
  }

  lemma {:induction false} ParsedNotEmpty(buf: seq<byte>, id: seq<byte>)
    requires |id| == 16 && ParsedHeader(buf, id).Some?
    ensures buf != [] && ParsedHeader(buf, id).value.version == buf[0]
  {
  }

  /** Bytes that come after the header leave the promise as it is. */
  lemma {:induction false} LaterBytes(s: Session, stream: seq<byte>, chunk: seq<byte>)
    requires HeaderOnce(s, stream) && s.stage != Head
    ensures HeaderOnce(s, stream + chunk)
  {
  }

  lemma {:induction false} StepOnce(w: World, s: Session, e: Event, id: seq<byte>, stream: seq<byte>)
    requires |id| == 16 && HeaderOnce(s, stream)
    ensures HeaderOnce(Step(w, s, e, id), stream + SentBy(e))
  {
    hide HeaderData, Answering, Replied;
    match e
    case Reply(chunk, clientOpen) =>
      assert stream + [] == stream;
      if s.piping && clientOpen {
        RepliedOnce(s, chunk, stream);
      }
    case Data(chunk) =>
      match s.stage
      case Tcp =>
        LaterBytes(s, stream, chunk);
      case Udp =>
        LaterBytes(s, stream, chunk);
        AnsweringOnce(w, s.(udpBuf := s.udpBuf + chunk), stream + chunk);
      case Head =>
        HeadOnce(w, s, chunk, id);
  }

  lemma {:induction false} RunOnce(w: World, s: Session, events: seq<Event>, id: seq<byte>, stream: seq<byte>)
    requires |id| == 16 && HeaderOnce(s, stream)
    ensures HeaderOnce(Run(w, s, events, id), stream + DataOf(events))
    decreases |events|
  {
    if events == [] {
      assert stream + [] == stream;
    } else {
      hide Step, HeaderOnce;
      StepOnce(w, s, events[0], id, stream);
      RunOnce(w, Step(w, s, events[0], id), events[1..], id, stream + SentBy(events[0]));
      Regroup(stream, SentBy(events[0]), DataOf(events[1..]), stream + SentBy(events[0]));
    }
  }

  /** Over every run of a fresh session, whatever the client sends: replies go out one by one and in
      order, the two-byte response header before the first of them and nowhere else. */
  lemma {:induction false} ResponseHeaderOnce(w: World, events: seq<Event>, id: seq<byte>)
    requires |id| == 16
    ensures var t := Run(w, FRESH, events, id);
      && |t.sent| == |t.replies|
      && (t.sent != [] ==> DataOf(events) != [] && t.sent[0] == [DataOf(events)[0], 0] + t.replies[0])
      && (forall i :: 1 <= i < |t.sent| ==> t.sent[i] == t.replies[i])
  {
    RunOnce(w, FRESH, events, id, []);
    assert [] + DataOf(events) == DataOf(events);
  }
}

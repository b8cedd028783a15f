/** What the relay answers: DNS bodies in frames of their own length, chunks of the destination as they came; which headers it
    reads at all; and what it does for a request it does not serve. */
module EdgeReplies {
  import opened Bytes
  import opened EdgeRelay
  import opened EdgeRelayProofs

  /* ---- DNS answers ---- */

  predicate Heard(reply: DohReply) {
    reply.Answered? && reply.clientOpen
  }

  /** What the first `n` queries were answered with, while the client was there to be told. */
  function Bodies(w: World, n: nat): seq<seq<byte>> {
    if n == 0 then []
    else Bodies(w, n - 1) + if Heard(w.doh(n - 1)) then [w.doh(n - 1).body] else []
  }

  ghost predicate SmallBodies(w: World) {
    forall n :: w.doh(n).Answered? ==> |w.doh(n).body| < 0x1_0000
  }

  lemma {:induction false} FrameReads(body: seq<byte>)
    requires |body| < 0x1_0000
    ensures Queries(LengthPrefixed(body)) == [body] && Unfinished(LengthPrefixed(body)) == []
  {
    var b := LengthPrefixed(body);
    assert U16At(b, 0) == |body| && b[2..2 + |body|] == body && b[2 + |body|..] == [];
    OneFrame(b);
    assert Queries([]) == [] && Unfinished([]) == [] && [body] + [] == [body];
  }

  /** The replies so far unframe to the bodies so far, with nothing over. */
  ghost predicate Framed(w: World, s: Session) {
    Queries(Concat(s.replies)) == Bodies(w, |s.queries|) && Unfinished(Concat(s.replies)) == []
  }

  lemma {:induction false} OneMoreFrame(replies: seq<seq<byte>>, body: seq<byte>)
    requires |body| < 0x1_0000 && Unfinished(Concat(replies)) == []
    ensures Queries(Concat(replies + [LengthPrefixed(body)])) == Queries(Concat(replies)) + [body]
    ensures Unfinished(Concat(replies + [LengthPrefixed(body)])) == []
  {
    var b := LengthPrefixed(body);
    FrameReads(body);
    hide Queries, Unfinished, LengthPrefixed;
    ConcatSnoc(replies, b);
    QueriesAppend(Concat(replies), b);
    assert [] + b == b;
  }

  /** One more query, answered in a frame of its own or not heard. */
  lemma {:induction false} FramedNext(w: World, s: Session, query: seq<byte>, rest: seq<byte>)
    requires Framed(w, s) && SmallBodies(w)
    ensures var taken, reply := s.(udpBuf := rest, queries := s.queries + [query]), w.doh(|s.queries|);
      Framed(w, if Heard(reply) then Replied(taken, LengthPrefixed(reply.body)) else taken.(closeAsked := taken.closeAsked || reply.Unanswered?))
  {
    hide Queries, Unfinished, LengthPrefixed, Concat;
    var reply := w.doh(|s.queries|);
    if Heard(reply) {
      OneMoreFrame(s.replies, reply.body);
    } else {
      assert Bodies(w, |s.queries|) + [] == Bodies(w, |s.queries|);
    }
  }

  lemma {:induction false} AnsweringFrames(w: World, s: Session)
    requires Framed(w, s) && SmallBodies(w)
    ensures Framed(w, Answering(w, s)) && Answering(w, s).stage == s.stage && Answering(w, s).piping == s.piping
    decreases |s.udpBuf|
  {
    hide Framed, Answering, LengthPrefixed, SmallBodies, Bodies;
    if EdgeRelayProofs.Framed(s.udpBuf) {
      AnswerNext(w, s);
      var len := U16At(s.udpBuf, 0);
      var query, rest := s.udpBuf[2..2 + len], s.udpBuf[2 + len..];
      FramedNext(w, s, query, rest);
      var reply := w.doh(|s.queries|);
      if Heard(reply) {
        AnsweringFrames(w, Replied(s.(udpBuf := rest, queries := s.queries + [query]), LengthPrefixed(reply.body)));
      } else {
        assert s.closeAsked == (s.closeAsked || false);
      }
    } else {
      AnswerNone(w, s);
    }
  }

  /** A session that is not a TCP one has told the client just the bodies. */
  ghost predicate DnsTold(w: World, s: Session) {
    && (s.stage == Head ==> s.queries == [] && s.replies == [])
    && (s.stage != Tcp ==> !s.piping && Framed(w, s))
  }

  lemma {:induction false} NothingFramed(w: World, s: Session)
    requires s.queries == [] && s.replies == []
    ensures Framed(w, s)
  {
  }

  lemma {:induction false} HeaderTold(w: World, s: Session, chunk: seq<byte>, id: seq<byte>)
    requires |id| == 16 && s.stage == Head && DnsTold(w, s) && SmallBodies(w)
    ensures DnsTold(w, HeaderData(w, s, chunk, id))
  {
    hide ParsedHeader, Answering, Framed;
    var pending := s.pending + chunk;
    NothingFramed(w, HeaderData(w, s, chunk, id).(queries := [], replies := []));
    var h := ParsedHeader(pending, id);
    if h.Some? && h.value.cmd == 2 && h.value.port == 53 {
      var u := s.(pending := pending, responseHeader := Some([h.value.version, 0]), stage := Udp, udpBuf := s.udpBuf + h.value.rest);
      NothingFramed(w, u);
      AnsweringFrames(w, u);
    } else {
      NothingFramed(w, HeaderData(w, s, chunk, id));
    }
  }

  lemma {:induction false} StepTold(w: World, s: Session, e: Event, id: seq<byte>)
    requires |id| == 16 && DnsTold(w, s) && SmallBodies(w)
    ensures DnsTold(w, Step(w, s, e, id))
  {
    hide HeaderData, Answering, Replied;
    if e.Data? {
      if s.stage == Head {
        HeaderTold(w, s, e.chunk, id);
      } else if s.stage == Udp {
        var u := s.(udpBuf := s.udpBuf + e.chunk);
        assert Framed(w, u);
        hide Framed;
        AnsweringFrames(w, u);
      }
    } else {
      ReplyKeepsStage(s, e.chunk, e.clientOpen);
      hide ReplyStep;
    }
  }

  lemma {:induction false} ReplyKeepsStage(s: Session, chunk: seq<byte>, clientOpen: bool)
    ensures ReplyStep(s, chunk, clientOpen).stage == s.stage
    ensures !s.piping ==> ReplyStep(s, chunk, clientOpen) == s
  {
  }

  lemma {:induction false} RunTold(w: World, s: Session, events: seq<Event>, id: seq<byte>)
    requires |id| == 16 && DnsTold(w, s) && SmallBodies(w)
    ensures DnsTold(w, Run(w, s, events, id))
    decreases |events|
  {
    hide Step, DnsTold;
    if events != [] {
      StepTold(w, s, events[0], id);
      RunTold(w, Step(w, s, events[0], id), events[1..], id);
    }
  }

  lemma {:induction false} FirstTold(w: World)
    ensures DnsTold(w, FRESH)
  {
    NothingFramed(w, FRESH);
  }

  /** A DNS request stays one. */
  lemma {:induction false} StaysDns(w: World, s: Session, events: seq<Event>, id: seq<byte>)
    requires |id| == 16 && s.stage == Udp
    ensures Run(w, s, events, id).stage == Udp
    decreases |events|
  {
    if events != [] {
      if events[0].Data? {
        AnsweringKeepsQueries(w, s.(udpBuf := s.udpBuf + events[0].chunk));
      }
      hide HeaderData, Answering;
      StaysDns(w, Step(w, s, events[0], id), events[1..], id);
    }
  }

  lemma {:induction false} BecomesDns(w: World, s: Session, events: seq<Event>, r: Request, id: seq<byte>, body: seq<byte>)
    requires ValidRequest(r) && r.cmd == 2 && r.port == 53 && |id| == 16 && Waiting(s, r, id)
    requires s.pending + DataOf(events) == HeaderBytes(r, id) + body
    ensures Run(w, s, events, id).stage == Udp
    decreases |events|
  {
    hide DataStep, HeaderBytes, Queries, Unfinished, UdpOutcome;
    if events != [] {
      var e, rest := events[0], events[1..];
      if e.Reply? {
        assert DataOf(events) == DataOf(rest);
        BecomesDns(w, s, rest, r, id, body);
      } else {
        var t := DataStep(w, s, e.chunk, id);
        var first := UdpFirstFrame(w, s, e.chunk, DataOf(rest), r, id, body);
        if t.stage == Udp {
          StaysDns(w, t, rest, id);
        } else {
          assert s.pending + (e.chunk + DataOf(rest)) == t.pending + DataOf(rest);
          BecomesDns(w, t, rest, r, id, body);
        }
      }
    }
  }

  /** A DNS client reads, in frames whose length is their own, what the resolver said to its queries, one after the other,
      and nothing else: everything that was said while it was there, and all of it when every query is answered. */
  lemma {:induction false} DnsReplies(w: World, events: seq<Event>, r: Request, id: seq<byte>, body: seq<byte>)
    requires ValidRequest(r) && r.cmd == 2 && r.port == 53 && |id| == 16 && SmallBodies(w)
    requires DataOf(events) == HeaderBytes(r, id) + body
    ensures var t := Run(w, FRESH, events, id);
      && Queries(Concat(t.replies)) == Bodies(w, |t.queries|) && Unfinished(Concat(t.replies)) == []
      && (AlwaysAnswers(w) ==>
            (|Bodies(w, |t.queries|)| == |t.queries| && forall n :: 0 <= n < |t.queries| ==> Bodies(w, |t.queries|)[n] == w.doh(n).body))
  {
    FirstTold(w);
    RunTold(w, FRESH, events, id);
    FrontFields(r, id, AddressBytes(r.host));
    assert [] + DataOf(events) == DataOf(events);
    BecomesDns(w, FRESH, events, r, id, body);
    hide Run, Queries, Unfinished, Concat, HeaderBytes;
    if AlwaysAnswers(w) {
      AllBodies(w, |Run(w, FRESH, events, id).queries|);
    }
  }

  lemma {:induction false} AllBodies(w: World, n: nat)
    requires AlwaysAnswers(w)
    ensures |Bodies(w, n)| == n && forall k :: 0 <= k < n ==> Bodies(w, n)[k] == w.doh(k).body
  {
    if n > 0 {
      AllBodies(w, n - 1);
    }
  }

  /** `t` is `s` after `n` more queries, the last of which ended the loop unless none was left. */
  predicate Stops(w: World, s: Session, t: Session, n: nat) {
    && |t.queries| == |s.queries| + n
    && (forall k :: |s.queries| <= k < |t.queries| - 1 ==> Heard(w.doh(k)))
    && t.udpBuf == AfterQueries(s.udpBuf, n)
    && (Queries(t.udpBuf) == [] || (n > 0 && !Heard(w.doh(|t.queries| - 1))))
    && (t.closeAsked <==> s.closeAsked || (n > 0 && w.doh(|t.queries| - 1).Unanswered?))
  }

  lemma {:induction false} StopsNext(w: World, s: Session, u: Session, t: Session, n: nat)
    requires EdgeRelayProofs.Framed(s.udpBuf) && u.udpBuf == s.udpBuf[2 + U16At(s.udpBuf, 0)..]
    requires |u.queries| == |s.queries| + 1 && Heard(w.doh(|s.queries|)) && u.closeAsked == s.closeAsked && Stops(w, u, t, n)
    ensures Stops(w, s, t, n + 1)
  {
    hide Queries;
  }

  lemma {:induction false} StopsHere(w: World, s: Session, t: Session)
    requires EdgeRelayProofs.Framed(s.udpBuf) && t.udpBuf == s.udpBuf[2 + U16At(s.udpBuf, 0)..]
    requires |t.queries| == |s.queries| + 1 && !Heard(w.doh(|s.queries|))
    requires t.closeAsked <==> s.closeAsked || w.doh(|s.queries|).Unanswered?
    ensures Stops(w, s, t, 1)
  {
    hide Queries;
    var rest := s.udpBuf[2 + U16At(s.udpBuf, 0)..];
    assert AfterQueries(rest, 0) == rest;
  }

  lemma {:induction false} RepliedFields(s: Session, payload: seq<byte>)
    ensures var t := Replied(s, payload); t.udpBuf == s.udpBuf && t.queries == s.queries && t.closeAsked == s.closeAsked
  {
  }

  /** A session that has taken its next query from the buffer. */
  function NextTaken(s: Session): Session
    requires EdgeRelayProofs.Framed(s.udpBuf)
  {
    var len := U16At(s.udpBuf, 0);
    s.(udpBuf := s.udpBuf[2 + len..], queries := s.queries + [s.udpBuf[2..2 + len]])
  }

  lemma {:induction false} AnswerTaken(w: World, s: Session)
    requires EdgeRelayProofs.Framed(s.udpBuf)
    ensures Answering(w, s) ==
      match w.doh(|s.queries|)
      case Unanswered => NextTaken(s).(closeAsked := true)
      case Answered(body, clientOpen) => if clientOpen then Answering(w, Replied(NextTaken(s), LengthPrefixed(body))) else NextTaken(s)
  {
    AnswerNext(w, s);
    hide Answering, LengthPrefixed, Replied;
  }

  /** One query that was heard, or not. */
  lemma {:induction false} OneAnswer(w: World, s: Session) returns (u: Session)
    requires EdgeRelayProofs.Framed(s.udpBuf)
    ensures u.udpBuf == s.udpBuf[2 + U16At(s.udpBuf, 0)..] && |u.queries| == |s.queries| + 1
    ensures if Heard(w.doh(|s.queries|)) then u.closeAsked == s.closeAsked && Answering(w, s) == Answering(w, u)
            else Answering(w, s) == u && (u.closeAsked <==> s.closeAsked || w.doh(|s.queries|).Unanswered?)
  {
    AnswerTaken(w, s);
    hide Answering, LengthPrefixed, Replied;
    var reply := w.doh(|s.queries|);
    if Heard(reply) {
      u := Replied(NextTaken(s), LengthPrefixed(reply.body));
      RepliedFields(NextTaken(s), LengthPrefixed(reply.body));
    } else {
      u := Answering(w, s);
    }
  }

  /** The loop over one chunk asks every complete query until one is not answered, or answered to nobody; only the former
      asks for a close. */
  lemma {:induction false} AnsweringStops(w: World, s: Session) returns (n: nat)
    ensures Stops(w, s, Answering(w, s), n)
    decreases |s.udpBuf|
  {
    if EdgeRelayProofs.Framed(s.udpBuf) {
      var u := OneAnswer(w, s);
      hide *;
      if Heard(w.doh(|s.queries|)) {
        n := AnsweringStops(w, u);
        StopsNext(w, s, u, Answering(w, s), n);
        n := n + 1;
      } else {
        n := 1;
        StopsHere(w, s, u);
      }
    } else {
      AnswerNone(w, s);
      hide Answering;
      n := 0;
    }
  }

  /** What is left of a buffer after its first `n` frames. */
  function AfterQueries(b: seq<byte>, n: nat): seq<byte> {
    if n == 0 || !EdgeRelayProofs.Framed(b) then b else AfterQueries(b[2 + U16At(b, 0)..], n - 1)
  }

  /* ---- chunks of the destination ---- */

  /** The relay has dialled once this many bytes of a TCP request have come at the end of a frame. */
  predicate DialsAt(r: Request, id: seq<byte>, n: nat)
    requires ValidRequest(r) && |id| == 16
  {
    n >= |HeaderBytes(r, id)| || MisreadAt(r, n)
  }

  /** The chunks of the destination that come after the dial and while the client is there, `have` being the bytes of the
      request so far. */
  function Relayed(r: Request, id: seq<byte>, events: seq<Event>, have: nat, dialled: bool): seq<seq<byte>>
    requires ValidRequest(r) && |id| == 16
  {
    if events == [] then []
    else
      match events[0]
      case Data(chunk) => Relayed(r, id, events[1..], have + |chunk|, dialled || DialsAt(r, id, have + |chunk|))
      case Reply(chunk, clientOpen) =>
        if !dialled then Relayed(r, id, events[1..], have, false)
        else if clientOpen then [chunk] + Relayed(r, id, events[1..], have, true)
        else []
  }

  lemma {:induction false} AfterDial(w: World, s: Session, events: seq<Event>, r: Request, id: seq<byte>, have: nat)
    requires ValidRequest(r) && |id| == 16 && s.stage == Tcp && s.dialled != []
    ensures Run(w, s, events, id).replies == s.replies + if s.piping then Relayed(r, id, events, have, true) else []
    decreases |events|
  {
    hide HeaderData, UdpData, HeaderBytes;
    if events == [] {
      assert s.replies + [] == s.replies;
    } else {
      var t, e := Step(w, s, events[0], id), events[0];
      AfterDial(w, t, events[1..], r, id, have + if e.Data? then |e.chunk| else 0);
      if e.Reply? && s.piping && e.clientOpen {
        assert (s.replies + [e.chunk]) + Relayed(r, id, events[1..], have, true) == s.replies + Relayed(r, id, events, have, true);
      }
    }
  }

  lemma {:induction false} DialKeeps(w: World, s: Session, chunk: seq<byte>, r: Request, id: seq<byte>, body: seq<byte>, later: seq<byte>)
    requires ValidRequest(r) && r.cmd == 1 && |id| == 16 && Waiting(s, r, id) && w.connects
    requires s.pending + (chunk + later) == HeaderBytes(r, id) + body
    ensures var t, now := DataStep(w, s, chunk, id), |s.pending| + |chunk|;
      && t.replies == s.replies
      && (DialsAt(r, id, now) ==> t.stage == Tcp && t.dialled != [] && t.piping)
      && (!DialsAt(r, id, now) ==> Waiting(t, r, id) && t.pending == s.pending + chunk)
  {
    hide ParsedHeader, HeaderBytes, UdpData;
    WaitingData(s, chunk, later, r, id, body);
  }

  lemma {:induction false} TcpRepliesFrom(w: World, s: Session, events: seq<Event>, r: Request, id: seq<byte>, body: seq<byte>)
    requires ValidRequest(r) && r.cmd == 1 && |id| == 16 && Waiting(s, r, id) && w.connects
    requires s.pending + DataOf(events) == HeaderBytes(r, id) + body
    ensures Run(w, s, events, id).replies == s.replies + Relayed(r, id, events, |s.pending|, false)
    decreases |events|
  {
    hide DataStep, HeaderBytes, DialsAt;
    if events != [] {
      var e, rest := events[0], events[1..];
      if e.Reply? {
        assert DataOf(events) == DataOf(rest);
        TcpRepliesFrom(w, s, rest, r, id, body);
      } else {
        var t, now := DataStep(w, s, e.chunk, id), |s.pending| + |e.chunk|;
        DialKeeps(w, s, e.chunk, r, id, body, DataOf(rest));
        if DialsAt(r, id, now) {
          AfterDial(w, t, rest, r, id, now);
        } else {
          assert s.pending + (e.chunk + DataOf(rest)) == t.pending + DataOf(rest);
          TcpRepliesFrom(w, t, rest, r, id, body);
        }
      }
    }
  }

  /** A TCP client is sent the chunks of the destination that come after the dial, in order, until it is gone. */
  lemma {:induction false} TcpReplies(w: World, events: seq<Event>, r: Request, id: seq<byte>, body: seq<byte>)
    requires ValidRequest(r) && r.cmd == 1 && |id| == 16 && w.connects
    requires DataOf(events) == HeaderBytes(r, id) + body
    ensures Run(w, FRESH, events, id).replies == Relayed(r, id, events, 0, false)
  {
    FrontFields(r, id, AddressBytes(r.host));
    assert [] + DataOf(events) == DataOf(events);
    hide Run, HeaderBytes, Relayed, DataOf;
    TcpRepliesFrom(w, FRESH, events, r, id, body);
    assert [] + Relayed(r, id, events, 0, false) == Relayed(r, id, events, 0, false);
  }

  /* ---- which headers are read ---- */

  /** What these bytes have at the places where a header has its fields. The second case of a name is the one read past the
      end: no length byte, an empty name, and all of the bytes left over. */
  predicate HasFields(b: seq<byte>, id: seq<byte>, h: Header) {
    && |b| >= 24 && b[1..17] == id && h.version == b[0]
    && var addon: int := b[17];
    && var p := 18 + addon;
    && |b| >= p + 4 && h.cmd == b[p] && (h.cmd == 1 || h.cmd == 2)
    && var hi: int, lo: int := b[p + 1], b[p + 2];
    && h.port == 256 * hi + lo
    && match h.host
       case V4(a) => b[p + 3] == 1 && |a| == 4 && b[p + 4..] == a + h.rest
       case Name(n) =>
         b[p + 3] == 2 && if |b| == p + 4 then n == [] && h.rest == b else |n| == b[p + 4] && b[p + 5..] == n + h.rest
       case V6(a) => b[p + 3] == 3 && |a| == 16 && b[p + 4..] == a + h.rest
  }

  lemma {:induction false} CutAt<T>(s: seq<T>, n: nat, a: seq<T>, rest: seq<T>)
    ensures |a| == n && s == a + rest <==> n <= |s| && a == s[..n] && rest == s[n..]
  {
  }

  lemma {:induction false} AddressReads(b: seq<byte>, q: nat, host: Host, rest: seq<byte>)
    requires 0 < q <= |b|
    ensures Address(b, b[q - 1], q) == Some((host, rest)) <==>
      match host
      case V4(a) => b[q - 1] == 1 && |a| == 4 && b[q..] == a + rest
      case Name(n) => b[q - 1] == 2 && if |b| == q then n == [] && rest == b else |n| == b[q] && b[q + 1..] == n + rest
      case V6(a) => b[q - 1] == 3 && |a| == 16 && b[q..] == a + rest
  {
    match host
    case V4(a) =>
      CutAt(b[q..], 4, a, rest);
      assert |b| >= q + 4 ==> b[q..][..4] == b[q..q + 4] && b[q..][4..] == b[q + 4..];
    case Name(n) =>
      if |b| > q {
        var len: int := b[q];
        CutAt(b[q + 1..], len, n, rest);
        assert |b| >= q + 1 + len ==> b[q + 1..][..len] == b[q + 1..q + 1 + len] && b[q + 1..][len..] == b[q + 1 + len..];
      }
    case V6(a) =>
      CutAt(b[q..], 16, a, rest);
      assert |b| >= q + 16 ==> b[q..][..16] == b[q..q + 16] && b[q..][16..] == b[q + 16..];
  }

  /** A header is read from some bytes if and only if they have the user's id, one of the two commands and one of the three
      address types in their places, and an address and 24 bytes in all. */
  lemma {:induction false} HeaderExact(b: seq<byte>, id: seq<byte>, h: Header)
    requires |id| == 16
    ensures ParsedHeader(b, id) == Some(h) <==> HasFields(b, id, h)
  {
    if |b| >= 24 {
      var addon: int := b[17];
      var p := 18 + addon;
      if |b| >= p + 4 {
        AddressReads(b, p + 4, h.host, h.rest);
        hide Address;
      }
    }
  }

  /* ---- requests that are not served ---- */

  /** Nothing was dialled, asked, forwarded or sent. */
  predicate Idle(s: Session) {
    s.dialled == [] && s.forwarded == [] && s.queries == [] && s.replies == [] && s.sent == [] && !s.piping
  }

  lemma {:induction false} StrangerStep(w: World, s: Session, e: Event, id: seq<byte>)
    requires |id| == 16 && s.stage == Head && Idle(s) && (e.Data? ==> ParsedHeader(s.pending + e.chunk, id).None?)
    ensures var t := Step(w, s, e, id);
      && t.stage == Head && Idle(t) && t.pending == s.pending + SentBy(e)
      && (t.closeAsked <==> s.closeAsked || (e.Data? && |t.pending| > 512))
  {
    hide ParsedHeader;
    assert s.pending + [] == s.pending;
  }

  /** At the end of no frame do the bytes so far have a header. */
  predicate NeverAHeader(pending: seq<byte>, events: seq<Event>, id: seq<byte>)
    requires |id| == 16
    decreases |events|
  {
    events == [] ||
    (if events[0].Data?
     then ParsedHeader(pending + events[0].chunk, id).None? && NeverAHeader(pending + events[0].chunk, events[1..], id)
     else NeverAHeader(pending, events[1..], id))
  }

  /** Some frame leaves more than 512 bytes. */
  predicate GrowsLong(have: nat, events: seq<Event>)
    decreases |events|
  {
    events != [] &&
    if events[0].Data? then have + |events[0].chunk| > 512 || GrowsLong(have + |events[0].chunk|, events[1..])
    else GrowsLong(have, events[1..])
  }

  /** Bytes of which no frame leaves a header: nothing is done with them, and the relay asks to close exactly when some frame
      leaves more than 512 of them. */
  lemma {:induction false} StrangerIsIgnored(w: World, s: Session, events: seq<Event>, id: seq<byte>)
    requires |id| == 16 && s.stage == Head && Idle(s) && NeverAHeader(s.pending, events, id)
    ensures var t := Run(w, s, events, id);
      t.stage == Head && Idle(t) && (t.closeAsked <==> s.closeAsked || GrowsLong(|s.pending|, events))
    decreases |events|
  {
    hide ParsedHeader, Step, Idle;
    if events != [] {
      StrangerStep(w, s, events[0], id);
      assert events[0].Reply? ==> s.pending + SentBy(events[0]) == s.pending;
      StrangerIsIgnored(w, Step(w, s, events[0], id), events[1..], id);
    }
  }

  /** A good header for something the relay does not serve: a destination that refuses, or UDP to another port than 53. */
  predicate Unserved(w: World, r: Request) {
    (r.cmd == 1 && !w.connects) || (r.cmd == 2 && r.port != 53)
  }

  lemma {:induction false} RefusedStays(w: World, s: Session, events: seq<Event>, id: seq<byte>)
    requires |id| == 16 && s.stage == Tcp && Idle(s) && s.closeAsked
    ensures Idle(Run(w, s, events, id)) && Run(w, s, events, id).closeAsked
    decreases |events|
  {
    hide HeaderData, UdpData;
    if events != [] {
      RefusedStays(w, Step(w, s, events[0], id), events[1..], id);
    }
  }

  /** Where a session is while a good header for something that is not served comes in. */
  predicate Turned(s: Session, r: Request) {
    Idle(s) && s.closeAsked && s.stage == if r.cmd == 1 then Tcp else Head
  }

  lemma {:induction false} UnservedFrame(w: World, s: Session, chunk: seq<byte>, r: Request, id: seq<byte>, body: seq<byte>)
    requires ValidRequest(r) && Unserved(w, r) && |id| == 16 && s.stage == Head && Idle(s)
    requires s.pending + chunk == HeaderBytes(r, id) + body
    ensures Turned(DataStep(w, s, chunk, id), r) && DataStep(w, s, chunk, id).pending == s.pending + chunk
  {
    HeaderRoundTrip(r, id, body);
    hide ParsedHeader, HeaderBytes, UdpData;
  }

  /** Once the header is there nothing changes any more but what is kept of the bytes. */
  lemma {:induction false} UnservedLater(w: World, s: Session, events: seq<Event>, r: Request, id: seq<byte>, body: seq<byte>)
    requires ValidRequest(r) && Unserved(w, r) && |id| == 16 && Turned(s, r)
    requires s.stage == Head ==> s.pending == HeaderBytes(r, id) + body
    ensures Turned(Run(w, s, events, id), r)
    decreases |events|
  {
    if s.stage == Tcp {
      RefusedStays(w, s, events, id);
      StaysTcp(w, s, events, id);
    } else if events != [] {
      hide HeaderBytes, DataStep;
      var e := events[0];
      if e.Data? {
        assert s.pending + e.chunk == HeaderBytes(r, id) + (body + e.chunk);
        UnservedFrame(w, s, e.chunk, r, id, body + e.chunk);
        UnservedLater(w, DataStep(w, s, e.chunk, id), events[1..], r, id, body + e.chunk);
      } else {
        UnservedLater(w, s, events[1..], r, id, body);
      }
    }
  }

  lemma {:induction false} StaysTcp(w: World, s: Session, events: seq<Event>, id: seq<byte>)
    requires |id| == 16 && s.stage == Tcp
    ensures Run(w, s, events, id).stage == Tcp
    decreases |events|
  {
    hide HeaderData, UdpData;
    if events != [] {
      StaysTcp(w, Step(w, s, events[0], id), events[1..], id);
    }
  }

  /** A good request that is not served, in one frame or more of which none defeats the parser: nothing is dialled, asked,
      forwarded or sent, and the relay asks to close. */
  lemma {:induction false} UnservedCloses(w: World, s: Session, events: seq<Event>, r: Request, id: seq<byte>, body: seq<byte>)
    requires ValidRequest(r) && Unserved(w, r) && |id| == 16 && Waiting(s, r, id) && Idle(s) && !Misread(r, events, |s.pending|)
    requires s.pending + DataOf(events) == HeaderBytes(r, id) + body
    ensures Turned(Run(w, s, events, id), r)
    decreases |events|
  {
    if events != [] {
      var e, rest := events[0], events[1..];
      if e.Reply? {
        hide HeaderBytes, DataStep;
        assert DataOf(events) == DataOf(rest);
        UnservedCloses(w, s, rest, r, id, body);
      } else {
        var now, h := s.pending + e.chunk, HeaderBytes(r, id);
        WaitingData(s, e.chunk, DataOf(rest), r, id, body);
        assert now + DataOf(rest) == h + body;
        if |now| >= |h| {
          TwoSplits(h, body, now, DataOf(rest));
          UnservedFrame(w, s, e.chunk, r, id, now[|h|..]);
          hide DataStep, HeaderBytes, ParsedHeader;
          UnservedLater(w, DataStep(w, s, e.chunk, id), rest, r, id, now[|h|..]);
        } else {
          StrangerStep(w, s, e, id);
          hide DataStep, HeaderBytes, ParsedHeader;
          UnservedCloses(w, DataStep(w, s, e.chunk, id), rest, r, id, body);
        }
      }
    }
  }
}

/** Where every answer of a run comes from, and what a connection holds after any run, told by the events alone. */
module NetStackRuns {
  import opened Bytes
  import opened NetStack
  import opened NetStackProofs
  import opened NetStackTurns

  /* ---- answers ---- */

  /** The answers an event gives: an open that fails, a bind that succeeds or fails, and what a turn tells an opener. */
  function AnswersOf(s: State, e: Event): seq<(nat, Answer)>
    requires Enabled(s, e)
  {
    match e
    case OpenTcp(req, connects, _, _) => if connects then [] else [(req, Refused)]
    case OpenUdp(req, binds, _, _) => [(req, if binds then Opened(s.nextId) else Refused)]
    case ServiceTcp(id, _) => TurnAnswer(id, s.tcp[id], s.sockets[s.tcp[id].handle].phase)
    case _ => []
  }

  lemma {:induction false} StepAnswers(s: State, e: Event)
    requires Inv(s) && Enabled(s, e)
    ensures Step(s, e).replies == s.replies + AnswersOf(s, e)
  {
    if e.ServiceTcp? {
      assert OpenerOk(s, s.tcp[e.id]);
      hide Step, Inv, TcpTurned;
      TurnRemoves(s, e.id, e.turn);
    } else {
      hide Inv, TcpTurned;
      assert s.replies + [] == s.replies;
    }
  }

  /** The k-th event of a run gives this answer, and no other. */
  ghost predicate AnsweredBy(s: State, events: seq<Event>, k: nat, answer: (nat, Answer)) {
    && k < |events| && Feasible(s, events[..k]) && Enabled(Run(s, events[..k]), events[k])
    && AnswersOf(Run(s, events[..k]), events[k]) == [answer]
  }

  lemma {:induction false} AnsweredNow(s: State, events: seq<Event>, answer: (nat, Answer))
    requires events != [] && Enabled(s, events[0]) && AnswersOf(s, events[0]) == [answer]
    ensures AnsweredBy(s, events, 0, answer)
  {
    hide Enabled, AnswersOf;
    assert events[..0] == [];
  }

  lemma {:induction false} AnsweredLater(s: State, events: seq<Event>, k: nat, answer: (nat, Answer))
    requires events != [] && Enabled(s, events[0]) && AnsweredBy(Step(s, events[0]), events[1..], k, answer)
    ensures AnsweredBy(s, events, k + 1, answer)
  {
    hide Enabled, AnswersOf, Step;
    var front := events[..k + 1];
    assert front[1..] == events[1..][..k] && front[0] == events[0];
  }

  /** Every answer of a run was given by one event of it: a Refused by an open that failed or by a turn of a waiting
      connection whose socket was closed or in time-wait, an Opened by a bind or by a turn that saw it established. */
  lemma {:induction false} EveryAnswer(s: State, events: seq<Event>, i: nat) returns (k: nat)
    requires Inv(s) && GreetedOk(s) && Feasible(s, events) && |s.replies| <= i < |Run(s, events).replies|
    ensures AnsweredBy(s, events, k, Run(s, events).replies[i])
    decreases |events|
  {
    var t := Step(s, events[0]);
    StepAnswers(s, events[0]);
    StepInv(s, events[0]);
    StepGreeted(s, events[0]);
    OneAnswer(s, events[0]);
    RepliesGrow(t, events[1..]);
    hide Inv, GreetedOk, Step, Enabled, AnsweredBy, AnswersOf;
    if i < |t.replies| {
      k := 0;
      assert Run(s, events).replies[i] == t.replies[i];
      assert t.replies[i] == AnswersOf(s, events[0])[i - |s.replies|];
      AnsweredNow(s, events, t.replies[i]);
    } else {
      k := EveryAnswer(t, events[1..], i);
      AnsweredLater(s, events, k, Run(t, events[1..]).replies[i]);
      k := k + 1;
    }
  }

  lemma {:induction false} OneAnswer(s: State, e: Event)
    requires Enabled(s, e)
    ensures |AnswersOf(s, e)| <= 1
  {
  }

  lemma {:induction false} RepliesGrow(s: State, events: seq<Event>)
    requires Inv(s) && GreetedOk(s) && Feasible(s, events)
    ensures s.replies <= Run(s, events).replies
    decreases |events|
  {
    if events != [] {
      StepAnswers(s, events[0]);
      StepInv(s, events[0]);
      StepGreeted(s, events[0]);
      hide Inv, GreetedOk, Step, Enabled, AnswersOf;
      RepliesGrow(Step(s, events[0]), events[1..]);
    }
  }

  /** From boot, with the reasons spelt out. */
  lemma {:induction false} RefusedFor(events: seq<Event>, req: nat) returns (k: nat)
    requires Feasible(BOOT, events) && (req, Refused) in Run(BOOT, events).replies
    ensures k < |events| && Feasible(BOOT, events[..k]) && Enabled(Run(BOOT, events[..k]), events[k])
    ensures var s := Run(BOOT, events[..k]);
      match events[k]
      case OpenTcp(r, connects, _, _) => r == req && !connects
      case OpenUdp(r, binds, _, _) => r == req && !binds
      case ServiceTcp(id, _) => s.tcp[id].resp == Some(req) && s.sockets[s.tcp[id].handle].phase in {Closed, TimeWait}
      case _ => false
  {
    var i :| 0 <= i < |Run(BOOT, events).replies| && Run(BOOT, events).replies[i] == (req, Refused);
    assert Inv(BOOT) && GreetedOk(BOOT);
    k := EveryAnswer(BOOT, events, i);
    hide Inv, Run, Feasible;
  }

  lemma {:induction false} OpenedFor(events: seq<Event>, req: nat, id: nat) returns (k: nat)
    requires Feasible(BOOT, events) && (req, Opened(id)) in Run(BOOT, events).replies
    ensures k < |events| && Feasible(BOOT, events[..k]) && Enabled(Run(BOOT, events[..k]), events[k])
    ensures var s := Run(BOOT, events[..k]);
      match events[k]
      case OpenUdp(r, binds, _, _) => r == req && binds && id == s.nextId
      case ServiceTcp(c, _) => c == id && s.tcp[id].resp == Some(req) && s.sockets[s.tcp[id].handle].phase == Established
      case _ => false
  {
    var i :| 0 <= i < |Run(BOOT, events).replies| && Run(BOOT, events).replies[i] == (req, Opened(id));
    assert Inv(BOOT) && GreetedOk(BOOT);
    k := EveryAnswer(BOOT, events, i);
    hide Inv, Run, Feasible;
  }

  /* ---- what happened to one connection ---- */

  function DataIn(e: Event, id: nat): seq<byte> {
    if e.SendTcp? && e.id == id then e.data else []
  }

  function BytesIn(e: Event, h: nat): seq<byte> {
    if e.Poll? && e.handle == h && e.arrival.TcpArrival? then e.arrival.bytes else []
  }

  function TakenIn(e: Event, id: nat): nat {
    if e == AppTakes(id) then 1 else 0
  }

  /** Everything the app sent, everything that arrived, and how often the app took something. */
  function DataTo(events: seq<Event>, id: nat): seq<byte> {
    if events == [] then [] else DataIn(events[0], id) + DataTo(events[1..], id)
  }

  function BytesFor(events: seq<Event>, h: nat): seq<byte> {
    if events == [] then [] else BytesIn(events[0], h) + BytesFor(events[1..], h)
  }

  function TakenFrom(events: seq<Event>, id: nat): nat {
    if events == [] then 0 else TakenIn(events[0], id) + TakenFrom(events[1..], id)
  }

  /** How an entry and its socket are after some events, of which it is known what they brought. */
  predicate Later(e: TcpEntry, k: Socket, f: TcpEntry, l: Socket, data: seq<byte>, bytes: seq<byte>, taken: nat, closed: bool, dropped: bool)
  {
    && k.TcpSock? && l.TcpSock?
    && f.handle == e.handle && f.origin == e.origin && (e.established ==> f.established)
    && f.handed == e.handed + data && l.received == k.received + bytes
    && f.toApp.free + |f.toApp.all| == e.toApp.free + |e.toApp.all| + taken
    && (f.halfClosed <==> e.halfClosed || closed)
    && (f.toApp.isOpen ==> e.toApp.isOpen && !dropped)
    && (e.toApp.isOpen && !dropped ==> f.toApp.isOpen || (e.origin.None? && f.established))
  }

  predicate LaterIn(s: State, t: State, id: nat, data: seq<byte>, bytes: seq<byte>, taken: nat, closed: bool, dropped: bool) {
    && Attached(s, id) && Attached(t, id)
    && Later(s.tcp[id], s.sockets[s.tcp[id].handle], t.tcp[id], t.sockets[t.tcp[id].handle], data, bytes, taken, closed, dropped)
  }

  lemma {:induction false} OwnTurn(s: State, id: nat, turn: TcpTurn)
    requires Attached(s, id) && OpenerOk(s, s.tcp[id]) && id in Step(s, ServiceTcp(id, turn)).tcp
    ensures LaterIn(s, Step(s, ServiceTcp(id, turn)), id, [], [], 0, false, false)
  {
    hide Step;
    TurnLeavesBehind(s, id, turn);
    var e, k := s.tcp[id], s.sockets[s.tcp[id].handle];
    assert e.handed + [] == e.handed && k.received + [] == k.received;
    hide Ends, TurnCloses, Goes, OpenerOk;
  }

  lemma {:induction false} OthersStay(s: State, t: State, id: nat, other: nat)
    requires Attached(s, id) && Attached(s, other) && other != id && s.tcp[id].handle != s.tcp[other].handle
    requires t.tcp - {other} == s.tcp - {other} && t.sockets - {s.tcp[other].handle} == s.sockets - {s.tcp[other].handle}
    ensures id in t.tcp && t.tcp[id] == s.tcp[id]
    ensures s.tcp[id].handle in t.sockets && t.sockets[s.tcp[id].handle] == s.sockets[s.tcp[id].handle]
  {
    var h := s.tcp[id].handle;
    assert id in t.tcp - {other} && (t.tcp - {other})[id] == (s.tcp - {other})[id];
    assert h in t.sockets - {s.tcp[other].handle} && (t.sockets - {s.tcp[other].handle})[h] == (s.sockets - {s.tcp[other].handle})[h];
  }

  lemma {:induction false} OthersTurn(s: State, id: nat, turn: TcpTurn, other: nat)
    requires Attached(s, id) && Attached(s, other) && other != id && s.tcp[id].handle != s.tcp[other].handle
    requires OpenerOk(s, s.tcp[other])
    ensures LaterIn(s, Step(s, ServiceTcp(other, turn)), id, [], [], 0, false, false)
  {
    assert Enabled(s, ServiceTcp(other, turn));
    assert s.tcp[other].resp.Some? ==> !s.tcp[other].established;
    hide Step, Enabled, LaterIn, Dead, Seen, Ends, TurnAnswer, OpenerOk;
    TurnRemoves(s, other, turn);
    OthersStay(s, Step(s, ServiceTcp(other, turn)), id, other);
    Unmoved(s, Step(s, ServiceTcp(other, turn)), id);
  }

  lemma {:induction false} Unmoved(s: State, t: State, id: nat)
    requires Attached(s, id) && id in t.tcp && t.tcp[id] == s.tcp[id]
    requires s.tcp[id].handle in t.sockets && t.sockets[s.tcp[id].handle] == s.sockets[s.tcp[id].handle]
    ensures LaterIn(s, t, id, [], [], 0, false, false)
  {
    var e, k := s.tcp[id], s.sockets[s.tcp[id].handle];
    assert e.handed + [] == e.handed && k.received + [] == k.received;
  }

  /** The events that concern a connection, apart from service turns. */
  predicate Concerns(e: Event, id: nat, h: nat) {
    e in {CloseTcp(id), AppTakes(id), AppDrops(id)} || (e.SendTcp? && e.id == id) || (e.Poll? && e.handle == h)
  }

  lemma {:induction false} StepPasses(s: State, e: Event, id: nat)
    requires Attached(s, id) && id != s.nextId && Enabled(s, e) && !e.ServiceTcp? && !Concerns(e, id, s.tcp[id].handle)
    requires forall u :: u in s.udp ==> s.udp[u].handle != s.tcp[id].handle
    ensures var t, h := Step(s, e), s.tcp[id].handle;
      id in t.tcp && t.tcp[id] == s.tcp[id] && h in t.sockets && t.sockets[h] == s.sockets[h]
    ensures DataIn(e, id) == [] && BytesIn(e, s.tcp[id].handle) == [] && TakenIn(e, id) == 0 && e != CloseTcp(id) && e != AppDrops(id)
  {
    hide TcpTurned, UdpDelivered;
  }

  lemma {:induction false} StepBrings(s: State, e: Event, id: nat)
    requires Attached(s, id) && Enabled(s, e) && !e.ServiceTcp? && Concerns(e, id, s.tcp[id].handle)
    ensures LaterIn(s, Step(s, e), id, DataIn(e, id), BytesIn(e, s.tcp[id].handle), TakenIn(e, id), e == CloseTcp(id), e == AppDrops(id))
  {
    hide TcpTurned, UdpDelivered;
    var f, k := s.tcp[id], s.sockets[s.tcp[id].handle];
    assert f.handed + [] == f.handed && k.received + [] == k.received;
  }

  lemma {:induction false} UdpApart(s: State, id: nat)
    requires Inv(s) && id in s.tcp
    ensures Attached(s, id) && OpenerOk(s, s.tcp[id]) && id < s.nextId && id !in s.udp
    ensures forall u :: u in s.udp ==> s.udp[u].handle != s.tcp[id].handle
  {
    forall u | u in s.udp ensures s.udp[u].handle != s.tcp[id].handle {
      HandlesApart(s, id, u);
    }
  }

  lemma {:induction false} OneEvent(s: State, e: Event, id: nat)
    requires Inv(s) && Enabled(s, e) && id in s.tcp && id in Step(s, e).tcp
    ensures LaterIn(s, Step(s, e), id, DataIn(e, id), BytesIn(e, s.tcp[id].handle), TakenIn(e, id), e == CloseTcp(id), e == AppDrops(id))
  {
    UdpApart(s, id);
    if e.ServiceTcp? {
      assert Attached(s, e.id);
      UdpApart(s, e.id);
      HandlesApart(s, id, e.id);
      hide Inv, Step, LaterIn, OpenerOk, Attached;
      if e.id == id {
        OwnTurn(s, id, e.turn);
      } else {
        OthersTurn(s, id, e.turn, e.id);
      }
    } else {
      hide Inv, Step, LaterIn, Enabled, Concerns, Attached;
      if Concerns(e, id, s.tcp[id].handle) {
        StepBrings(s, e, id);
      } else {
        StepPasses(s, e, id);
        Unmoved(s, Step(s, e), id);
      }
    }
  }

  lemma {:induction false} LaterAgain(r: State, s: State, t: State, id: nat, d1: seq<byte>, b1: seq<byte>, n1: nat, c1: bool, x1: bool,
                                      d2: seq<byte>, b2: seq<byte>, n2: nat, c2: bool, x2: bool)
    requires LaterIn(r, s, id, d1, b1, n1, c1, x1) && LaterIn(s, t, id, d2, b2, n2, c2, x2)
    ensures LaterIn(r, t, id, d1 + d2, b1 + b2, n1 + n2, c1 || c2, x1 || x2)
  {
    var e, k := r.tcp[id], r.sockets[r.tcp[id].handle];
    assert (e.handed + d1) + d2 == e.handed + (d1 + d2);
    assert (k.received + b1) + b2 == k.received + (b1 + b2);
  }

  lemma {:induction false} StillThere(s: State, events: seq<Event>, id: nat)
    requires Inv(s) && GreetedOk(s) && Feasible(s, events) && id < s.nextId && id !in s.udp && id in Run(s, events).tcp
    ensures id in s.tcp
  {
    if id !in s.tcp {
      IdsNeverReused(s, events, id);
    }
  }

  lemma {:induction false} InEvents(events: seq<Event>, e: Event)
    requires events != []
    ensures e in events <==> events[0] == e || e in events[1..]
  {
    assert events == [events[0]] + events[1..];
  }

  lemma {:induction false} NowAndThen(s: State, events: seq<Event>, id: nat)
    requires Inv(s) && GreetedOk(s) && Feasible(s, events) && events != [] && id in s.tcp && id in Run(s, events).tcp
    ensures var t := Step(s, events[0]);
      Inv(t) && GreetedOk(t) && Feasible(t, events[1..]) && Run(s, events) == Run(t, events[1..]) && Enabled(s, events[0]) && id in t.tcp
  {
    UdpApart(s, id);
    StepInv(s, events[0]);
    StepGreeted(s, events[0]);
    StepIds(s, events[0]);
    hide Inv, GreetedOk, Step, Enabled;
    StillThere(Step(s, events[0]), events[1..], id);
  }

  lemma {:induction false} NothingYet(s: State, id: nat)
    requires Inv(s) && id in s.tcp
    ensures LaterIn(s, s, id, [], [], 0, false, false)
  {
    UdpApart(s, id);
    hide Inv;
    Unmoved(s, s, id);
  }

  lemma {:induction false} HandleStays(s: State, t: State, id: nat, data: seq<byte>, bytes: seq<byte>, taken: nat, closed: bool, dropped: bool)
    requires LaterIn(s, t, id, data, bytes, taken, closed, dropped)
    ensures id in s.tcp && id in t.tcp && t.tcp[id].handle == s.tcp[id].handle
  {
  }

  lemma {:induction false} FirstEvent(events: seq<Event>, id: nat, h: nat)
    requires events != []
    ensures DataTo(events, id) == DataIn(events[0], id) + DataTo(events[1..], id)
    ensures BytesFor(events, h) == BytesIn(events[0], h) + BytesFor(events[1..], h)
    ensures TakenFrom(events, id) == TakenIn(events[0], id) + TakenFrom(events[1..], id)
  {
    hide DataIn, BytesIn, TakenIn;
  }

  lemma {:induction false} NoEvents(s: State, id: nat, h: nat)
    requires Feasible(s, [])
    ensures Run(s, []) == s && DataTo([], id) == [] && BytesFor([], h) == [] && TakenFrom([], id) == 0
  {
  }

  lemma {:induction false} RunBrings(s: State, events: seq<Event>, id: nat)
    requires Inv(s) && GreetedOk(s) && Feasible(s, events) && id in s.tcp && id in Run(s, events).tcp
    ensures LaterIn(s, Run(s, events), id, DataTo(events, id), BytesFor(events, s.tcp[id].handle), TakenFrom(events, id),
      CloseTcp(id) in events, AppDrops(id) in events)
    decreases |events|
  {
    hide *;
    if events == [] {
      NothingYet(s, id);
      NoEvents(s, id, s.tcp[id].handle);
    } else {
      NowAndThen(s, events, id);
      var e, t, more, h := events[0], Step(s, events[0]), events[1..], s.tcp[id].handle;
      OneEvent(s, e, id);
      HandleStays(s, t, id, DataIn(e, id), BytesIn(e, h), TakenIn(e, id), e == CloseTcp(id), e == AppDrops(id));
      RunBrings(t, more, id);
      LaterAgain(s, t, Run(t, more), id,
        DataIn(e, id), BytesIn(e, h), TakenIn(e, id), e == CloseTcp(id), e == AppDrops(id),
        DataTo(more, id), BytesFor(more, h), TakenFrom(more, id), CloseTcp(id) in more, AppDrops(id) in more);
      FirstEvent(events, id, h);
      InEvents(events, CloseTcp(id));
      InEvents(events, AppDrops(id));
    }
  }

  /** A connection just opened from here, or accepted from a SYN. */
  function OpenedBy(s: State, e: Event): TcpEntry
    requires e.OpenTcp? || e.AcceptSyn?
  {
    var req := if e.OpenTcp? then Some(e.req) else None;
    TcpEntry(e.handle, req, req, true, [], false, false, Chan(true, e.slots, []), [])
  }

  /** Whatever else happens, a connection that is still there holds what it was given: what the socket took followed by what
      waits is what the app sent since it was opened, what the app got followed by what is queued is what arrived, the
      half-close is the app's, its channel is open unless the app dropped it or nobody opened the connection, and its slots
      are what it was made with and what the app gave back. */
  lemma {:induction false} ConnectionHolds(s: State, open: Event, after: seq<Event>)
    requires Inv(s) && GreetedOk(s) && Enabled(s, open) && ((open.OpenTcp? && open.connects) || (open.AcceptSyn? && open.listens))
    requires Feasible(Step(s, open), after) && s.nextId in Run(Step(s, open), after).tcp
    ensures var t, id := Run(Step(s, open), after), s.nextId;
      && Attached(t, id) && t.tcp[id].handle == open.handle
      && var f, l := t.tcp[id], t.sockets[open.handle];
      && f.origin == (if open.OpenTcp? then Some(open.req) else None)
      && l.accepted + f.pending == DataTo(after, id)
      && Concat(f.toApp.all) + l.rx == BytesFor(after, open.handle)
      && (f.halfClosed <==> CloseTcp(id) in after)
      && f.toApp.free + |f.toApp.all| == open.slots + TakenFrom(after, id)
      && (f.toApp.isOpen <==> AppDrops(id) !in after && (open.OpenTcp? || !f.established))
  {
    hide *;
    var s1, id := Step(s, open), s.nextId;
    StepInv(s, open);
    StepGreeted(s, open);
    JustOpened(s, open);
    RunInv(s1, after);
    RunBrings(s1, after, id);
    HoldsNow(Run(s1, after), id);
    Told(s1, Run(s1, after), s, open, DataTo(after, id), BytesFor(after, open.handle), TakenFrom(after, id), CloseTcp(id) in after, AppDrops(id) in after);
  }

  /** A new connection, later. */
  lemma {:induction false} Told(s1: State, t: State, s: State, open: Event, data: seq<byte>, bytes: seq<byte>, taken: nat, closed: bool, dropped: bool)
    requires open.OpenTcp? || open.AcceptSyn?
    requires s.nextId in s1.tcp && s1.tcp[s.nextId] == OpenedBy(s, open) && open.handle in s1.sockets
    requires s1.sockets[open.handle] == TcpSock(if open.OpenTcp? then SynSent else Listen, [], [], [], [])
    requires LaterIn(s1, t, s.nextId, data, bytes, taken, closed, dropped)
    requires s.nextId in t.tcp && OpenerOk(t, t.tcp[s.nextId]) && Attached(t, s.nextId) && StreamOk(t.tcp[s.nextId], t.sockets[t.tcp[s.nextId].handle])
    ensures var f, l := t.tcp[s.nextId], t.sockets[t.tcp[s.nextId].handle];
      && f.handle == open.handle && f.origin == (if open.OpenTcp? then Some(open.req) else None)
      && l.accepted + f.pending == data && Concat(f.toApp.all) + l.rx == bytes
      && (f.halfClosed <==> closed)
      && f.toApp.free + |f.toApp.all| == open.slots + taken
      && (f.toApp.isOpen <==> !dropped && (open.OpenTcp? || !f.established))
  {
    hide Concat;
    assert [] + data == data && [] + bytes == bytes;
  }

  lemma {:induction false} HoldsNow(t: State, id: nat)
    requires Inv(t) && id in t.tcp
    ensures Attached(t, id) && OpenerOk(t, t.tcp[id]) && StreamOk(t.tcp[id], t.sockets[t.tcp[id].handle])
  {
    assert TcpFlows(t, id);
    hide StreamOk;
  }

  lemma {:induction false} JustOpened(s: State, open: Event)
    requires Enabled(s, open) && ((open.OpenTcp? && open.connects) || (open.AcceptSyn? && open.listens))
    ensures var t := Step(s, open);
      && s.nextId in t.tcp && t.tcp[s.nextId] == OpenedBy(s, open) && t.tcp[s.nextId].handle == open.handle
      && open.handle in t.sockets && t.sockets[open.handle] == TcpSock(if open.OpenTcp? then SynSent else Listen, [], [], [], [])
  {
  }

  /* ---- datagrams ---- */

  function DatagramIn(e: Event, id: nat): seq<Datagram> {
    if e.SendUdp? && e.id == id && e.accepted then [e.datagram] else []
  }

  function DatagramsIn(e: Event, h: nat): seq<Datagram> {
    if e.Poll? && e.handle == h && e.arrival.UdpArrival? then e.arrival.datagrams else []
  }

  function DatagramsTo(events: seq<Event>, id: nat): seq<Datagram> {
    if events == [] then [] else DatagramIn(events[0], id) + DatagramsTo(events[1..], id)
  }

  function DatagramsFor(events: seq<Event>, h: nat): seq<Datagram> {
    if events == [] then [] else DatagramsIn(events[0], h) + DatagramsFor(events[1..], h)
  }

  predicate UdpLater(e: UdpEntry, k: Socket, f: UdpEntry, l: Socket, sent: seq<Datagram>, arrived: seq<Datagram>, taken: nat, dropped: bool) {
    && k.UdpSock? && l.UdpSock? && f.handle == e.handle
    && l.out == k.out + sent && l.arrived == k.arrived + arrived
    && f.toApp.free + |f.toApp.all| == e.toApp.free + |e.toApp.all| + taken
    && (f.toApp.isOpen <==> e.toApp.isOpen && !dropped)
  }

  predicate UdpLaterIn(s: State, t: State, id: nat, sent: seq<Datagram>, arrived: seq<Datagram>, taken: nat, dropped: bool) {
    && UdpAttached(s, id) && UdpAttached(t, id)
    && UdpLater(s.udp[id], s.sockets[s.udp[id].handle], t.udp[id], t.sockets[t.udp[id].handle], sent, arrived, taken, dropped)
  }

  predicate ConcernsUdp(e: Event, id: nat, h: nat) {
    e in {AppTakes(id), AppDrops(id), CloseUdp(id)} || (e.SendUdp? && e.id == id) || (e.Poll? && e.handle == h) || (e.ServiceUdp? && e.id == id)
  }

  lemma {:induction false} UdpUnmoved(s: State, t: State, id: nat)
    requires UdpAttached(s, id) && id in t.udp && t.udp[id] == s.udp[id]
    requires s.udp[id].handle in t.sockets && t.sockets[s.udp[id].handle] == s.sockets[s.udp[id].handle]
    ensures UdpLaterIn(s, t, id, [], [], 0, false)
  {
    var k := s.sockets[s.udp[id].handle];
    assert k.out + [] == k.out && k.arrived + [] == k.arrived;
  }

  lemma {:induction false} UdpPasses(s: State, e: Event, id: nat)
    requires UdpAttached(s, id) && id != s.nextId && id !in s.tcp && Enabled(s, e) && !e.ServiceTcp? && !ConcernsUdp(e, id, s.udp[id].handle)
    requires forall u :: u in s.udp && u != id ==> s.udp[u].handle != s.udp[id].handle
    ensures var t, h := Step(s, e), s.udp[id].handle;
      id in t.udp && t.udp[id] == s.udp[id] && h in t.sockets && t.sockets[h] == s.sockets[h]
    ensures DatagramIn(e, id) == [] && DatagramsIn(e, s.udp[id].handle) == [] && TakenIn(e, id) == 0 && e != AppDrops(id) && e != CloseUdp(id)
  {
    hide TcpTurned, UdpDelivered;
  }

  lemma {:induction false} UdpBrings(s: State, e: Event, id: nat)
    requires UdpAttached(s, id) && id !in s.tcp && Enabled(s, e) && ConcernsUdp(e, id, s.udp[id].handle) && e != CloseUdp(id)
    ensures UdpLaterIn(s, Step(s, e), id, DatagramIn(e, id), DatagramsIn(e, s.udp[id].handle), TakenIn(e, id), e == AppDrops(id))
  {
    hide TcpTurned, UdpDelivered;
    var f, k := s.udp[id], s.sockets[s.udp[id].handle];
    assert k.out + [] == k.out && k.arrived + [] == k.arrived;
    if e.ServiceUdp? {
      UdpDeliveredConserves(k.inbox, f.toApp, e.ready, MAX_RECV_CHUNKS);
    }
  }

  lemma {:induction false} UdpFacts(s: State, id: nat)
    requires Inv(s) && id in s.udp
    ensures UdpAttached(s, id) && id < s.nextId && id !in s.tcp
    ensures forall u :: u in s.udp && u != id ==> s.udp[u].handle != s.udp[id].handle
    ensures forall c :: c in s.tcp ==> Attached(s, c) && s.tcp[c].handle != s.udp[id].handle && (s.tcp[c].resp.Some? ==> !s.tcp[c].established)
  {
    forall c | c in s.tcp ensures Attached(s, c) && s.tcp[c].handle != s.udp[id].handle && (s.tcp[c].resp.Some? ==> !s.tcp[c].established) {
      HandlesApart(s, c, id);
      assert OpenerOk(s, s.tcp[c]);
    }
  }

  lemma {:induction false} TcpTurnPasses(s: State, c: nat, turn: TcpTurn, id: nat)
    requires Attached(s, c) && (s.tcp[c].resp.Some? ==> !s.tcp[c].established) && UdpAttached(s, id) && s.tcp[c].handle != s.udp[id].handle
    ensures var t, h := Step(s, ServiceTcp(c, turn)), s.udp[id].handle;
      id in t.udp && t.udp[id] == s.udp[id] && h in t.sockets && t.sockets[h] == s.sockets[h]
  {
    assert Enabled(s, ServiceTcp(c, turn));
    hide Step, Enabled, Dead, Seen, Ends, TurnAnswer;
    TurnRemoves(s, c, turn);
    var t, h, g := Step(s, ServiceTcp(c, turn)), s.udp[id].handle, s.tcp[c].handle;
    assert h in t.sockets - {g} && (t.sockets - {g})[h] == (s.sockets - {g})[h];
  }

  /** A UDP entry goes when it is closed, and only then. */
  lemma {:induction false} OneUdpEvent(s: State, e: Event, id: nat)
    requires Inv(s) && Enabled(s, e) && id in s.udp
    ensures id in Step(s, e).udp <==> e != CloseUdp(id)
    ensures e != CloseUdp(id) ==>
      UdpLaterIn(s, Step(s, e), id, DatagramIn(e, id), DatagramsIn(e, s.udp[id].handle), TakenIn(e, id), e == AppDrops(id))
  {
    UdpFacts(s, id);
    if e == CloseUdp(id) {
      hide Inv;
    } else if e.ServiceTcp? {
      hide Inv, Step, UdpLaterIn;
      TcpTurnPasses(s, e.id, e.turn, id);
      UdpUnmoved(s, Step(s, e), id);
    } else {
      hide Inv, Step, UdpLaterIn, Enabled, ConcernsUdp, UdpAttached;
      if ConcernsUdp(e, id, s.udp[id].handle) {
        UdpBrings(s, e, id);
        assert id in Step(s, e).udp by {
          UdpThere(s, Step(s, e), id, DatagramIn(e, id), DatagramsIn(e, s.udp[id].handle), TakenIn(e, id), e == AppDrops(id));
        }
      } else {
        UdpPasses(s, e, id);
        UdpUnmoved(s, Step(s, e), id);
      }
    }
  }

  lemma {:induction false} UdpThere(s: State, t: State, id: nat, sent: seq<Datagram>, arrived: seq<Datagram>, taken: nat, dropped: bool)
    requires UdpLaterIn(s, t, id, sent, arrived, taken, dropped)
    ensures id in t.udp
  {
  }

  lemma {:induction false} UdpLaterAgain(r: State, s: State, t: State, id: nat, d1: seq<Datagram>, b1: seq<Datagram>, n1: nat, x1: bool,
                                         d2: seq<Datagram>, b2: seq<Datagram>, n2: nat, x2: bool)
    requires UdpLaterIn(r, s, id, d1, b1, n1, x1) && UdpLaterIn(s, t, id, d2, b2, n2, x2)
    ensures UdpLaterIn(r, t, id, d1 + d2, b1 + b2, n1 + n2, x1 || x2)
  {
    var k := r.sockets[r.udp[id].handle];
    assert (k.out + d1) + d2 == k.out + (d1 + d2);
    assert (k.arrived + b1) + b2 == k.arrived + (b1 + b2);
  }

  lemma {:induction false} UdpRunBrings(s: State, events: seq<Event>, id: nat)
    requires Inv(s) && GreetedOk(s) && Feasible(s, events) && id in s.udp
    ensures id in Run(s, events).udp <==> CloseUdp(id) !in events
    ensures CloseUdp(id) !in events ==> UdpLaterIn(s, Run(s, events), id, DatagramsTo(events, id), DatagramsFor(events, s.udp[id].handle),
      TakenFrom(events, id), AppDrops(id) in events)
    decreases |events|
  {
    if events == [] {
      UdpFacts(s, id);
      hide Inv;
      UdpUnmoved(s, s, id);
    } else {
      UdpFacts(s, id);
      StepInv(s, events[0]);
      StepGreeted(s, events[0]);
      StepIds(s, events[0]);
      OneUdpEvent(s, events[0], id);
      InEvents(events, CloseUdp(id));
      InEvents(events, AppDrops(id));
      var e, t, more, h := events[0], Step(s, events[0]), events[1..], s.udp[id].handle;
      if e == CloseUdp(id) {
        UdpGone(s, id);
        hide Inv, GreetedOk, Step, Enabled;
        IdsNeverReused(t, more, id);
      } else {
        hide Inv, GreetedOk, Step, Enabled;
        assert t.udp[id].handle == h;
        hide UdpLaterIn, DatagramIn, DatagramsIn, TakenIn;
        UdpRunBrings(t, more, id);
        if CloseUdp(id) !in more {
          UdpLaterAgain(s, t, Run(t, more), id, DatagramIn(e, id), DatagramsIn(e, h), TakenIn(e, id), e == AppDrops(id),
            DatagramsTo(more, id), DatagramsFor(more, h), TakenFrom(more, id), AppDrops(id) in more);
        }
      }
    }
  }

  lemma {:induction false} UdpGone(s: State, id: nat)
    requires UdpAttached(s, id) && id !in s.tcp
    ensures var t := Step(s, CloseUdp(id)); id !in t.tcp && id !in t.udp && s.udp[id].handle !in t.sockets
  {
  }

  /** A UDP socket is there until it is closed, and until then it has sent what it accepted, in order, and the app got, or
      will get, what arrived, in order. */
  lemma {:induction false} DatagramsHold(s: State, open: Event, after: seq<Event>)
    requires Inv(s) && GreetedOk(s) && Enabled(s, open) && open.OpenUdp? && open.binds && Feasible(Step(s, open), after)
    ensures var t, id := Run(Step(s, open), after), s.nextId;
      && (id in t.udp <==> CloseUdp(id) !in after)
      && (id in t.udp ==>
            && UdpAttached(t, id) && t.udp[id].handle == open.handle
            && var f, l := t.udp[id], t.sockets[open.handle];
            && l.out == DatagramsTo(after, id) && f.toApp.all + l.inbox == DatagramsFor(after, open.handle)
            && f.toApp.free + |f.toApp.all| == open.slots + TakenFrom(after, id)
            && (f.toApp.isOpen <==> AppDrops(id) !in after))
  {
    var s1, id := Step(s, open), s.nextId;
    StepInv(s, open);
    StepGreeted(s, open);
    JustBound(s, open);
    RunInv(s1, after);
    hide GreetedOk, Step, Enabled, Run, Feasible, DatagramsTo, DatagramsFor, TakenFrom;
    UdpRunBrings(s1, after, id);
    if id in Run(s1, after).udp {
      FlowsNow(Run(s1, after), id);
      assert [] + DatagramsTo(after, id) == DatagramsTo(after, id);
      assert [] + DatagramsFor(after, open.handle) == DatagramsFor(after, open.handle);
    }
    hide Inv;
  }

  lemma {:induction false} FlowsNow(t: State, id: nat)
    requires Inv(t) && id in t.udp
    ensures UdpFlows(t, id)
  {
  }

  lemma {:induction false} JustBound(s: State, open: Event)
    requires Enabled(s, open) && open.OpenUdp? && open.binds
    ensures var t := Step(s, open);
      && s.nextId in t.udp && t.udp[s.nextId] == UdpEntry(open.handle, Chan(true, open.slots, []))
      && open.handle in t.sockets && t.sockets[open.handle] == UdpSock([], [], [])
  {
  }
}

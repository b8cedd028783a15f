/** What a service turn does, in phases and tables; what causes every answer; and what a connection holds after any run, in
    terms of what was sent to it, what arrived for it, and what its app did. */
module NetStackTurns {
  import opened Bytes
  import opened NetStack
  import opened NetStackProofs

  /* ---- one turn ---- */

  /** The connection has been seen established, now or before. */
  predicate Seen(e: TcpEntry, phase: Phase) {
    e.established || phase == Established
  }

  /** A connection that will never be one. */
  predicate Dead(e: TcpEntry, phase: Phase) {
    !e.established && phase in {Closed, TimeWait}
  }

  /** An app that still holds its end of the channel: a connection without an opener loses it when it is first seen. */
  predicate AppHolds(e: TcpEntry, phase: Phase) {
    e.toApp.isOpen && (e.established || phase != Established || !e.rxHeld || e.resp.Some?)
  }

  /** How many bytes go out, and whether the half-close does. */
  function Goes(e: TcpEntry, turn: TcpTurn): nat {
    if !turn.canSend then 0 else if turn.takes < |e.pending| then turn.takes else |e.pending|
  }

  predicate HalfCloses(e: TcpEntry, turn: TcpTurn) {
    e.halfClosed && Goes(e, turn) == |e.pending|
  }

  /** The phase at the end of a turn in which somebody here has, or has not, asked for a close; one that the peer has closed
      is closed here in any case. */
  function EndPhase(phase: Phase, asked: bool): Phase {
    if phase == CloseWait then LastAck
    else if asked && phase in {Listen, SynSent} then Closed
    else if asked && phase in {SynReceived, Established} then FinWait1
    else phase
  }

  function Ends(e: TcpEntry, phase: Phase, turn: TcpTurn): Phase {
    EndPhase(phase, HalfCloses(e, turn) || !AppHolds(e, phase))
  }

  /** The one answer a turn gives, if any. */
  function TurnAnswer(id: nat, e: TcpEntry, phase: Phase): seq<(nat, Answer)> {
    if e.resp.None? || e.established then []
    else if phase == Established && e.rxHeld then [(e.resp.value, Opened(id))]
    else if phase in {Closed, TimeWait} then [(e.resp.value, Refused)]
    else []
  }

  /** An entry goes in a turn if and only if it was never seen established and its socket is closed or in time-wait, or it
      was and its socket ends the turn closed; the opener is told so exactly in the first of these. Other entries and
      sockets are not touched. */
  lemma {:induction false} TurnRemoves(s: State, id: nat, turn: TcpTurn)
    requires Attached(s, id) && (s.tcp[id].resp.Some? ==> !s.tcp[id].established)
    ensures var t, e, h := Step(s, ServiceTcp(id, turn)), s.tcp[id], s.tcp[id].handle;
      var phase := s.sockets[h].phase;
      && (id !in t.tcp <==> Dead(e, phase) || (Seen(e, phase) && Ends(e, phase, turn) == Closed))
      && t.replies == s.replies + TurnAnswer(id, e, phase)
      && (h in t.sockets <==> id in t.tcp)
      && t.tcp - {id} == s.tcp - {id} && t.sockets - {h} == s.sockets - {h}
      && t.udp == s.udp && t.asked == s.asked && t.nextId == s.nextId && t.nextPort == s.nextPort
  {
    hide Delivered;
    var e, h := s.tcp[id], s.tcp[id].handle;
    var k := s.sockets[h];
    var f := NoteEstablished(e, k.phase);
    TurnStop(f, k, turn);
    assert s.replies + [] == s.replies;
    assert s.replies + [] + RefusedReply(f) == s.replies + RefusedReply(f);
  }

  lemma {:induction false} TurnStop(e: TcpEntry, k: Socket, turn: TcpTurn)
    requires k.TcpSock?
    ensures var (f, l) := Pumped(e, k, turn);
      var (rx, c, stop) := Delivered(l.rx, f.toApp, turn.runs, MAX_RECV_CHUNKS);
      && (stop == Gone <==> !e.toApp.isOpen)
      && c.isOpen == e.toApp.isOpen
  {
    PumpedShape(e, k, turn);
    var (f, l) := Pumped(e, k, turn);
    DeliveredUntil(l.rx, f.toApp, turn.runs, MAX_RECV_CHUNKS);
    DeliveredConserves(l.rx, f.toApp, turn.runs, MAX_RECV_CHUNKS);
    hide Delivered, Pumped;
  }

  /** Why the socket was closed in a turn. */
  function TurnCloses(e: TcpEntry, k: Socket, turn: TcpTurn): seq<Close>
    requires k.TcpSock?
  {
    var half, gone := HalfCloses(e, turn), !AppHolds(e, k.phase);
    (if half then [HalfClose(e.handed, k.accepted + e.pending)] else [])
    + (if gone then [AppGone] else [])
    + (if k.phase == CloseWait && !half && !gone then [PeerClosed] else [])
  }

  /** An entry after its turn, and what is in its socket. */
  function EntryAfter(e: TcpEntry, k: Socket, turn: TcpTurn): TcpEntry
    requires k.TcpSock?
  {
    var (f, l) := Pumped(NoteEstablished(e, k.phase), k, turn);
    f.(toApp := Delivered(l.rx, f.toApp, turn.runs, MAX_RECV_CHUNKS).1)
  }

  function SocketAfter(e: TcpEntry, k: Socket, turn: TcpTurn): (l: Socket)
    requires k.TcpSock?
    ensures l.TcpSock?
  {
    var (f, l) := Pumped(NoteEstablished(e, k.phase), k, turn);
    var (rx, c, stop) := Delivered(l.rx, f.toApp, turn.runs, MAX_RECV_CHUNKS);
    Wound(l.(rx := rx), stop)
  }

  lemma {:induction false} AfterTurn(s: State, id: nat, turn: TcpTurn)
    requires Attached(s, id) && id in Step(s, ServiceTcp(id, turn)).tcp
    ensures var t, e, h := Step(s, ServiceTcp(id, turn)), s.tcp[id], s.tcp[id].handle;
      h in t.sockets && t.tcp[id] == EntryAfter(e, s.sockets[h], turn) && t.sockets[h] == SocketAfter(e, s.sockets[h], turn)
  {
    hide Delivered, Pumped, Wound, NoteEstablished;
    NoteShape(s.tcp[id], s.sockets[s.tcp[id].handle].phase);
  }

  lemma {:induction false} EntryTells(e: TcpEntry, k: Socket, turn: TcpTurn)
    requires k.TcpSock?
    ensures var f := EntryAfter(e, k, turn);
      && f.handle == e.handle && f.origin == e.origin && f.handed == e.handed && f.halfClosed == e.halfClosed
      && f.established == Seen(e, k.phase) && f.pending == e.pending[Goes(e, turn)..]
      && (e.established || k.phase != Established ==> f.resp == e.resp && f.rxHeld == e.rxHeld)
      && (!e.established && k.phase == Established ==> f.resp == None && !f.rxHeld)
      && f.toApp.isOpen == AppHolds(e, k.phase)
      && f.toApp.free + |f.toApp.all| == e.toApp.free + |e.toApp.all|
  {
    var f := NoteEstablished(e, k.phase);
    var (g, l) := Pumped(f, k, turn);
    DeliveredConserves(l.rx, g.toApp, turn.runs, MAX_RECV_CHUNKS);
    hide Delivered;
  }

  lemma {:induction false} SocketTells(e: TcpEntry, k: Socket, turn: TcpTurn)
    requires k.TcpSock?
    ensures var l := SocketAfter(e, k, turn);
      && l.phase == Ends(e, k.phase, turn)
      && l.accepted == k.accepted + e.pending[..Goes(e, turn)] && l.received == k.received
      && l.closes == k.closes + TurnCloses(e, k, turn)
  {
    var f := NoteEstablished(e, k.phase);
    TurnStop(f, k, turn);
    AllGoes(e, turn);
    hide Delivered;
  }

  /** What an entry that stays and its socket are after a turn. */
  lemma {:induction false} TurnLeavesBehind(s: State, id: nat, turn: TcpTurn)
    requires Attached(s, id) && id in Step(s, ServiceTcp(id, turn)).tcp
    ensures var t, e, h := Step(s, ServiceTcp(id, turn)), s.tcp[id], s.tcp[id].handle;
      var k, n, f := s.sockets[h], Goes(s.tcp[id], turn), t.tcp[id];
      && h in t.sockets && t.sockets[h].TcpSock?
      && f.handle == h && f.origin == e.origin && f.handed == e.handed && f.halfClosed == e.halfClosed
      && f.established == Seen(e, k.phase) && f.pending == e.pending[n..]
      && (e.established || k.phase != Established ==> f.resp == e.resp && f.rxHeld == e.rxHeld)
      && (!e.established && k.phase == Established ==> f.resp == None && !f.rxHeld)
      && f.toApp.isOpen == AppHolds(e, k.phase)
      && f.toApp.free + |f.toApp.all| == e.toApp.free + |e.toApp.all|
      && t.sockets[h].phase == Ends(e, k.phase, turn)
      && t.sockets[h].accepted == k.accepted + e.pending[..n] && t.sockets[h].received == k.received
      && t.sockets[h].closes == k.closes + TurnCloses(e, k, turn)
  {
    hide EntryAfter, SocketAfter, Step, Ends, TurnCloses, AppHolds, Goes, Seen;
    AfterTurn(s, id, turn);
    EntryTells(s.tcp[id], s.sockets[s.tcp[id].handle], turn);
    SocketTells(s.tcp[id], s.sockets[s.tcp[id].handle], turn);
  }

  lemma {:induction false} AllGoes(e: TcpEntry, turn: TcpTurn)
    ensures Goes(e, turn) == |e.pending| ==> e.pending[..Goes(e, turn)] == e.pending
    ensures e.pending[Goes(e, turn)..] == [] <==> Goes(e, turn) == |e.pending|
  {
  }

  /* ---- what the app gets ---- */

  lemma {:induction false} FirstPart(x: seq<byte>, parts: seq<seq<byte>>, i: nat)
    requires 0 < i <= |parts| + 1
    ensures ([x] + parts)[..i] == [x] + parts[..i - 1]
    ensures Concat(([x] + parts)[..i]) == x + Concat(parts[..i - 1])
  {
    assert ([x] + parts)[..i] == [x] + parts[..i - 1];
    assert ([x] + parts[..i - 1])[1..] == parts[..i - 1];
  }

  /** The chunks of one turn: each is the next run the socket hands out, or what is left when that is less, and the loop
      reports a full channel exactly when it stopped for want of a slot. */
  lemma {:induction false} DeliveredChunks(rx: seq<byte>, c: Chan<seq<byte>>, runs: seq<nat>, left: nat) returns (chunks: seq<seq<byte>>)
    ensures var (rx', c', stop) := Delivered(rx, c, runs, left);
      && c'.all == c.all + chunks
      && (stop == Full <==> c.isOpen && c'.free == 0 && |chunks| < left)
    ensures |chunks| <= |runs| && forall i :: 0 <= i < |chunks| ==> ChunkIs(rx, runs, chunks, i)
    decreases left
  {
    var n := if runs == [] then 0 else Min(runs[0], |rx|);
    if left > 0 && c.isOpen && c.free > 0 && n > 0 {
      DeliverMore(rx, c, runs, left, n);
      hide Delivered;
      var more := DeliveredChunks(rx[n..], Put(c, rx[..n]), runs[1..], left - 1);
      chunks := [rx[..n]] + more;
      assert (c.all + [rx[..n]]) + more == c.all + chunks;
      forall i | 0 <= i < |chunks| ensures ChunkIs(rx, runs, chunks, i) {
        if i == 0 {
          assert chunks[..0] == [];
        } else {
          FirstPart(rx[..n], more, i);
          assert ChunkIs(rx[n..], runs[1..], more, i - 1);
        }
      }
    } else {
      chunks := [];
      assert c.all + [] == c.all;
      DeliverStops(rx, c, runs, left);
    }
  }

  predicate ChunkIs(rx: seq<byte>, runs: seq<nat>, chunks: seq<seq<byte>>, i: nat)
    requires i < |chunks|
  {
    i < |runs| && |Concat(chunks[..i])| <= |rx| && 0 < |chunks[i]| == Min(runs[i], |rx| - |Concat(chunks[..i])|)
  }

  /** A turn reports back-pressure exactly when the app's channel is open and had no slot left before the turn's budget was
      used up. */
  lemma {:induction false} TurnPressed(s: State, id: nat, turn: TcpTurn)
    requires Attached(s, id) && id in Step(s, ServiceTcp(id, turn)).tcp
    ensures var was, now := s.tcp[id].toApp, Step(s, ServiceTcp(id, turn)).tcp[id].toApp;
      TcpTurned(s, id, turn).1 <==> now.isOpen && now.free == 0 && |now.all| - |was.all| < 128
  {
    AfterTurn(s, id, turn);
    var e, k := s.tcp[id], s.sockets[s.tcp[id].handle];
    NoteShape(e, k.phase);
    PumpedShape(NoteEstablished(e, k.phase), k, turn);
    hide NoteEstablished, Pumped, Wound;
    var (f, l) := Pumped(NoteEstablished(e, k.phase), k, turn);
    var chunks := DeliveredChunks(l.rx, f.toApp, turn.runs, MAX_RECV_CHUNKS);
    DeliveredConserves(l.rx, f.toApp, turn.runs, MAX_RECV_CHUNKS);
    hide Delivered;
  }

  /** The datagrams of one turn: as many as the budget, the slots, the socket and the queue allow. */
  lemma {:induction false} UdpDeliveredUntil(inbox: seq<Datagram>, c: Chan<Datagram>, ready: nat, left: nat)
    ensures var (inbox', c', full) := UdpDelivered(inbox, c, ready, left);
      && |c'.all| - |c.all| == (if c.isOpen then Min(Min(left, c.free), Min(ready, |inbox|)) else 0)
      && (full <==> c.isOpen && c'.free == 0 && |c'.all| - |c.all| < left)
    decreases left
  {
    if left > 0 && c.isOpen && c.free > 0 && inbox != [] && ready > 0 {
      UdpDeliveredUntil(inbox[1..], Put(c, inbox[0]), ready - 1, left - 1);
    }
  }

  /** A pass reports back-pressure exactly when one of its turns did. */
  lemma {:induction false} PassPressed(s: State, order: seq<nat>, turns: nat -> TcpTurn)
    ensures Serviced(s, order, turns).1 <==>
      exists i :: 0 <= i < |order| && TurnFull(Serviced(s, order[..i], turns).0, order[i], turns)
    decreases |order|
  {
    hide TcpTurned, Attached;
    if order != [] {
      var front, last := order[..|order| - 1], order[|order| - 1];
      assert order == front + [last];
      ServicedSnoc(s, front, turns, last);
      hide Serviced;
      PassPressed(s, front, turns);
      assert forall i :: 0 <= i < |front| ==> order[..i] == front[..i] && order[i] == front[i];
      assert order[..|front|] == front;
      assert TurnFull(Serviced(s, order[..|front|], turns).0, last, turns) <==> TurnFull(Serviced(s, front, turns).0, last, turns);
      if i :| 0 <= i < |front| && TurnFull(Serviced(s, front[..i], turns).0, front[i], turns) {
        assert TurnFull(Serviced(s, order[..i], turns).0, order[i], turns);
      }
    }
  }

  predicate TurnFull(t: State, id: nat, turns: nat -> TcpTurn) {
    Attached(t, id) && TcpTurned(t, id, turns(id)).1
  }
}

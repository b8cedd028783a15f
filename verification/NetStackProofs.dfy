/** What every run of the stack keeps: tables and sockets agree, one reply per opener, no byte lost or reordered. */
module NetStackProofs {
  import opened Bytes
  import opened NetStack

  /** For a live TCP entry and its socket: nothing handed in is lost on the way out, nothing received on the way in. */
  ghost predicate StreamOk(e: TcpEntry, k: Socket) {
    && k.TcpSock?
    && k.accepted + e.pending == e.handed
    && Concat(e.toApp.all) + k.rx == k.received
    && (forall i :: 0 <= i < |k.closes| ==> k.closes[i].HalfClose? ==> k.closes[i].accepted == k.closes[i].handed)
  }

  ghost predicate DatagramsOk(e: UdpEntry, k: Socket) {
    k.UdpSock? && e.toApp.all + k.inbox == k.arrived
  }

  ghost predicate TcpFlows(s: State, id: nat) {
    Attached(s, id) && StreamOk(s.tcp[id], s.sockets[s.tcp[id].handle])
  }

  ghost predicate UdpFlows(s: State, id: nat) {
    UdpAttached(s, id) && DatagramsOk(s.udp[id], s.sockets[s.udp[id].handle])
  }

  ghost predicate StreamsOk(s: State) {
    (forall id :: id in s.tcp ==> TcpFlows(s, id)) && (forall id :: id in s.udp ==> UdpFlows(s, id))
  }

  predicate Replied(s: State, req: nat) {
    exists i :: 0 <= i < |s.replies| && s.replies[i].0 == req
  }

  predicate Waits(s: State, req: nat) {
    exists id :: id in s.tcp && s.tcp[id].resp == Some(req)
  }

  /** An entry whose opener has not been answered has never been established and still holds its receiver. */
  predicate OpenerOk(s: State, e: TcpEntry) {
    && (e.resp.Some? ==> e.origin == e.resp && !e.established && e.rxHeld)
    && (e.origin.Some? ==> e.origin.value in s.asked && (e.resp.None? <==> e.established))
    && (e.rxHeld <==> !e.established)
    && (e.origin.None? && e.established ==> !e.toApp.isOpen)
  }

  /** Every request is either waiting, once and unanswered, or answered exactly once. */
  ghost predicate RepliesOk(s: State) {
    OpenersOk(s) && AnswersOk(s)
  }

  ghost predicate OpenersOk(s: State) {
    && (forall id :: id in s.tcp ==> OpenerOk(s, s.tcp[id]))
    && (forall a, b :: a in s.tcp && b in s.tcp && a != b && s.tcp[a].origin.Some? ==> s.tcp[a].origin != s.tcp[b].origin)
  }

  ghost predicate AnswersOk(s: State) {
    && (forall i, j :: 0 <= i < j < |s.replies| ==> s.replies[i].0 != s.replies[j].0)
    && (forall i :: 0 <= i < |s.replies| ==> s.replies[i].0 in s.asked && !Waits(s, s.replies[i].0))
    && (forall req :: req in s.asked ==> Replied(s, req) || Waits(s, req))
  }

  ghost predicate IdsOk(s: State) {
    (forall id :: id in s.tcp || id in s.udp ==> id < s.nextId)
    && FIRST_PORT <= s.nextPort <= LAST_PORT
  }

  ghost predicate Inv(s: State) {
    HandlesOk(s) && StreamsOk(s) && RepliesOk(s) && IdsOk(s)
  }

  /* ---- one TCP turn ---- */

  lemma {:induction false} DeliveredConserves(rx: seq<byte>, c: Chan<seq<byte>>, runs: seq<nat>, left: nat)
    ensures var (rx', c', stop) := Delivered(rx, c, runs, left);
      && Concat(c'.all) + rx' == Concat(c.all) + rx
      && c.all <= c'.all && |c'.all| <= |c.all| + left
      && c'.free + |c'.all| == c.free + |c.all|
      && c'.isOpen == c.isOpen && (stop == Gone ==> !c.isOpen)
    decreases left
  {
    if left > 0 && c.isOpen && c.free > 0 {
      var n := if runs == [] then 0 else Min(runs[0], |rx|);
      if n > 0 {
        DeliveredConserves(rx[n..], Put(c, rx[..n]), runs[1..], left - 1);
        ConcatSnoc(c.all, rx[..n]);
        assert (Concat(c.all) + rx[..n]) + rx[n..] == Concat(c.all) + (rx[..n] + rx[n..]);
        assert rx[..n] + rx[n..] == rx;
      }
    }
  }

  /** The receive loop goes on until its budget, the channel or the socket runs out, and says which. */
  lemma {:induction false} DeliveredUntil(rx: seq<byte>, c: Chan<seq<byte>>, runs: seq<nat>, left: nat)
    ensures var (rx', c', stop) := Delivered(rx, c, runs, left);
      var d := |c'.all| - |c.all|;
      && d >= 0
      && (stop == Full ==> c.isOpen && c'.free == 0 && d < left)
      && (stop == Gone <==> !c.isOpen && left > 0)
      && (stop == Idle ==> d == left || (c'.free > 0 && (d >= |runs| || runs[d] == 0 || rx' == [])))
    decreases left
  {
    if left > 0 && c.isOpen && c.free > 0 {
      var n := if runs == [] then 0 else Min(runs[0], |rx|);
      if n > 0 {
        DeliveredUntil(rx[n..], Put(c, rx[..n]), runs[1..], left - 1);
      }
    }
  }

  lemma {:induction false} PumpedOk(e: TcpEntry, k: Socket, turn: TcpTurn)
    requires StreamOk(e, k)
    ensures var (f, l) := Pumped(e, k, turn); StreamOk(f, l) && f.handed == e.handed && k.accepted <= l.accepted
  {
    var n := SendCount(e, turn);
    var (f, l) := Pumped(e, k, turn);
    assert (k.accepted + e.pending[..n]) + e.pending[n..] == k.accepted + (e.pending[..n] + e.pending[n..]);
    assert e.pending[..n] + e.pending[n..] == e.pending;
    assert l.accepted + f.pending == f.handed;
    assert f.pending == [] ==> l.accepted + [] == l.accepted;
    hide Concat;
  }

  lemma {:induction false} DeliveredOk(f: TcpEntry, l: Socket, runs: seq<nat>)
    requires StreamOk(f, l)
    ensures var (rx, c, stop) := Delivered(l.rx, f.toApp, runs, MAX_RECV_CHUNKS);
      StreamOk(f.(toApp := c), Wound(l.(rx := rx), stop))
  {
    DeliveredConserves(l.rx, f.toApp, runs, MAX_RECV_CHUNKS);
    hide Delivered, Concat;
  }

  /** What a turn does to an entry that stays: the stream is conserved, and a half-close is only ever
      passed on when everything handed in has been accepted. */
  lemma {:induction false} TurnConserves(e: TcpEntry, k: Socket, turn: TcpTurn)
    requires StreamOk(e, k)
    ensures var (f, l) := Pumped(e, k, turn);
      var (rx, c, stop) := Delivered(l.rx, f.toApp, turn.runs, MAX_RECV_CHUNKS);
      && StreamOk(f.(toApp := c), Wound(l.(rx := rx), stop))
      && f.handed == e.handed && k.accepted <= l.accepted
  {
    PumpedOk(e, k, turn);
    PumpedShape(e, k, turn);
    hide Pumped, Delivered, Wound, StreamOk;
    var (f, l) := Pumped(e, k, turn);
    DeliveredOk(f, l, turn.runs);
  }

  lemma {:induction false} NoteShape(e: TcpEntry, phase: Phase)
    ensures var f := NoteEstablished(e, phase);
      f == e.(established := f.established, resp := f.resp, rxHeld := f.rxHeld, toApp := e.toApp.(isOpen := f.toApp.isOpen))
    ensures e.established ==> NoteEstablished(e, phase) == e
  {
  }

  lemma {:induction false} TurnedShape(s: State, id: nat, turn: TcpTurn)
    requires HandlesOk(s) && id in s.tcp
    ensures var t, h := TcpTurned(s, id, turn).0, s.tcp[id].handle;
      var e := NoteEstablished(s.tcp[id], s.sockets[h].phase);
      && t.udp == s.udp && t.asked == s.asked && t.nextId == s.nextId && t.nextPort == s.nextPort
      && (if id in t.tcp
          then t.tcp == s.tcp[id := t.tcp[id]] && h in t.sockets && t.sockets == s.sockets[h := t.sockets[h]] && t.sockets[h].TcpSock?
               && t.tcp[id] == e.(pending := t.tcp[id].pending, toApp := t.tcp[id].toApp)
               && t.tcp[id].toApp.isOpen == e.toApp.isOpen
               && t.replies == s.replies + EstablishedReply(id, s.tcp[id], s.sockets[h].phase)
          else t.tcp == s.tcp - {id} && t.sockets == s.sockets - {h}
               && t.replies == s.replies + EstablishedReply(id, s.tcp[id], s.sockets[h].phase)
                    + (if NeverOpened(e, s.sockets[h].phase) then RefusedReply(e) else [])
               && (NeverOpened(e, s.sockets[h].phase) || e.established))
  {
    var h := s.tcp[id].handle;
    var k := s.sockets[h];
    var e := NoteEstablished(s.tcp[id], k.phase);
    NoteShape(s.tcp[id], k.phase);
    PumpedShape(e, k, turn);
    var (f, l) := Pumped(e, k, turn);
    DeliveredConserves(l.rx, f.toApp, turn.runs, MAX_RECV_CHUNKS);
  }

  lemma {:induction false} TurnHandles(s: State, id: nat, turn: TcpTurn)
    requires HandlesOk(s) && id in s.tcp
    ensures HandlesOk(TcpTurned(s, id, turn).0)
  {
    TurnedShape(s, id, turn);
    NoteShape(s.tcp[id], s.sockets[s.tcp[id].handle].phase);
    hide TcpTurned, NoteEstablished, EstablishedReply;
    HandlesKept(s, TcpTurned(s, id, turn).0, id);
  }

  /** Replacing or removing one TCP entry together with its socket keeps the tables in agreement. */
  lemma {:induction false} HandlesKept(s: State, t: State, id: nat)
    requires HandlesOk(s) && id in s.tcp && t.udp == s.udp
    requires var h := s.tcp[id].handle;
      if id in t.tcp
      then t.tcp == s.tcp[id := t.tcp[id]] && t.tcp[id].handle == h && h in t.sockets
           && t.sockets == s.sockets[h := t.sockets[h]] && t.sockets[h].TcpSock?
      else t.tcp == s.tcp - {id} && t.sockets == s.sockets - {h}
    ensures HandlesOk(t)
  {
    assert Attached(s, id);
    forall a | a in t.tcp ensures Attached(t, a) && a !in t.udp {
      assert Attached(s, a);
    }
    forall a | a in t.udp ensures UdpAttached(t, a) {
      assert UdpAttached(s, a);
    }
    forall g | g in t.sockets ensures Owned(t, g) {
      assert Owned(s, g);
      if a :| TcpOwns(s, a, g) {
        assert TcpOwns(t, a, g);
      } else {
        var a :| UdpOwns(s, a, g);
        assert UdpOwns(t, a, g);
      }
    }
  }

  lemma {:induction false} TurnStreams(s: State, id: nat, turn: TcpTurn)
    requires HandlesOk(s) && StreamsOk(s) && id in s.tcp
    ensures StreamsOk(TcpTurned(s, id, turn).0)
  {
    var t, h := TcpTurned(s, id, turn).0, s.tcp[id].handle;
    var k := s.sockets[h];
    var e := NoteEstablished(s.tcp[id], k.phase);
    TurnedShape(s, id, turn);
    NoteShape(s.tcp[id], k.phase);
    TurnConserves(e, k, turn);
    PumpedShape(e, k, turn);
    if id in t.tcp {
      assert StreamOk(t.tcp[id], t.sockets[h]);
    }
    hide TcpTurned, NoteEstablished, EstablishedReply, Pumped, Delivered, Wound, StreamOk, DatagramsOk;
    StreamsKept(s, t, id);
  }

  /** Only the socket at `h` may differ. */
  ghost predicate SocketsBut(s: State, t: State, h: nat) {
    forall g :: g != h ==> (g in s.sockets <==> g in t.sockets) && (g in s.sockets ==> t.sockets[g] == s.sockets[g])
  }

  lemma {:induction false} TcpStays(s: State, t: State, h: nat, a: nat)
    requires StreamsOk(s) && SocketsBut(s, t, h) && a in s.tcp && a in t.tcp && t.tcp[a] == s.tcp[a] && s.tcp[a].handle != h
    ensures TcpFlows(t, a)
  {
    hide StreamOk, DatagramsOk;
    assert TcpFlows(s, a);
  }

  lemma {:induction false} UdpStays(s: State, t: State, h: nat, a: nat)
    requires StreamsOk(s) && SocketsBut(s, t, h) && a in s.udp && a in t.udp && t.udp[a] == s.udp[a] && s.udp[a].handle != h
    ensures UdpFlows(t, a)
  {
    hide StreamOk, DatagramsOk;
    assert UdpFlows(s, a);
  }

  /** No two entries have one handle. */
  lemma {:induction false} HandlesApart(s: State, a: nat, b: nat)
    requires HandlesOk(s)
    ensures a in s.tcp && b in s.tcp && a != b ==> s.tcp[a].handle != s.tcp[b].handle
    ensures a in s.udp && b in s.udp && a != b ==> s.udp[a].handle != s.udp[b].handle
    ensures a in s.tcp && b in s.udp ==> s.tcp[a].handle != s.udp[b].handle
  {
    if a in s.tcp && b in s.udp {
      assert Attached(s, a) && UdpAttached(s, b);
    }
  }

  lemma {:induction false} StreamsIntro(t: State)
    requires (forall a :: a in t.tcp ==> TcpFlows(t, a)) && (forall a :: a in t.udp ==> UdpFlows(t, a))
    ensures StreamsOk(t)
  {
    hide TcpFlows, UdpFlows;
  }

  lemma {:induction false} FlowsBy(t: State, id: nat)
    ensures id in t.tcp && t.tcp[id].handle in t.sockets && StreamOk(t.tcp[id], t.sockets[t.tcp[id].handle]) ==> TcpFlows(t, id)
    ensures id in t.udp && t.udp[id].handle in t.sockets && DatagramsOk(t.udp[id], t.sockets[t.udp[id].handle]) ==> UdpFlows(t, id)
  {
  }

  lemma {:induction false} OneSocket(s: State, t: State, h: nat)
    requires (h in t.sockets && t.sockets == s.sockets[h := t.sockets[h]]) || t.sockets == s.sockets - {h}
    ensures SocketsBut(s, t, h)
  {
  }

  /** Replacing or removing one TCP entry together with its socket leaves every other stream alone. */
  lemma {:induction false} StreamsKept(s: State, t: State, id: nat)
    requires HandlesOk(s) && StreamsOk(s) && id in s.tcp && t.udp == s.udp
    requires var h := s.tcp[id].handle;
      if id in t.tcp
      then t.tcp == s.tcp[id := t.tcp[id]] && t.tcp[id].handle == h && h in t.sockets
           && t.sockets == s.sockets[h := t.sockets[h]] && StreamOk(t.tcp[id], t.sockets[h])
      else t.tcp == s.tcp - {id} && t.sockets == s.sockets - {h}
    ensures StreamsOk(t)
  {
    hide *;
    var h := s.tcp[id].handle;
    OneSocket(s, t, h);
    forall a | a in t.tcp ensures TcpFlows(t, a) {
      if a == id {
        FlowsBy(t, id);
      } else {
        HandlesApart(s, id, a);
        TcpStays(s, t, h, a);
      }
    }
    forall a | a in t.udp ensures UdpFlows(t, a) {
      HandlesApart(s, id, a);
      UdpStays(s, t, h, a);
    }
    StreamsIntro(t);
  }

  /** One entry changes; its opener is answered exactly when it stops waiting. */
  lemma {:induction false} RepliesKept(s: State, t: State, id: nat, answer: Answer)
    requires RepliesOk(s) && id in s.tcp && t.asked == s.asked
    requires if id in t.tcp
      then t.tcp == s.tcp[id := t.tcp[id]] && t.tcp[id].origin == s.tcp[id].origin && OpenerOk(t, t.tcp[id])
           && (t.tcp[id].resp == s.tcp[id].resp || t.tcp[id].resp == None)
      else t.tcp == s.tcp - {id}
    requires t.replies == s.replies
      + (if s.tcp[id].resp.Some? && (id in t.tcp ==> t.tcp[id].resp.None?) then [(s.tcp[id].resp.value, answer)] else [])
    ensures RepliesOk(t)
  {
    assert OpenerOk(s, s.tcp[id]);
    forall a | a in t.tcp ensures OpenerOk(t, t.tcp[a]) {
      assert a in s.tcp && OpenerOk(s, s.tcp[a]);
    }
    AnswersKept(s, t, id);
  }

  /** An opener's answer is the first for its request, and ends its wait. */
  lemma {:induction false} AnswersKept(s: State, t: State, id: nat)
    requires RepliesOk(s) && id in s.tcp && t.asked == s.asked
    requires forall a :: a in t.tcp ==> a in s.tcp && (t.tcp[a].resp == s.tcp[a].resp || t.tcp[a].resp == None)
    requires forall a :: a in s.tcp && a != id ==> a in t.tcp && t.tcp[a] == s.tcp[a]
    requires var waited := s.tcp[id].resp;
      if waited.Some? && (id in t.tcp ==> t.tcp[id].resp.None?)
      then |t.replies| == |s.replies| + 1 && t.replies[..|s.replies|] == s.replies && t.replies[|s.replies|].0 == waited.value
      else t.replies == s.replies
    ensures AnswersOk(t)
  {
    assert OpenerOk(s, s.tcp[id]);
    var n := |s.replies|;
    assert forall i :: 0 <= i < n ==> t.replies[i] == s.replies[i];
    forall i | 0 <= i < |t.replies| ensures t.replies[i].0 in t.asked && !Waits(t, t.replies[i].0) {
      var req := t.replies[i].0;
      if a :| a in t.tcp && t.tcp[a].resp == Some(req) {
        assert OpenerOk(s, s.tcp[a]) && s.tcp[a].resp == Some(req);
        assert Waits(s, req);
      }
    }
    forall i, j | 0 <= i < j < |t.replies| ensures t.replies[i].0 != t.replies[j].0 {
      if j == n {
        assert Waits(s, t.replies[j].0);
      }
    }
    forall req | req in t.asked ensures Replied(t, req) || Waits(t, req) {
      if Replied(s, req) {
        var i :| 0 <= i < n && s.replies[i].0 == req;
        assert t.replies[i].0 == req;
      } else {
        var a :| a in s.tcp && s.tcp[a].resp == Some(req);
        assert (a in t.tcp && t.tcp[a].resp == Some(req)) || t.replies[n].0 == req;
      }
    }
  }

  lemma {:induction false} TurnReplies(s: State, id: nat, turn: TcpTurn)
    requires HandlesOk(s) && RepliesOk(s) && id in s.tcp
    ensures RepliesOk(TcpTurned(s, id, turn).0)
  {
    var t := TcpTurned(s, id, turn).0;
    TurnedShape(s, id, turn);
    assert OpenerOk(s, s.tcp[id]);
    var phase := s.sockets[s.tcp[id].handle].phase;
    var e := NoteEstablished(s.tcp[id], phase);
    assert OpenerOk(t, e);
    hide TcpTurned;
    var extra := EstablishedReply(id, s.tcp[id], phase);
    if id in t.tcp {
      assert OpenerOk(t, t.tcp[id]);
      RepliesKept(s, t, id, Opened(id));
    } else {
      RepliesKept(s, t, id, if extra != [] then Opened(id) else Refused);
    }
  }

  lemma {:induction false} TurnInv(s: State, id: nat, turn: TcpTurn)
    requires Inv(s) && id in s.tcp
    ensures Inv(TcpTurned(s, id, turn).0)
  {
    TurnedShape(s, id, turn);
    TurnHandles(s, id, turn);
    TurnStreams(s, id, turn);
    TurnReplies(s, id, turn);
    hide TcpTurned, HandlesOk, StreamsOk, RepliesOk;
  }

  /* ---- the other steps ---- */

  lemma {:induction false} UdpDeliveredConserves(inbox: seq<Datagram>, c: Chan<Datagram>, ready: nat, left: nat)
    ensures var (inbox', c', full) := UdpDelivered(inbox, c, ready, left);
      && c'.all + inbox' == c.all + inbox && c.all <= c'.all
      && c'.free + |c'.all| == c.free + |c.all| && c'.isOpen == c.isOpen
    decreases left
  {
    if left > 0 && c.isOpen && c.free > 0 && inbox != [] && ready > 0 {
      UdpDeliveredConserves(inbox[1..], Put(c, inbox[0]), ready - 1, left - 1);
      assert (c.all + [inbox[0]]) + inbox[1..] == c.all + inbox;
    }
  }

  /** One UDP entry and its socket change together, or go together. */
  lemma {:induction false} UdpKept(s: State, t: State, id: nat)
    requires Inv(s) && id in s.udp && t == s.(udp := t.udp, sockets := t.sockets)
    requires var h := s.udp[id].handle;
      if id in t.udp
      then t.udp == s.udp[id := t.udp[id]] && t.udp[id].handle == h && h in t.sockets
           && t.sockets == s.sockets[h := t.sockets[h]] && DatagramsOk(t.udp[id], t.sockets[h])
      else t.udp == s.udp - {id} && t.sockets == s.sockets - {h}
    ensures Inv(t)
  {
    assert id in t.udp ==> t.sockets[s.udp[id].handle].UdpSock?;
    hide HandlesOk, StreamsOk, RepliesOk, StreamOk, DatagramsOk;
    UdpHandlesKept(s, t, id);
    UdpStreamsKept(s, t, id);
    RepliesSame(s, t);
  }

  lemma {:induction false} UdpStreamsKept(s: State, t: State, id: nat)
    requires HandlesOk(s) && StreamsOk(s) && id in s.udp && t.tcp == s.tcp
    requires var h := s.udp[id].handle;
      if id in t.udp
      then t.udp == s.udp[id := t.udp[id]] && t.udp[id].handle == h && h in t.sockets
           && t.sockets == s.sockets[h := t.sockets[h]] && DatagramsOk(t.udp[id], t.sockets[h])
      else t.udp == s.udp - {id} && t.sockets == s.sockets - {h}
    ensures StreamsOk(t)
  {
    hide *;
    var h := s.udp[id].handle;
    OneSocket(s, t, h);
    forall a | a in t.tcp ensures TcpFlows(t, a) {
      HandlesApart(s, a, id);
      TcpStays(s, t, h, a);
    }
    forall a | a in t.udp ensures UdpFlows(t, a) {
      if a == id {
        FlowsBy(t, id);
      } else {
        HandlesApart(s, id, a);
        UdpStays(s, t, h, a);
      }
    }
    StreamsIntro(t);
  }

  lemma {:induction false} UdpHandlesKept(s: State, t: State, id: nat)
    requires HandlesOk(s) && id in s.udp && t.tcp == s.tcp
    requires var h := s.udp[id].handle;
      if id in t.udp
      then t.udp == s.udp[id := t.udp[id]] && t.udp[id].handle == h && h in t.sockets
           && t.sockets == s.sockets[h := t.sockets[h]] && t.sockets[h].UdpSock?
      else t.udp == s.udp - {id} && t.sockets == s.sockets - {h}
    ensures HandlesOk(t)
  {
    assert UdpAttached(s, id);
    forall a | a in t.tcp ensures Attached(t, a) && a !in t.udp {
      assert Attached(s, a);
    }
    forall a | a in t.udp ensures UdpAttached(t, a) {
      assert UdpAttached(s, a);
    }
    forall g | g in t.sockets ensures Owned(t, g) {
      assert Owned(s, g);
      if a :| TcpOwns(s, a, g) {
        assert TcpOwns(t, a, g);
      } else {
        var a :| UdpOwns(s, a, g);
        assert UdpOwns(t, a, g);
      }
    }
  }

  lemma {:induction false} RepliesSame(s: State, t: State)
    requires RepliesOk(s) && t.tcp == s.tcp && t.asked == s.asked && t.replies == s.replies
    ensures RepliesOk(t)
  {
    forall id | id in t.tcp ensures OpenerOk(t, t.tcp[id]) {
      assert OpenerOk(s, s.tcp[id]);
    }
    forall i | 0 <= i < |t.replies| ensures !Waits(t, t.replies[i].0) {
      assert !Waits(s, s.replies[i].0);
    }
    forall req | req in t.asked ensures Replied(t, req) || Waits(t, req) {
      assert Replied(s, req) || Waits(s, req);
    }
  }

  lemma {:induction false} UdpTurnInv(s: State, id: nat, ready: nat)
    requires Inv(s) && id in s.udp
    ensures Inv(UdpTurned(s, id, ready).0)
  {
    assert UdpAttached(s, id);
    var e := s.udp[id];
    UdpDeliveredConserves(s.sockets[e.handle].inbox, e.toApp, ready, MAX_RECV_CHUNKS);
    UdpKept(s, UdpTurned(s, id, ready).0, id);
  }

  lemma {:induction false} TouchTables(s: State, id: nat, f: TcpEntry)
    requires HandlesOk(s) && StreamsOk(s) && id in s.tcp && f.handle == s.tcp[id].handle && s.tcp[id].handle in s.sockets
    requires StreamOk(f, s.sockets[s.tcp[id].handle])
    ensures HandlesOk(s.(tcp := s.tcp[id := f])) && StreamsOk(s.(tcp := s.tcp[id := f]))
  {
    assert Attached(s, id);
    hide HandlesOk, StreamsOk, StreamOk;
    var t := s.(tcp := s.tcp[id := f]);
    assert s.sockets == s.sockets[f.handle := s.sockets[f.handle]];
    HandlesKept(s, t, id);
    StreamsKept(s, t, id);
  }

  lemma {:induction false} TouchReplies(s: State, id: nat, f: TcpEntry)
    requires RepliesOk(s) && id in s.tcp
    requires f == s.tcp[id].(pending := f.pending, handed := f.handed, halfClosed := f.halfClosed, toApp := f.toApp)
    requires f.toApp.isOpen ==> s.tcp[id].toApp.isOpen
    ensures RepliesOk(s.(tcp := s.tcp[id := f]))
  {
    var t := s.(tcp := s.tcp[id := f]);
    assert OpenerOk(s, s.tcp[id]) && OpenerOk(t, f);
    hide RepliesOk, OpenerOk;
    assert s.replies + [] == s.replies;
    RepliesKept(s, t, id, Refused);
  }

  /** A TCP entry changes only in what the app does to it. */
  lemma {:induction false} TouchInv(s: State, id: nat, f: TcpEntry)
    requires Inv(s) && id in s.tcp && s.tcp[id].handle in s.sockets
    requires f == s.tcp[id].(pending := f.pending, handed := f.handed, halfClosed := f.halfClosed, toApp := f.toApp)
    requires StreamOk(f, s.sockets[s.tcp[id].handle]) && (f.toApp.isOpen ==> s.tcp[id].toApp.isOpen)
    ensures Inv(s.(tcp := s.tcp[id := f]))
  {
    assert IdsOk(s.(tcp := s.tcp[id := f]));
    hide HandlesOk, StreamsOk, RepliesOk, StreamOk, IdsOk;
    TouchTables(s, id, f);
    TouchReplies(s, id, f);
  }

  lemma {:induction false} PollInv(s: State, h: nat, a: Arrival)
    requires Inv(s) && Enabled(s, Poll(h, a))
    ensures Inv(Step(s, Poll(h, a)))
  {
    assert Owned(s, h);
    if id :| TcpOwns(s, id, h) {
      PollTcpInv(s, id, a);
    } else {
      var id :| UdpOwns(s, id, h);
      PollUdpInv(s, id, a);
    }
  }

  lemma {:induction false} PollTcpInv(s: State, id: nat, a: Arrival)
    requires Inv(s) && id in s.tcp && Enabled(s, Poll(s.tcp[id].handle, a))
    ensures Inv(Step(s, Poll(s.tcp[id].handle, a)))
  {
    hide TcpTurned, UdpTurned, RepliesOk, Concat;
    var h := s.tcp[id].handle;
    var t := Step(s, Poll(h, a));
    assert Attached(s, id);
    var e, k := s.tcp[id], s.sockets[h];
    assert StreamOk(e, k);
    assert (Concat(e.toApp.all) + k.rx) + a.bytes == Concat(e.toApp.all) + (k.rx + a.bytes);
    assert StreamOk(e, PolledSocket(k, a));
    assert s.tcp == s.tcp[id := e];
    hide HandlesOk, StreamsOk, RepliesOk, StreamOk;
    HandlesKept(s, t, id);
    StreamsKept(s, t, id);
    RepliesSame(s, t);
  }

  lemma {:induction false} PollUdpInv(s: State, id: nat, a: Arrival)
    requires Inv(s) && id in s.udp && Enabled(s, Poll(s.udp[id].handle, a))
    ensures Inv(Step(s, Poll(s.udp[id].handle, a)))
  {
    hide TcpTurned, UdpTurned;
    var h := s.udp[id].handle;
    assert UdpAttached(s, id);
    var e, k := s.udp[id], s.sockets[h];
    assert DatagramsOk(e, k);
    assert (e.toApp.all + k.inbox) + a.datagrams == e.toApp.all + (k.inbox + a.datagrams);
    assert s.udp == s.udp[id := e];
    hide Inv;
    UdpKept(s, Step(s, Poll(h, a)), id);
  }

  /** What the app does to an entry. */
  function Touched(e: TcpEntry, ev: Event): TcpEntry
    requires ev.SendTcp? || ev.CloseTcp? || ev.AppTakes? || ev.AppDrops?
  {
    match ev
    case SendTcp(_, data) => e.(pending := e.pending + data, handed := e.handed + data)
    case CloseTcp(_) => e.(halfClosed := true)
    case AppTakes(_) => e.(toApp := Freed(e.toApp))
    case AppDrops(_) => e.(toApp := e.toApp.(isOpen := false))
    case _ => e
  }

  lemma {:induction false} TouchedStream(e: TcpEntry, k: Socket, ev: Event)
    requires StreamOk(e, k) && (ev.SendTcp? || ev.CloseTcp? || ev.AppTakes? || ev.AppDrops?)
    ensures StreamOk(Touched(e, ev), k) && (Touched(e, ev).toApp.isOpen ==> e.toApp.isOpen)
    ensures var f := Touched(e, ev); f == e.(pending := f.pending, handed := f.handed, halfClosed := f.halfClosed, toApp := f.toApp)
  {
    hide Concat;
    if ev.SendTcp? {
      assert k.accepted + (e.pending + ev.data) == (k.accepted + e.pending) + ev.data;
    }
  }

  lemma {:induction false} TouchedStep(s: State, ev: Event)
    requires (ev.SendTcp? || ev.CloseTcp? || ev.AppTakes? || ev.AppDrops?) && ev.id in s.tcp
    ensures Enabled(s, ev) && Step(s, ev) == s.(tcp := s.tcp[ev.id := Touched(s.tcp[ev.id], ev)])
  {
    hide TcpTurned, UdpTurned;
  }

  lemma {:induction false} AttachedStream(s: State, id: nat)
    requires Inv(s) && id in s.tcp
    ensures s.tcp[id].handle in s.sockets && StreamOk(s.tcp[id], s.sockets[s.tcp[id].handle])
  {
    hide StreamOk, RepliesOk;
    assert TcpFlows(s, id);
  }

  lemma {:induction false} AppTcpInv(s: State, e: Event)
    requires Enabled(s, e) && (e.SendTcp? || e.CloseTcp? || e.AppTakes? || e.AppDrops?) && e.id in s.tcp && Inv(s)
    ensures Inv(Step(s, e))
  {
    hide *;
    AttachedStream(s, e.id);
    TouchedStep(s, e);
    TouchedStream(s.tcp[e.id], s.sockets[s.tcp[e.id].handle], e);
    TouchInv(s, e.id, Touched(s.tcp[e.id], e));
  }

  lemma {:induction false} AppUdpInv(s: State, e: Event)
    requires Enabled(s, e) && (e.SendUdp? || e.CloseUdp? || e.AppTakes? || e.AppDrops?) && e.id in s.udp && e.id !in s.tcp && Inv(s)
    ensures Inv(Step(s, e))
  {
    assert UdpAttached(s, e.id);
    var st := s.udp[e.id];
    assert DatagramsOk(st, s.sockets[st.handle]);
    assert s.sockets == s.sockets[st.handle := s.sockets[st.handle]];
    assert s.udp == s.udp[e.id := st];
    hide Inv;
    UdpKept(s, Step(s, e), e.id);
  }

  lemma {:induction false} AppInv(s: State, e: Event)
    requires Inv(s) && Enabled(s, e)
    requires e.SendTcp? || e.CloseTcp? || e.SendUdp? || e.CloseUdp? || e.AppTakes? || e.AppDrops?
    ensures Inv(Step(s, e))
  {
    assert e.id in s.tcp ==> e.id !in s.udp;
    hide HandlesOk, StreamsOk, RepliesOk, IdsOk;
    if e.id in s.tcp {
      if !e.SendUdp? && !e.CloseUdp? {
        AppTcpInv(s, e);
      }
    } else if e.id in s.udp {
      if !e.SendTcp? && !e.CloseTcp? {
        AppUdpInv(s, e);
      }
    }
  }

  /** A new TCP entry with its own socket, waiting for its opener's answer or accepted from a SYN. */
  lemma {:induction false} NewTcpInv(s: State, h: nat, phase: Phase, req: Option<nat>, slots: nat, port: u16)
    requires Inv(s) && h !in s.sockets && (req.Some? ==> req.value !in s.asked) && FIRST_PORT <= port <= LAST_PORT
    ensures Inv(s.(sockets := s.sockets[h := TcpSock(phase, [], [], [], [])], nextId := s.nextId + 1, nextPort := port,
      asked := if req.Some? then s.asked + {req.value} else s.asked,
      tcp := s.tcp[s.nextId := FreshTcp(h, req, slots)]))
  {
    var t := s.(sockets := s.sockets[h := TcpSock(phase, [], [], [], [])], nextId := s.nextId + 1, nextPort := port,
      asked := if req.Some? then s.asked + {req.value} else s.asked,
      tcp := s.tcp[s.nextId := FreshTcp(h, req, slots)]);
    NewTcpEntry(s, t, h);
    assert IdsOk(t);
    hide HandlesOk, StreamsOk, RepliesOk, NewEntry;
    NewSocketTables(s, t, h);
    NewWaiter(s, t, req);
  }

  lemma {:induction false} NewTcpEntry(s: State, t: State, h: nat)
    requires h !in s.sockets && t.udp == s.udp && s.nextId in t.tcp && t.tcp == s.tcp[s.nextId := t.tcp[s.nextId]]
    requires h in t.sockets && t.sockets == s.sockets[h := t.sockets[h]]
    requires exists req, slots :: t.tcp[s.nextId] == FreshTcp(h, req, slots)
    requires exists phase :: t.sockets[h] == TcpSock(phase, [], [], [], [])
    ensures NewEntry(s, t, h)
  {
    assert StreamOk(t.tcp[s.nextId], t.sockets[h]);
    hide StreamOk, DatagramsOk;
  }

  /** A table entry made together with its socket, under the next id. */
  ghost predicate NewEntry(s: State, t: State, h: nat) {
    && h !in s.sockets && h in t.sockets && t.sockets == s.sockets[h := t.sockets[h]]
    && ((t.udp == s.udp && s.nextId in t.tcp && t.tcp == s.tcp[s.nextId := t.tcp[s.nextId]]
         && t.tcp[s.nextId].handle == h && StreamOk(t.tcp[s.nextId], t.sockets[h]))
        || (t.tcp == s.tcp && s.nextId in t.udp && t.udp == s.udp[s.nextId := t.udp[s.nextId]]
            && t.udp[s.nextId].handle == h && DatagramsOk(t.udp[s.nextId], t.sockets[h])))
  }

  lemma {:induction false} HandlesUsed(s: State, a: nat)
    requires StreamsOk(s)
    ensures a in s.tcp ==> s.tcp[a].handle in s.sockets
    ensures a in s.udp ==> s.udp[a].handle in s.sockets
  {
    hide StreamOk, DatagramsOk;
    assert a in s.tcp ==> TcpFlows(s, a);
    assert a in s.udp ==> UdpFlows(s, a);
  }

  lemma {:induction false} NewStreams(s: State, t: State, h: nat)
    requires StreamsOk(s) && IdsOk(s) && NewEntry(s, t, h)
    ensures StreamsOk(t)
  {
    hide StreamsOk, StreamOk, DatagramsOk, TcpFlows, UdpFlows, IdsOk;
    OneSocket(s, t, h);
    hide SocketsBut;
    forall a | a in t.tcp ensures TcpFlows(t, a) {
      HandlesUsed(s, a);
      if a == s.nextId && t.tcp != s.tcp {
        FlowsBy(t, a);
      } else {
        TcpStays(s, t, h, a);
      }
    }
    forall a | a in t.udp ensures UdpFlows(t, a) {
      HandlesUsed(s, a);
      if a == s.nextId && t.udp != s.udp {
        FlowsBy(t, a);
      } else {
        UdpStays(s, t, h, a);
      }
    }
    StreamsIntro(t);
  }

  lemma {:induction false} NewOwners(s: State, t: State, h: nat, g: nat)
    requires HandlesOk(s) && StreamsOk(s) && IdsOk(s) && NewEntry(s, t, h) && g in t.sockets
    ensures Owned(t, g)
  {
    hide StreamOk, DatagramsOk;
    if g == h {
      assert TcpOwns(t, s.nextId, g) || UdpOwns(t, s.nextId, g);
    } else {
      assert Owned(s, g);
      hide HandlesOk;
      if a :| TcpOwns(s, a, g) {
        assert TcpOwns(t, a, g);
      } else {
        var a :| UdpOwns(s, a, g);
        assert UdpOwns(t, a, g);
      }
    }
  }

  lemma {:induction false} NewApart(s: State, t: State, h: nat, a: nat, b: nat)
    requires HandlesOk(s) && StreamsOk(s) && IdsOk(s) && NewEntry(s, t, h)
    ensures a in t.tcp ==> a !in t.udp
    ensures a in t.tcp && b in t.tcp && a != b ==> t.tcp[a].handle != t.tcp[b].handle
    ensures a in t.udp && b in t.udp && a != b ==> t.udp[a].handle != t.udp[b].handle
  {
    HandlesUsed(s, a);
    HandlesUsed(s, b);
    HandlesApart(s, a, b);
    assert a in s.tcp ==> a !in s.udp;
    hide HandlesOk, StreamsOk, StreamOk, DatagramsOk;
  }

  lemma {:induction false} HandlesIntro(t: State)
    requires StreamsOk(t)
    requires forall a :: a in t.tcp ==> a !in t.udp
    requires forall a, b :: a in t.tcp && b in t.tcp && a != b ==> t.tcp[a].handle != t.tcp[b].handle
    requires forall a, b :: a in t.udp && b in t.udp && a != b ==> t.udp[a].handle != t.udp[b].handle
    requires forall g :: g in t.sockets ==> Owned(t, g)
    ensures HandlesOk(t)
  {
    forall a | a in t.tcp ensures Attached(t, a) {
      assert TcpFlows(t, a);
    }
    forall a | a in t.udp ensures UdpAttached(t, a) {
      assert UdpFlows(t, a);
    }
    hide StreamsOk, StreamOk, DatagramsOk, Owned, Attached, UdpAttached;
  }

  lemma {:induction false} NewSocketTables(s: State, t: State, h: nat)
    requires HandlesOk(s) && StreamsOk(s) && IdsOk(s) && NewEntry(s, t, h)
    ensures HandlesOk(t) && StreamsOk(t)
  {
    hide *;
    NewStreams(s, t, h);
    forall a | a in t.tcp ensures a !in t.udp {
      NewApart(s, t, h, a, a);
    }
    forall a, b | a in t.tcp && b in t.tcp && a != b ensures t.tcp[a].handle != t.tcp[b].handle {
      NewApart(s, t, h, a, b);
    }
    forall a, b | a in t.udp && b in t.udp && a != b ensures t.udp[a].handle != t.udp[b].handle {
      NewApart(s, t, h, a, b);
    }
    forall g | g in t.sockets ensures Owned(t, g) {
      NewOwners(s, t, h, g);
    }
    HandlesIntro(t);
  }

  lemma {:induction false} NewWaiter(s: State, t: State, req: Option<nat>)
    requires RepliesOk(s) && IdsOk(s) && (req.Some? ==> req.value !in s.asked)
    requires t.asked == (if req.Some? then s.asked + {req.value} else s.asked) && t.replies == s.replies
    requires s.nextId in t.tcp && t.tcp == s.tcp[s.nextId := t.tcp[s.nextId]]
    requires var e := t.tcp[s.nextId]; e.origin == req && e.resp == req && e.rxHeld && !e.established
    ensures RepliesOk(t)
  {
    forall id | id in t.tcp ensures OpenerOk(t, t.tcp[id]) {
      assert id in s.tcp ==> OpenerOk(s, s.tcp[id]);
    }
    forall a, b | a in t.tcp && b in t.tcp && a != b && t.tcp[a].origin.Some? ensures t.tcp[a].origin != t.tcp[b].origin {
      assert a in s.tcp ==> OpenerOk(s, s.tcp[a]);
      assert b in s.tcp ==> OpenerOk(s, s.tcp[b]);
    }
    forall i | 0 <= i < |t.replies| ensures t.replies[i].0 in t.asked && !Waits(t, t.replies[i].0) {
      assert s.replies[i].0 in s.asked && !Waits(s, s.replies[i].0);
    }
    forall q | q in t.asked ensures Replied(t, q) || Waits(t, q) {
      if req == Some(q) {
        assert t.tcp[s.nextId].resp == Some(q);
      } else if Replied(s, q) {
      } else {
        var a :| a in s.tcp && s.tcp[a].resp == Some(q);
        assert a in t.tcp && t.tcp[a].resp == Some(q);
      }
    }
  }

  /** A request answered at once. */
  lemma {:induction false} NewAnswer(s: State, t: State, req: nat, answer: Answer)
    requires RepliesOk(s) && req !in s.asked && t.tcp == s.tcp
    requires t.asked == s.asked + {req} && t.replies == s.replies + [(req, answer)]
    ensures RepliesOk(t)
  {
    forall id | id in t.tcp ensures OpenerOk(t, t.tcp[id]) {
      assert OpenerOk(s, s.tcp[id]);
    }
    forall a | a in s.tcp ensures s.tcp[a].resp != Some(req) {
      assert OpenerOk(s, s.tcp[a]);
    }
    forall i | 0 <= i < |t.replies| ensures t.replies[i].0 in t.asked && !Waits(t, t.replies[i].0) {
      assert i < |s.replies| ==> !Waits(s, s.replies[i].0);
    }
    forall q | q in t.asked ensures Replied(t, q) || Waits(t, q) {
      if q == req {
        assert t.replies[|s.replies|].0 == q;
      } else if Replied(s, q) {
        var i :| 0 <= i < |s.replies| && s.replies[i].0 == q;
        assert t.replies[i].0 == q;
      } else {
        assert Waits(s, q);
      }
    }
  }

  lemma {:induction false} OpenUdpInv(s: State, req: nat, handle: nat, slots: nat)
    requires Inv(s) && req !in s.asked && handle !in s.sockets
    ensures Inv(OpenUdpStep(s, req, true, handle, slots))
  {
    var t := OpenUdpStep(s, req, true, handle, slots);
    assert DatagramsOk(t.udp[s.nextId], t.sockets[handle]);
    assert NewEntry(s, t, handle);
    assert IdsOk(t);
    hide HandlesOk, StreamsOk, RepliesOk, NewEntry, IdsOk;
    NewAnswer(s, t, req, Opened(s.nextId));
    NewSocketTables(s, t, handle);
  }

  lemma {:induction false} RefusedInv(s: State, t: State, req: nat)
    requires Inv(s) && req !in s.asked
    requires t == s.(nextPort := NextPort(s.nextPort), asked := s.asked + {req}, replies := s.replies + [(req, Refused)])
    ensures Inv(t)
  {
    assert IdsOk(t);
    hide HandlesOk, StreamsOk, RepliesOk, IdsOk;
    NewAnswer(s, t, req, Refused);
    TablesSame(s, t);
  }

  lemma {:induction false} CommandInv(s: State, e: Event)
    requires Inv(s) && Enabled(s, e) && (e.OpenTcp? || e.OpenUdp? || e.AcceptSyn?)
    ensures Inv(Step(s, e))
  {
    var t := Step(s, e);
    assert FIRST_PORT <= s.nextPort <= LAST_PORT;
    hide Inv, TcpTurned, UdpTurned;
    match e
    case AcceptSyn(listens, handle, slots) =>
      if listens {
        NewTcpInv(s, handle, Listen, None, slots, s.nextPort);
      }
    case OpenTcp(req, connects, handle, slots) =>
      if connects {
        NewTcpInv(s, handle, SynSent, Some(req), slots, NextPort(s.nextPort));
      } else {
        RefusedInv(s, t, req);
      }
    case OpenUdp(req, binds, handle, slots) =>
      if binds {
        OpenUdpInv(s, req, handle, slots);
      } else {
        RefusedInv(s, t, req);
      }
  }

  lemma {:induction false} TablesSame(s: State, t: State)
    requires HandlesOk(s) && StreamsOk(s) && t.tcp == s.tcp && t.udp == s.udp && t.sockets == s.sockets
    ensures HandlesOk(t) && StreamsOk(t)
  {
    forall id | id in t.tcp ensures Attached(t, id) {
      assert Attached(s, id);
    }
    forall id | id in t.udp ensures UdpAttached(t, id) {
      assert UdpAttached(s, id);
    }
    forall h | h in t.sockets ensures Owned(t, h) {
      assert Owned(s, h);
      if a :| TcpOwns(s, a, h) {
        assert TcpOwns(t, a, h);
      } else {
        var a :| UdpOwns(s, a, h);
        assert UdpOwns(t, a, h);
      }
    }
  }

  lemma {:induction false} StepInv(s: State, e: Event)
    requires Inv(s) && Enabled(s, e)
    ensures Inv(Step(s, e))
  {
    match e
    case ServiceTcp(id, turn) =>
      hide Inv, TcpTurned;
      TurnInv(s, id, turn);
    case ServiceUdp(id, ready) =>
      hide Inv, UdpTurned;
      UdpTurnInv(s, id, ready);
    case Poll(h, a) =>
      hide Inv, Step;
      PollInv(s, h, a);
    case OpenTcp(_, _, _, _) =>
      hide Inv, Step;
      CommandInv(s, e);
    case OpenUdp(_, _, _, _) =>
      hide Inv, Step;
      CommandInv(s, e);
    case AcceptSyn(_, _, _) =>
      hide Inv, Step;
      CommandInv(s, e);
    case _ =>
      hide Inv, Step;
      AppInv(s, e);
  }

  /* ---- an opener's one answer is the right one ---- */

  /** An established connection's opener holds the connection. */
  ghost predicate GreetedOk(s: State) {
    forall id :: id in s.tcp && s.tcp[id].established && s.tcp[id].origin.Some? ==>
      (s.tcp[id].origin.value, Opened(id)) in s.replies
  }

  lemma {:induction false} TurnGreeted(s: State, id: nat, turn: TcpTurn)
    requires Inv(s) && GreetedOk(s) && id in s.tcp
    ensures GreetedOk(TcpTurned(s, id, turn).0)
  {
    TurnedShape(s, id, turn);
    assert OpenerOk(s, s.tcp[id]);
    var t, was := TcpTurned(s, id, turn).0, s.tcp[id];
    var extra := EstablishedReply(id, was, s.sockets[was.handle].phase);
    forall r | r in s.replies ensures r in t.replies {
      assert r in s.replies + extra;
    }
    if id in t.tcp && t.tcp[id].established && t.tcp[id].origin.Some? && !was.established {
      assert extra == [(was.origin.value, Opened(id))];
      assert extra[0] in t.replies;
    }
  }

  lemma {:induction false} GreetedCarries(s: State, t: State)
    requires GreetedOk(s) && s.replies <= t.replies
    requires forall id :: id in t.tcp && t.tcp[id].established ==>
      id in s.tcp && s.tcp[id].established && s.tcp[id].origin == t.tcp[id].origin
    ensures GreetedOk(t)
  {
    forall r | r in s.replies ensures r in t.replies {
      assert t.replies == s.replies + t.replies[|s.replies|..];
    }
  }

  /** Only a service turn establishes an entry. */
  lemma {:induction false} StepEstablishes(s: State, e: Event)
    requires Enabled(s, e) && !e.ServiceTcp?
    ensures var t := Step(s, e); s.replies <= t.replies
    ensures var t := Step(s, e); forall id :: id in t.tcp && t.tcp[id].established ==>
      id in s.tcp && s.tcp[id].established && s.tcp[id].origin == t.tcp[id].origin
  {
    hide TcpTurned;
  }

  lemma {:induction false} StepGreeted(s: State, e: Event)
    requires Inv(s) && GreetedOk(s) && Enabled(s, e)
    ensures GreetedOk(Step(s, e))
  {
    if e.ServiceTcp? {
      hide TcpTurned, Inv;
      TurnGreeted(s, e.id, e.turn);
    } else {
      StepEstablishes(s, e);
      hide Step, Inv, Enabled;
      GreetedCarries(s, Step(s, e));
    }
  }

  /* ---- runs ---- */

  predicate Feasible(s: State, events: seq<Event>)
    decreases |events|
  {
    events == [] || (Enabled(s, events[0]) && Feasible(Step(s, events[0]), events[1..]))
  }

  function Run(s: State, events: seq<Event>): State
    requires Feasible(s, events)
    decreases |events|
  {
    if events == [] then s else Run(Step(s, events[0]), events[1..])
  }

  lemma {:induction false} RunInv(s: State, events: seq<Event>)
    requires Inv(s) && GreetedOk(s) && Feasible(s, events)
    ensures Inv(Run(s, events)) && GreetedOk(Run(s, events))
    decreases |events|
  {
    hide Inv, GreetedOk, Step, Enabled;
    if events != [] {
      StepInv(s, events[0]);
      StepGreeted(s, events[0]);
      RunInv(Step(s, events[0]), events[1..]);
    }
  }

  /** Every reachable state: the socket set holds exactly the tables' handles, no two alike; every live
      stream is conserved in both directions and half-closed only when fully accepted; every request is
      waiting unanswered or has exactly one answer. */
  lemma {:induction false} ReachableStates(events: seq<Event>)
    requires Feasible(BOOT, events)
    ensures Inv(Run(BOOT, events)) && GreetedOk(Run(BOOT, events))
  {
    RunInv(BOOT, events);
  }

  /** Nothing but its own turn in the service loop removes a TCP entry. */
  lemma {:induction false} OnlyItsTurnRemoves(s: State, e: Event, id: nat)
    requires Inv(s) && Enabled(s, e) && id in s.tcp && id !in Step(s, e).tcp
    ensures e.ServiceTcp? && e.id == id
  {
    hide Inv, TcpTurned;
    if e.ServiceTcp? && e.id != id {
      TurnLeaves(s, e.id, e.turn, id);
    }
  }

  lemma {:induction false} TurnLeaves(s: State, id: nat, turn: TcpTurn, other: nat)
    requires Inv(s) && id in s.tcp && other in s.tcp && other != id
    ensures other in TcpTurned(s, id, turn).0.tcp
  {
    TurnedShape(s, id, turn);
  }

  lemma {:induction false} RemovedByTurn(s: State, id: nat, turn: TcpTurn)
    requires Inv(s) && GreetedOk(s) && id in s.tcp && s.tcp[id].origin.Some? && id !in TcpTurned(s, id, turn).0.tcp
    ensures var seen := s.tcp[id].established || s.sockets[s.tcp[id].handle].phase == Established;
      (s.tcp[id].origin.value, if seen then Opened(id) else Refused) in TcpTurned(s, id, turn).0.replies
  {
    TurnedShape(s, id, turn);
    assert OpenerOk(s, s.tcp[id]);
    var t, was := TcpTurned(s, id, turn).0, s.tcp[id];
    hide TcpTurned, HandlesOk, StreamsOk, AnswersOk;
    var phase := s.sockets[was.handle].phase;
    var extra := EstablishedReply(id, was, phase);
    var e := NoteEstablished(was, phase);
    var last := if NeverOpened(e, phase) then RefusedReply(e) else [];
    assert t.replies == s.replies + extra + last;
    if was.established {
      assert (was.origin.value, Opened(id)) in s.replies + (extra + last);
      assert s.replies + (extra + last) == t.replies;
    } else if phase == Established {
      assert extra[0] in t.replies;
    } else {
      assert last[0] in t.replies;
    }
  }

  /** A TCP entry leaves the table only when its opener has its one answer: the connection if it was ever
      seen established, a refusal otherwise. */
  lemma {:induction false} RemovedOnlyAnswered(s: State, id: nat, turn: TcpTurn)
    requires Inv(s) && GreetedOk(s) && id in s.tcp && s.tcp[id].origin.Some? && id !in TcpTurned(s, id, turn).0.tcp
    ensures var t, req := TcpTurned(s, id, turn).0, s.tcp[id].origin.value;
      var seen := s.tcp[id].established || s.sockets[s.tcp[id].handle].phase == Established;
      && (req, if seen then Opened(id) else Refused) in t.replies
      && (forall i, j :: 0 <= i < j < |t.replies| ==> t.replies[i].0 != t.replies[j].0)
  {
    TurnReplies(s, id, turn);
    RemovedByTurn(s, id, turn);
    hide TcpTurned, HandlesOk, StreamsOk, GreetedOk, OpenersOk;
  }

  /** A turn gives ids to nothing, and a command gives only the next one. */
  lemma {:induction false} StepIds(s: State, e: Event)
    requires Inv(s) && Enabled(s, e)
    ensures var t := Step(s, e);
      && s.nextId <= t.nextId
      && (forall id :: (id in t.tcp && id !in s.tcp) || (id in t.udp && id !in s.udp) ==> id == s.nextId && t.nextId == s.nextId + 1)
  {
    if e.ServiceTcp? {
      TurnedShape(s, e.id, e.turn);
    }
  }

  /** An id that has been given out and released never names a connection again. */
  lemma {:induction false} IdsNeverReused(s: State, events: seq<Event>, id: nat)
    requires Inv(s) && GreetedOk(s) && Feasible(s, events)
    requires id < s.nextId && id !in s.tcp && id !in s.udp
    ensures id !in Run(s, events).tcp && id !in Run(s, events).udp
    decreases |events|
  {
    hide Inv, GreetedOk, Step, Enabled;
    if events != [] {
      StepInv(s, events[0]);
      StepGreeted(s, events[0]);
      StepIds(s, events[0]);
      IdsNeverReused(Step(s, events[0]), events[1..], id);
    }
  }

  /* ---- a pass of the service loop ---- */

  /** A pass of the service loop is a run of service events, one for every entry still there when its turn comes. */
  lemma {:induction false} ServicePass(s: State, order: seq<nat>, turns: nat -> TcpTurn) returns (events: seq<Event>)
    ensures Feasible(s, events) && Run(s, events) == Serviced(s, order, turns).0
    ensures forall e :: e in events ==> e.ServiceTcp? && e.id in order && e.turn == turns(e.id)
    decreases |order|
  {
    hide TcpTurned;
    if order == [] {
      events := [];
    } else if !Attached(s, order[0]) {
      events := ServicePass(s, order[1..], turns);
    } else {
      var e := ServiceTcp(order[0], turns(order[0]));
      var rest := ServicePass(Step(s, e), order[1..], turns);
      events := [e] + rest;
      assert events[1..] == rest;
    }
  }

  /** A pass keeps everything the stack promises, so that the next one may begin. */
  lemma {:induction false} PassKeeps(s: State, order: seq<nat>, turns: nat -> TcpTurn)
    requires Inv(s) && GreetedOk(s)
    ensures Inv(Serviced(s, order, turns).0) && GreetedOk(Serviced(s, order, turns).0) && HandlesOk(Serviced(s, order, turns).0)
  {
    var events := ServicePass(s, order, turns);
    RunInv(s, events);
    hide HandlesOk, StreamsOk, RepliesOk, GreetedOk, Serviced, Run, Feasible;
  }

  /* ---- ports ---- */

  /** The n-th port handed out. */
  function PortAt(n: nat): u16 {
    if n == 0 then FIRST_PORT else NextPort(PortAt(n - 1))
  }

  const PORTS: nat := LAST_PORT - FIRST_PORT + 1

  lemma {:induction false} PortIs(n: nat)
    ensures PortAt(n) == FIRST_PORT + n % PORTS
  {
    if n > 0 {
      PortIs(n - 1);
    }
  }

  predicate TakesPort(e: Event) {
    e.OpenTcp? || e.OpenUdp?
  }

  /** How many ports a run hands out, to connections that opened or failed. */
  function Allocations(events: seq<Event>): nat {
    if events == [] then 0 else (if TakesPort(events[0]) then 1 else 0) + Allocations(events[1..])
  }

  lemma {:induction false} PortStep(s: State, e: Event)
    requires Enabled(s, e)
    ensures Step(s, e).nextPort == if TakesPort(e) then NextPort(s.nextPort) else s.nextPort
  {
  }

  lemma {:induction false} PortAfter(s: State, events: seq<Event>, n: nat)
    requires Feasible(s, events) && s.nextPort == PortAt(n)
    ensures Run(s, events).nextPort == PortAt(n + Allocations(events))
    decreases |events|
  {
    if events != [] {
      PortStep(s, events[0]);
      hide Step, Enabled;
      PortAfter(Step(s, events[0]), events[1..], if TakesPort(events[0]) then n + 1 else n);
    }
  }

  /** Ports go round the whole range in order: after any run the next one is the first plus the number handed out,
      modulo 15849. */
  lemma {:induction false} PortsGoRound(events: seq<Event>)
    requires Feasible(BOOT, events)
    ensures Run(BOOT, events).nextPort == 49152 + Allocations(events) % 15849
  {
    PortAfter(BOOT, events, 0);
    PortIs(Allocations(events));
  }

  lemma {:induction false} RunAppend(s: State, a: seq<Event>, b: seq<Event>)
    requires Feasible(s, a + b)
    ensures Feasible(s, a) && Feasible(Run(s, a), b) && Run(s, a + b) == Run(Run(s, a), b)
    decreases |a|
  {
    hide Step, Enabled;
    if a == [] {
      assert a + b == b;
    } else {
      assert (a + b)[1..] == a[1..] + b;
      RunAppend(Step(s, a[0]), a[1..], b);
    }
  }

  /** So any 15849 ports handed out one after the other differ. */
  lemma {:induction false} PortsDiffer(before: seq<Event>, between: seq<Event>)
    requires Feasible(BOOT, before + between) && 0 < Allocations(between) < PORTS
    ensures Feasible(BOOT, before) && Run(BOOT, before).nextPort != Run(BOOT, before + between).nextPort
  {
    RunAppend(BOOT, before, between);
    PortAfter(BOOT, before, 0);
    var n, m := Allocations(before), Allocations(between);
    PortAfter(Run(BOOT, before), between, n);
    PortIs(n);
    PortIs(n + m);
    hide Run, Feasible, Allocations, PortAt;
    NoMultiple(n, m);
  }

  lemma {:induction false} NoMultiple(n: nat, m: nat)
    requires 0 < m < PORTS
    ensures n % PORTS != (n + m) % PORTS
  {
    var q, r := n / PORTS, n % PORTS;
    assert n == q * PORTS + r;
  }
}

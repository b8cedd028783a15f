/** The userspace TCP/UDP stack's bookkeeping (netstack.rs). The smoltcp sockets are abstract: a phase,
    a send side that accepts some prefix of what it is offered, and a receive queue. */
module NetStack {
  import opened Bytes

  const MAX_RECV_CHUNKS: nat := 128
  const FIRST_PORT: u16 := 49152
  const LAST_PORT: u16 := 65000

  type Datagram = seq<byte>

  datatype Phase = Closed | Listen | SynSent | SynReceived | Established | FinWait1 | FinWait2 | CloseWait | Closing | LastAck | TimeWait

  /** Why a socket was closed; a half-close remembers what the app had handed in and what the socket had taken. */
  datatype Close = HalfClose(handed: seq<byte>, accepted: seq<byte>) | AppGone | PeerClosed

  /** `accepted` and `received` are the whole history of the socket; `rx` is what is still queued in it. */
  datatype Socket =
    | TcpSock(phase: Phase, accepted: seq<byte>, rx: seq<byte>, received: seq<byte>, closes: seq<Close>)
    | UdpSock(out: seq<Datagram>, inbox: seq<Datagram>, arrived: seq<Datagram>)

  /** The bounded channel to the app: everything ever put in, and how many slots are free. */
  datatype Chan<T> = Chan(isOpen: bool, free: nat, all: seq<T>)

  datatype TcpEntry = TcpEntry(
    handle: nat,
    origin: Option<nat>,
    resp: Option<nat>,
    rxHeld: bool,
    pending: seq<byte>,
    established: bool,
    halfClosed: bool,
    toApp: Chan<seq<byte>>,
    handed: seq<byte>)

  datatype UdpEntry = UdpEntry(handle: nat, toApp: Chan<Datagram>)

  datatype Answer = Opened(id: nat) | Refused

  /** Requests are numbered; `asked` holds those issued and `replies` what their one-shot channels got. */
  datatype State = State(
    tcp: map<nat, TcpEntry>,
    udp: map<nat, UdpEntry>,
    sockets: map<nat, Socket>,
    nextId: nat,
    nextPort: u16,
    asked: set<nat>,
    replies: seq<(nat, Answer)>)

  const BOOT: State := State(map[], map[], map[], 1, FIRST_PORT, {}, [])

  function NextPort(port: u16): u16 {
    if port >= LAST_PORT then FIRST_PORT else port + 1
  }

  /** smoltcp's close. */
  function ClosedPhase(p: Phase): Phase {
    match p
    case Listen => Closed
    case SynSent => Closed
    case SynReceived => FinWait1
    case Established => FinWait1
    case CloseWait => LastAck
    case other => other
  }

  function CloseSocket(k: Socket, cause: Close): Socket
    requires k.TcpSock?
  {
    k.(phase := ClosedPhase(k.phase), closes := k.closes + [cause])
  }

  function FreshTcp(h: nat, req: Option<nat>, slots: nat): TcpEntry {
    TcpEntry(h, req, req, true, [], false, false, Chan(true, slots, []), [])
  }

  /* ---- one service turn of a TCP entry ---- */

  /** What the socket answers during the turn: whether and how much it takes, and the runs it hands out. */
  datatype TcpTurn = TcpTurn(canSend: bool, takes: nat, runs: seq<nat>)

  /** First sight of the Established phase. The tuple pattern takes the held receiver even when there is
      no opener to give it to, so a connection accepted from a SYN loses its channel here. */
  function NoteEstablished(e: TcpEntry, phase: Phase): TcpEntry {
    if e.established || phase != Established then e
    else e.(established := true, resp := None, rxHeld := false,
            toApp := if e.rxHeld && e.resp.None? then e.toApp.(isOpen := false) else e.toApp)
  }

  function EstablishedReply(id: nat, e: TcpEntry, phase: Phase): seq<(nat, Answer)> {
    if !e.established && phase == Established && e.rxHeld && e.resp.Some? then [(e.resp.value, Opened(id))] else []
  }

  function RefusedReply(e: TcpEntry): seq<(nat, Answer)> {
    if e.resp.Some? then [(e.resp.value, Refused)] else []
  }

  function NeverOpened(e: TcpEntry, phase: Phase): bool {
    !e.established && (phase == Closed || phase == TimeWait)
  }

  function SendCount(e: TcpEntry, turn: TcpTurn): nat {
    if turn.canSend then Min(turn.takes, |e.pending|) else 0
  }

  function Pumped(e: TcpEntry, k: Socket, turn: TcpTurn): (TcpEntry, Socket)
    requires k.TcpSock?
  {
    var n := SendCount(e, turn);
    var f, l := e.(pending := e.pending[n..]), k.(accepted := k.accepted + e.pending[..n]);
    (f, if f.halfClosed && f.pending == [] then CloseSocket(l, HalfClose(f.handed, l.accepted)) else l)
  }

  datatype Stop = Idle | Full | Gone

  function Put<T>(c: Chan<T>, item: T): Chan<T>
    requires c.free > 0
  {
    c.(free := c.free - 1, all := c.all + [item])
  }

  /** The receive loop: a slot is reserved before anything leaves the socket. */
  function Delivered(rx: seq<byte>, c: Chan<seq<byte>>, runs: seq<nat>, left: nat): (seq<byte>, Chan<seq<byte>>, Stop)
    decreases left
  {
    if left == 0 then (rx, c, Idle)
    else if !c.isOpen then (rx, c, Gone)
    else if c.free == 0 then (rx, c, Full)
    else
      var n := if runs == [] then 0 else Min(runs[0], |rx|);
      if n == 0 then (rx, c, Idle) else Delivered(rx[n..], Put(c, rx[..n]), runs[1..], left - 1)
  }

  lemma {:induction false} DeliverMore(rx: seq<byte>, c: Chan<seq<byte>>, runs: seq<nat>, left: nat, n: nat)
    requires left > 0 && c.isOpen && c.free > 0 && runs != [] && n == Min(runs[0], |rx|) > 0
    ensures Delivered(rx, c, runs, left) == Delivered(rx[n..], Put(c, rx[..n]), runs[1..], left - 1)
  {
  }

  lemma {:induction false} DeliverStops(rx: seq<byte>, c: Chan<seq<byte>>, runs: seq<nat>, left: nat)
    requires left == 0 || !c.isOpen || c.free == 0 || runs == [] || Min(runs[0], |rx|) == 0
    ensures Delivered(rx, c, runs, left) == (rx, c, if left == 0 then Idle else if !c.isOpen then Gone else if c.free == 0 then Full else Idle)
  {
  }

  /** The last part of a turn: the app going away and the peer closing. */
  function Wound(k: Socket, stop: Stop): Socket
    requires k.TcpSock?
  {
    var g := if stop == Gone then CloseSocket(k, AppGone) else k;
    if g.phase == CloseWait then CloseSocket(g, PeerClosed) else g
  }

  predicate Attached(s: State, id: nat) {
    id in s.tcp && s.tcp[id].handle in s.sockets && s.sockets[s.tcp[id].handle].TcpSock?
  }

  function TcpTurned(s: State, id: nat, turn: TcpTurn): (State, bool)
    requires Attached(s, id)
  {
    var was, k := s.tcp[id], s.sockets[s.tcp[id].handle];
    var e := NoteEstablished(was, k.phase);
    var replies := s.replies + EstablishedReply(id, was, k.phase);
    if NeverOpened(e, k.phase) then
      (s.(tcp := s.tcp - {id}, sockets := s.sockets - {e.handle}, replies := replies + RefusedReply(e)), false)
    else
      var (f, l) := Pumped(e, k, turn);
      var (rx, c, stop) := Delivered(l.rx, f.toApp, turn.runs, MAX_RECV_CHUNKS);
      var wound := Wound(l.(rx := rx), stop);
      if wound.phase == Closed && f.established then
        (s.(tcp := s.tcp - {id}, sockets := s.sockets - {e.handle}, replies := replies), stop == Full)
      else
        (s.(tcp := s.tcp[id := f.(toApp := c)], sockets := s.sockets[e.handle := wound], replies := replies), stop == Full)
  }

  /* ---- one service turn of a UDP entry ---- */

  function UdpDelivered(inbox: seq<Datagram>, c: Chan<Datagram>, ready: nat, left: nat): (seq<Datagram>, Chan<Datagram>, bool)
    decreases left
  {
    if left == 0 || !c.isOpen then (inbox, c, false)
    else if c.free == 0 then (inbox, c, true)
    else if inbox == [] || ready == 0 then (inbox, c, false)
    else UdpDelivered(inbox[1..], Put(c, inbox[0]), ready - 1, left - 1)
  }

  predicate UdpAttached(s: State, id: nat) {
    id in s.udp && s.udp[id].handle in s.sockets && s.sockets[s.udp[id].handle].UdpSock?
  }

  function UdpTurned(s: State, id: nat, ready: nat): (State, bool)
    requires UdpAttached(s, id)
  {
    var e := s.udp[id];
    var k := s.sockets[e.handle];
    var (inbox, c, full) := UdpDelivered(k.inbox, e.toApp, ready, MAX_RECV_CHUNKS);
    (s.(udp := s.udp[id := e.(toApp := c)], sockets := s.sockets[e.handle := k.(inbox := inbox)]), full)
  }

  /* ---- events ---- */

  /** What a poll of the interface may do to one socket: change its phase and queue what arrived. */
  datatype Arrival = TcpArrival(phase: Phase, bytes: seq<byte>) | UdpArrival(datagrams: seq<Datagram>)

  datatype Event =
    | OpenTcp(req: nat, connects: bool, handle: nat, slots: nat)
    | OpenUdp(req: nat, binds: bool, handle: nat, slots: nat)
    | AcceptSyn(listens: bool, handle: nat, slots: nat)
    | SendTcp(id: nat, data: seq<byte>)
    | CloseTcp(id: nat)
    | SendUdp(id: nat, datagram: Datagram, accepted: bool)
    | CloseUdp(id: nat)
    | Poll(handle: nat, arrival: Arrival)
    | ServiceTcp(id: nat, turn: TcpTurn)
    | ServiceUdp(id: nat, ready: nat)
    | AppTakes(id: nat)
    | AppDrops(id: nat)

  /** A command carries a new one-shot channel; a socket set hands out an unused handle. */
  predicate Enabled(s: State, e: Event) {
    match e
    case OpenTcp(req, _, handle, _) => req !in s.asked && handle !in s.sockets
    case OpenUdp(req, _, handle, _) => req !in s.asked && handle !in s.sockets
    case AcceptSyn(_, handle, _) => handle !in s.sockets
    case SendUdp(id, _, _) => id in s.udp ==> UdpAttached(s, id)
    case Poll(handle, arrival) => handle in s.sockets && s.sockets[handle].TcpSock? == arrival.TcpArrival?
    case ServiceTcp(id, _) => Attached(s, id)
    case ServiceUdp(id, _) => UdpAttached(s, id)
    case _ => true
  }

  function OpenTcpStep(s: State, req: nat, connects: bool, handle: nat, slots: nat): State {
    var t := s.(nextPort := NextPort(s.nextPort), asked := s.asked + {req});
    if !connects then t.(replies := s.replies + [(req, Refused)])
    else t.(sockets := s.sockets[handle := TcpSock(SynSent, [], [], [], [])], nextId := s.nextId + 1,
            tcp := s.tcp[s.nextId := FreshTcp(handle, Some(req), slots)])
  }

  function OpenUdpStep(s: State, req: nat, binds: bool, handle: nat, slots: nat): State {
    var t := s.(nextPort := NextPort(s.nextPort), asked := s.asked + {req});
    if !binds then t.(replies := s.replies + [(req, Refused)])
    else t.(sockets := s.sockets[handle := UdpSock([], [], [])], nextId := s.nextId + 1,
            udp := s.udp[s.nextId := UdpEntry(handle, Chan(true, slots, []))],
            replies := s.replies + [(req, Opened(s.nextId))])
  }

  function AcceptSynStep(s: State, listens: bool, handle: nat, slots: nat): State {
    if !listens then s
    else s.(sockets := s.sockets[handle := TcpSock(Listen, [], [], [], [])], nextId := s.nextId + 1,
            tcp := s.tcp[s.nextId := FreshTcp(handle, None, slots)])
  }

  function PolledSocket(k: Socket, a: Arrival): Socket
    requires k.TcpSock? == a.TcpArrival?
  {
    match a
    case TcpArrival(phase, bytes) => k.(phase := phase, rx := k.rx + bytes, received := k.received + bytes)
    case UdpArrival(datagrams) => k.(inbox := k.inbox + datagrams, arrived := k.arrived + datagrams)
  }

  function Freed<T>(c: Chan<T>): Chan<T> {
    c.(free := c.free + 1)
  }

  function Step(s: State, e: Event): State
    requires Enabled(s, e)
  {
    match e
    case OpenTcp(req, connects, handle, slots) => OpenTcpStep(s, req, connects, handle, slots)
    case OpenUdp(req, binds, handle, slots) => OpenUdpStep(s, req, binds, handle, slots)
    case AcceptSyn(listens, handle, slots) => AcceptSynStep(s, listens, handle, slots)
    case SendTcp(id, data) =>
      if id in s.tcp then
        s.(tcp := s.tcp[id := s.tcp[id].(pending := s.tcp[id].pending + data, handed := s.tcp[id].handed + data)])
      else s
    case CloseTcp(id) => if id in s.tcp then s.(tcp := s.tcp[id := s.tcp[id].(halfClosed := true)]) else s
    case SendUdp(id, datagram, accepted) =>
      if id in s.udp && accepted then
        var k := s.sockets[s.udp[id].handle];
        s.(sockets := s.sockets[s.udp[id].handle := k.(out := k.out + [datagram])])
      else s
    case CloseUdp(id) =>
      if id in s.udp then s.(udp := s.udp - {id}, sockets := s.sockets - {s.udp[id].handle}) else s
    case Poll(handle, arrival) => s.(sockets := s.sockets[handle := PolledSocket(s.sockets[handle], arrival)])
    case ServiceTcp(id, turn) => TcpTurned(s, id, turn).0
    case ServiceUdp(id, ready) => UdpTurned(s, id, ready).0
    case AppTakes(id) =>
      if id in s.tcp then s.(tcp := s.tcp[id := s.tcp[id].(toApp := Freed(s.tcp[id].toApp))])
      else if id in s.udp then s.(udp := s.udp[id := s.udp[id].(toApp := Freed(s.udp[id].toApp))])
      else s
    case AppDrops(id) =>
      if id in s.tcp then s.(tcp := s.tcp[id := s.tcp[id].(toApp := s.tcp[id].toApp.(isOpen := false))])
      else if id in s.udp then s.(udp := s.udp[id := s.udp[id].(toApp := s.udp[id].toApp.(isOpen := false))])
      else s
  }

  /* ---- tables and socket set agree ---- */

  /** The sockets are exactly those of the two tables, each table entry has its own, and no id is in both tables. */
  ghost predicate HandlesOk(s: State) {
    && (forall id :: id in s.tcp ==> Attached(s, id) && id !in s.udp)
    && (forall id :: id in s.udp ==> UdpAttached(s, id))
    && (forall a, b :: a in s.tcp && b in s.tcp && a != b ==> s.tcp[a].handle != s.tcp[b].handle)
    && (forall a, b :: a in s.udp && b in s.udp && a != b ==> s.udp[a].handle != s.udp[b].handle)
    && (forall h :: h in s.sockets ==> Owned(s, h))
  }

  predicate TcpOwns(s: State, id: nat, h: nat) {
    id in s.tcp && s.tcp[id].handle == h
  }

  predicate UdpOwns(s: State, id: nat, h: nat) {
    id in s.udp && s.udp[id].handle == h
  }

  ghost predicate Owned(s: State, h: nat) {
    (exists id :: TcpOwns(s, id, h)) || (exists id :: UdpOwns(s, id, h))
  }

  /** The TCP entries in `order`, each given its turn unless an earlier step removed it. */
  function Serviced(s: State, order: seq<nat>, turns: nat -> TcpTurn): (State, bool)
    decreases |order|
  {
    if order == [] then (s, false)
    else if !Attached(s, order[0]) then Serviced(s, order[1..], turns)
    else
      var (t, full) := TcpTurned(s, order[0], turns(order[0]));
      var (u, rest) := Serviced(t, order[1..], turns);
      (u, full || rest)
  }

  /** What an entry held before it was written again, or removed, leaves no trace. */
  lemma {:induction false} Overwritten<V>(m: map<nat, V>, i: nat, first: V, second: V)
    ensures m[i := first][i := second] == m[i := second]
    ensures m[i := first] - {i} == m - {i}
  {
  }

  /* ---- the stack's own fields ---- */

  class Stack {
    var tcp: map<nat, TcpEntry>
    var udp: map<nat, UdpEntry>
    var sockets: map<nat, Socket>
    var nextId: nat
    var nextPort: u16
    var asked: set<nat>
    var replies: seq<(nat, Answer)>

    ghost function View(): State
      reads this
    {
      State(tcp, udp, sockets, nextId, nextPort, asked, replies)
    }

    constructor ()
      ensures View() == BOOT
    {
      tcp, udp, sockets, nextId, nextPort, asked, replies := map[], map[], map[], 1, FIRST_PORT, {}, [];
    }

    method AllocPort() returns (port: u16)
      modifies this`nextPort
      ensures port == old(nextPort) && nextPort == NextPort(port)
    {
      port := nextPort;
      nextPort := if port >= LAST_PORT then FIRST_PORT else port + 1;
    }

    /** Cmd::OpenTcp and Cmd::OpenUdp; the socket answers whether it could connect or bind. */
    method HandleCmd(e: Event)
      requires (e.OpenTcp? || e.OpenUdp?) && Enabled(View(), e)
      modifies this
      ensures View() == Step(old(View()), e)
    {
      var localPort := AllocPort();
      asked := asked + {e.req};
      if (e.OpenTcp? && !e.connects) || (e.OpenUdp? && !e.binds) {
        replies := replies + [(e.req, Refused)];
        return;
      }
      var id := nextId;
      nextId := nextId + 1;
      if e.OpenTcp? {
        sockets := sockets[e.handle := TcpSock(SynSent, [], [], [], [])];
        tcp := tcp[id := TcpEntry(e.handle, Some(e.req), Some(e.req), true, [], false, false, Chan(true, e.slots, []), [])];
      } else {
        sockets := sockets[e.handle := UdpSock([], [], [])];
        udp := udp[id := UdpEntry(e.handle, Chan(true, e.slots, []))];
        replies := replies + [(e.req, Opened(id))];
      }
    }

    method HandleData(e: Event)
      requires (e.SendTcp? || e.CloseTcp? || e.SendUdp? || e.CloseUdp?) && Enabled(View(), e)
      requires e.CloseUdp? && e.id in udp ==> udp[e.id].handle in sockets
      modifies this
      ensures View() == Step(old(View()), e)
    {
      match e {
        case SendTcp(id, data) =>
          if id in tcp {
            var st := tcp[id];
            tcp := tcp[id := st.(pending := st.pending + data, handed := st.handed + data)];
          }
        case CloseTcp(id) =>
          if id in tcp {
            tcp := tcp[id := tcp[id].(halfClosed := true)];
          }
        case SendUdp(id, datagram, accepted) =>
          if id in udp {
            var k := sockets[udp[id].handle];
            if accepted {
              sockets := sockets[udp[id].handle := k.(out := k.out + [datagram])];
            }
          }
        case CloseUdp(id) =>
          if id in udp {
            sockets := sockets - {udp[id].handle};
            udp := udp - {id};
          }
      }
    }

    /** The receive loop of one entry. */
    method Receive(id: nat, runs: seq<nat>) returns (stop: Stop)
      requires Attached(View(), id)
      modifies this`tcp, this`sockets
      ensures var e := old(tcp)[id];
        var k := old(sockets)[e.handle];
        var (rx, c, s) := Delivered(k.rx, e.toApp, runs, MAX_RECV_CHUNKS);
        stop == s && tcp == old(tcp)[id := e.(toApp := c)] && sockets == old(sockets)[e.handle := k.(rx := rx)]
    {
      hide Delivered;
      var e := tcp[id];
      var k := sockets[e.handle];
      var delivered := 0;
      stop := Idle;
      while delivered < MAX_RECV_CHUNKS
        invariant delivered <= MAX_RECV_CHUNKS && delivered <= |runs|
        invariant tcp == old(tcp)[id := e] && sockets == old(sockets)[e.handle := k]
        invariant k.TcpSock? && e == old(tcp)[id].(toApp := e.toApp) && k == old(sockets)[e.handle].(rx := k.rx)
        invariant Delivered(old(sockets)[e.handle].rx, old(tcp)[id].toApp, runs, MAX_RECV_CHUNKS)
               == Delivered(k.rx, e.toApp, runs[delivered..], MAX_RECV_CHUNKS - delivered)
        invariant stop == Idle
      {
        if !e.toApp.isOpen {
          stop := Gone;
          break;
        }
        if e.toApp.free == 0 {
          stop := Full;
          break;
        }
        var n := if delivered == |runs| then 0 else Min(runs[delivered], |k.rx|);
        if n == 0 {
          break;
        }
        DeliverMore(k.rx, e.toApp, runs[delivered..], MAX_RECV_CHUNKS - delivered, n);
        assert runs[delivered..][1..] == runs[delivered + 1..];
        e := e.(toApp := e.toApp.(free := e.toApp.free - 1, all := e.toApp.all + [k.rx[..n]]));
        k := k.(rx := k.rx[n..]);
        tcp := tcp[id := e];
        sockets := sockets[e.handle := k];
        delivered := delivered + 1;
      }
      DeliverStops(k.rx, e.toApp, runs[delivered..], MAX_RECV_CHUNKS - delivered);
    }

    method CloseTcpSocket(h: nat, cause: Close)
      requires h in sockets && sockets[h].TcpSock?
      modifies this`sockets
      ensures sockets == old(sockets)[h := CloseSocket(old(sockets)[h], cause)]
    {
      var k := sockets[h];
      sockets := sockets[h := k.(phase := ClosedPhase(k.phase), closes := k.closes + [cause])];
    }

    /** First sight of an established connection: the opener gets its one reply. */
    method Greet(id: nat)
      requires Attached(View(), id)
      modifies this`tcp, this`replies
      ensures var was, phase := old(tcp)[id], sockets[old(tcp)[id].handle].phase;
        tcp == old(tcp)[id := NoteEstablished(was, phase)] && replies == old(replies) + EstablishedReply(id, was, phase)
    {
      var st := tcp[id];
      if !st.established && sockets[st.handle].phase == Established {
        if st.resp.Some? && st.rxHeld {
          replies := replies + [(st.resp.value, Opened(id))];
        } else if st.rxHeld && st.resp.None? {
          st := st.(toApp := st.toApp.(isOpen := false));
        }
        tcp := tcp[id := st.(established := true, resp := None, rxHeld := false)];
      }
    }

    /** Offer the pending bytes to the socket, then half-close once none are left. */
    method Pump(id: nat, turn: TcpTurn)
      requires Attached(View(), id)
      modifies this`tcp, this`sockets
      ensures var was, h := old(tcp)[id], old(tcp)[id].handle;
        var (e, k) := Pumped(was, old(sockets)[h], turn);
        tcp == old(tcp)[id := e] && sockets == old(sockets)[h := k]
    {
      var st := tcp[id];
      var h := st.handle;
      var k := sockets[h];
      assert st.pending[0..] == st.pending && k.accepted + st.pending[..0] == k.accepted;
      if turn.canSend && st.pending != [] {
        var sent := Min(turn.takes, |st.pending|);
        sockets := sockets[h := k.(accepted := k.accepted + st.pending[..sent])];
        tcp := tcp[id := st.(pending := st.pending[sent..])];
      }
      if tcp[id].halfClosed && tcp[id].pending == [] {
        CloseTcpSocket(h, HalfClose(tcp[id].handed, sockets[h].accepted));
      }
    }

    method Remove(id: nat)
      requires Attached(View(), id)
      modifies this`tcp, this`sockets
      ensures tcp == old(tcp) - {id} && sockets == old(sockets) - {old(tcp)[id].handle}
    {
      sockets := sockets - {tcp[id].handle};
      tcp := tcp - {id};
    }

    /** After the receive loop: the app gone, the peer closing, the connection over. */
    method WindDown(id: nat, stop: Stop)
      requires Attached(View(), id)
      modifies this`tcp, this`sockets
      ensures var e := old(tcp)[id];
        var k := Wound(old(sockets)[e.handle], stop);
        if k.phase == Closed && e.established
        then tcp == old(tcp) - {id} && sockets == old(sockets) - {e.handle}
        else tcp == old(tcp) && sockets == old(sockets)[e.handle := k]
    {
      var h := tcp[id].handle;
      ghost var k := sockets[h];
      if stop == Gone {
        CloseTcpSocket(h, AppGone);
      }
      var last := sockets[h].phase;
      if last == CloseWait {
        CloseTcpSocket(h, PeerClosed);
      }
      assert sockets == old(sockets)[h := Wound(k, stop)];
      if last == Closed && tcp[id].established {
        Remove(id);
        assert sockets == old(sockets) - {h};
      }
    }

    /** One entry's turn in the service loop. */
    method ServiceEntry(id: nat, turn: TcpTurn) returns (backpressured: bool)
      requires Attached(View(), id)
      modifies this
      ensures (View(), backpressured) == TcpTurned(old(View()), id, turn)
    {
      hide Pumped, Delivered, NoteEstablished, EstablishedReply, RefusedReply, Wound;
      backpressured := false;
      var h := tcp[id].handle;
      var state := sockets[h].phase;
      NoteKeepsHandle(tcp[id], state);
      Greet(id);
      ghost var e := tcp[id];
      if !tcp[id].established && (state == Closed || state == TimeWait) {
        replies := replies + RefusedReply(tcp[id]);
        Remove(id);
        assert tcp == old(tcp) - {id};
        return;
      }
      PumpedShape(e, sockets[h], turn);
      Pump(id, turn);
      ghost var f, l := tcp[id], sockets[h];
      assert tcp == old(tcp)[id := f] && sockets == old(sockets)[h := l];
      var stop := Receive(id, turn.runs);
      backpressured := stop == Full;
      ghost var g, k := tcp[id], sockets[h];
      assert tcp == old(tcp)[id := g] && sockets == old(sockets)[h := k];
      WindDown(id, stop);
      Overwritten(old(tcp), id, g, g);
      Overwritten(old(sockets), h, k, Wound(k, stop));
    }

    /** The service loop: every id in the table when it starts, in no particular order. */
    method ServiceTcp(turns: nat -> TcpTurn) returns (backpressured: bool, ghost order: seq<nat>)
      requires HandlesOk(View())
      modifies this
      ensures (View(), backpressured) == Serviced(old(View()), order, turns)
      ensures forall id :: id in order <==> id in old(tcp)
      ensures forall i, j :: 0 <= i < j < |order| ==> order[i] != order[j]
    {
      var ids := tcp.Keys;
      backpressured, order := false, [];
      while ids != {}
        invariant (View(), backpressured) == Serviced(old(View()), order, turns)
        invariant ids !! (set id | id in order) && ids + (set id | id in order) == old(tcp).Keys
        invariant forall i, j :: 0 <= i < j < |order| ==> order[i] != order[j]
        decreases ids
      {
        var id :| id in ids;
        ids := ids - {id};
        ServicedSnoc(old(View()), order, turns, id);
        order := order + [id];
        if id in tcp && tcp[id].handle in sockets && sockets[tcp[id].handle].TcpSock? {
          var full := ServiceEntry(id, turns(id));
          backpressured := backpressured || full;
        }
      }
    }

    /** One UDP entry's turn. */
    method ServiceUdpEntry(id: nat, ready: nat) returns (backpressured: bool)
      requires UdpAttached(View(), id)
      modifies this`udp, this`sockets
      ensures (View(), backpressured) == UdpTurned(old(View()), id, ready)
    {
      var e := udp[id];
      var k := sockets[e.handle];
      var delivered, left := 0, ready;
      backpressured := false;
      while delivered < MAX_RECV_CHUNKS
        invariant delivered <= MAX_RECV_CHUNKS && !backpressured
        invariant k.UdpSock? && e == old(udp)[id].(toApp := e.toApp) && k == old(sockets)[e.handle].(inbox := k.inbox)
        invariant udp == old(udp)[id := e] && sockets == old(sockets)[e.handle := k]
        invariant UdpDelivered(old(sockets)[e.handle].inbox, old(udp)[id].toApp, ready, MAX_RECV_CHUNKS)
               == UdpDelivered(k.inbox, e.toApp, left, MAX_RECV_CHUNKS - delivered)
      {
        if !e.toApp.isOpen {
          break;
        }
        if e.toApp.free == 0 {
          backpressured := true;
          break;
        }
        if k.inbox == [] || left == 0 {
          break;
        }
        e := e.(toApp := e.toApp.(free := e.toApp.free - 1, all := e.toApp.all + [k.inbox[0]]));
        k := k.(inbox := k.inbox[1..]);
        udp := udp[id := e];
        sockets := sockets[e.handle := k];
        delivered, left := delivered + 1, left - 1;
      }
    }

    /** The SYN branch of the run loop in accept mode. */
    method AcceptConnection(listens: bool, handle: nat, slots: nat)
      requires Enabled(View(), AcceptSyn(listens, handle, slots))
      modifies this
      ensures View() == Step(old(View()), AcceptSyn(listens, handle, slots))
    {
      if listens {
        sockets := sockets[handle := TcpSock(Listen, [], [], [], [])];
        var id := nextId;
        nextId := nextId + 1;
        tcp := tcp[id := TcpEntry(handle, None, None, true, [], false, false, Chan(true, slots, []), [])];
      }
    }
  }

  lemma {:induction false} ServicedSnoc(s: State, order: seq<nat>, turns: nat -> TcpTurn, id: nat)
    ensures var (t, full) := Serviced(s, order, turns);
      Serviced(s, order + [id], turns)
        == if Attached(t, id) then (TcpTurned(t, id, turns(id)).0, full || TcpTurned(t, id, turns(id)).1) else (t, full)
    decreases |order|
  {
    hide TcpTurned;
    if order == [] {
      assert order + [id] == [id] && [id][1..] == [];
    } else {
      assert (order + [id])[1..] == order[1..] + [id];
      ServicedSnoc(if Attached(s, order[0]) then TcpTurned(s, order[0], turns(order[0])).0 else s, order[1..], turns, id);
    }
  }

  lemma {:induction false} NoteKeepsHandle(e: TcpEntry, phase: Phase)
    ensures NoteEstablished(e, phase).handle == e.handle
  {
  }

  lemma {:induction false} PumpedShape(e: TcpEntry, k: Socket, turn: TcpTurn)
    requires k.TcpSock?
    ensures var (f, l) := Pumped(e, k, turn);
      f == e.(pending := f.pending) && l.TcpSock? && l.rx == k.rx && l.received == k.received
  {
  }
}

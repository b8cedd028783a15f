/** The whole queue of gateway candidates, turn by turn (prober.rs, build_candidates). */
module LadderExact {
  import opened Bytes
  import opened Lists
  import opened Ladder

  /** A turn of the source's loops: which of them, its outer round and its inner one. */
  datatype Turn = Turn(part: nat, outer: nat, inner: nat)

  predicate Earlier(a: Turn, b: Turn) {
    a.part < b.part || (a.part == b.part && (a.outer < b.outer || (a.outer == b.outer && a.inner < b.inner)))
  }

  /** Which candidate a turn offers, if any. */
  type Offers = (Turn, Candidate) -> bool

  /** A list is what the turns offer, in order, each turn that offers anything once. */
  ghost predicate TurnsOf(out: seq<Candidate>, turns: seq<Turn>, offers: Offers) {
    && |out| == |turns| && (forall i :: 0 <= i < |turns| ==> offers(turns[i], out[i]))
    && (forall i, j :: 0 <= i < j < |turns| ==> Earlier(turns[i], turns[j]))
    && (forall t, c :: offers(t, c) ==> t in turns)
  }

  ghost predicate AllEarlier(turns: seq<Turn>, t: Turn) {
    forall i :: 0 <= i < |turns| ==> Earlier(turns[i], t)
  }

  lemma {:induction false} OneTurnMore(out: seq<Candidate>, turns: seq<Turn>, offers: Offers, t: Turn, c: Candidate, more: Offers)
    requires TurnsOf(out, turns, offers) && AllEarlier(turns, t)
    requires forall s, d :: more(s, d) <==> offers(s, d) || (s == t && d == c)
    ensures TurnsOf(out + [c], turns + [t], more)
  {
    hide Earlier;
    forall s, d | more(s, d) ensures s in turns + [t] {
      if s == t {
        assert (turns + [t])[|turns|] == t;
      } else {
        assert s in turns;
      }
    }
  }

  lemma {:induction false} TurnsJoin(a: seq<Candidate>, x: seq<Turn>, first: Offers, b: seq<Candidate>, y: seq<Turn>, second: Offers, both: Offers)
    requires TurnsOf(a, x, first) && TurnsOf(b, y, second)
    requires forall i, j :: 0 <= i < |x| && 0 <= j < |y| ==> Earlier(x[i], y[j])
    requires forall s, d :: both(s, d) <==> first(s, d) || second(s, d)
    ensures TurnsOf(a + b, x + y, both)
  {
    hide Earlier;
    var all := x + y;
    forall i, j | 0 <= i < j < |all| ensures Earlier(all[i], all[j]) {
      EarlierJoin(x, y, i, j);
    }
    forall s, d | both(s, d) ensures s in all {
      assert s in x || s in y;
    }
    forall i | 0 <= i < |all| ensures both(all[i], (a + b)[i]) {
      assert if i < |x| then first(x[i], a[i]) else second(y[i - |x|], b[i - |x|]);
    }
  }

  lemma {:induction false} EarlierJoin(x: seq<Turn>, y: seq<Turn>, i: nat, j: nat)
    requires i < j < |x| + |y|
    requires forall k, l :: 0 <= k < l < |x| ==> Earlier(x[k], x[l])
    requires forall k, l :: 0 <= k < l < |y| ==> Earlier(y[k], y[l])
    requires forall k, l :: 0 <= k < |x| && 0 <= l < |y| ==> Earlier(x[k], y[l])
    ensures Earlier((x + y)[i], (x + y)[j])
  {
    hide Earlier;
  }

  lemma {:induction false} SameTurns(out: seq<Candidate>, turns: seq<Turn>, offers: Offers, same: Offers)
    requires TurnsOf(out, turns, offers) && forall s, d :: same(s, d) <==> offers(s, d)
    ensures TurnsOf(out, turns, same)
  {
    hide Earlier;
  }

  lemma {:induction false} NoTurns(out: seq<Candidate>, turns: seq<Turn>, offers: Offers)
    requires out == [] && turns == [] && forall s, d :: !offers(s, d)
    ensures TurnsOf(out, turns, offers)
  {
  }

  /* ---- what each loop offers ---- */

  /** One address a round, on one port. */
  predicate PlainAt(addrs: seq<Addr>, port: u16, t: Turn, c: Candidate) {
    t.part == 0 && t.inner == 0 && t.outer < |addrs| && c == Candidate(addrs[t.outer], port)
  }

  function Plain(addrs: seq<Addr>, port: u16): Offers {
    (t: Turn, c: Candidate) => PlainAt(addrs, port, t, c)
  }

  lemma {:induction false} PlainTurns(addrs: seq<Addr>, port: u16) returns (turns: seq<Turn>)
    ensures TurnsOf(OnPort(addrs, port), turns, Plain(addrs, port))
  {
    turns := [];
    if addrs != [] {
      var front, last: nat := addrs[..|addrs| - 1], |addrs| - 1;
      var before := PlainTurns(front, port);
      hide TurnsOf;
      var t := Turn(0, last, 0);
      turns := before + [t];
      PlainBefore(OnPort(front, port), before, front, port);
      OneTurnMore(OnPort(front, port), before, Plain(front, port), t, Candidate(addrs[last], port), Plain(addrs, port));
    } else {
      NoTurns(OnPort(addrs, port), turns, Plain(addrs, port));
    }
  }

  lemma {:induction false} PlainBefore(out: seq<Candidate>, turns: seq<Turn>, addrs: seq<Addr>, port: u16)
    requires TurnsOf(out, turns, Plain(addrs, port))
    ensures AllEarlier(turns, Turn(0, |addrs|, 0))
  {
    forall i | 0 <= i < |turns| ensures Earlier(turns[i], Turn(0, |addrs|, 0)) {
      assert Plain(addrs, port)(turns[i], out[i]);
    }
  }

  /** One address in round `k`, on every port but the primary one. */
  predicate PortsAt(k: nat, addr: Addr, ports: seq<u16>, primary: u16, t: Turn, c: Candidate) {
    t.part == 1 && t.outer == k && t.inner < |ports| && ports[t.inner] != primary && c == Candidate(addr, ports[t.inner])
  }

  function Ports(k: nat, addr: Addr, ports: seq<u16>, primary: u16): Offers {
    (t: Turn, c: Candidate) => PortsAt(k, addr, ports, primary, t, c)
  }

  lemma {:induction false} PortTurns(k: nat, addr: Addr, ports: seq<u16>, primary: u16) returns (turns: seq<Turn>)
    ensures TurnsOf(OtherPorts(addr, ports, primary), turns, Ports(k, addr, ports, primary))
  {
    turns := [];
    if ports != [] {
      var front, last: nat := ports[..|ports| - 1], |ports| - 1;
      turns := PortTurns(k, addr, front, primary);
      var t, out := Turn(1, k, last), OtherPorts(addr, front, primary);
      PortsBefore(out, turns, k, addr, front, primary);
      hide TurnsOf;
      if ports[last] != primary {
        OneTurnMore(out, turns, Ports(k, addr, front, primary), t, Candidate(addr, ports[last]), Ports(k, addr, ports, primary));
        turns := turns + [t];
      } else {
        SameTurns(out, turns, Ports(k, addr, front, primary), Ports(k, addr, ports, primary));
      }
    } else {
      NoTurns(OtherPorts(addr, ports, primary), turns, Ports(k, addr, ports, primary));
    }
  }

  lemma {:induction false} PortsBefore(out: seq<Candidate>, turns: seq<Turn>, k: nat, addr: Addr, ports: seq<u16>, primary: u16)
    requires TurnsOf(out, turns, Ports(k, addr, ports, primary))
    ensures AllEarlier(turns, Turn(1, k, |ports|))
  {
    forall i | 0 <= i < |turns| ensures Earlier(turns[i], Turn(1, k, |ports|)) {
      assert Ports(k, addr, ports, primary)(turns[i], out[i]);
    }
  }

  /** One address a round, on every port but the primary one. */
  predicate OthersAt(addrs: seq<Addr>, ports: seq<u16>, primary: u16, t: Turn, c: Candidate) {
    t.part == 1 && t.outer < |addrs| && t.inner < |ports| && ports[t.inner] != primary
      && c == Candidate(addrs[t.outer], ports[t.inner])
  }

  function Others(addrs: seq<Addr>, ports: seq<u16>, primary: u16): Offers {
    (t: Turn, c: Candidate) => OthersAt(addrs, ports, primary, t, c)
  }

  lemma {:induction false} OtherTurns(addrs: seq<Addr>, ports: seq<u16>, primary: u16) returns (turns: seq<Turn>)
    ensures TurnsOf(Alternates(addrs, ports, primary), turns, Others(addrs, ports, primary))
  {
    turns := [];
    if addrs != [] {
      var front, last: nat := addrs[..|addrs| - 1], |addrs| - 1;
      var before := OtherTurns(front, ports, primary);
      var now := PortTurns(last, addrs[last], ports, primary);
      turns := before + now;
      hide OtherPorts;
      var a, b := Alternates(front, ports, primary), OtherPorts(addrs[last], ports, primary);
      forall i, j | 0 <= i < |before| && 0 <= j < |now| ensures Earlier(before[i], now[j]) {
        assert Others(front, ports, primary)(before[i], a[i]);
        assert Ports(last, addrs[last], ports, primary)(now[j], b[j]);
      }
      hide TurnsOf;
      TurnsJoin(a, before, Others(front, ports, primary), b, now, Ports(last, addrs[last], ports, primary), Others(addrs, ports, primary));
    } else {
      NoTurns(Alternates(addrs, ports, primary), turns, Others(addrs, ports, primary));
    }
  }

  /** The `k`-th host of every range. */
  predicate HostsAt(part: nat, k: nat, lists: seq<seq<Addr>>, port: u16, t: Turn, c: Candidate) {
    t.part == part && t.outer == k && t.inner < |lists| && k < |lists[t.inner]| && c == Candidate(lists[t.inner][k], port)
  }

  function Hosts(part: nat, k: nat, lists: seq<seq<Addr>>, port: u16): Offers {
    (t: Turn, c: Candidate) => HostsAt(part, k, lists, port, t, c)
  }

  lemma {:induction false} HostTurns(part: nat, k: nat, lists: seq<seq<Addr>>, port: u16) returns (turns: seq<Turn>)
    ensures TurnsOf(Row(lists, k, port), turns, Hosts(part, k, lists, port))
  {
    turns := [];
    if lists != [] {
      var front, last: nat := lists[..|lists| - 1], |lists| - 1;
      turns := HostTurns(part, k, front, port);
      var t, out := Turn(part, k, last), Row(front, k, port);
      HostsBefore(out, turns, part, k, front, port);
      hide TurnsOf;
      if k < |lists[last]| {
        OneTurnMore(out, turns, Hosts(part, k, front, port), t, Candidate(lists[last][k], port), Hosts(part, k, lists, port));
        turns := turns + [t];
      } else {
        SameTurns(out, turns, Hosts(part, k, front, port), Hosts(part, k, lists, port));
      }
    } else {
      NoTurns(Row(lists, k, port), turns, Hosts(part, k, lists, port));
    }
  }

  lemma {:induction false} HostsBefore(out: seq<Candidate>, turns: seq<Turn>, part: nat, k: nat, lists: seq<seq<Addr>>, port: u16)
    requires TurnsOf(out, turns, Hosts(part, k, lists, port))
    ensures AllEarlier(turns, Turn(part, k, |lists|))
  {
    forall i | 0 <= i < |turns| ensures Earlier(turns[i], Turn(part, k, |lists|)) {
      assert Hosts(part, k, lists, port)(turns[i], out[i]);
    }
  }

  /** The hosts of every range, one of each a round, for `n` rounds. */
  predicate SweptAt(part: nat, n: nat, lists: seq<seq<Addr>>, port: u16, t: Turn, c: Candidate) {
    t.part == part && t.outer < n && t.inner < |lists| && t.outer < |lists[t.inner]|
      && c == Candidate(lists[t.inner][t.outer], port)
  }

  function Swept(part: nat, n: nat, lists: seq<seq<Addr>>, port: u16): Offers {
    (t: Turn, c: Candidate) => SweptAt(part, n, lists, port, t, c)
  }

  lemma {:induction false} SweptTurns(part: nat, n: nat, lists: seq<seq<Addr>>, port: u16) returns (turns: seq<Turn>)
    ensures TurnsOf(Sweep(lists, n, port), turns, Swept(part, n, lists, port))
  {
    turns := [];
    if n > 0 {
      var before := SweptTurns(part, n - 1, lists, port);
      var now := HostTurns(part, n - 1, lists, port);
      turns := before + now;
      var a, b := Sweep(lists, n - 1, port), Row(lists, n - 1, port);
      hide Row;
      forall i, j | 0 <= i < |before| && 0 <= j < |now| ensures Earlier(before[i], now[j]) {
        assert Swept(part, n - 1, lists, port)(before[i], a[i]);
        assert Hosts(part, n - 1, lists, port)(now[j], b[j]);
      }
      hide TurnsOf;
      TurnsJoin(a, before, Swept(part, n - 1, lists, port), b, now, Hosts(part, n - 1, lists, port), Swept(part, n, lists, port));
    } else {
      NoTurns(Sweep(lists, n, port), turns, Swept(part, n, lists, port));
    }
  }

  /* ---- all of them ---- */

  datatype Asked = Asked(seeds4: seq<Addr>, seeds6: seq<Addr>, ports: seq<u16>, ip: IpScan, lists4: seq<seq<Addr>>, lists6: seq<seq<Addr>>)

  /** The seeds of the wanted families, v4 first. */
  function Seed(q: Asked, k: nat): Option<Addr> {
    match q.ip
    case OnlyV4 => if k < |q.seeds4| then Some(q.seeds4[k]) else None
    case OnlyV6 => if k < |q.seeds6| then Some(q.seeds6[k]) else None
    case Both =>
      if k < |q.seeds4| then Some(q.seeds4[k])
      else if k - |q.seeds4| < |q.seeds6| then Some(q.seeds6[k - |q.seeds4|])
      else None
  }

  /** The seeds on the first port, or 443 if there is none; every seed on every other port; then the hosts of the v4 ranges and
      of the v6 ranges, one of each range a round. */
  predicate Offering(q: Asked, t: Turn, c: Candidate) {
    var primary := if q.ports == [] then 443 else q.ports[0];
    match t.part
    case 0 => t.inner == 0 && Seed(q, t.outer) == Some(c.addr) && c.port == primary
    case 1 => Seed(q, t.outer) == Some(c.addr) && t.inner < |q.ports| && c.port == q.ports[t.inner] != primary
    case 2 => q.ip != OnlyV6 && c.port == primary && t.inner < |q.lists4| && t.outer < |q.lists4[t.inner]| && c.addr == q.lists4[t.inner][t.outer]
    case 3 => q.ip != OnlyV4 && c.port == primary && t.inner < |q.lists6| && t.outer < |q.lists6[t.inner]| && c.addr == q.lists6[t.inner][t.outer]
    case _ => false
  }

  function OfferingOf(q: Asked): Offers {
    (t: Turn, c: Candidate) => Offering(q, t, c)
  }

  function Either(a: Offers, b: Offers): Offers {
    (t: Turn, c: Candidate) => a(t, c) || b(t, c)
  }

  lemma {:induction false} SeedIs(q: Asked, k: nat)
    ensures Seed(q, k) == var seeds := Wanted(q.seeds4, q.seeds6, q.ip); if k < |seeds| then Some(seeds[k]) else None
  {
  }

  /** A sweep of a wanted family, or nothing. */
  function SweptIf(want: bool, part: nat, lists: seq<seq<Addr>>, port: u16): Offers {
    (t: Turn, c: Candidate) => want && SweptAt(part, Longest(lists), lists, port, t, c)
  }

  lemma {:induction false} SweptIfTurns(want: bool, part: nat, lists: seq<seq<Addr>>, port: u16) returns (turns: seq<Turn>)
    ensures TurnsOf(SweepIf(want, lists, port), turns, SweptIf(want, part, lists, port))
  {
    if want {
      turns := SweptTurns(part, Longest(lists), lists, port);
      hide TurnsOf;
      SameTurns(SweepIf(want, lists, port), turns, Swept(part, Longest(lists), lists, port), SweptIf(want, part, lists, port));
    } else {
      turns := [];
      NoTurns(SweepIf(want, lists, port), turns, SweptIf(want, part, lists, port));
    }
  }

  ghost predicate InPart(turns: seq<Turn>, least: nat, most: nat) {
    forall i :: 0 <= i < |turns| ==> least <= turns[i].part <= most
  }

  lemma {:induction false} PartsApart(x: seq<Turn>, y: seq<Turn>, least: nat, middle: nat, most: nat)
    requires InPart(x, least, middle) && InPart(y, middle + 1, most)
    ensures forall i, j :: 0 <= i < |x| && 0 <= j < |y| ==> Earlier(x[i], y[j])
    ensures least <= middle <= most ==> InPart(x + y, least, most)
  {
  }

  lemma {:induction false} PartIs(out: seq<Candidate>, turns: seq<Turn>, offers: Offers, part: nat)
    requires TurnsOf(out, turns, offers) && forall t, c :: offers(t, c) ==> t.part == part
    ensures InPart(turns, part, part)
  {
    forall i | 0 <= i < |turns| ensures turns[i].part == part {
      assert offers(turns[i], out[i]);
    }
  }

  lemma {:induction false} OfferedTurns(q: Asked) returns (turns: seq<Turn>)
    ensures TurnsOf(Offered(Wanted(q.seeds4, q.seeds6, q.ip), q.ports, q.ip, q.lists4, q.lists6), turns, OfferingOf(q))
  {
    var seeds, p := Wanted(q.seeds4, q.seeds6, q.ip), Primary(q.ports);
    var a, b := OnPort(seeds, p), Alternates(seeds, q.ports, p);
    var c, d := SweepIf(WantV4(q.ip), q.lists4, p), SweepIf(WantV6(q.ip), q.lists6, p);
    var pa, pb := Plain(seeds, p), Others(seeds, q.ports, p);
    var pc, pd := SweptIf(WantV4(q.ip), 2, q.lists4, p), SweptIf(WantV6(q.ip), 3, q.lists6, p);
    var x := PlainTurns(seeds, p);
    var y := OtherTurns(seeds, q.ports, p);
    var z := SweptIfTurns(WantV4(q.ip), 2, q.lists4, p);
    var w := SweptIfTurns(WantV6(q.ip), 3, q.lists6, p);
    hide TurnsOf, InPart, OnPort, Alternates, SweepIf;
    PartIs(a, x, pa, 0);
    PartIs(b, y, pb, 1);
    PartIs(c, z, pc, 2);
    PartIs(d, w, pd, 3);
    PartsApart(x, y, 0, 0, 1);
    PartsApart(x + y, z, 0, 1, 2);
    PartsApart(x + y + z, w, 0, 2, 3);
    TurnsJoin(a, x, pa, b, y, pb, Either(pa, pb));
    TurnsJoin(a + b, x + y, Either(pa, pb), c, z, pc, Either(Either(pa, pb), pc));
    TurnsJoin(a + b + c, x + y + z, Either(Either(pa, pb), pc), d, w, pd, Either(Either(Either(pa, pb), pc), pd));
    turns := x + y + z + w;
    forall t, e ensures OfferingOf(q)(t, e) <==> Either(Either(Either(pa, pb), pc), pd)(t, e) {
      OfferingIs(q, t, e);
    }
    SameTurns(a + b + c + d, turns, Either(Either(Either(pa, pb), pc), pd), OfferingOf(q));
  }

  lemma {:induction false} OfferingIs(q: Asked, t: Turn, c: Candidate)
    ensures var seeds, p := Wanted(q.seeds4, q.seeds6, q.ip), Primary(q.ports);
      Offering(q, t, c) <==>
        || Plain(seeds, p)(t, c) || Others(seeds, q.ports, p)(t, c)
        || SweptIf(WantV4(q.ip), 2, q.lists4, p)(t, c) || SweptIf(WantV6(q.ip), 3, q.lists6, p)(t, c)
  {
    SeedIs(q, t.outer);
    hide Wanted, Seed;
  }

  /** The queue, whole: whatever the turns offer, in their order, each candidate the first time it is offered. */
  lemma {:induction false} QueueExact(q: Asked) returns (offered: seq<Candidate>, turns: seq<Turn>)
    ensures TurnsOf(offered, turns, OfferingOf(q))
    ensures PartOf(Fresh(Offered(Wanted(q.seeds4, q.seeds6, q.ip), q.ports, q.ip, q.lists4, q.lists6), {}), offered,
      (k: nat) => k < |offered| && offered[k] !in offered[..k])
  {
    offered := Offered(Wanted(q.seeds4, q.seeds6, q.ip), q.ports, q.ip, q.lists4, q.lists6);
    turns := OfferedTurns(q);
    FreshPart(offered, {});
    hide Offered, PartOf, TurnsOf, Fresh, Wanted;
    PartSame(Fresh(offered, {}), offered, (k: nat) => NewAt(offered, {}, k), (k: nat) => k < |offered| && offered[k] !in offered[..k]);
  }
}

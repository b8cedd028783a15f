/** The order in which gateway candidates are tried (prober.rs, build_candidates, enumerate_cidr_v4 and prioritize).
    Parsed address ranges and the random samples drawn from them are inputs. */
module Ladder {
  import opened Bytes
  import opened Lists

  const HTTPS: u16 := 443
  const V4_SPACE: nat := 0x1_0000_0000

  datatype Addr = V4(value: nat) | V6(value: nat)

  datatype Candidate = Candidate(addr: Addr, port: u16)

  datatype IpScan = OnlyV4 | OnlyV6 | Both

  /** A parsed v4 range; the prefix length is whatever byte the text gave. */
  datatype Range = Range(base: nat, prefix: byte)

  predicate WantV4(ip: IpScan) {
    ip != OnlyV6
  }

  predicate WantV6(ip: IpScan) {
    ip != OnlyV4
  }

  /* ---- a range, host by host ---- */

  function Pow2(n: nat): (p: nat)
    ensures p > 0 && (n > 0 ==> p % 2 == 0)
  {
    if n == 0 then 1 else 2 * Pow2(n - 1)
  }

  function HostBits(r: Range): nat {
    if r.prefix >= 32 then 0 else 32 - r.prefix
  }

  /** A 32-bit sum wraps. */
  function Host(base: nat, off: nat): Addr {
    V4((base + off) % V4_SPACE)
  }

  function Enumerate(r: Option<Range>): seq<Addr> {
    if r.None? then []
    else
      var bits := HostBits(r.value);
      if bits == 0 then [V4(r.value.base)]
      else if bits > 12 then []
      else seq(Pow2(bits) - 2, i requires 0 <= i => Host(r.value.base, i + 1))
  }

  lemma {:induction false} NoWrap(base: nat, off: nat)
    requires base + off < V4_SPACE
    ensures Host(base, off) == V4(base + off)
  {
  }

  /** The hosts of a range: all but its first and last address, the address itself of a single-host range, and none
      of a range wider than a /20, which is never listed. */
  predicate Usable(r: Range, a: nat) {
    if r.prefix >= 32 then a == r.base else r.prefix >= 20 && r.base < a < r.base + Pow2(HostBits(r)) - 1
  }

  /** A range on its own boundary. */
  predicate Aligned(r: Range) {
    r.base < V4_SPACE && r.base % Pow2(HostBits(r)) == 0 && r.base + Pow2(HostBits(r)) <= V4_SPACE
  }

  /** Of a range on its own boundary every host is listed, once, and nothing else; /31 and shorter than /20 list nothing. */
  lemma {:induction false} EnumerateHosts(r: Range)
    requires Aligned(r)
    ensures var hosts := Enumerate(Some(r));
      && Distinct(hosts) && (forall x :: x in hosts ==> x.V4?)
      && (forall a: nat :: V4(a) in hosts <==> Usable(r, a))
      && |hosts| == if r.prefix < 20 then 0 else if r.prefix < 32 then Pow2(HostBits(r)) - 2 else 1
  {
    var hosts, size := Enumerate(Some(r)), Pow2(HostBits(r));
    if 20 <= r.prefix < 32 {
      forall i | 0 <= i < |hosts| ensures hosts[i] == V4(r.base + i + 1) {
        NoWrap(r.base, i + 1);
      }
      forall a: nat ensures V4(a) in hosts <==> Usable(r, a) {
        if r.base < a < r.base + size - 1 {
          assert hosts[a - r.base - 1] == V4(a);
        }
      }
    }
  }

  /* ---- the queue ---- */

  function OnPort(addrs: seq<Addr>, port: u16): seq<Candidate> {
    if addrs == [] then [] else OnPort(addrs[..|addrs| - 1], port) + [Candidate(addrs[|addrs| - 1], port)]
  }

  function OtherPorts(addr: Addr, ports: seq<u16>, primary: u16): seq<Candidate> {
    if ports == [] then []
    else
      var front, port := OtherPorts(addr, ports[..|ports| - 1], primary), ports[|ports| - 1];
      if port != primary then front + [Candidate(addr, port)] else front
  }

  function Alternates(addrs: seq<Addr>, ports: seq<u16>, primary: u16): seq<Candidate> {
    if addrs == [] then []
    else Alternates(addrs[..|addrs| - 1], ports, primary) + OtherPorts(addrs[|addrs| - 1], ports, primary)
  }

  /** The i-th host of every range that has so many. */
  function Row(lists: seq<seq<Addr>>, i: nat, port: u16): seq<Candidate> {
    if lists == [] then []
    else
      var front, last := Row(lists[..|lists| - 1], i, port), lists[|lists| - 1];
      if i < |last| then front + [Candidate(last[i], port)] else front
  }

  function Sweep(lists: seq<seq<Addr>>, n: nat, port: u16): seq<Candidate> {
    if n == 0 then [] else Sweep(lists, n - 1, port) + Row(lists, n - 1, port)
  }

  function Longest(lists: seq<seq<Addr>>): (n: nat)
    ensures forall i :: 0 <= i < |lists| ==> |lists[i]| <= n
  {
    if lists == [] then 0
    else
      var n, last := Longest(lists[..|lists| - 1]), lists[|lists| - 1];
      if |last| > n then |last| else n
  }

  function HostLists(ranges: seq<Option<Range>>, full: bool, sample: Option<Range> -> seq<Addr>): seq<seq<Addr>> {
    if ranges == [] then []
    else
      var last := ranges[|ranges| - 1];
      HostLists(ranges[..|ranges| - 1], full, sample) + [if full then Enumerate(last) else sample(last)]
  }

  function Primary(ports: seq<u16>): u16 {
    if ports == [] then HTTPS else ports[0]
  }

  function Wanted(seeds4: seq<Addr>, seeds6: seq<Addr>, ip: IpScan): seq<Addr> {
    (if WantV4(ip) then seeds4 else []) + (if WantV6(ip) then seeds6 else [])
  }

  function SweepIf(want: bool, lists: seq<seq<Addr>>, port: u16): seq<Candidate> {
    if want then Sweep(lists, Longest(lists), port) else []
  }

  /** Everything that is offered to the queue, in order, repeats included. */
  function Offered(seeds: seq<Addr>, ports: seq<u16>, ip: IpScan, lists4: seq<seq<Addr>>, lists6: seq<seq<Addr>>): seq<Candidate> {
    OnPort(seeds, Primary(ports)) + Alternates(seeds, ports, Primary(ports))
    + SweepIf(WantV4(ip), lists4, Primary(ports)) + SweepIf(WantV6(ip), lists6, Primary(ports))
  }

  ghost predicate Queued(offered: seq<Candidate>, out: seq<Candidate>, seen: set<Candidate>) {
    out == Fresh(offered, {}) && seen == set c | c in out
  }

  method Offer(c: Candidate, out: seq<Candidate>, seen: set<Candidate>, ghost offered: seq<Candidate>)
    returns (out': seq<Candidate>, seen': set<Candidate>)
    requires Queued(offered, out, seen)
    ensures Queued(offered + [c], out', seen')
  {
    assert (offered + [c])[..|offered|] == offered;
    if c !in seen {
      out', seen' := out + [c], seen + {c};
    } else {
      out', seen' := out, seen;
    }
  }

  method OfferOnPort(addrs: seq<Addr>, port: u16, out0: seq<Candidate>, seen0: set<Candidate>, ghost offered: seq<Candidate>)
    returns (out: seq<Candidate>, seen: set<Candidate>)
    requires Queued(offered, out0, seen0)
    ensures Queued(offered + OnPort(addrs, port), out, seen)
  {
    hide Queued;
    out, seen := out0, seen0;
    assert offered + [] == offered;
    for i := 0 to |addrs|
      invariant Queued(offered + OnPort(addrs[..i], port), out, seen)
    {
      out, seen := Offer(Candidate(addrs[i], port), out, seen, offered + OnPort(addrs[..i], port));
      assert addrs[..i + 1][..i] == addrs[..i];
      assert offered + OnPort(addrs[..i + 1], port) == offered + OnPort(addrs[..i], port) + [Candidate(addrs[i], port)];
    }
    assert addrs[..|addrs|] == addrs;
  }

  lemma {:induction false} NothingAlternates(ports: seq<u16>, primary: u16)
    ensures Alternates([], ports, primary) == []
  {
  }

  lemma {:induction false} NoOtherPorts(addr: Addr, primary: u16)
    ensures OtherPorts(addr, [], primary) == []
  {
  }

  /** One port more, behind what was offered before. */
  lemma {:induction false} OtherPortsSnoc(addr: Addr, ports: seq<u16>, j: nat, primary: u16, before: seq<Candidate>)
    requires j < |ports|
    ensures var now := before + OtherPorts(addr, ports[..j], primary);
      before + OtherPorts(addr, ports[..j + 1], primary) == if ports[j] == primary then now else now + [Candidate(addr, ports[j])]
  {
    assert ports[..j + 1][..j] == ports[..j];
  }

  method OfferAlternates(addrs: seq<Addr>, ports: seq<u16>, primary: u16, out0: seq<Candidate>, seen0: set<Candidate>,
                         ghost offered: seq<Candidate>) returns (out: seq<Candidate>, seen: set<Candidate>)
    requires Queued(offered, out0, seen0)
    ensures Queued(offered + Alternates(addrs, ports, primary), out, seen)
  {
    NothingAlternates(ports, primary);
    hide Queued, Alternates, OtherPorts;
    out, seen := out0, seen0;
    assert offered + [] == offered;
    for i := 0 to |addrs|
      invariant Queued(offered + Alternates(addrs[..i], ports, primary), out, seen)
    {
      ghost var before := offered + Alternates(addrs[..i], ports, primary);
      NoOtherPorts(addrs[i], primary);
      assert before + [] == before;
      for j := 0 to |ports|
        invariant Queued(before + OtherPorts(addrs[i], ports[..j], primary), out, seen)
      {
        OtherPortsSnoc(addrs[i], ports, j, primary, before);
        if ports[j] != primary {
          out, seen := Offer(Candidate(addrs[i], ports[j]), out, seen, before + OtherPorts(addrs[i], ports[..j], primary));
        }
      }
      assert ports[..|ports|] == ports && addrs[..i + 1] == addrs[..i] + [addrs[i]];
      AlternatesSnoc(addrs[..i], addrs[i], ports, primary);
      assert offered + Alternates(addrs[..i + 1], ports, primary) == before + OtherPorts(addrs[i], ports, primary);
    }
    assert addrs[..|addrs|] == addrs;
  }

  method OfferSweep(lists: seq<seq<Addr>>, port: u16, out0: seq<Candidate>, seen0: set<Candidate>,
                    ghost offered: seq<Candidate>) returns (out: seq<Candidate>, seen: set<Candidate>)
    requires Queued(offered, out0, seen0)
    ensures Queued(offered + Sweep(lists, Longest(lists), port), out, seen)
  {
    hide Queued;
    out, seen := out0, seen0;
    assert offered + [] == offered;
    for i := 0 to Longest(lists)
      invariant Queued(offered + Sweep(lists, i, port), out, seen)
    {
      ghost var before := offered + Sweep(lists, i, port);
      assert before + [] == before;
      for j := 0 to |lists|
        invariant Queued(before + Row(lists[..j], i, port), out, seen)
      {
        ghost var now := before + Row(lists[..j], i, port);
        assert lists[..j + 1][..j] == lists[..j];
        if i < |lists[j]| {
          out, seen := Offer(Candidate(lists[j][i], port), out, seen, now);
          assert before + Row(lists[..j + 1], i, port) == now + [Candidate(lists[j][i], port)];
        }
      }
      assert lists[..|lists|] == lists;
      assert offered + Sweep(lists, i + 1, port) == before + Row(lists, i, port);
    }
  }

  method BuildCandidates(seeds4: seq<Addr>, seeds6: seq<Addr>, ports: seq<u16>, ip: IpScan, full: bool,
                         ranges: seq<Option<Range>>, sample: Option<Range> -> seq<Addr>, lists6: seq<seq<Addr>>)
    returns (out: seq<Candidate>)
    ensures out == Fresh(Offered(Wanted(seeds4, seeds6, ip), ports, ip, HostLists(ranges, full, sample), lists6), {})
  {
    hide Fresh, OnPort, Alternates, Sweep, HostLists;
    var primary := Primary(ports);
    var lists4 := HostLists(ranges, full, sample);
    var some4, some6 := if WantV4(ip) then seeds4 else [], if WantV6(ip) then seeds6 else [];
    var seen;
    NothingOffered();
    OnPortAppend(some4, some6, primary);
    AlternatesAppend(some4, some6, ports, primary);
    out, seen := [], {};
    ghost var offered := [];
    out, seen := OfferOnPort(some4, primary, out, seen, offered);
    offered := offered + OnPort(some4, primary);
    out, seen := OfferOnPort(some6, primary, out, seen, offered);
    offered := offered + OnPort(some6, primary);
    out, seen := OfferAlternates(some4, ports, primary, out, seen, offered);
    offered := offered + Alternates(some4, ports, primary);
    out, seen := OfferAlternates(some6, ports, primary, out, seen, offered);
    offered := offered + Alternates(some6, ports, primary);
    assert offered == OnPort(some4 + some6, primary) + Alternates(some4 + some6, ports, primary);
    if WantV4(ip) {
      out, seen := OfferSweep(lists4, primary, out, seen, offered);
    } else {
      assert offered + [] == offered;
    }
    offered := offered + SweepIf(WantV4(ip), lists4, primary);
    if WantV6(ip) {
      out, seen := OfferSweep(lists6, primary, out, seen, offered);
    } else {
      assert offered + [] == offered;
    }
    offered := offered + SweepIf(WantV6(ip), lists6, primary);
  }

  lemma {:induction false} NothingOffered()
    ensures Queued([], [], {})
  {
  }

  lemma {:induction false} OnPortAppend(a: seq<Addr>, b: seq<Addr>, port: u16)
    ensures OnPort(a + b, port) == OnPort(a, port) + OnPort(b, port)
  {
    if b == [] {
      assert a + b == a;
    } else {
      assert (a + b)[..|a + b| - 1] == a + b[..|b| - 1];
      OnPortAppend(a, b[..|b| - 1], port);
    }
  }

  lemma {:induction false} AlternatesAppend(a: seq<Addr>, b: seq<Addr>, ports: seq<u16>, primary: u16)
    ensures Alternates(a + b, ports, primary) == Alternates(a, ports, primary) + Alternates(b, ports, primary)
  {
    if b == [] {
      assert a + b == a;
    } else {
      hide Alternates, OtherPorts;
      var front, last := b[..|b| - 1], b[|b| - 1];
      assert b == front + [last] && a + b == (a + front) + [last];
      AlternatesAppend(a, front, ports, primary);
      AlternatesSnoc(front, last, ports, primary);
      AlternatesSnoc(a + front, last, ports, primary);
    }
  }

  /* ---- what each section offers ---- */

  lemma {:induction false} OnPortMembers(addrs: seq<Addr>, port: u16, c: Candidate)
    ensures c in OnPort(addrs, port) <==> c.port == port && c.addr in addrs
  {
    if addrs != [] {
      OnPortMembers(addrs[..|addrs| - 1], port, c);
      assert addrs == addrs[..|addrs| - 1] + [addrs[|addrs| - 1]];
    }
  }

  lemma {:induction false} OtherPortsMembers(addr: Addr, ports: seq<u16>, primary: u16, c: Candidate)
    ensures c in OtherPorts(addr, ports, primary) <==> c.addr == addr && c.port in ports && c.port != primary
  {
    if ports != [] {
      OtherPortsMembers(addr, ports[..|ports| - 1], primary, c);
      assert ports == ports[..|ports| - 1] + [ports[|ports| - 1]];
    }
  }

  lemma {:induction false} AlternatesMembers(addrs: seq<Addr>, ports: seq<u16>, primary: u16, c: Candidate)
    ensures c in Alternates(addrs, ports, primary) <==> c.addr in addrs && c.port in ports && c.port != primary
  {
    if addrs != [] {
      AlternatesMembers(addrs[..|addrs| - 1], ports, primary, c);
      OtherPortsMembers(addrs[|addrs| - 1], ports, primary, c);
      assert addrs == addrs[..|addrs| - 1] + [addrs[|addrs| - 1]];
    }
  }

  /** Among the first n hosts of some range. */
  ghost predicate Among(lists: seq<seq<Addr>>, n: nat, a: Addr) {
    exists r, i :: 0 <= r < |lists| && 0 <= i < |lists[r]| && i < n && lists[r][i] == a
  }

  lemma {:induction false} RowMembers(lists: seq<seq<Addr>>, i: nat, port: u16, c: Candidate)
    ensures c in Row(lists, i, port) <==> c.port == port && exists r :: 0 <= r < |lists| && i < |lists[r]| && lists[r][i] == c.addr
  {
    if lists != [] {
      var front := lists[..|lists| - 1];
      RowMembers(front, i, port, c);
      assert forall r :: 0 <= r < |front| ==> front[r] == lists[r];
    }
  }

  lemma {:induction false} SweepMembers(lists: seq<seq<Addr>>, n: nat, port: u16, c: Candidate)
    ensures c in Sweep(lists, n, port) <==> c.port == port && Among(lists, n, c.addr)
  {
    if n > 0 {
      SweepMembers(lists, n - 1, port, c);
      RowMembers(lists, n - 1, port, c);
    }
  }

  lemma {:induction false} SweepPrefix(lists: seq<seq<Addr>>, m: nat, n: nat, port: u16) returns (rest: seq<Candidate>)
    requires m <= n
    ensures Sweep(lists, n, port) == Sweep(lists, m, port) + rest
  {
    if m == n {
      rest := [];
    } else {
      rest := SweepPrefix(lists, m, n - 1, port);
      rest := rest + Row(lists, n - 1, port);
    }
  }

  /* ---- the order of the queue ---- */

  /** The three parts of the queue: seeds on the primary port, seeds on the other ports, the sweep. */
  function Lengths(seeds: seq<Addr>, ports: seq<u16>): (nat, nat) {
    var first := OnPort(seeds, Primary(ports));
    (|Fresh(first, {})|, |Fresh(first + Alternates(seeds, ports, Primary(ports)), {})|)
  }

  /** No candidate twice; first every wanted seed on the primary port, then every wanted seed on every other port,
      then swept hosts on the primary port only. */
  lemma {:induction false} QueueOrder(seeds: seq<Addr>, ports: seq<u16>, ip: IpScan, lists4: seq<seq<Addr>>, lists6: seq<seq<Addr>>, c: Candidate)
    ensures var out, k, m := Fresh(Offered(seeds, ports, ip, lists4, lists6), {}), Lengths(seeds, ports).0, Lengths(seeds, ports).1;
      && Distinct(out) && k <= m <= |out|
      && (c in out[..k] <==> c.port == Primary(ports) && c.addr in seeds)
      && (c in out[k..m] <==> c.port in ports && c.port != Primary(ports) && c.addr in seeds)
      && (c in out[m..] <==> c.port == Primary(ports) && c.addr !in seeds && Swept(ip, lists4, lists6, c.addr))
  {
    var p := Primary(ports);
    var a, b := OnPort(seeds, p), Alternates(seeds, ports, p);
    var s4, s6 := SweepIf(WantV4(ip), lists4, p), SweepIf(WantV6(ip), lists6, p);
    assert a + b + s4 + s6 == a + b + (s4 + s6);
    ThreeParts(a, b, s4 + s6, c);
    OnPortMembers(seeds, p, c);
    AlternatesMembers(seeds, ports, p, c);
    SweptMembers(ip, lists4, lists6, p, c);
    hide Fresh, OnPort, Alternates, SweepIf, Swept, Distinct;
  }

  /** A host of some range of a wanted family. */
  ghost predicate Swept(ip: IpScan, lists4: seq<seq<Addr>>, lists6: seq<seq<Addr>>, a: Addr) {
    (WantV4(ip) && Among(lists4, Longest(lists4), a)) || (WantV6(ip) && Among(lists6, Longest(lists6), a))
  }

  lemma {:induction false} SweptMembers(ip: IpScan, lists4: seq<seq<Addr>>, lists6: seq<seq<Addr>>, port: u16, c: Candidate)
    ensures c in SweepIf(WantV4(ip), lists4, port) + SweepIf(WantV6(ip), lists6, port) <==> c.port == port && Swept(ip, lists4, lists6, c.addr)
  {
    SweepMembers(lists4, Longest(lists4), port, c);
    SweepMembers(lists6, Longest(lists6), port, c);
    hide Sweep, Among;
  }

  /** How long the first two parts are: every seed once on the primary port, and once on every port there is. */
  lemma {:induction false} QueueHead(seeds: seq<Addr>, ports: seq<u16>)
    requires Distinct(seeds) && Distinct(ports) && ports != []
    ensures Lengths(seeds, ports) == (|seeds|, |seeds| * |ports|)
  {
    HeadIsDistinct(seeds, ports);
    hide OnPort, Alternates, Primary, Fresh, Distinct;
    var a, b := OnPort(seeds, Primary(ports)), Alternates(seeds, ports, Primary(ports));
    FreshAll(a, {});
    FreshAll(a + b, {});
    TimesPorts(|seeds|, |ports|);
  }

  lemma {:induction false} TimesPorts(n: nat, k: nat)
    requires k > 0
    ensures n + n * (k - 1) == n * k
  {
  }

  lemma {:induction false} HeadIsDistinct(seeds: seq<Addr>, ports: seq<u16>)
    requires Distinct(seeds) && Distinct(ports) && ports != []
    ensures var a, b := OnPort(seeds, Primary(ports)), Alternates(seeds, ports, Primary(ports));
      Distinct(a) && Distinct(a + b) && |a| == |seeds| && |b| == |seeds| * (|ports| - 1)
  {
    hide *;
    OnPortDistinct(seeds, Primary(ports));
    AlternatesDistinct(seeds, ports);
    HeadApart(seeds, ports);
    DistinctJoin(OnPort(seeds, Primary(ports)), Alternates(seeds, ports, Primary(ports)));
  }

  lemma {:induction false} HeadApart(seeds: seq<Addr>, ports: seq<u16>)
    ensures Apart(OnPort(seeds, Primary(ports)), Alternates(seeds, ports, Primary(ports)))
  {
    hide OnPort, Alternates, Primary;
    var p := Primary(ports);
    forall c | c in OnPort(seeds, p) ensures c !in Alternates(seeds, ports, p) {
      OnPortMembers(seeds, p, c);
      AlternatesMembers(seeds, ports, p, c);
    }
  }

  lemma {:induction false} OnPortDistinct(addrs: seq<Addr>, port: u16)
    requires Distinct(addrs)
    ensures Distinct(OnPort(addrs, port)) && |OnPort(addrs, port)| == |addrs|
  {
    if addrs != [] {
      var front, last := addrs[..|addrs| - 1], addrs[|addrs| - 1];
      assert addrs == front + [last];
      DistinctParts(front, [last]);
      OnPortDistinct(front, port);
      OnPortMembers(front, port, Candidate(last, port));
      DistinctJoin(OnPort(front, port), [Candidate(last, port)]);
    }
  }

  lemma {:induction false} OtherPortsDistinct(addr: Addr, ports: seq<u16>, primary: u16)
    requires Distinct(ports)
    ensures Distinct(OtherPorts(addr, ports, primary))
    ensures |OtherPorts(addr, ports, primary)| == |ports| - if primary in ports then 1 else 0
  {
    if ports != [] {
      var front, last := ports[..|ports| - 1], ports[|ports| - 1];
      assert ports == front + [last];
      DistinctParts(front, [last]);
      OtherPortsDistinct(addr, front, primary);
      OtherPortsMembers(addr, front, primary, Candidate(addr, last));
      DistinctJoin(OtherPorts(addr, front, primary), [Candidate(addr, last)]);
    }
  }

  lemma {:induction false} AlternatesDistinct(addrs: seq<Addr>, ports: seq<u16>)
    requires Distinct(addrs) && Distinct(ports) && ports != []
    ensures Distinct(Alternates(addrs, ports, Primary(ports)))
    ensures |Alternates(addrs, ports, Primary(ports))| == |addrs| * (|ports| - 1)
  {
    if addrs != [] {
      hide *;
      var front, last := addrs[..|addrs| - 1], addrs[|addrs| - 1];
      assert addrs == front + [last];
      DistinctParts(front, [last]);
      LastNotIn(front, last);
      AlternatesDistinct(front, ports);
      OneMoreSeed(front, last, ports);
      AlternatesSnoc(front, last, ports, Primary(ports));
      OneMoreTimes(|front|, |ports| - 1);
    }
  }

  lemma {:induction false} LastNotIn<T>(front: seq<T>, last: T)
    requires Apart(front, [last])
    ensures last !in front
  {
    assert last in [last];
  }

  lemma {:induction false} AlternatesSnoc(front: seq<Addr>, last: Addr, ports: seq<u16>, primary: u16)
    ensures Alternates(front + [last], ports, primary) == Alternates(front, ports, primary) + OtherPorts(last, ports, primary)
  {
    hide OtherPorts;
    assert (front + [last])[..|front|] == front;
  }

  lemma {:induction false} OneMoreTimes(n: nat, k: nat)
    ensures (n + 1) * k == n * k + k
  {
  }

  lemma {:induction false} OneMoreSeed(front: seq<Addr>, last: Addr, ports: seq<u16>)
    requires Distinct(ports) && ports != [] && last !in front && Distinct(Alternates(front, ports, Primary(ports)))
    ensures var b := OtherPorts(last, ports, Primary(ports));
      Distinct(Alternates(front, ports, Primary(ports)) + b) && |b| == |ports| - 1
  {
    hide OtherPorts, Alternates, Distinct;
    var p := Primary(ports);
    OtherPortsDistinct(last, ports, p);
    assert p in ports;
    var a, b := Alternates(front, ports, p), OtherPorts(last, ports, p);
    forall c | c in a ensures c !in b {
      AlternatesMembers(front, ports, p, c);
      OtherPortsMembers(last, ports, p, c);
    }
    DistinctJoin(a, b);
  }

  /** The sweep is even: for every n there is a point of it by which exactly the first n hosts of every
      v4 range, and no others, have had their turn. */
  lemma {:induction false} SweepIsEven(seeds: seq<Addr>, ports: seq<u16>, ip: IpScan, lists4: seq<seq<Addr>>, lists6: seq<seq<Addr>>, n: nat)
    returns (k: nat)
    requires WantV4(ip) && n <= Longest(lists4)
    ensures var out, m := Fresh(Offered(seeds, ports, ip, lists4, lists6), {}), Lengths(seeds, ports).1;
      m <= k <= |out| && forall c :: c in out[m..k] <==> c.port == Primary(ports) && c.addr !in seeds && Among(lists4, n, c.addr)
  {
    var p := Primary(ports);
    var ab := OnPort(seeds, p) + Alternates(seeds, ports, p);
    var s4, s6 := Sweep(lists4, Longest(lists4), p), SweepIf(WantV6(ip), lists6, p);
    var head := Sweep(lists4, n, p);
    var rest := SweepPrefix(lists4, n, Longest(lists4), p);
    k := |Fresh(ab + head, {})|;
    OfferedParts(seeds, ports, ip, lists4, lists6);
    hide *;
    Around(ab, head, rest, s6);
    MiddleOfSweep(seeds, ports, lists4, n, rest + s6);
  }

  lemma {:induction false} OfferedParts(seeds: seq<Addr>, ports: seq<u16>, ip: IpScan, lists4: seq<seq<Addr>>, lists6: seq<seq<Addr>>)
    requires WantV4(ip)
    ensures var p := Primary(ports);
      var ab := OnPort(seeds, p) + Alternates(seeds, ports, p);
      && Offered(seeds, ports, ip, lists4, lists6) == ab + Sweep(lists4, Longest(lists4), p) + SweepIf(WantV6(ip), lists6, p)
      && Lengths(seeds, ports).1 == |Fresh(ab, {})|
  {
    hide OnPort, Alternates, Sweep, Fresh;
  }

  lemma {:induction false} MiddleOfSweep(seeds: seq<Addr>, ports: seq<u16>, lists4: seq<seq<Addr>>, n: nat, tail: seq<Candidate>)
    ensures var p := Primary(ports);
      var ab, head := OnPort(seeds, p) + Alternates(seeds, ports, p), Sweep(lists4, n, p);
      var m, k, out := |Fresh(ab, {})|, |Fresh(ab + head, {})|, Fresh(ab + head + tail, {});
      m <= k <= |out| && forall c :: c in out[m..k] <==> c.port == p && c.addr !in seeds && Among(lists4, n, c.addr)
  {
    hide *;
    var p := Primary(ports);
    var ab, head := OnPort(seeds, p) + Alternates(seeds, ports, p), Sweep(lists4, n, p);
    var m, k, out := |Fresh(ab, {})|, |Fresh(ab + head, {})|, Fresh(ab + head + tail, {});
    ThreeParts(ab, head, tail, Candidate(V4(0), p));
    forall c ensures c in out[m..k] <==> c.port == p && c.addr !in seeds && Among(lists4, n, c.addr) {
      ThreeParts(ab, head, tail, c);
      OnPortMembers(seeds, p, c);
      AlternatesMembers(seeds, ports, p, c);
      SweepMembers(lists4, n, p, c);
    }
  }

  /** A full sweep reaches every host of every range it lists, a single-host range included, on the primary port. */
  lemma {:induction false} FullSweep(seeds: seq<Addr>, ports: seq<u16>, ip: IpScan, ranges: seq<Option<Range>>, sample: Option<Range> -> seq<Addr>,
                  lists6: seq<seq<Addr>>, r: Range, a: nat)
    requires WantV4(ip) && Some(r) in ranges && Aligned(r) && Usable(r, a)
    ensures Candidate(V4(a), Primary(ports)) in Fresh(Offered(seeds, ports, ip, HostLists(ranges, true, sample), lists6), {})
  {
    var lists4 := HostLists(ranges, true, sample);
    var c := Candidate(V4(a), Primary(ports));
    HostListAt(ranges, sample, r);
    AmongHosts(lists4, r, a);
    hide *;
    SweptIfAmong(ip, lists4, lists6, V4(a));
    OfferedSwept(seeds, ports, ip, lists4, lists6, c);
    FreshSpec(Offered(seeds, ports, ip, lists4, lists6), {});
  }

  lemma {:induction false} SweptIfAmong(ip: IpScan, lists4: seq<seq<Addr>>, lists6: seq<seq<Addr>>, a: Addr)
    requires WantV4(ip) && Among(lists4, Longest(lists4), a)
    ensures Swept(ip, lists4, lists6, a)
  {
  }

  lemma {:induction false} OfferedSwept(seeds: seq<Addr>, ports: seq<u16>, ip: IpScan, lists4: seq<seq<Addr>>, lists6: seq<seq<Addr>>, c: Candidate)
    requires c.port == Primary(ports) && Swept(ip, lists4, lists6, c.addr)
    ensures c in Offered(seeds, ports, ip, lists4, lists6)
  {
    SweptMembers(ip, lists4, lists6, Primary(ports), c);
    hide Swept, SweepIf, OnPort, Alternates;
  }

  lemma {:induction false} AmongHosts(lists4: seq<seq<Addr>>, r: Range, a: nat)
    requires Enumerate(Some(r)) in lists4 && Aligned(r) && Usable(r, a)
    ensures Among(lists4, Longest(lists4), V4(a))
  {
    EnumerateHosts(r);
    hide Enumerate, Aligned, Usable;
    var hosts := Enumerate(Some(r));
    assert V4(a) in hosts;
    var k :| 0 <= k < |lists4| && lists4[k] == hosts;
    var i :| 0 <= i < |hosts| && hosts[i] == V4(a);
    assert lists4[k][i] == V4(a) && i < Longest(lists4);
  }

  lemma {:induction false} HostListAt(ranges: seq<Option<Range>>, sample: Option<Range> -> seq<Addr>, r: Range)
    requires Some(r) in ranges
    ensures Enumerate(Some(r)) in HostLists(ranges, true, sample)
  {
    hide Enumerate;
    var last := ranges[|ranges| - 1];
    if last != Some(r) {
      assert ranges == ranges[..|ranges| - 1] + [last];
      HostListAt(ranges[..|ranges| - 1], sample, r);
    }
  }

  /* ---- ranges to be swept first ---- */

  function In<T(==)>(ls: seq<T>): T -> bool {
    x => x in ls
  }

  method Prioritize<T(==)>(all: seq<T>, first: seq<T>, zeroTrust: bool) returns (out: seq<T>)
    ensures out == if zeroTrust then Where(first, In(all)) + Fresh(all, set x | x in Where(first, In(all))) else all
  {
    if !zeroTrust {
      return all;
    }
    out := [];
    for i := 0 to |first|
      invariant out == Where(first[..i], In(all))
    {
      assert first[..i + 1][..i] == first[..i];
      if first[i] in all {
        out := out + [first[i]];
      }
    }
    assert first[..|first|] == first;
    ghost var front := out;
    for i := 0 to |all|
      invariant out == front + Fresh(all[..i], set x | x in front)
    {
      assert all[..i + 1][..i] == all[..i];
      if all[i] !in out {
        out := out + [all[i]];
      }
    }
    assert all[..|all|] == all;
  }

  /** No range is lost or added, the wanted ones lead, and none is repeated unless a wanted one was listed twice. */
  lemma {:induction false} PrioritizeKeeps<T>(all: seq<T>, first: seq<T>)
    ensures var front := Where(first, In(all));
      var out := front + Fresh(all, set x | x in front);
      && (forall x :: x in out <==> x in all)
      && (forall x :: x in front <==> x in first && x in all)
      && (Distinct(out) <==> Distinct(front)) && (Distinct(first) ==> Distinct(out))
  {
    var front := Where(first, In(all));
    var back := Fresh(all, set x | x in front);
    WhereSpec(first, In(all));
    FreshSpec(all, set x | x in front);
    if Distinct(front) {
      DistinctJoin(front, back);
    } else if Distinct(front + back) {
      DistinctParts(front, back);
    }
  }
}

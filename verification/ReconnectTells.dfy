/** What each round of the reconnect loops does, told by the rounds before it; and the list of inner edges, in its order. */
module ReconnectTells {
  import opened Bytes
  import opened Reconnect
  import opened ReconnectProofs

  /* ---- the inner edges offered ---- */

  /** Where an address comes first in a list. */
  function FirstPlace(ips: seq<nat>, ip: nat): (k: nat)
    requires ip in ips
    ensures k < |ips| && ips[k] == ip && ip !in ips[..k]
  {
    if ips[0] == ip then 0 else 1 + FirstPlace(ips[1..], ip)
  }

  /** The addresses of a pool other than the outer hop's. */
  function Usable(outer: nat, pool: seq<nat>): set<nat> {
    set ip | ip in pool && ip != outer
  }

  lemma {:induction false} FirstPlaceIs(ips: seq<nat>, k: nat)
    requires k < |ips| && ips[k] !in ips[..k]
    ensures FirstPlace(ips, ips[k]) == k
  {
    if k > 0 {
      assert ips[..k][0] == ips[0];
      assert ips[1..][..k - 1] == ips[..k][1..];
      FirstPlaceIs(ips[1..], k - 1);
    }
  }

  lemma {:induction false} PlaceInFront(front: seq<nat>, last: nat, ip: nat)
    requires ip in front
    ensures FirstPlace(front + [last], ip) == FirstPlace(front, ip)
  {
    var k := FirstPlace(front, ip);
    assert (front + [last])[..k] == front[..k];
    FirstPlaceIs(front + [last], k);
  }

  lemma {:induction false} PlaceAtEnd(front: seq<nat>, last: nat)
    requires last !in front
    ensures FirstPlace(front + [last], last) == |front|
  {
    assert (front + [last])[..|front|] == front;
    FirstPlaceIs(front + [last], |front|);
  }

  ghost predicate InPlaceOrder(pool: seq<nat>, ips: seq<nat>) {
    && (forall i :: 0 <= i < |ips| ==> ips[i] in pool)
    && (forall i, j :: 0 <= i < j < |ips| ==> FirstPlace(pool, ips[i]) < FirstPlace(pool, ips[j]))
  }

  lemma {:induction false} OrderNext(front: seq<nat>, last: nat, ips: seq<nat>)
    requires InPlaceOrder(front, ips)
    ensures InPlaceOrder(front + [last], ips)
    ensures last !in front ==> InPlaceOrder(front + [last], ips + [last])
  {
    var pool := front + [last];
    forall i | 0 <= i < |ips| ensures ips[i] in pool && FirstPlace(pool, ips[i]) == FirstPlace(front, ips[i]) {
      PlaceInFront(front, last, ips[i]);
    }
    if last !in front {
      PlaceAtEnd(front, last);
      hide FirstPlace;
    }
  }

  lemma {:induction false} UsableNext(outer: nat, front: seq<nat>, last: nat)
    ensures Usable(outer, front + [last]) == if last == outer || last in front then Usable(outer, front) else Usable(outer, front) + {last}
    ensures last in Usable(outer, front) <==> last != outer && last in front
  {
  }

  /** Every usable address once, in the order in which they come first. */
  lemma {:induction false} OthersInOrder(outer: nat, pool: seq<nat>)
    ensures InPlaceOrder(pool, Others(outer, pool))
    ensures forall ip :: ip in Others(outer, pool) <==> ip in Usable(outer, pool)
    ensures |Others(outer, pool)| == |Usable(outer, pool)|
  {
    if pool != [] {
      var front, last := pool[..|pool| - 1], pool[|pool| - 1];
      assert pool == front + [last];
      OthersInOrder(outer, front);
      OrderNext(front, last, Others(outer, front));
      OthersNext(outer, front, last);
      UsableNext(outer, front, last);
      hide Others, InPlaceOrder, Usable;
    }
  }

  lemma {:induction false} OthersNext(outer: nat, front: seq<nat>, last: nat)
    ensures Others(outer, front + [last]) ==
      if last == outer || last in Others(outer, front) then Others(outer, front) else Others(outer, front) + [last]
  {
    assert (front + [last])[..|front|] == front;
  }

  /** These are the inner edges offered: on port 443, the addresses of the cached gateways and then of the ladder, each where
      it comes first, never the outer edge's, as many as there are up to the number of tries and at least one allowed; and
      what is left out comes after what is not. */
  ghost predicate Offer(out: seq<Edge>, outer: nat, pool: seq<nat>, count: nat) {
    && |out| == Min(if count < 1 then 1 else count, |Usable(outer, pool)|)
    && (forall i :: 0 <= i < |out| ==> out[i].port == 443 && out[i].ip in pool && out[i].ip != outer)
    && (forall i, j :: 0 <= i < j < |out| ==> FirstPlace(pool, out[i].ip) < FirstPlace(pool, out[j].ip))
    && (forall ip, i :: ip in pool && ip != outer && Edge(ip, 443) !in out && 0 <= i < |out| ==>
          FirstPlace(pool, out[i].ip) < FirstPlace(pool, ip))
  }

  lemma {:induction false} PoolIsOffer(outer: Edge, cached: seq<nat>, ladder: seq<nat>, count: nat)
    ensures Offer(InnerPool(outer, cached, ladder, count), outer.ip, cached + ladder, count)
  {
    var pool := cached + ladder;
    OthersInOrder(outer.ip, pool);
    PoolIs(outer, cached, ladder, count);
    hide InnerPool, Others, Usable, InPlaceOrder;
    HeadIsOffer(Others(outer.ip, pool), InnerPool(outer, cached, ladder, count), outer.ip, pool, count);
  }

  lemma {:induction false} PoolIs(outer: Edge, cached: seq<nat>, ladder: seq<nat>, count: nat)
    ensures var ips, out := Others(outer.ip, cached + ladder), InnerPool(outer, cached, ladder, count);
      |out| == Min(if count < 1 then 1 else count, |ips|) && forall i :: 0 <= i < |out| ==> out[i] == Edge(ips[i], 443)
  {
    hide Others;
  }

  lemma {:induction false} HeadIsOffer(ips: seq<nat>, out: seq<Edge>, outer: nat, pool: seq<nat>, count: nat)
    requires InPlaceOrder(pool, ips) && |ips| == |Usable(outer, pool)| && forall ip :: ip in ips <==> ip in Usable(outer, pool)
    requires |out| == Min(if count < 1 then 1 else count, |ips|) && forall i :: 0 <= i < |out| ==> out[i] == Edge(ips[i], 443)
    ensures Offer(out, outer, pool, count)
  {
    forall i | 0 <= i < |out| ensures out[i].port == 443 && out[i].ip in pool && out[i].ip != outer {
      assert ips[i] in ips;
    }
    forall ip, i | ip in pool && ip != outer && Edge(ip, 443) !in out && 0 <= i < |out|
      ensures FirstPlace(pool, out[i].ip) < FirstPlace(pool, ip)
    {
      assert ip in Usable(outer, pool);
      var j :| 0 <= j < |ips| && ips[j] == ip;
      assert forall q :: 0 <= q < |out| ==> Edge(ips[q], 443) in out;
    }
  }

  /** The loop builds that list: the cached gateways lead, and are all there when they fit. */
  method OfferedEdges(outer: Edge, cached: seq<nat>, ladder: seq<nat>, count: nat) returns (out: seq<Edge>)
    ensures Offer(out, outer.ip, cached + ladder, count)
  {
    out := InnerCandidates(outer, cached, ladder, count);
    PoolIsOffer(outer, cached, ladder, count);
  }

  /** Only one list is that offer. */
  lemma {:induction false} OneOffer(a: seq<Edge>, b: seq<Edge>, outer: nat, pool: seq<nat>, count: nat, i: nat)
    requires Offer(a, outer, pool, count) && Offer(b, outer, pool, count) && i <= |a|
    ensures a[..i] == b[..i]
  {
    if i > 0 {
      var k := i - 1;
      OneOffer(a, b, outer, pool, count, k);
      assert a[..i] == a[..k] + [a[k]] && b[..i] == b[..k] + [b[k]];
      NotLater(a, b, outer, pool, count, k);
      NotLater(b, a, outer, pool, count, k);
      assert a[k] == Edge(a[k].ip, 443) && b[k] == Edge(b[k].ip, 443);
    }
  }

  /** Where two offers first differ, neither comes later than the other. */
  lemma {:induction false} NotLater(a: seq<Edge>, b: seq<Edge>, outer: nat, pool: seq<nat>, count: nat, k: nat)
    requires Offer(a, outer, pool, count) && Offer(b, outer, pool, count) && k < |a| && a[..k] == b[..k]
    ensures FirstPlace(pool, b[k].ip) <= FirstPlace(pool, a[k].ip)
  {
    forall j | 0 <= j < k ensures b[j] == a[j] && a[j].ip != a[k].ip {
      assert a[..k][j] == b[..k][j];
    }
    if Edge(a[k].ip, 443) in b {
      var j :| 0 <= j < |b| && b[j] == Edge(a[k].ip, 443);
      assert j >= k;
    }
  }

  /* ---- run_mim, round by round ---- */

  predicate ClearsFailures(e: MimEvent) {
    e.Scanned? || e.ending.Served?
  }

  /** Two sessions failed on the outer hop, and neither a scan nor a session that served came since the first of them. */
  ghost predicate TwoFailures(trace: seq<MimEvent>) {
    exists i, j :: 0 <= i < j < |trace| && OuterFailure(trace[i]) && OuterFailure(trace[j]) && NoneClears(trace, i)
  }

  predicate NoneClears(trace: seq<MimEvent>, i: nat) {
    forall k :: i < k < |trace| ==> !ClearsFailures(trace[k])
  }

  ghost predicate OneFailure(trace: seq<MimEvent>) {
    exists i :: 0 <= i < |trace| && OuterFailure(trace[i]) && NoneClears(trace, i)
  }

  lemma {:induction false} FailuresNext(front: seq<MimEvent>, e: MimEvent)
    ensures OneFailure(front + [e]) <==> OuterFailure(e) || (!ClearsFailures(e) && OneFailure(front))
    ensures TwoFailures(front + [e]) <==> !ClearsFailures(e) && (TwoFailures(front) || (OuterFailure(e) && OneFailure(front)))
  {
    var t, n := front + [e], |front|;
    assert forall k :: 0 <= k < n ==> t[k] == front[k];
    assert t[n] == e;
    assert NoneClears(t, n);
    forall i | 0 <= i < n ensures NoneClears(t, i) <==> NoneClears(front, i) && !ClearsFailures(e) {
    }
    if !ClearsFailures(e) && OneFailure(front) {
      var i :| 0 <= i < n && OuterFailure(front[i]) && NoneClears(front, i);
      assert OuterFailure(t[i]) && NoneClears(t, i);
      if OuterFailure(e) {
        assert OuterFailure(t[n]);
      }
    }
    if !ClearsFailures(e) && TwoFailures(front) {
      var i, j :| 0 <= i < j < n && OuterFailure(front[i]) && OuterFailure(front[j]) && NoneClears(front, i);
      assert OuterFailure(t[i]) && OuterFailure(t[j]) && NoneClears(t, i);
    }
    if TwoFailures(t) {
      var i, j :| 0 <= i < j < |t| && OuterFailure(t[i]) && OuterFailure(t[j]) && NoneClears(t, i);
      assert OuterFailure(front[i]) && NoneClears(front, i);
    }
  }

  lemma {:induction false} FailsAre(trace: seq<MimEvent>)
    ensures Fails(trace) >= 1 <==> OneFailure(trace)
    ensures Fails(trace) >= MAX_FAILS <==> TwoFailures(trace)
  {
    if trace != [] {
      var front, e := trace[..|trace| - 1], trace[|trace| - 1];
      assert trace == front + [e];
      FailsAre(front);
      FailuresNext(front, e);
      hide OneFailure, TwoFailures;
    }
  }

  /** Session `j` served through this inner edge, and every session since has failed on the outer hop. */
  predicate Live(trace: seq<MimEvent>, j: nat, inner: Edge) {
    && j < |trace| && trace[j].Session? && trace[j].ending == Served(inner)
    && forall i :: j < i < |trace| && trace[i].Session? ==> trace[i].ending.OuterFailed?
  }

  ghost predicate Recalled(trace: seq<MimEvent>, inner: Edge) {
    exists j: nat :: Live(trace, j, inner)
  }

  lemma {:induction false} RecalledNext(front: seq<MimEvent>, e: MimEvent, inner: Edge)
    ensures Recalled(front + [e], inner) <==>
      (e.Session? && e.ending == Served(inner)) || ((e.Session? ==> e.ending.OuterFailed?) && Recalled(front, inner))
  {
    var t, n := front + [e], |front|;
    assert forall k :: 0 <= k < n ==> t[k] == front[k];
    assert t[n] == e;
    if e.Session? && e.ending == Served(inner) {
      assert Live(t, n, inner);
    }
    if (e.Session? ==> e.ending.OuterFailed?) && Recalled(front, inner) {
      var j: nat :| Live(front, j, inner);
      assert Live(t, j, inner);
    }
    if Recalled(t, inner) {
      var j: nat :| Live(t, j, inner);
      assert j < n ==> Live(front, j, inner);
    }
  }

  lemma {:induction false} RememberedIs(trace: seq<MimEvent>, inner: Edge)
    ensures Remembered(trace) == Some(inner) <==> Recalled(trace, inner)
  {
    if trace != [] {
      var front, e := trace[..|trace| - 1], trace[|trace| - 1];
      assert trace == front + [e];
      RememberedIs(front, inner);
      RecalledNext(front, e, inner);
      hide Recalled;
    }
  }

  /** The inner edges of a session: those on offer, behind a recalled one that is not among them, were it not at the outer
      edge's address. */
  ghost predicate Dials(w: MimWorld, trace: seq<MimEvent>, outer: Edge, round: nat, dialled: seq<Edge>) {
    exists offer :: Offer(offer, outer.ip, w.gateways(round) + w.ladder, 4) && Behind(trace, outer, offer, dialled)
  }

  ghost predicate Behind(trace: seq<MimEvent>, outer: Edge, offer: seq<Edge>, dialled: seq<Edge>) {
    || (dialled == offer && forall e :: Recalled(trace, e) ==> e in offer || e.ip == outer.ip)
    || (dialled != [] && dialled[1..] == offer && Recalled(trace, dialled[0]) && dialled[0] !in offer && dialled[0].ip != outer.ip)
  }

  /** No address but the outer edge's is known, and no inner edge is recalled. */
  ghost predicate Nowhere(w: MimWorld, trace: seq<MimEvent>, outer: Edge, round: nat) {
    Usable(outer.ip, w.gateways(round) + w.ladder) == {} && forall e :: !Recalled(trace, e)
  }

  lemma {:induction false} NotAtKeeps(edges: seq<Edge>, ip: nat)
    requires forall i :: 0 <= i < |edges| ==> edges[i].ip != ip
    ensures NotAt(edges, ip) == edges
  {
    if edges != [] {
      NotAtKeeps(edges[1..], ip);
      assert edges == [edges[0]] + edges[1..];
    }
  }

  /** The remembered edge in front, when it is there and not among the others. */
  function InFront(known: Option<Edge>, offer: seq<Edge>): seq<Edge> {
    if known.Some? && known.value !in offer then [known.value] + offer else offer
  }

  lemma {:induction false} BehindIs(trace: seq<MimEvent>, outer: Edge, offer: seq<Edge>, known: Option<Edge>)
    requires forall e :: known == Some(e) <==> Recalled(trace, e)
    requires forall i :: 0 <= i < |offer| ==> offer[i].ip != outer.ip
    ensures Behind(trace, outer, offer, NotAt(InFront(known, offer), outer.ip))
  {
    hide Recalled;
    NotAtKeeps(offer, outer.ip);
    if known.Some? && known.value !in offer {
      NotAtFirst(known.value, offer, outer.ip);
      hide NotAt;
      assert ([known.value] + offer)[1..] == offer;
    }
  }

  lemma {:induction false} FrontEmpty(trace: seq<MimEvent>, offer: seq<Edge>, known: Option<Edge>)
    requires forall e :: known == Some(e) <==> Recalled(trace, e)
    ensures InFront(known, offer) == [] <==> offer == [] && forall e :: !Recalled(trace, e)
  {
    hide Recalled;
  }

  lemma {:induction false} OfferEmpty(offer: seq<Edge>, outer: nat, pool: seq<nat>)
    requires Offer(offer, outer, pool, 4)
    ensures offer == [] <==> Usable(outer, pool) == {}
    ensures forall i :: 0 <= i < |offer| ==> offer[i].ip != outer
  {
    hide Usable;
  }

  lemma {:induction false} KnownIs(trace: seq<MimEvent>)
    ensures forall e :: Remembered(trace) == Some(e) <==> Recalled(trace, e)
  {
    forall e ensures Remembered(trace) == Some(e) <==> Recalled(trace, e) {
      RememberedIs(trace, e);
    }
  }

  lemma {:induction false} CandidatesAreInFront(w: MimWorld, trace: seq<MimEvent>, outer: Edge, round: nat)
    ensures Candidates(w, trace, outer, round) == InFront(Remembered(trace), InnerPool(outer, w.gateways(round), w.ladder, 4))
  {
    hide InnerPool, Remembered;
  }

  lemma {:induction false} CandidatesTell(w: MimWorld, trace: seq<MimEvent>, outer: Edge, round: nat)
    ensures Candidates(w, trace, outer, round) == [] <==> Nowhere(w, trace, outer, round)
    ensures Dials(w, trace, outer, round, NotAt(Candidates(w, trace, outer, round), outer.ip))
  {
    var offer, known := InnerPool(outer, w.gateways(round), w.ladder, 4), Remembered(trace);
    CandidatesAreInFront(w, trace, outer, round);
    PoolIsOffer(outer, w.gateways(round), w.ladder, 4);
    hide InnerPool, Remembered, Recalled, Usable, Offer, InFront, Candidates, Behind, NotAt;
    KnownIs(trace);
    OfferEmpty(offer, outer.ip, w.gateways(round) + w.ladder);
    FrontEmpty(trace, offer, known);
    BehindIs(trace, outer, offer, known);
  }

  lemma {:induction false} NotAtFirst(e: Edge, edges: seq<Edge>, ip: nat)
    ensures NotAt([e] + edges, ip) == if e.ip == ip then NotAt(edges, ip) else [e] + NotAt(edges, ip)
  {
    assert ([e] + edges)[1..] == edges;
  }

  /** A round scans when nothing has told it an outer edge, or two sessions failed on it. */
  ghost predicate MustScan(cached: Option<Edge>, trace: seq<MimEvent>) {
    if trace == [] then cached.None? else TwoFailures(trace)
  }

  /** Every round of the loop, told by the rounds before it: whether it scans, through which outer edge it goes, which inner
      edges it dials in which order, and when it gives up. */
  lemma {:induction false} MimTells(w: MimWorld, cached: Option<Edge>, n: nat) returns (t: seq<MimEvent>, outer: Edge, dialled: seq<Edge>)
    requires !MimRun(w, cached, n).1
    ensures var before := MimRun(w, cached, n).0;
      if MustScan(cached, before) && w.scan(n).None? then MimRun(w, cached, n + 1) == (before, false)
      else
        && t == (if MustScan(cached, before) then before + [Scanned(w.scan(n).value, n)] else before)
        && outer == (if MustScan(cached, before) then w.scan(n).value else if before == [] then cached.value else before[|before| - 1].edge)
        && (if Nowhere(w, t, outer, n) then MimRun(w, cached, n + 1) == (t, true)
            else Dials(w, t, outer, n, dialled)
                 && MimRun(w, cached, n + 1) == (t + [Session(outer, dialled, w.session(n, outer, dialled), n)], false))
  {
    hide *;
    var before := MimRun(w, cached, n).0;
    MimNext(w, cached, n);
    OuterTells(w, cached, before, n);
    RoundTells(w, cached, before, n);
    t := WithOuter(w, cached, before, n);
    outer := if Standing(cached, t).Some? then Standing(cached, t).value else Edge(0, 0);
    CandidatesTell(w, t, outer, n);
    dialled := NotAt(Candidates(w, t, outer, n), outer.ip);
  }

  lemma {:induction false} StandsUnless(cached: Option<Edge>, before: seq<MimEvent>)
    ensures Standing(cached, before) ==
      if MustScan(cached, before) then None else if before == [] then cached else Some(before[|before| - 1].edge)
    ensures !MustScan(cached, before) ==> Standing(cached, before).Some?
  {
    FailsAre(before);
    NoFailures();
    hide Fails, TwoFailures;
  }

  lemma {:induction false} ScannedStands(cached: Option<Edge>, before: seq<MimEvent>, e: Edge, n: nat)
    ensures Standing(cached, before + [Scanned(e, n)]) == Some(e)
  {
    HoldsNext(before, Scanned(e, n));
    hide Fails;
  }

  lemma {:induction false} OuterTells(w: MimWorld, cached: Option<Edge>, before: seq<MimEvent>, n: nat)
    ensures var t := WithOuter(w, cached, before, n);
      if MustScan(cached, before) && w.scan(n).None? then t == before && Standing(cached, t).None?
      else
        && t == (if MustScan(cached, before) then before + [Scanned(w.scan(n).value, n)] else before)
        && Standing(cached, t)
             == Some(if MustScan(cached, before) then w.scan(n).value else if before == [] then cached.value else before[|before| - 1].edge)
  {
    StandsUnless(cached, before);
    hide Standing, MustScan;
    if w.scan(n).Some? {
      ScannedStands(cached, before, w.scan(n).value, n);
    }
  }

  lemma {:induction false} RoundTells(w: MimWorld, cached: Option<Edge>, before: seq<MimEvent>, n: nat)
    ensures var t := WithOuter(w, cached, before, n);
      var outer := Standing(cached, t);
      MimRound(w, cached, before, n) ==
        if outer.None? then (t, false)
        else if Candidates(w, t, outer.value, n) == [] then (t, true)
        else
          var dialled := NotAt(Candidates(w, t, outer.value, n), outer.value.ip);
          (t + [Session(outer.value, dialled, w.session(n, outer.value, dialled), n)], false)
  {
    hide Candidates, NotAt, Standing, WithOuter;
  }

  lemma {:induction false} NoFailures()
    ensures Fails([]) == 0
  {
  }

  /* ---- run_wireguard, round by round ---- */

  /** The last two events are runs of one endpoint. */
  predicate RanTwice(trace: seq<WgEvent>) {
    |trace| >= 2 && trace[|trace| - 1].Ran? && trace[|trace| - 2].Ran? && trace[|trace| - 1].peer == trace[|trace| - 2].peer
  }

  /** Endpoints excluded in this round, or before it and still cooling down. */
  ghost predicate StillOut(w: WgWorld, trace: seq<WgEvent>, round: nat, p: Peer) {
    exists k :: 0 <= k < |trace| && trace[k].Excluded? && trace[k].peer == p
      && (trace[k].round == round || w.clock(trace[k].round) + w.cooldown > w.clock(round))
  }

  lemma {:induction false} CoolingIs(w: WgWorld, trace: seq<WgEvent>, round: nat, p: Peer)
    requires Monotone(w) && InOrder(trace, round + 1)
    ensures p in Cooling(w, trace, round) <==> StillOut(w, trace, round, p)
  {
    LastIs(trace, p);
    hide LastExcluded;
    if StillOut(w, trace, round, p) {
      var k :| 0 <= k < |trace| && trace[k].Excluded? && trace[k].peer == p
        && (trace[k].round == round || w.clock(trace[k].round) + w.cooldown > w.clock(round));
      LastExcludedLatest(trace, k);
    }
  }

  lemma {:induction false} LastIs(trace: seq<WgEvent>, p: Peer)
    ensures p in LastExcluded(trace) ==>
      exists k :: 0 <= k < |trace| && trace[k] == Excluded(p, LastExcluded(trace)[p])
  {
    if trace != [] {
      var front, e := trace[..|trace| - 1], trace[|trace| - 1];
      LastIs(front, p);
      if p in LastExcluded(trace) && !(e.Excluded? && e.peer == p) {
        var k :| 0 <= k < |front| && front[k] == Excluded(p, LastExcluded(front)[p]);
        assert trace[k] == front[k];
      } else if p in LastExcluded(trace) {
        assert trace[|trace| - 1] == Excluded(p, e.round);
      }
    }
  }

  lemma {:induction false} OpenedIs(trace: seq<WgEvent>, n: nat)
    ensures Opened(trace, n) == trace + if RanTwice(trace) then [Excluded(trace[|trace| - 1].peer, n)] else []
  {
    assert trace + [] == trace;
  }

  lemma {:induction false} OpenedOrder(w: WgWorld, trace: seq<WgEvent>, n: nat)
    requires WgOk(w, trace, n)
    ensures InOrder(Opened(trace, n), n + 1)
  {
    OpenedKeeps(w, trace, n);
    hide Opened, InOrder;
  }

  /** The endpoint that ran last, unless it is excluded now or was not run last. */
  predicate StillGood(w: WgWorld, before: seq<WgEvent>, n: nat) {
    !RanTwice(before) && before != [] && before[|before| - 1].Ran? && w.verifies(n, before[|before| - 1].peer)
  }

  lemma {:induction false} GoodIs(w: WgWorld, before: seq<WgEvent>, n: nat)
    ensures var t := Opened(before, n);
      StillGood(w, before, n) <==> LastGood(t).Some? && w.verifies(n, LastGood(t).value)
    ensures StillGood(w, before, n) ==> LastGood(Opened(before, n)) == Some(before[|before| - 1].peer)
  {
  }

  lemma {:induction false} RoundIs(w: WgWorld, first: Option<Peer>, before: seq<WgEvent>, n: nat)
    ensures var t := Opened(before, n);
      var choice := if n == 0 && first.Some? then first
        else if LastGood(t).Some? && w.verifies(n, LastGood(t).value) then LastGood(t)
        else w.scan(n, Cooling(w, t, n));
      WgRound(w, first, before, n) == t + if choice.Some? then [Ran(choice.value, n)] else []
  {
    hide Opened, Cooling, LastGood;
    assert Opened(before, n) + [] == Opened(before, n);
  }

  lemma {:induction false} NextRound(w: WgWorld, first: Option<Peer>, n: nat)
    ensures WgRun(w, first, n + 1) == WgRound(w, first, WgRun(w, first, n), n)
  {
    hide WgRound;
  }

  lemma {:induction false} HonestIs(w: WgWorld)
    requires Honest(w)
    ensures Monotone(w)
  {
  }

  /** Every round of the loop, told by the rounds before it: whom it excludes first, and whom it runs: the endpoint from last
      time in the first round, the one that ran last while it verifies and was not excluded, what a scan finds otherwise
      among those that are not cooling down. */
  lemma {:induction false} WireguardTells(w: WgWorld, first: Option<Peer>, n: nat) returns (t: seq<WgEvent>, out: set<Peer>)
    requires Honest(w)
    ensures var before := WgRun(w, first, n);
      && t == before + (if RanTwice(before) then [Excluded(before[|before| - 1].peer, n)] else [])
      && (forall p :: p in out <==> StillOut(w, t, n, p))
      && var choice := if n == 0 && first.Some? then first
           else if StillGood(w, before, n) then Some(before[|before| - 1].peer)
           else w.scan(n, out);
      WgRun(w, first, n + 1) == t + if choice.Some? then [Ran(choice.value, n)] else []
  {
    hide *;
    var before := WgRun(w, first, n);
    t := Opened(before, n);
    out := Cooling(w, t, n);
    HonestIs(w);
    WireguardKeeps(w, first, n);
    OpenedOrder(w, before, n);
    forall p ensures p in out <==> StillOut(w, t, n, p) {
      CoolingIs(w, t, n, p);
    }
    Choosing(w, first, before, n);
    NextRound(w, first, n);
  }

  lemma {:induction false} Choosing(w: WgWorld, first: Option<Peer>, before: seq<WgEvent>, n: nat)
    ensures var t := Opened(before, n);
      && t == before + (if RanTwice(before) then [Excluded(before[|before| - 1].peer, n)] else [])
      && (StillGood(w, before, n) ==> before != [])
      && var choice := if n == 0 && first.Some? then first
           else if StillGood(w, before, n) then Some(before[|before| - 1].peer)
           else w.scan(n, Cooling(w, t, n));
      WgRound(w, first, before, n) == t + if choice.Some? then [Ran(choice.value, n)] else []
  {
    OpenedIs(before, n);
    GoodIs(w, before, n);
    hide Opened, Cooling, LastGood, WgRound;
    RoundIs(w, first, before, n);
  }
}

/** The reconnect loops of main.rs. What a scan, a check or a session comes to is given by functions of the round.
    Each loop is proved against a run defined on the record of what happened so far, without its counters and maps. */
module Reconnect {
  import opened Bytes

  const MAX_FAILS: nat := 2

  /* ---- run_wireguard, without pinned or imported peers ---- */

  type Peer = nat

  /** What a round did: at most an exclusion, then at most a tunnel run. */
  datatype WgEvent = Ran(peer: Peer, round: nat) | Excluded(peer: Peer, round: nat)

  /** `clock` is read at the top of each round; `scan` is told which endpoints to leave out. */
  datatype WgWorld = WgWorld(clock: nat -> int, verifies: (nat, Peer) -> bool, scan: (nat, set<Peer>) -> Option<Peer>, cooldown: nat)

  ghost predicate Monotone(w: WgWorld) {
    forall i: nat, j: nat :: i <= j ==> w.clock(i) <= w.clock(j)
  }

  /** The round of each endpoint's last exclusion. */
  function LastExcluded(trace: seq<WgEvent>): map<Peer, nat> {
    if trace == [] then map[]
    else
      var front, e := LastExcluded(trace[..|trace| - 1]), trace[|trace| - 1];
      if e.Excluded? then front[e.peer := e.round] else front
  }

  function Until(w: WgWorld, excludedIn: nat): int {
    w.clock(excludedIn) + w.cooldown
  }

  /** The endpoints a scan of this round must leave out: excluded in it, or before and not yet free again. */
  function Cooling(w: WgWorld, trace: seq<WgEvent>, round: nat): set<Peer> {
    var last := LastExcluded(trace);
    set p | p in last && (last[p] == round || Until(w, last[p]) > w.clock(round))
  }

  /** The endpoint of the last run, unless it has been excluded since. */
  function LastGood(trace: seq<WgEvent>): Option<Peer> {
    if trace != [] && trace[|trace| - 1].Ran? then Some(trace[|trace| - 1].peer) else None
  }

  /** Two runs of one endpoint, one straight after the other, ending at `k`. */
  predicate TwiceInARow(trace: seq<WgEvent>, k: nat) {
    1 <= k < |trace| && trace[k - 1].Ran? && trace[k].Ran? && trace[k - 1].peer == trace[k].peer
  }

  function Opened(trace: seq<WgEvent>, round: nat): seq<WgEvent> {
    if Due(trace) then trace + [Excluded(trace[|trace| - 1].peer, round)] else trace
  }

  /** The endpoint a round runs: the one from last time at the start, the last good one while it verifies, what a
      scan finds otherwise. */
  function Choice(w: WgWorld, first: Option<Peer>, trace: seq<WgEvent>, round: nat): Option<Peer> {
    if round == 0 && first.Some? then first
    else if LastGood(trace).Some? && w.verifies(round, LastGood(trace).value) then LastGood(trace)
    else w.scan(round, Cooling(w, trace, round))
  }

  function WgRound(w: WgWorld, first: Option<Peer>, trace: seq<WgEvent>, round: nat): seq<WgEvent> {
    var t := Opened(trace, round);
    var choice := Choice(w, first, t, round);
    if choice.Some? then t + [Ran(choice.value, round)] else t
  }

  function WgRun(w: WgWorld, first: Option<Peer>, rounds: nat): seq<WgEvent> {
    if rounds == 0 then [] else WgRound(w, first, WgRun(w, first, rounds - 1), rounds - 1)
  }

  lemma {:induction false} RoundExcluded(w: WgWorld, first: Option<Peer>, trace: seq<WgEvent>, round: nat)
    ensures LastExcluded(WgRound(w, first, trace, round)) == LastExcluded(Opened(trace, round))
  {
    var t := Opened(trace, round);
    var choice := Choice(w, first, t, round);
    hide LastExcluded, Choice, Opened;
    if choice.Some? {
      LastExcludedRan(t, choice.value, round);
    }
  }

  predicate AllBefore(last: map<Peer, nat>, round: nat) {
    forall p :: p in last ==> last[p] < round
  }

  lemma {:induction false} EarlierStep(w: WgWorld, first: Option<Peer>, trace: seq<WgEvent>, round: nat)
    requires AllBefore(LastExcluded(trace), round)
    ensures AllBefore(LastExcluded(WgRound(w, first, trace, round)), round + 1)
  {
    RoundExcluded(w, first, trace, round);
    LastExcludedOpened(trace, round);
    hide LastExcluded, WgRound, Opened;
  }

  lemma {:induction false} NoneExcluded()
    ensures LastExcluded([]) == map[]
  {
  }

  lemma {:induction false} ExcludedEarlier(w: WgWorld, first: Option<Peer>, rounds: nat)
    ensures AllBefore(LastExcluded(WgRun(w, first, rounds)), rounds)
  {
    hide LastExcluded, WgRound;
    if rounds > 0 {
      ExcludedEarlier(w, first, rounds - 1);
      EarlierStep(w, first, WgRun(w, first, rounds - 1), rounds - 1);
    } else {
      NoneExcluded();
    }
  }

  predicate Due(trace: seq<WgEvent>) {
    trace != [] && TwiceInARow(trace, |trace| - 1)
  }

  lemma {:induction false} LastExcludedOpened(trace: seq<WgEvent>, round: nat)
    ensures LastExcluded(Opened(trace, round)) == if Due(trace) then LastExcluded(trace)[trace[|trace| - 1].peer := round] else LastExcluded(trace)
  {
    if Due(trace) {
      assert Opened(trace, round)[..|trace|] == trace;
    }
  }

  lemma {:induction false} LastExcludedRan(trace: seq<WgEvent>, p: Peer, round: nat)
    ensures LastExcluded(trace + [Ran(p, round)]) == LastExcluded(trace)
  {
    assert (trace + [Ran(p, round)])[..|trace|] == trace;
  }

  /** What the map of cooldowns holds once a round has excluded what it excludes. */
  ghost predicate Cooled(w: WgWorld, last: map<Peer, nat>, cooldowns: map<Peer, int>, round: nat) {
    && (forall p :: p in cooldowns <==> p in last && (last[p] == round || Until(w, last[p]) > w.clock(round)))
    && (forall p :: p in cooldowns ==> cooldowns[p] == Until(w, last[p]))
  }

  function Kept(cooldowns: map<Peer, int>, now: int): map<Peer, int> {
    map p | p in cooldowns && cooldowns[p] > now :: cooldowns[p]
  }

  lemma {:induction false} StillCooled(w: WgWorld, last: map<Peer, nat>, cooldowns: map<Peer, int>, round: nat)
    requires Monotone(w) && (forall p :: p in last ==> last[p] <= round) && Cooled(w, last, cooldowns, round)
    ensures Cooled(w, last, Kept(cooldowns, w.clock(round + 1)), round + 1)
  {
    assert w.clock(round) <= w.clock(round + 1);
  }

  lemma {:induction false} CooledKeys(w: WgWorld, trace: seq<WgEvent>, cooldowns: map<Peer, int>, round: nat)
    requires Cooled(w, LastExcluded(trace), cooldowns, round)
    ensures cooldowns.Keys == Cooling(w, trace, round)
  {
    hide LastExcluded;
  }

  /** What the variables of the loop hold after the events so far. */
  predicate InStep(trace: seq<WgEvent>, lastGood: Option<Peer>, fails: nat) {
    lastGood == LastGood(trace) && fails == if lastGood.None? then 0 else if Due(trace) then MAX_FAILS else 1
  }

  lemma {:induction false} InStepRan(trace: seq<WgEvent>, lastGood: Option<Peer>, p: Peer, round: nat)
    requires InStep(trace, lastGood, if lastGood.None? then 0 else 1)
    ensures InStep(trace + [Ran(p, round)], Some(p), if lastGood == Some(p) then 2 else 1)
  {
  }

  /** The loop, with its retained map of cooldowns and its count of failures in a row. */
  method RunWireguard(w: WgWorld, first: Option<Peer>, rounds: nat) returns (trace: seq<WgEvent>)
    requires Monotone(w)
    ensures trace == WgRun(w, first, rounds)
  {
    hide LastExcluded, Cooled, Choice, Cooling;
    var quick := first;
    var lastGood: Option<Peer> := None;
    var fails := 0;
    var cooldowns: map<Peer, int> := map[];
    trace := [];
    for round := 0 to rounds
      invariant trace == WgRun(w, first, round) && InStep(trace, lastGood, fails)
      invariant quick == if round == 0 then first else None
      invariant if round == 0 then cooldowns == map[] else Cooled(w, LastExcluded(trace), cooldowns, round - 1)
    {
      ghost var before := trace;
      var now := w.clock(round);
      ExcludedEarlier(w, first, round);
      if round > 0 {
        StillCooled(w, LastExcluded(trace), cooldowns, round - 1);
      } else {
        NothingCooled(w);
      }
      cooldowns := Kept(cooldowns, now);
      if fails >= MAX_FAILS {
        if lastGood.Some? {
          LastExcludedOpened(trace, round);
          OneMoreCooled(w, LastExcluded(trace), cooldowns, lastGood.value, round);
          cooldowns := cooldowns[lastGood.value := now + w.cooldown];
          trace := trace + [Excluded(lastGood.value, round)];
          lastGood := None;
        }
        fails := 0;
      }
      assert trace == Opened(before, round) && InStep(trace, lastGood, fails);
      CooledKeys(w, trace, cooldowns, round);
      var peer := Choose(w, quick, lastGood, cooldowns.Keys, round);
      ChoiceIs(w, first, trace, quick, lastGood, round);
      quick := None;
      if peer.None? {
        continue;
      }
      LastExcludedRan(trace, peer.value, round);
      InStepRan(trace, lastGood, peer.value, round);
      if lastGood != peer {
        fails := 0;
      }
      lastGood := peer;
      trace := trace + [Ran(peer.value, round)];
      fails := fails + 1;
    }
  }

  lemma {:induction false} NothingCooled(w: WgWorld)
    ensures Cooled(w, LastExcluded([]), map[], 0) && Kept(map[], w.clock(0)) == map[]
  {
  }

  lemma {:induction false} OneMoreCooled(w: WgWorld, last: map<Peer, nat>, cooldowns: map<Peer, int>, p: Peer, round: nat)
    requires Cooled(w, last, cooldowns, round)
    ensures Cooled(w, last[p := round], cooldowns[p := w.clock(round) + w.cooldown], round)
  {
  }

  lemma {:induction false} ChoiceIs(w: WgWorld, first: Option<Peer>, trace: seq<WgEvent>, quick: Option<Peer>, lastGood: Option<Peer>, round: nat)
    requires lastGood == LastGood(trace) && quick == if round == 0 then first else None
    ensures Choice(w, first, trace, round) == if quick.Some? then quick
      else if lastGood.Some? && w.verifies(round, lastGood.value) then lastGood
      else w.scan(round, Cooling(w, trace, round))
  {
  }

  /** The endpoint of this round, in the order the loop tries them. */
  method Choose(w: WgWorld, quick: Option<Peer>, lastGood: Option<Peer>, excluded: set<Peer>, round: nat) returns (peer: Option<Peer>)
    ensures peer == if quick.Some? then quick
      else if lastGood.Some? && w.verifies(round, lastGood.value) then lastGood
      else w.scan(round, excluded)
  {
    if quick.Some? {
      return quick;
    }
    if lastGood.Some? && w.verifies(round, lastGood.value) {
      return lastGood;
    }
    return w.scan(round, excluded);
  }

  /* ---- run_mim ---- */

  datatype Edge = Edge(ip: nat, port: u16)

  const QUIC_PORT: u16 := 443
  const INNER_TRIES: nat := 4

  /** Addresses of a pool that are not the outer hop's own, first occurrences only. */
  function Others(outer: nat, ips: seq<nat>): seq<nat> {
    if ips == [] then []
    else
      var front, last := Others(outer, ips[..|ips| - 1]), ips[|ips| - 1];
      if last == outer || last in front then front else front + [last]
  }

  function Dialled(ips: seq<nat>): seq<Edge> {
    seq(|ips|, i requires 0 <= i < |ips| => Edge(ips[i], QUIC_PORT))
  }

  function Max(a: nat, b: nat): nat {
    if a >= b then a else b
  }

  function InnerPool(outer: Edge, cached: seq<nat>, ladder: seq<nat>, count: nat): seq<Edge> {
    var all := Dialled(Others(outer.ip, cached + ladder));
    if |all| <= Max(count, 1) then all else all[..Max(count, 1)]
  }

  /** Candidate inner edges: the cached gateways, then the fixed ladder, never the outer edge's address. */
  method InnerCandidates(outer: Edge, cached: seq<nat>, ladder: seq<nat>, count: nat) returns (out: seq<Edge>)
    ensures out == InnerPool(outer, cached, ladder, count)
    ensures forall i :: 0 <= i < |out| ==> out[i].ip != outer.ip
    ensures forall i, j :: 0 <= i < j < |out| ==> out[i] != out[j]
  {
    var ips, seen := [], {};
    var pool := cached + ladder;
    for i := 0 to |pool|
      invariant ips == Others(outer.ip, pool[..i]) && seen == set ip | ip in ips
    {
      assert pool[..i + 1][..i] == pool[..i];
      if pool[i] != outer.ip && pool[i] !in seen {
        seen := seen + {pool[i]};
        ips := ips + [pool[i]];
      }
    }
    assert pool[..|pool|] == pool;
    OthersClean(outer.ip, pool);
    out := Dialled(ips);
    if |out| > Max(count, 1) {
      out := out[..Max(count, 1)];
    }
  }

  lemma {:induction false} OthersClean(outer: nat, ips: seq<nat>)
    ensures forall i :: 0 <= i < |Others(outer, ips)| ==> Others(outer, ips)[i] != outer
    ensures forall i, j :: 0 <= i < j < |Others(outer, ips)| ==> Others(outer, ips)[i] != Others(outer, ips)[j]
  {
    if ips != [] {
      OthersClean(outer, ips[..|ips| - 1]);
    }
  }

  function NotAt(edges: seq<Edge>, ip: nat): seq<Edge> {
    if edges == [] then [] else if edges[0].ip == ip then NotAt(edges[1..], ip) else [edges[0]] + NotAt(edges[1..], ip)
  }

  lemma {:induction false} NotAtExact(edges: seq<Edge>, ip: nat)
    ensures forall e :: e in NotAt(edges, ip) <==> e in edges && e.ip != ip
  {
    if edges != [] {
      NotAtExact(edges[1..], ip);
      assert edges == [edges[0]] + edges[1..];
    }
  }

  /** How a two-hop session ended, and whose fault it was. */
  datatype Ending = Served(inner: Edge) | OuterFailed | InnerFailed

  /** `dialled` holds the inner edges the session may try, in order. */
  datatype MimEvent = Scanned(edge: Edge, round: nat) | Session(edge: Edge, dialled: seq<Edge>, ending: Ending, round: nat)

  datatype MimWorld = MimWorld(
    scan: nat -> Option<Edge>,
    gateways: nat -> seq<nat>,
    ladder: seq<nat>,
    session: (nat, Edge, seq<Edge>) -> Ending)

  /** Outer failures since the last scan or the last session that served; an inner failure does not count. */
  function Fails(trace: seq<MimEvent>): nat {
    if trace == [] then 0
    else
      var before, e := Fails(trace[..|trace| - 1]), trace[|trace| - 1];
      if e.Scanned? || e.ending.Served? then 0
      else if e.ending.OuterFailed? then before + 1
      else before
  }

  /** The inner edge of the last session that served, unless an inner failure came after it. */
  function Remembered(trace: seq<MimEvent>): Option<Edge> {
    if trace == [] then None
    else
      var before, e := Remembered(trace[..|trace| - 1]), trace[|trace| - 1];
      if e.Scanned? || e.ending.OuterFailed? then before
      else if e.ending.Served? then Some(e.ending.inner)
      else None
  }

  /** The outer edge that stands without a scan. */
  function Standing(cached: Option<Edge>, trace: seq<MimEvent>): Option<Edge> {
    if Fails(trace) >= MAX_FAILS then None
    else if trace != [] then Some(trace[|trace| - 1].edge)
    else cached
  }

  function WithOuter(w: MimWorld, cached: Option<Edge>, trace: seq<MimEvent>, round: nat): seq<MimEvent> {
    if Standing(cached, trace).Some? || w.scan(round).None? then trace else trace + [Scanned(w.scan(round).value, round)]
  }

  function Candidates(w: MimWorld, trace: seq<MimEvent>, outer: Edge, round: nat): seq<Edge> {
    var pool, known := InnerPool(outer, w.gateways(round), w.ladder, INNER_TRIES), Remembered(trace);
    if known.Some? && known.value !in pool then [known.value] + pool else pool
  }

  function Attempt(w: MimWorld, trace: seq<MimEvent>, outer: Edge, round: nat): MimEvent {
    var dialled := NotAt(Candidates(w, trace, outer, round), outer.ip);
    Session(outer, dialled, w.session(round, outer, dialled), round)
  }

  /** One round, and whether the loop ends with it for want of any inner edge. */
  function MimRound(w: MimWorld, cached: Option<Edge>, trace: seq<MimEvent>, round: nat): (seq<MimEvent>, bool) {
    var t := WithOuter(w, cached, trace, round);
    var outer := Standing(cached, t);
    if outer.None? then (t, false)
    else if Candidates(w, t, outer.value, round) == [] then (t, true)
    else (t + [Attempt(w, t, outer.value, round)], false)
  }

  function MimRun(w: MimWorld, cached: Option<Edge>, rounds: nat): (seq<MimEvent>, bool) {
    if rounds == 0 then ([], false)
    else
      var before := MimRun(w, cached, rounds - 1);
      if before.1 then before else MimRound(w, cached, before.0, rounds - 1)
  }

  /** What the variables of the loop hold after the events so far. */
  ghost predicate Holds(trace: seq<MimEvent>, lastPeer: Option<Edge>, lastInner: Option<Edge>, outerFails: nat) {
    && lastPeer == (if trace == [] then None else Some(trace[|trace| - 1].edge))
    && lastInner == Remembered(trace) && outerFails == Fails(trace)
  }

  lemma {:induction false} HoldsNext(trace: seq<MimEvent>, e: MimEvent)
    ensures var t := trace + [e];
      && Fails(t) == (if e.Scanned? || e.ending.Served? then 0 else if e.ending.OuterFailed? then Fails(trace) + 1 else Fails(trace))
      && Remembered(t) == (if e.Scanned? || e.ending.OuterFailed? then Remembered(trace) else if e.ending.Served? then Some(e.ending.inner) else None)
  {
    assert (trace + [e])[..|trace|] == trace;
  }

  lemma {:induction false} MimStops(w: MimWorld, cached: Option<Edge>, n: nat, rounds: nat)
    requires n <= rounds && MimRun(w, cached, n).1
    ensures MimRun(w, cached, rounds) == MimRun(w, cached, n)
    decreases rounds
  {
    hide MimRound;
    if n < rounds {
      MimStops(w, cached, n, rounds - 1);
    }
  }

  lemma {:induction false} MimNext(w: MimWorld, cached: Option<Edge>, round: nat)
    requires !MimRun(w, cached, round).1
    ensures MimRun(w, cached, round + 1) == MimRound(w, cached, MimRun(w, cached, round).0, round)
  {
    hide MimRound;
  }

  lemma {:induction false} NoRounds(w: MimWorld, cached: Option<Edge>)
    ensures MimRun(w, cached, 0) == ([], false)
  {
  }

  lemma {:induction false} NothingHeld()
    ensures Holds([], None, None, 0)
  {
  }

  /** The edge the loop keeps is the one that stands; without one the first cached edge does. */
  lemma {:induction false} StandsBy(cached: Option<Edge>, trace: seq<MimEvent>, lastPeer: Option<Edge>, lastInner: Option<Edge>, outerFails: nat)
    requires Holds(trace, lastPeer, lastInner, outerFails)
    ensures Standing(cached, trace) == if outerFails >= MAX_FAILS then None else if lastPeer.Some? then lastPeer else cached
    ensures outerFails > 0 ==> lastPeer.Some?
  {
    hide Remembered;
  }

  lemma {:induction false} HeldScan(cached: Option<Edge>, trace: seq<MimEvent>, lastPeer: Option<Edge>, lastInner: Option<Edge>, outerFails: nat, e: Edge, round: nat)
    requires Holds(trace, lastPeer, lastInner, outerFails)
    ensures Holds(trace + [Scanned(e, round)], Some(e), lastInner, 0) && Standing(cached, trace + [Scanned(e, round)]) == Some(e)
  {
    HoldsNext(trace, Scanned(e, round));
    hide Fails, Remembered;
  }

  lemma {:induction false} HeldSession(trace: seq<MimEvent>, lastPeer: Option<Edge>, lastInner: Option<Edge>, outerFails: nat, s: MimEvent)
    requires s.Session? && Holds(trace, lastPeer, lastInner, outerFails)
    ensures Holds(trace + [s], Some(s.edge),
      match s.ending case Served(inner) => Some(inner) case OuterFailed => lastInner case InnerFailed => None,
      match s.ending case Served(_) => 0 case OuterFailed => outerFails + 1 case InnerFailed => outerFails)
  {
    HoldsNext(trace, s);
    hide Fails, Remembered;
  }

  lemma {:induction false} CandidatesAre(w: MimWorld, trace: seq<MimEvent>, lastPeer: Option<Edge>, lastInner: Option<Edge>, outerFails: nat, outer: Edge, round: nat)
    requires Holds(trace, lastPeer, lastInner, outerFails)
    ensures Candidates(w, trace, outer, round) ==
      var pool := InnerPool(outer, w.gateways(round), w.ladder, INNER_TRIES);
      if lastInner.Some? && lastInner.value !in pool then [lastInner.value] + pool else pool
  {
    hide InnerPool, Fails, Remembered;
  }

  /** The loop, with its remembered edges and its count of outer failures. */
  method RunMim(w: MimWorld, cached: Option<Edge>, rounds: nat) returns (trace: seq<MimEvent>, stuck: bool)
    ensures (trace, stuck) == MimRun(w, cached, rounds)
  {
    hide Fails, Remembered, NotAt, InnerPool, MimRun, Standing, Holds;
    var lastPeer: Option<Edge> := None;
    var lastInner: Option<Edge> := None;
    var outerFails := 0;
    var cachedPeer := cached;
    trace := [];
    NothingHeld();
    assert MimRun(w, cached, 0) == ([], false) by {
      NoRounds(w, cached);
    }
    for round := 0 to rounds
      invariant (trace, false) == MimRun(w, cached, round) && Holds(trace, lastPeer, lastInner, outerFails)
      invariant lastPeer.None? ==> cachedPeer == cached
    {
      ghost var before := trace;
      MimNext(w, cached, round);
      StandsBy(cached, trace, lastPeer, lastInner, outerFails);
      var peer: Option<Edge> := None;
      if outerFails < MAX_FAILS {
        peer := if lastPeer.Some? then lastPeer else cachedPeer;
      } else {
        cachedPeer := None;
      }
      if peer.None? {
        peer := w.scan(round);
        if peer.None? {
          continue;
        }
        HeldScan(cached, trace, lastPeer, lastInner, outerFails, peer.value, round);
        trace := trace + [Scanned(peer.value, round)];
        outerFails := 0;
      }
      var outer := peer.value;
      assert trace == WithOuter(w, cached, before, round) && Standing(cached, trace) == Some(outer);
      ghost var heldPeer := if trace == before then lastPeer else peer;
      lastPeer := Some(outer);
      var pool := InnerCandidates(outer, w.gateways(round), w.ladder, INNER_TRIES);
      var candidates := if lastInner.Some? && lastInner.value !in pool then [lastInner.value] + pool else pool;
      CandidatesAre(w, trace, heldPeer, lastInner, outerFails, outer, round);
      if candidates == [] {
        MimStops(w, cached, round + 1, rounds);
        return trace, true;
      }
      var dialled := NotAt(candidates, outer.ip);
      var ending := w.session(round, outer, dialled);
      HeldSession(trace, heldPeer, lastInner, outerFails, Session(outer, dialled, ending, round));
      trace := trace + [Session(outer, dialled, ending, round)];
      match ending {
        case Served(inner) =>
          lastInner := Some(inner);
          outerFails := 0;
        case OuterFailed =>
          outerFails := outerFails + 1;
        case InnerFailed =>
          lastInner := None;
      }
    }
    stuck := false;
  }
}

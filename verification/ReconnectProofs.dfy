/** What the reconnect loops keep over every run. */
module ReconnectProofs {
  import opened Bytes
  import opened Reconnect

  /* ---- WireGuard ---- */

  /** The clock never runs back, and a scan never finds an endpoint it was told to leave out. */
  ghost predicate Honest(w: WgWorld) {
    Monotone(w) && forall i: nat, ex: set<Peer>, p: Peer :: w.scan(i, ex) == Some(p) ==> p !in ex
  }

  /** No run of an endpoint while any of its exclusions lasts. */
  predicate CooldownsHeld(w: WgWorld, trace: seq<WgEvent>) {
    forall j, k :: 0 <= j < k < |trace| && trace[j].Excluded? && trace[k].Ran? && trace[j].peer == trace[k].peer ==>
      Until(w, trace[j].round) <= w.clock(trace[k].round)
  }

  /** An endpoint is excluded right after its second run in a row, and only then; so it never has a third. */
  predicate ExcludedAfterTwo(trace: seq<WgEvent>) {
    && (forall k :: 0 <= k < |trace| && trace[k].Excluded? ==> k >= 2 && TwiceInARow(trace, k - 1) && trace[k].peer == trace[k - 1].peer)
    && (forall k :: 1 <= k < |trace| - 1 && TwiceInARow(trace, k) ==> trace[k + 1] == Excluded(trace[k].peer, trace[k + 1].round))
  }

  /** Rounds run in order, at most one run in each. */
  predicate InOrder(trace: seq<WgEvent>, rounds: nat) {
    && (forall j, k :: 0 <= j < k < |trace| ==> trace[j].round <= trace[k].round)
    && (forall j, k :: 0 <= j < k < |trace| && trace[j].Ran? ==> trace[j].round < trace[k].round)
    && (forall k :: 0 <= k < |trace| ==> trace[k].round < rounds)
  }

  predicate WgOk(w: WgWorld, trace: seq<WgEvent>, rounds: nat) {
    CooldownsHeld(w, trace) && ExcludedAfterTwo(trace) && InOrder(trace, rounds)
  }

  lemma {:induction false} LastExcludedLatest(trace: seq<WgEvent>, k: nat)
    requires k < |trace| && trace[k].Excluded? && forall i, j :: 0 <= i < j < |trace| ==> trace[i].round <= trace[j].round
    ensures var last := LastExcluded(trace); trace[k].peer in last && trace[k].round <= last[trace[k].peer]
  {
    if k < |trace| - 1 {
      LastExcludedLatest(trace[..|trace| - 1], k);
    }
  }

  lemma {:induction false} TwiceSame(trace: seq<WgEvent>, e: WgEvent, k: nat)
    requires k < |trace|
    ensures TwiceInARow(trace + [e], k) <==> TwiceInARow(trace, k)
  {
  }

  lemma {:induction false} OrderedSnoc(trace: seq<WgEvent>, e: WgEvent, round: nat)
    requires InOrder(trace, round + 1) && e.round == round
    requires forall k :: 0 <= k < |trace| && trace[k].Ran? ==> trace[k].round < round
    ensures InOrder(trace + [e], round + 1)
  {
  }

  lemma {:induction false} TwoSnoc(trace: seq<WgEvent>, e: WgEvent)
    requires ExcludedAfterTwo(trace)
    requires if Due(trace) then e == Excluded(trace[|trace| - 1].peer, e.round) else e.Ran?
    ensures ExcludedAfterTwo(trace + [e])
  {
    var t := trace + [e];
    forall k | 0 <= k < |t| && t[k].Excluded? ensures k >= 2 && TwiceInARow(t, k - 1) && t[k].peer == t[k - 1].peer {
      if k < |trace| {
        TwiceSame(trace, e, k - 1);
      } else {
        assert Due(trace);
        TwiceSame(trace, e, |trace| - 1);
      }
    }
    forall k | 1 <= k < |t| - 1 && TwiceInARow(t, k) ensures t[k + 1] == Excluded(t[k].peer, t[k + 1].round) {
      TwiceSame(trace, e, k);
    }
  }

  lemma {:induction false} ExcludingKeeps(w: WgWorld, trace: seq<WgEvent>, e: WgEvent)
    requires CooldownsHeld(w, trace) && e.Excluded?
    ensures CooldownsHeld(w, trace + [e])
  {
  }

  lemma {:induction false} OpenedKeeps(w: WgWorld, trace: seq<WgEvent>, round: nat)
    requires WgOk(w, trace, round)
    ensures WgOk(w, Opened(trace, round), round + 1) && !Due(Opened(trace, round))
  {
    if Due(trace) {
      var e := Excluded(trace[|trace| - 1].peer, round);
      TwoSnoc(trace, e);
      OrderedSnoc(trace, e, round);
      ExcludingKeeps(w, trace, e);
      hide ExcludedAfterTwo, InOrder, CooldownsHeld;
    } else {
      hide ExcludedAfterTwo, CooldownsHeld;
    }
  }

  /** An endpoint a round may choose has served all its exclusions. */
  lemma {:induction false} ChoiceIsFree(w: WgWorld, first: Option<Peer>, t: seq<WgEvent>, round: nat, k: nat)
    requires Honest(w) && WgOk(w, t, round + 1) && (round == 0 ==> t == []) && Choice(w, first, t, round).Some?
    requires k < |t| && t[k].Excluded? && t[k].peer == Choice(w, first, t, round).value
    ensures Until(w, t[k].round) <= w.clock(round)
  {
    var p := t[k].peer;
    if LastGood(t) == Some(p) && w.verifies(round, p) {
      assert t[|t| - 1].round <= round;
    } else {
      LastExcludedLatest(t, k);
      hide LastExcluded;
      var last := LastExcluded(t);
      assert p !in Cooling(w, t, round);
      assert w.clock(t[k].round) <= w.clock(last[p]);
    }
  }

  lemma {:induction false} RanKeeps(w: WgWorld, t: seq<WgEvent>, p: Peer, round: nat)
    requires WgOk(w, t, round + 1) && !Due(t)
    requires forall k :: 0 <= k < |t| && t[k].Ran? ==> t[k].round < round
    requires forall k :: 0 <= k < |t| && t[k].Excluded? && t[k].peer == p ==> Until(w, t[k].round) <= w.clock(round)
    ensures WgOk(w, t + [Ran(p, round)], round + 1)
  {
    hide Until;
    TwoSnoc(t, Ran(p, round));
    OrderedSnoc(t, Ran(p, round), round);
    hide ExcludedAfterTwo, InOrder;
  }

  lemma {:induction false} RoundKeeps(w: WgWorld, first: Option<Peer>, trace: seq<WgEvent>, round: nat)
    requires Honest(w) && WgOk(w, trace, round) && (round == 0 ==> trace == [])
    ensures WgOk(w, WgRound(w, first, trace, round), round + 1)
  {
    var t := Opened(trace, round);
    OpenedKeeps(w, trace, round);
    EarlierRuns(trace, round);
    hide Opened;
    hide Honest, WgOk, Until, Choice, TwiceInARow;
    var choice := Choice(w, first, t, round);
    if choice.Some? {
      forall k | 0 <= k < |t| && t[k].Excluded? && t[k].peer == choice.value ensures Until(w, t[k].round) <= w.clock(round) {
        ChoiceIsFree(w, first, t, round, k);
      }
      RanKeeps(w, t, choice.value, round);
    }
  }

  lemma {:induction false} EarlierRuns(trace: seq<WgEvent>, round: nat)
    requires InOrder(trace, round)
    ensures var t := Opened(trace, round); forall k :: 0 <= k < |t| && t[k].Ran? ==> t[k].round < round
  {
  }

  /** Over any number of rounds: no endpoint runs while one of its cooldowns lasts, an endpoint is excluded right
      after its second run in a row and only then, and rounds come in order with at most one run in each. */
  lemma {:induction false} WireguardKeeps(w: WgWorld, first: Option<Peer>, rounds: nat)
    requires Honest(w)
    ensures WgOk(w, WgRun(w, first, rounds), rounds)
  {
    hide WgOk, WgRound, Honest;
    if rounds > 0 {
      WireguardKeeps(w, first, rounds - 1);
      RoundKeeps(w, first, WgRun(w, first, rounds - 1), rounds - 1);
    } else {
      NothingWrong(w);
    }
  }

  lemma {:induction false} NothingWrong(w: WgWorld)
    ensures WgOk(w, [], 0)
  {
  }

  predicate RanIn(trace: seq<WgEvent>, round: nat) {
    exists k :: 0 <= k < |trace| && trace[k].Ran? && trace[k].round == round
  }

  /** No endpoint ever runs three times in a row. */
  lemma {:induction false} NeverThrice(w: WgWorld, first: Option<Peer>, rounds: nat, k: nat)
    requires Honest(w) && k + 2 < |WgRun(w, first, rounds)|
    ensures var t := WgRun(w, first, rounds);
      !(t[k].Ran? && t[k + 1].Ran? && t[k + 2].Ran? && t[k].peer == t[k + 1].peer == t[k + 2].peer)
  {
    WireguardKeeps(w, first, rounds);
    hide WgRun;
    var t := WgRun(w, first, rounds);
    if TwiceInARow(t, k + 1) {
      assert t[k + 2].Excluded?;
    }
  }

  /** A round runs an endpoint exactly when it has a choice, and has none only when its scan finds nothing. */
  lemma {:induction false} RoundRuns(w: WgWorld, first: Option<Peer>, rounds: nat, round: nat)
    requires Honest(w) && round < rounds
    ensures var t := Opened(WgRun(w, first, round), round);
      && (RanIn(WgRun(w, first, rounds), round) <==> Choice(w, first, t, round).Some?)
      && (Choice(w, first, t, round).None? ==> w.scan(round, Cooling(w, t, round)).None?)
  {
    var before, after, all := WgRun(w, first, round), WgRun(w, first, round + 1), WgRun(w, first, rounds);
    WireguardKeeps(w, first, round);
    WireguardKeeps(w, first, rounds);
    LaterRounds(w, first, round + 1, rounds);
    var t := Opened(before, round);
    EarlierRuns(before, round);
    assert after == WgRound(w, first, before, round);
    hide WgRun, Opened, ExcludedAfterTwo, CooldownsHeld;
    var choice := Choice(w, first, t, round);
    if choice.Some? {
      assert after == t + [Ran(choice.value, round)];
      assert all[|t|] == Ran(choice.value, round);
    }
  }

  /** `b` is `a` and events of rounds from `n` on. */
  predicate Extends(a: seq<WgEvent>, b: seq<WgEvent>, n: nat) {
    a <= b && forall k :: |a| <= k < |b| ==> b[k].round >= n
  }

  lemma {:induction false} RoundExtends(w: WgWorld, first: Option<Peer>, trace: seq<WgEvent>, round: nat)
    ensures Extends(trace, WgRound(w, first, trace, round), round)
  {
    hide Choice;
  }

  lemma {:induction false} ExtendsFurther(a: seq<WgEvent>, b: seq<WgEvent>, c: seq<WgEvent>, n: nat, m: nat)
    requires Extends(a, b, n) && Extends(b, c, m) && n <= m
    ensures Extends(a, c, n)
  {
    assert forall k :: 0 <= k < |b| ==> c[k] == b[k];
  }

  lemma {:induction false} LaterRounds(w: WgWorld, first: Option<Peer>, n: nat, rounds: nat)
    requires n <= rounds
    ensures Extends(WgRun(w, first, n), WgRun(w, first, rounds), n)
  {
    hide WgRound;
    if n < rounds {
      LaterRounds(w, first, n, rounds - 1);
      RoundExtends(w, first, WgRun(w, first, rounds - 1), rounds - 1);
      hide Extends;
      ExtendsFurther(WgRun(w, first, n), WgRun(w, first, rounds - 1), WgRun(w, first, rounds), n, rounds - 1);
    }
  }

  /* ---- masque in masque ---- */

  function Scans(trace: seq<MimEvent>): nat {
    if trace == [] then 0 else Scans(trace[..|trace| - 1]) + if trace[|trace| - 1].Scanned? then 1 else 0
  }

  predicate OuterFailure(e: MimEvent) {
    e.Session? && e.ending.OuterFailed?
  }

  function OuterFailures(trace: seq<MimEvent>): nat {
    if trace == [] then 0 else OuterFailures(trace[..|trace| - 1]) + if OuterFailure(trace[|trace| - 1]) then 1 else 0
  }

  /** What an event may be after the events before it. A scan happens exactly at a start without a cached edge, and
      after two outer failures since the last scan or served session. What a scan finds and how a session ends
      is the world's answer. A session goes through the edge of the event
      before it, the first through the cached one; a failed inner hop changes no count of outer failures; no inner
      edge is at the outer hop's own address; and the remembered inner edge is among those tried. */
  predicate Follows(w: MimWorld, cached: Option<Edge>, trace: seq<MimEvent>, e: MimEvent) {
    && (e.Scanned? <==> if trace == [] then cached.None? else Fails(trace) >= MAX_FAILS)
    && (e.Scanned? ==> w.scan(e.round) == Some(e.edge))
    && (e.Session? ==>
          && e.ending == w.session(e.round, e.edge, e.dialled)
          && Some(e.edge) == (if trace == [] then cached else Some(trace[|trace| - 1].edge))
          && (e.ending.InnerFailed? ==> Fails(trace + [e]) == Fails(trace))
          && (forall d :: d in e.dialled ==> d.ip != e.edge.ip)
          && (Remembered(trace).Some? ==> Remembered(trace).value.ip == e.edge.ip || Remembered(trace).value in e.dialled))
  }

  predicate MimOk(w: MimWorld, cached: Option<Edge>, trace: seq<MimEvent>) {
    forall k :: 0 <= k < |trace| ==> Follows(w, cached, trace[..k], trace[k])
  }

  predicate Counted(cached: Option<Edge>, trace: seq<MimEvent>) {
    MAX_FAILS * Scans(trace) + Fails(trace) <= MAX_FAILS * (if cached.Some? then 0 else 1) + OuterFailures(trace)
  }

  lemma {:induction false} CountedNext(cached: Option<Edge>, trace: seq<MimEvent>, e: MimEvent)
    requires Counted(cached, trace) || (trace == [] && e.Scanned? && cached.None?)
    requires e.Scanned? ==> Fails(trace) >= MAX_FAILS || (trace == [] && cached.None?)
    ensures Counted(cached, trace + [e])
  {
    HoldsNext(trace, e);
    assert (trace + [e])[..|trace|] == trace;
    NothingCounted();
  }

  lemma {:induction false} NothingCounted()
    ensures Scans([]) == 0 && Fails([]) == 0 && OuterFailures([]) == 0
  {
  }

  lemma {:induction false} OkNext(w: MimWorld, cached: Option<Edge>, trace: seq<MimEvent>, e: MimEvent)
    requires MimOk(w, cached, trace) && Follows(w, cached, trace, e)
    ensures MimOk(w, cached, trace + [e])
  {
    hide Follows;
    var t := trace + [e];
    forall k | 0 <= k < |t| ensures Follows(w, cached, t[..k], t[k]) {
      if k < |trace| {
        assert t[..k] == trace[..k];
      } else {
        assert t[..k] == trace;
      }
    }
  }

  lemma {:induction false} ScanFollows(w: MimWorld, cached: Option<Edge>, trace: seq<MimEvent>, e: MimEvent)
    requires e.Scanned? && w.scan(e.round) == Some(e.edge) && Standing(cached, trace).None?
    ensures Follows(w, cached, trace, e)
  {
    NothingCounted();
  }

  lemma {:induction false} AttemptFollows(w: MimWorld, cached: Option<Edge>, trace: seq<MimEvent>, outer: Edge, round: nat)
    requires Standing(cached, trace) == Some(outer)
    ensures Follows(w, cached, trace, Attempt(w, trace, outer, round))
  {
    var e := Attempt(w, trace, outer, round);
    HoldsNext(trace, e);
    NotAtExact(Candidates(w, trace, outer, round), outer.ip);
    hide Fails, Remembered, NotAt, InnerPool;
  }

  ghost predicate MimKept(w: MimWorld, cached: Option<Edge>, trace: seq<MimEvent>) {
    MimOk(w, cached, trace) && Counted(cached, trace)
  }

  lemma {:induction false} KeptNext(w: MimWorld, cached: Option<Edge>, trace: seq<MimEvent>, e: MimEvent)
    requires MimKept(w, cached, trace) && Follows(w, cached, trace, e)
    ensures MimKept(w, cached, trace + [e])
  {
    OkNext(w, cached, trace, e);
    CountedNext(cached, trace, e);
    hide MimOk, Counted;
  }

  lemma {:induction false} MimRoundKeeps(w: MimWorld, cached: Option<Edge>, trace: seq<MimEvent>, round: nat)
    requires MimKept(w, cached, trace)
    ensures MimKept(w, cached, MimRound(w, cached, trace, round).0)
  {
    hide MimKept, Follows, Standing, Attempt, Candidates;
    var t := WithOuter(w, cached, trace, round);
    if t != trace {
      var e := Scanned(w.scan(round).value, round);
      ScanFollows(w, cached, trace, e);
      KeptNext(w, cached, trace, e);
    }
    if Standing(cached, t).Some? {
      var outer := Standing(cached, t).value;
      AttemptFollows(w, cached, t, outer, round);
      KeptNext(w, cached, t, Attempt(w, t, outer, round));
    }
  }

  lemma {:induction false} NothingKept(w: MimWorld, cached: Option<Edge>)
    ensures MimKept(w, cached, [])
  {
  }

  lemma {:induction false} MimKeeps(w: MimWorld, cached: Option<Edge>, rounds: nat)
    ensures MimKept(w, cached, MimRun(w, cached, rounds).0)
  {
    hide MimKept, MimRound;
    if rounds == 0 {
      NothingKept(w, cached);
    } else {
      MimKeeps(w, cached, rounds - 1);
      MimRoundKeeps(w, cached, MimRun(w, cached, rounds - 1).0, rounds - 1);
    }
  }

  /** Over any run: scans happen exactly when they must, and so number at most one, or none with a cached edge, plus
      half the outer failures; a failed inner hop changes neither the outer edge nor its count; no inner hop is at
      the outer hop's own address; and the remembered inner edge is always among those tried. */
  lemma {:induction false} TwoHopKeeps(w: MimWorld, cached: Option<Edge>, rounds: nat)
    ensures var trace := MimRun(w, cached, rounds).0;
      && MimOk(w, cached, trace)
      && Scans(trace) <= (if cached.Some? then 0 else 1) + OuterFailures(trace) / MAX_FAILS
  {
    MimKeeps(w, cached, rounds);
    hide MimRun, Fails, Scans, OuterFailures, MimOk;
  }

  /** A session that reports its inner edge tried it. */
  ghost predicate Truthful(w: MimWorld) {
    forall n: nat, edge: Edge, dialled: seq<Edge> :: w.session(n, edge, dialled).Served? ==> w.session(n, edge, dialled).inner in dialled
  }

  /** After a session that served, the next one goes through the same outer edge and may try the same inner one. */
  lemma {:induction false} ServedAgain(w: MimWorld, cached: Option<Edge>, rounds: nat, k: nat)
    requires Truthful(w)
    requires var t := MimRun(w, cached, rounds).0; k + 1 < |t| && t[k].Session? && t[k].ending.Served?
    ensures var t := MimRun(w, cached, rounds).0;
      t[k + 1].Session? && t[k + 1].edge == t[k].edge && t[k].ending.inner in t[k + 1].dialled
  {
    MimKeeps(w, cached, rounds);
    var t := MimRun(w, cached, rounds).0;
    hide MimRun, Counted;
    assert Follows(w, cached, t[..k], t[k]) && Follows(w, cached, t[..k + 1], t[k + 1]);
    assert t[..k + 1] == t[..k] + [t[k]];
    HoldsNext(t[..k], t[k]);
  }
}

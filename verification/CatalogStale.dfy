/** How stale pages from failed builds are marked, and a run in which one is not. */
module CatalogStale {
  import opened Bytes
  import opened CatalogCache
  import opened CatalogCacheProofs

  /** What is fixed about a request when it arrives. */
  predicate SameRequest(a: Request, b: Request) {
    a.key == b.key && a.now == b.now && a.stale == b.stale
  }

  lemma {:induction false} StepRequests(s: State, e: Event, id: nat)
    requires Enabled(s, e) && id in Step(s, e).requests
    ensures id in s.requests && id < s.nextRequest ==> SameRequest(Step(s, e).requests[id], s.requests[id])
    ensures id !in s.requests ==> e.Arrive? && id == s.nextRequest && Step(s, e).requests[id].key == e.key
    ensures id !in s.requests ==> Step(s, e).requests[id].now == e.now && Step(s, e).requests[id].stale == StaleAt(Get(s.memo, e.key), e.now)
  {
    hide Stored, Get;
  }

  lemma {:induction false} StepCounts(s: State, e: Event)
    requires Enabled(s, e)
    ensures s.nextRequest <= Step(s, e).nextRequest
    ensures forall id :: id in Step(s, e).requests && id !in s.requests ==> s.nextRequest <= id < Step(s, e).nextRequest
  {
    hide Stored, Get;
  }

  lemma {:induction false} RequestKept(s: State, events: seq<Event>, id: nat)
    requires Feasible(s, events) && id in s.requests && id < s.nextRequest && id in Run(s, events).requests
    ensures SameRequest(Run(s, events).requests[id], s.requests[id])
    decreases |events|
  {
    if events != [] {
      var t := Step(s, events[0]);
      StepCounts(s, events[0]);
      NeverBack(t, events[1..], id);
      StepRequests(s, events[0], id);
      hide Step, Enabled;
      RequestKept(t, events[1..], id);
    }
  }

  lemma {:induction false} NeverBack(s: State, events: seq<Event>, id: nat)
    requires Feasible(s, events) && id < s.nextRequest && id in Run(s, events).requests
    ensures id in s.requests
    decreases |events|
  {
    if events != [] {
      StepCounts(s, events[0]);
      hide Step, Enabled;
      NeverBack(Step(s, events[0]), events[1..], id);
    }
  }

  /** Where in a run a request arrived, and what the memo held for it then. */
  lemma {:induction false} Arrival(s: State, events: seq<Event>, id: nat) returns (k: nat)
    requires Feasible(s, events) && id >= s.nextRequest && id !in s.requests && id in Run(s, events).requests
    ensures k < |events| && Feasible(s, events[..k])
    ensures var r, met := Run(s, events).requests[id], Run(s, events[..k]);
      events[k] == Arrive(r.key, r.now) && met.nextRequest == id && r.stale == StaleAt(Get(met.memo, r.key), r.now)
    decreases |events|
  {
    var t := Step(s, events[0]);
    StepCounts(s, events[0]);
    if id in t.requests {
      k := 0;
      StepRequests(s, events[0], id);
      hide Step, Enabled, Get;
      RequestKept(t, events[1..], id);
    } else {
      if id < t.nextRequest {
        NeverBack(t, events[1..], id);
      }
      hide Step, Enabled, Get;
      k := Arrival(t, events[1..], id);
      assert events[..k + 1][1..] == events[1..][..k];
      k := k + 1;
    }
  }

  /** A request answered from a build whose source failed: never an error while the build held a stale page, unless a
      response came whose body could not be read, and the stale page is marked exactly when the memo held that page as the request arrived, no older then than the stale
      window allows. */
  lemma {:induction false} FailedBuildAnswers(events: seq<Event>, id: nat) returns (k: nat)
    requires Feasible(EMPTY, events) && Awaited(Run(EMPTY, events), id)
    ensures k < |events| && Feasible(EMPTY, events[..k])
    ensures var s, met := Run(EMPTY, events), Run(EMPTY, events[..k]);
      var r := s.requests[id];
      var b := s.builds[r.phase.build];
      && events[k] == Arrive(r.key, r.now) && met.nextRequest == id && b.key == r.key
      && (b.stale.Some? ==> b.result.value.Page? || b.result.value.Broken?)
      && (b.stale.Some? && b.result.value == Page(b.stale.value) ==>
            Answer(id, r, b) == [Served(id, r.key, 200, b.stale.value.body, b.stale, FromBuild(b.started),
              Get(met.memo, r.key) == b.stale && r.now - b.stale.value.at <= 1_800_000)])
  {
    k := Arrival(EMPTY, events, id);
    RunInv(EMPTY, events);
    var s := Run(EMPTY, events);
    var r := s.requests[id];
    assert RequestOk(s, r) && BuildOk(s, s.builds[r.phase.build]);
    hide Run, Get, Feasible;
  }

  /* ---- a late request for a stale page ---- */

  /** The run: a page is built; at the last moment of its stale window one request starts a build, and one arriving a
      millisecond later joins it; the build does not get a page. */
  function LateRun(key: Key, body: string, outcome: Outcome): seq<Event> {
    var last := CATALOG_STALE_IF_ERROR_MS;
    [Arrive(key, 0), EdgeMiss(0), Complete(0, Response(200, body), 0), Forget(0),
     Arrive(key, last), EdgeMiss(1), Arrive(key, last + 1), EdgeMiss(2), Complete(1, outcome, last + 1), Resume(1), Resume(2)]
  }

  /** How its second build settles, and what the two requests are answered. */
  function LateResult(body: string, outcome: Outcome): Result {
    if outcome.Failed? then Page(Entry(body, 0)) else Broken
  }

  function LateAnswer(id: nat, key: Key, body: string, outcome: Outcome, marked: bool): seq<Served> {
    if outcome.Failed? then [Served(id, key, 200, body, Some(Entry(body, 0)), FromBuild(CATALOG_STALE_IF_ERROR_MS), marked)] else []
  }

  /** The states of that run, one before each event and one after the last. */
  function LateStates(key: Key, body: string, outcome: Outcome): seq<State> {
    var e, last := Entry(body, 0), CATALOG_STALE_IF_ERROR_MS;
    var r0, b0 := Request(key, 0, None, Awaiting(0)), Build(key, None, 0, None, false);
    var s1 := EMPTY.(requests := map[0 := Request(key, 0, None, Looking)], nextRequest := 1);
    var s2 := s1.(requests := map[0 := r0], inflight := map[key := 0], builds := map[0 := b0], nextBuild := 1);
    var s3 := s2.(builds := map[0 := b0.(result := Some(Page(e)))], built := {(key, e)}, memo := [(key, e)], chars := |body|);
    var done := b0.(result := Some(Page(e)), forgotten := true);
    var s4 := s3.(inflight := map[], builds := map[0 := done]);
    var r1, r2 := Request(key, last, Some(e), Looking), Request(key, last + 1, None, Looking);
    var a1, a2, b1 := r1.(phase := Awaiting(1)), r2.(phase := Awaiting(1)), Build(key, Some(e), last, None, false);
    var s5 := s4.(clock := last, requests := map[0 := r0, 1 := r1], nextRequest := 2);
    var s6 := s5.(requests := map[0 := r0, 1 := a1], inflight := map[key := 1], builds := map[0 := done, 1 := b1], nextBuild := 2);
    var s7 := s6.(clock := last + 1, requests := map[0 := r0, 1 := a1, 2 := r2], nextRequest := 3);
    var s8 := s7.(requests := map[0 := r0, 1 := a1, 2 := a2]);
    var s9 := s8.(builds := map[0 := done, 1 := b1.(result := Some(LateResult(body, outcome)))]);
    var v1, v2 := LateAnswer(1, key, body, outcome, true), LateAnswer(2, key, body, outcome, false);
    [EMPTY, s1, s2, s3, s4, s5, s6, s7, s8, s9,
     s9.(requests := map[0 := r0, 2 := a2], log := v1),
     s9.(requests := map[0 := r0], log := v1 + v2)]
  }

  ghost predicate Leads(s: State, e: Event, t: State) {
    Enabled(s, e) && Step(s, e) == t
  }

  ghost predicate Path(ss: seq<State>, es: seq<Event>) {
    |ss| == |es| + 1 && forall i :: 0 <= i < |es| ==> Leads(ss[i], es[i], ss[i + 1])
  }

  lemma {:induction false} PathRuns(ss: seq<State>, es: seq<Event>)
    requires Path(ss, es)
    ensures Feasible(ss[0], es) && Run(ss[0], es) == ss[|es|]
    decreases |es|
  {
    if es != [] {
      assert Leads(ss[0], es[0], ss[1]);
      hide Step, Enabled;
      assert forall i :: 0 <= i < |es| - 1 ==> es[1..][i] == es[i + 1];
      assert forall i :: 0 <= i < |ss| - 1 ==> ss[1..][i] == ss[i + 1];
      PathRuns(ss[1..], es[1..]);
    }
  }

  lemma {:induction false} StoredAlone(key: Key, e: Entry)
    requires |e.body| <= MAX_STORED_BODY
    ensures Stored([], key, e) == [(key, e)] && Total([(key, e)]) == |e.body| && Get([(key, e)], key) == Some(e) && Get([], key) == None
  {
    var m := [(key, e)];
    assert m[1..] == [] && Total([]) == 0;
    assert Delete([], key) + m == m;
  }

  ghost predicate LateLeads(key: Key, body: string, outcome: Outcome, i: nat)
    requires i < 11
  {
    var ss, es := LateStates(key, body, outcome), LateRun(key, body, outcome);
    Leads(ss[i], es[i], ss[i + 1])
  }

  /** The requests of the late run arrive. */
  lemma {:induction false} LateArrivals(key: Key, body: string, outcome: Outcome, i: nat)
    requires |body| <= MAX_STORED_BODY && i in {0, 4, 6}
    ensures LateLeads(key, body, outcome, i)
  {
    StoredAlone(key, Entry(body, 0));
    hide Stored, Total, Get, LateResult, LateAnswer;
  }

  /** They miss the edge cache. */
  lemma {:induction false} LateMisses(key: Key, body: string, outcome: Outcome, i: nat)
    requires i in {1, 5, 7}
    ensures LateLeads(key, body, outcome, i)
  {
    hide Stored, Total, Get, LateResult, LateAnswer;
  }

  /** Its first build gets the page. */
  lemma {:induction false} LatePage(key: Key, body: string, outcome: Outcome, i: nat)
    requires |body| <= MAX_STORED_BODY && i in {2, 3}
    ensures LateLeads(key, body, outcome, i)
  {
    StoredAlone(key, Entry(body, 0));
    hide Stored, Total, Get, LateResult, LateAnswer;
  }

  /** Its second build settles, and both of its requests are answered. */
  lemma {:induction false} LateEnd(key: Key, body: string, outcome: Outcome, i: nat)
    requires !outcome.Response? && 8 <= i < 11
    ensures LateLeads(key, body, outcome, i)
  {
    hide Stored, Total, Get;
  }

  lemma {:induction false} LateRunEnds(key: Key, body: string, outcome: Outcome)
    requires |body| <= MAX_STORED_BODY && !outcome.Response?
    ensures Feasible(EMPTY, LateRun(key, body, outcome))
    ensures var s := Run(EMPTY, LateRun(key, body, outcome));
      && s.log == LateAnswer(1, key, body, outcome, true) + LateAnswer(2, key, body, outcome, false)
      && s.nextRequest == 3 && 1 !in s.requests && 2 !in s.requests
  {
    var ss, es := LateStates(key, body, outcome), LateRun(key, body, outcome);
    assert |ss| == |es| + 1 && ss[0] == EMPTY;
    forall i | 0 <= i < |es| ensures Leads(ss[i], es[i], ss[i + 1]) {
      if i in {0, 4, 6} {
        LateArrivals(key, body, outcome, i);
      } else if i in {1, 5, 7} {
        LateMisses(key, body, outcome, i);
      } else if i in {2, 3} {
        LatePage(key, body, outcome, i);
      } else {
        LateEnd(key, body, outcome, i);
      }
      assert LateLeads(key, body, outcome, i);
    }
    var t := ss[11];
    assert t.log == LateAnswer(1, key, body, outcome, true) + LateAnswer(2, key, body, outcome, false);
    assert t.nextRequest == 3 && 1 !in t.requests && 2 !in t.requests;
    hide LateStates, LateRun, Leads;
    PathRuns(ss, es);
  }

  /** One and the same stale page, marked for the request that started the build and not for the one that joined it. */
  lemma {:induction false} UnmarkedStale(key: Key, body: string)
    requires |body| <= MAX_STORED_BODY
    ensures var e, last := Entry(body, 0), CATALOG_STALE_IF_ERROR_MS;
      && Feasible(EMPTY, LateRun(key, body, Failed))
      && Run(EMPTY, LateRun(key, body, Failed)).log ==
           [Served(1, key, 200, body, Some(e), FromBuild(last), true), Served(2, key, 200, body, Some(e), FromBuild(last), false)]
  {
    LateRunEnds(key, body, Failed);
    hide LateRun, Run, Feasible;
  }

  /** A response that breaks off while it is read: neither request is answered, though a stale page was at hand. */
  lemma {:induction false} BrokenBody(key: Key, body: string)
    requires |body| <= MAX_STORED_BODY
    ensures Feasible(EMPTY, LateRun(key, body, Unreadable))
    ensures var s := Run(EMPTY, LateRun(key, body, Unreadable));
      s.log == [] && s.nextRequest == 3 && 1 !in s.requests && 2 !in s.requests
  {
    LateRunEnds(key, body, Unreadable);
    hide LateRun, Run, Feasible;
  }
}

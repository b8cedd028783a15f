/** What every run of the catalog cache keeps, under any interleaving of requests, builds and clock readings. */
module CatalogCacheProofs {
  import opened Bytes
  import opened CatalogCache

  /** The memo is within its bounds, counts its characters, and holds only pages built for their key. */
  ghost predicate MemoOk(s: State) {
    && s.chars == Total(s.memo) && |s.memo| <= 12 && s.chars <= 2_000_000 && Distinct(s.memo)
    && (forall p :: p in s.memo ==> p in s.built)
    && (forall key :: key in s.edge ==> (key, s.edge[key].entry) in s.built && s.edge[key].entry.at <= s.edge[key].landed <= s.clock)
    && (forall p :: p in s.built ==> p.1.at <= s.clock)
  }

  /** A key is in flight exactly while it has an unforgotten build, and that build is the only one. */
  ghost predicate FlightOk(s: State) {
    && (forall key :: key in s.inflight ==>
          s.inflight[key] in s.builds && s.builds[s.inflight[key]].key == key && !s.builds[s.inflight[key]].forgotten)
    && (forall id :: id in s.builds && !s.builds[id].forgotten ==>
          s.builds[id].key in s.inflight && s.inflight[s.builds[id].key] == id)
    && (forall id :: id in s.builds ==> id < s.nextBuild)
  }

  /** A page may stand in for another while its age, when the clock read `since`, is within the stale window. */
  predicate WithinStale(e: Entry, since: int) {
    since - e.at <= 1_800_000
  }

  ghost predicate StaleOk(s: State, key: Key, stale: Option<Entry>, since: int) {
    stale.Some? ==> (key, stale.value) in s.built && WithinStale(stale.value, since)
  }

  ghost predicate BuildOk(s: State, b: Build) {
    && StaleOk(s, b.key, b.stale, b.started) && b.started <= s.clock
    && (b.forgotten ==> b.result.Some?)
    && match b.result
       case Some(Page(e)) => (b.key, e) in s.built && WithinStale(e, b.started)
       case Some(Plain(status, _)) => status != 200 && b.stale.None?
       case Some(Threw) => b.stale.None?
       case Some(Broken) => true
       case None => true
  }

  ghost predicate BuildsOk(s: State) {
    forall id :: id in s.builds ==> BuildOk(s, s.builds[id])
  }

  ghost predicate RequestOk(s: State, r: Request) {
    && StaleOk(s, r.key, r.stale, r.now) && r.now <= s.clock
    && (r.phase.Awaiting? ==> r.phase.build in s.builds && s.builds[r.phase.build].key == r.key)
  }

  ghost predicate RequestsOk(s: State) {
    forall id :: id in s.requests ==> id < s.nextRequest && RequestOk(s, s.requests[id])
  }

  /** A 200 answer carries a page built for its key, inside the window of the source it came from. */
  ghost predicate ServedOk(s: State, v: Served) {
    if v.status == 200 then
      && v.entry.Some? && v.body == v.entry.value.body && (v.key, v.entry.value) in s.built
      && match v.source
         case FromMemo(now) => now - v.entry.value.at < 300_000
         case FromEdge(now, landed) => v.entry.value.at <= landed && now - landed <= 300_000
         case FromBuild(started) => WithinStale(v.entry.value, started)
         case NoPage => false
    else v.source == NoPage
  }

  /** No request is answered twice, nor answered while it still waits. */
  ghost predicate LogOk(s: State) {
    && (forall i :: 0 <= i < |s.log| ==> s.log[i].id < s.nextRequest && s.log[i].id !in s.requests && ServedOk(s, s.log[i]))
    && (forall i, j :: 0 <= i < j < |s.log| ==> s.log[i].id != s.log[j].id)
  }

  ghost predicate Inv(s: State) {
    MemoOk(s) && FlightOk(s) && BuildsOk(s) && RequestsOk(s) && LogOk(s)
  }

  lemma {:induction false} ArriveRequests(s: State, key: Key, now: int)
    requires MemoOk(s) && RequestsOk(s) && now >= s.clock
    ensures RequestsOk(ArriveStep(s, key, now))
  {
    GetIn(s.memo, key);
    hide Get, Total, Distinct;
    RequestsCarry(s, ArriveStep(s, key, now));
  }

  lemma {:induction false} ArriveLog(s: State, key: Key, now: int)
    requires MemoOk(s) && LogOk(s) && RequestsOk(s) && now >= s.clock
    ensures LogOk(ArriveStep(s, key, now))
  {
    GetIn(s.memo, key);
    hide Get, Total, Distinct;
    LogCarry(s, ArriveStep(s, key, now));
  }

  lemma {:induction false} ArriveInv(s: State, key: Key, now: int)
    requires Inv(s) && now >= s.clock
    ensures Inv(ArriveStep(s, key, now))
  {
    hide Get, Total, Distinct, BuildsOk, RequestsOk, LogOk;
    BuildsCarry(s, ArriveStep(s, key, now));
    ArriveRequests(s, key, now);
    ArriveLog(s, key, now);
  }

  /** What a step that leaves the builds alone, and only adds built pages, keeps. */
  lemma {:induction false} BuildsCarry(s: State, t: State)
    requires BuildsOk(s) && t.builds == s.builds && s.built <= t.built && s.clock <= t.clock
    ensures BuildsOk(t)
  {
    forall i | i in t.builds ensures BuildOk(t, t.builds[i]) {
      assert BuildOk(s, s.builds[i]);
    }
  }

  ghost predicate SameKeys(s: State, t: State) {
    forall i :: i in s.builds ==> i in t.builds && t.builds[i].key == s.builds[i].key
  }

  lemma {:induction false} RequestCarry(s: State, t: State, r: Request)
    requires RequestOk(s, r) && SameKeys(s, t) && s.built <= t.built && s.clock <= t.clock
    ensures RequestOk(t, r)
  {
  }

  lemma {:induction false} RequestsCarry(s: State, t: State)
    requires RequestsOk(s) && SameKeys(s, t) && s.built <= t.built && s.clock <= t.clock && s.nextRequest <= t.nextRequest
    requires forall i :: i in t.requests ==>
      if i in s.requests then t.requests[i] == s.requests[i] else i < t.nextRequest && RequestOk(t, t.requests[i])
    ensures RequestsOk(t)
  {
    forall i | i in t.requests ensures i < t.nextRequest && RequestOk(t, t.requests[i]) {
      if i in s.requests {
        RequestCarry(s, t, s.requests[i]);
      }
    }
  }

  /** What was answered stays answered; one further answer may be added. */
  lemma {:induction false} LogCarry(s: State, t: State)
    requires LogOk(s) && s.built <= t.built && s.nextRequest <= t.nextRequest
    requires forall i :: i in t.requests ==> i in s.requests || i >= s.nextRequest
    requires t.log == s.log || (exists v :: t.log == s.log + [v] && ServedOk(t, v) && v.id < t.nextRequest && v.id !in t.requests
                                            && (v.id in s.requests || v.id >= s.nextRequest))
    ensures LogOk(t)
  {
    forall i | 0 <= i < |s.log| ensures ServedOk(t, s.log[i]) {
      assert ServedOk(s, s.log[i]);
    }
  }

  lemma {:induction false} EdgeHitInv(s: State, id: nat, now: int)
    requires Inv(s) && Enabled(s, EdgeHit(id, now))
    ensures Inv(EdgeHitStep(s, id, now))
  {
  }

  lemma {:induction false} EdgeMissBuilds(s: State, id: nat)
    requires BuildsOk(s) && RequestsOk(s) && Enabled(s, EdgeMiss(id))
    ensures BuildsOk(EdgeMissStep(s, id))
  {
    var t := EdgeMissStep(s, id);
    assert RequestOk(s, s.requests[id]);
    forall i | i in t.builds ensures BuildOk(t, t.builds[i]) {
      assert i in s.builds ==> BuildOk(s, s.builds[i]);
    }
  }

  lemma {:induction false} EdgeMissRequests(s: State, id: nat)
    requires RequestsOk(s) && FlightOk(s) && Enabled(s, EdgeMiss(id))
    ensures RequestsOk(EdgeMissStep(s, id))
  {
    var t := EdgeMissStep(s, id);
    forall i | i in t.requests ensures i < t.nextRequest && RequestOk(t, t.requests[i]) {
      assert RequestOk(s, s.requests[i]);
    }
  }

  lemma {:induction false} EdgeMissFlight(s: State, id: nat)
    requires FlightOk(s) && Enabled(s, EdgeMiss(id))
    ensures FlightOk(EdgeMissStep(s, id))
  {
  }

  lemma {:induction false} EdgeMissMemo(s: State, id: nat)
    requires MemoOk(s) && LogOk(s) && RequestsOk(s) && Enabled(s, EdgeMiss(id))
    ensures MemoOk(EdgeMissStep(s, id)) && LogOk(EdgeMissStep(s, id))
  {
    hide Total, Distinct, ServedOk, LogOk, BuildOk;
    LogCarry(s, EdgeMissStep(s, id));
  }

  lemma {:induction false} EdgeMissInv(s: State, id: nat)
    requires Inv(s) && Enabled(s, EdgeMiss(id))
    ensures Inv(EdgeMissStep(s, id))
  {
    hide EdgeMissStep, MemoOk, FlightOk, BuildsOk, RequestsOk, LogOk;
    EdgeMissBuilds(s, id);
    EdgeMissRequests(s, id);
    EdgeMissFlight(s, id);
    EdgeMissMemo(s, id);
  }

  lemma {:induction false} CompleteMemo(s: State, id: nat, outcome: Outcome, now: int)
    requires MemoOk(s) && Enabled(s, Complete(id, outcome, now))
    ensures MemoOk(CompleteStep(s, id, outcome, now))
  {
    if outcome.Response? && outcome.status == 200 && |outcome.body| <= MAX_STORED_BODY {
      hide Stored;
      StoredBounds(s.memo, s.builds[id].key, Entry(outcome.body, now));
    }
  }

  lemma {:induction false} CompleteBuilds(s: State, id: nat, outcome: Outcome, now: int)
    requires BuildsOk(s) && Enabled(s, Complete(id, outcome, now))
    ensures BuildsOk(CompleteStep(s, id, outcome, now))
  {
    hide Stored, Total;
    var t := CompleteStep(s, id, outcome, now);
    forall i | i in t.builds ensures BuildOk(t, t.builds[i]) {
      assert BuildOk(s, s.builds[i]);
    }
  }

  /** What a step that changes only the results of builds keeps. */
  lemma {:induction false} FlightCarry(s: State, t: State)
    requires FlightOk(s) && t.inflight == s.inflight && t.nextBuild == s.nextBuild && t.builds.Keys == s.builds.Keys
    requires forall id :: id in s.builds ==> t.builds[id].key == s.builds[id].key && t.builds[id].forgotten == s.builds[id].forgotten
    ensures FlightOk(t)
  {
  }

  lemma {:induction false} CompleteShape(s: State, id: nat, outcome: Outcome, now: int)
    requires id in s.builds
    ensures var t := CompleteStep(s, id, outcome, now);
      && t.inflight == s.inflight && t.nextBuild == s.nextBuild
      && t.builds == s.builds[id := s.builds[id].(result := Some(Settled(s.builds[id], outcome, now)))]
  {
    hide Stored, Total, Settled;
  }

  lemma {:induction false} CompleteFlight(s: State, id: nat, outcome: Outcome, now: int)
    requires FlightOk(s) && Enabled(s, Complete(id, outcome, now))
    ensures FlightOk(CompleteStep(s, id, outcome, now))
  {
    CompleteShape(s, id, outcome, now);
    hide FlightOk, CompleteStep, Settled;
    FlightCarry(s, CompleteStep(s, id, outcome, now));
  }

  lemma {:induction false} CompleteClients(s: State, id: nat, outcome: Outcome, now: int)
    requires RequestsOk(s) && LogOk(s) && Enabled(s, Complete(id, outcome, now))
    ensures RequestsOk(CompleteStep(s, id, outcome, now)) && LogOk(CompleteStep(s, id, outcome, now))
  {
    hide Stored, Total, Settled, RequestOk, ServedOk, LogOk;
    var t := CompleteStep(s, id, outcome, now);
    RequestsCarry(s, t);
    LogCarry(s, t);
  }

  lemma {:induction false} CompleteInv(s: State, id: nat, outcome: Outcome, now: int)
    requires Inv(s) && Enabled(s, Complete(id, outcome, now))
    ensures Inv(CompleteStep(s, id, outcome, now))
  {
    hide CompleteStep, MemoOk, FlightOk, BuildsOk, RequestsOk, LogOk;
    CompleteMemo(s, id, outcome, now);
    CompleteFlight(s, id, outcome, now);
    CompleteBuilds(s, id, outcome, now);
    CompleteClients(s, id, outcome, now);
  }

  lemma {:induction false} ForgetInv(s: State, id: nat)
    requires Inv(s) && Enabled(s, Forget(id))
    ensures Inv(ForgetStep(s, id))
  {
    hide Total, Distinct, ServedOk, LogOk, RequestOk;
    var t := ForgetStep(s, id);
    assert BuildOk(s, s.builds[id]);
    forall i | i in t.builds ensures BuildOk(t, t.builds[i]) {
      assert BuildOk(s, s.builds[i]);
    }
    RequestsCarry(s, t);
    LogCarry(s, t);
  }

  lemma {:induction false} ResumeInv(s: State, id: nat)
    requires Inv(s) && Enabled(s, Resume(id))
    ensures Inv(ResumeStep(s, id))
  {
    hide Total, Distinct;
    var t := ResumeStep(s, id);
    assert RequestOk(s, s.requests[id]);
    assert BuildOk(s, s.builds[s.requests[id].phase.build]);
    BuildsCarry(s, t);
    RequestsCarry(s, t);
    LogCarry(s, t);
  }

  lemma {:induction false} ElsewhereInv(s: State, key: Key, entry: Entry)
    requires Inv(s) && Enabled(s, Elsewhere(key, entry))
    ensures Inv(ElsewhereStep(s, key, entry))
  {
    hide Total, Distinct, ServedOk, LogOk, RequestOk, BuildOk, RequestsOk, BuildsOk;
    var t := ElsewhereStep(s, key, entry);
    BuildsCarry(s, t);
    RequestsCarry(s, t);
    LogCarry(s, t);
  }

  lemma {:induction false} LandsInv(s: State, key: Key, entry: Entry, landed: int)
    requires Inv(s) && Enabled(s, Lands(key, entry, landed))
    ensures Inv(LandsStep(s, key, entry, landed))
  {
    hide Total, Distinct, ServedOk, LogOk, RequestOk, BuildOk, RequestsOk, BuildsOk;
    var t := LandsStep(s, key, entry, landed);
    BuildsCarry(s, t);
    RequestsCarry(s, t);
    LogCarry(s, t);
  }

  lemma {:induction false} StepInv(s: State, e: Event)
    requires Inv(s) && Enabled(s, e)
    ensures Inv(Step(s, e))
  {
    hide Inv, ArriveStep, EdgeHitStep, EdgeMissStep, CompleteStep, ForgetStep, ResumeStep, ElsewhereStep, LandsStep;
    match e
    case Arrive(key, now) => ArriveInv(s, key, now);
    case EdgeHit(id, now) => EdgeHitInv(s, id, now);
    case EdgeMiss(id) => EdgeMissInv(s, id);
    case Complete(id, outcome, now) => CompleteInv(s, id, outcome, now);
    case Forget(id) => ForgetInv(s, id);
    case Resume(id) => ResumeInv(s, id);
    case Elsewhere(key, entry) => ElsewhereInv(s, key, entry);
    case Lands(key, entry, landed) => LandsInv(s, key, entry, landed);
  }

  /* ---- runs ---- */

  /** Every event of a run is one that can happen where it happens. */
  predicate Feasible(s: State, events: seq<Event>)
    decreases |events|
  {
    events == [] || (Enabled(s, events[0]) && Feasible(Step(s, events[0]), events[1..]))
  }

  function Run(s: State, events: seq<Event>): State
    requires Feasible(s, events)
    decreases |events|
  {
    if events == [] then s else Run(Step(s, events[0]), events[1..])
  }

  lemma {:induction false} RunInv(s: State, events: seq<Event>)
    requires Inv(s) && Feasible(s, events)
    ensures Inv(Run(s, events))
    decreases |events|
  {
    hide Inv, Step;
    if events != [] {
      StepInv(s, events[0]);
      RunInv(Step(s, events[0]), events[1..]);
    }
  }

  /** In every reachable state: exact accounting and both bounds, at most one running build per key, and
      every 200 answer a page built for the key asked, no older than its window allows when the request,
      or the request that started its build, arrived. */
  lemma {:induction false} CatalogSafe(events: seq<Event>)
    requires Feasible(EMPTY, events)
    ensures var s := Run(EMPTY, events);
      && s.chars == Total(s.memo) && |s.memo| <= 12 && s.chars <= 2_000_000
      && (forall a, b :: a in s.builds && b in s.builds && a != b && s.builds[a].key == s.builds[b].key ==>
            s.builds[a].result.Some? || s.builds[b].result.Some?)
      && (forall i :: 0 <= i < |s.log| ==> ServedOk(s, s.log[i]))
      && (forall i, j :: 0 <= i < j < |s.log| ==> s.log[i].id != s.log[j].id)
  {
    assert Inv(EMPTY);
    RunInv(EMPTY, events);
    var s := Run(EMPTY, events);
    forall a, b | a in s.builds && b in s.builds && a != b && s.builds[a].key == s.builds[b].key
      ensures s.builds[a].result.Some? || s.builds[b].result.Some?
    {
      assert BuildOk(s, s.builds[a]) && BuildOk(s, s.builds[b]);
    }
  }
}

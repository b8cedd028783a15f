/** What every request is answered, told by the events of a run: the arrival, the edge cache, or how the build went. */
module CatalogAnswers {
  import opened Bytes
  import opened CatalogCache
  import opened CatalogCacheProofs
  import opened CatalogStale

  /* ---- where a result comes from ---- */

  /** What a build with this stale page comes to. */
  predicate SettlesOn(stale: Option<Entry>, outcome: Outcome, at: int, result: Result) {
    match outcome
    case Unreadable => result == Broken
    case Failed => if stale.Some? then result == Page(stale.value) else result == Threw
    case Response(status, body) =>
      if status == 200 then result == Page(Entry(body, at))
      else if stale.Some? then result == Page(stale.value)
      else result == Plain(status, body)
  }

  lemma {:induction false} BuildCompletes(s: State, id: nat, outcome: Outcome, now: int)
    requires Enabled(s, Complete(id, outcome, now))
    ensures var t := CompleteStep(s, id, outcome, now);
      && t.builds.Keys == s.builds.Keys && (forall b :: b in s.builds && b != id ==> t.builds[b] == s.builds[b])
      && t.builds[id] == s.builds[id].(result := t.builds[id].result) && t.builds[id].result.Some?
      && SettlesOn(s.builds[id].stale, outcome, now, t.builds[id].result.value)
  {
    hide Stored, Total;
  }

  lemma {:induction false} BuildStarts(s: State, id: nat)
    requires Enabled(s, EdgeMiss(id)) && s.nextBuild !in s.builds
    ensures var t, r := EdgeMissStep(s, id), s.requests[id];
      && (forall b :: b in s.builds ==> b in t.builds && t.builds[b] == s.builds[b])
      && (forall b :: b in t.builds && b !in s.builds ==>
            b == s.nextBuild && t.builds[b] == Build(r.key, r.stale, r.now, None, false) && r.key !in s.inflight)
  {
  }

  /** A build from one event to the next: it stays as it is until it completes, and then for good. */
  lemma {:induction false} BuildStep(s: State, e: Event, b: nat)
    requires FlightOk(s) && Enabled(s, e) && b in Step(s, e).builds
    ensures var t := Step(s, e);
      if b !in s.builds then
        && e.EdgeMiss? && b == s.nextBuild && t.builds[b].result.None?
        && t.builds[b].key == s.requests[e.id].key && t.builds[b].key !in s.inflight
        && t.builds[b].stale == s.requests[e.id].stale && t.builds[b].started == s.requests[e.id].now
      else
        && t.builds[b].key == s.builds[b].key && t.builds[b].stale == s.builds[b].stale && t.builds[b].started == s.builds[b].started
        && (if e.Complete? && e.build == b
            then s.builds[b].result.None? && t.builds[b].result.Some?
                 && SettlesOn(s.builds[b].stale, e.outcome, e.now, t.builds[b].result.value)
            else t.builds[b].result == s.builds[b].result)
  {
    if e.Complete? {
      BuildCompletes(s, e.build, e.outcome, e.now);
      hide CompleteStep, SettlesOn, FlightOk;
    } else if e.EdgeMiss? {
      assert s.nextBuild !in s.builds;
      BuildStarts(s, e.id);
      hide EdgeMissStep, SettlesOn, FlightOk;
    } else {
      hide SettlesOn, FlightOk, Get;
    }
  }

  lemma {:induction false} BuildsStay(s: State, e: Event, b: nat)
    requires Enabled(s, e) && b in s.builds
    ensures b in Step(s, e).builds
  {
    hide Stored, Get;
  }

  lemma {:induction false} StillBuilt(s: State, events: seq<Event>, b: nat)
    requires Inv(s) && Feasible(s, events) && b in s.builds
    ensures b in Run(s, events).builds
    ensures var u, v := s.builds[b], Run(s, events).builds[b]; v.key == u.key && v.stale == u.stale && v.started == u.started
    ensures s.builds[b].result.Some? ==> Run(s, events).builds[b].result == s.builds[b].result
    decreases |events|
  {
    if events != [] {
      StepInv(s, events[0]);
      BuildsStay(s, events[0], b);
      BuildStep(s, events[0], b);
      hide Inv, Step, Enabled;
      StillBuilt(Step(s, events[0]), events[1..], b);
    }
  }

  /** A build that has settled was completed by one event, and settled as the code says for it. */
  lemma {:induction false} ResultFrom(s: State, events: seq<Event>, b: nat) returns (j: nat)
    requires Inv(s) && Feasible(s, events) && b in Run(s, events).builds && Run(s, events).builds[b].result.Some?
    requires b !in s.builds || s.builds[b].result.None?
    ensures j < |events| && events[j].Complete? && events[j].build == b
    ensures var u := Run(s, events).builds[b]; SettlesOn(u.stale, events[j].outcome, events[j].now, u.result.value)
    decreases |events|
  {
    var t := Step(s, events[0]);
    StepInv(s, events[0]);
    if b in t.builds {
      BuildStep(s, events[0], b);
    }
    hide Inv, Step, Enabled, SettlesOn;
    if b in t.builds && t.builds[b].result.Some? {
      j := 0;
      StillBuilt(t, events[1..], b);
    } else {
      j := ResultFrom(t, events[1..], b);
      j := j + 1;
    }
  }

  /* ---- what a request is answered ---- */

  /** A stale page is at least the time to live old when the request that saw it arrives. */
  lemma {:induction false} StaleIsOld(s: State, events: seq<Event>, id: nat)
    requires Feasible(s, events) && id in Run(s, events).requests
    requires forall i :: i in s.requests ==> OldEnough(s.requests[i])
    ensures OldEnough(Run(s, events).requests[id])
    decreases |events|
  {
    if events != [] {
      StaleStaysOld(s, events[0]);
      hide Step, Enabled;
      StaleIsOld(Step(s, events[0]), events[1..], id);
    }
  }

  predicate OldEnough(r: Request) {
    r.stale.Some? ==> 300_000 <= r.now - r.stale.value.at <= 1_800_000
  }

  lemma {:induction false} StaleStaysOld(s: State, e: Event)
    requires Enabled(s, e) && forall i :: i in s.requests ==> OldEnough(s.requests[i])
    ensures forall i :: i in Step(s, e).requests ==> OldEnough(Step(s, e).requests[i])
  {
    hide Stored, Get;
  }

  /** What a request is told of a build that was completed so. */
  function Told(id: nat, r: Request, b: Build, outcome: Outcome, at: int): seq<Served> {
    match outcome
    case Unreadable => []
    case Failed =>
      if b.stale.None? then []
      else [Served(id, r.key, 200, b.stale.value.body, b.stale, FromBuild(b.started), r.stale == b.stale)]
    case Response(status, body) =>
      if status == 200 then [Served(id, r.key, 200, body, Some(Entry(body, at)), FromBuild(b.started), r.stale == Some(Entry(body, at)))]
      else if b.stale.None? then [Served(id, r.key, status, body, None, NoPage, false)]
      else [Served(id, r.key, 200, b.stale.value.body, b.stale, FromBuild(b.started), r.stale == b.stale)]
  }

  /** A request that resumes is answered by what completed its build: a page that came is answered, unmarked unless the
      request arrived when that page had already outlived its time; a failure or another status gives the build's stale
      page if it has one, and otherwise the error, or that status and body; and a body that broke off gives the error. */
  lemma {:induction false} ResumeTells(events: seq<Event>, id: nat) returns (j: nat)
    requires Feasible(EMPTY, events) && Awaited(Run(EMPTY, events), id)
    ensures var s := Run(EMPTY, events);
      var r := s.requests[id];
      var b := s.builds[r.phase.build];
      && j < |events| && events[j].Complete? && events[j].build == r.phase.build && b.key == r.key
      && Step(s, Resume(id)).log == s.log + Told(id, r, b, events[j].outcome, events[j].now)
      && Step(s, Resume(id)).requests == s.requests - {id}
      && (events[j].outcome.Response? && r.stale == Some(Entry(events[j].outcome.body, events[j].now)) ==>
            r.now >= events[j].now + 300_000)
  {
    assert Inv(EMPTY);
    RunInv(EMPTY, events);
    var s := Run(EMPTY, events);
    var r := s.requests[id];
    assert RequestOk(s, r);
    StaleIsOld(EMPTY, events, id);
    hide Inv, Run, Feasible;
    j := ResultFrom(EMPTY, events, r.phase.build);
  }

  /** A good build is answered with its own page: whoever asked before that page had outlived its time gets it, unmarked. */
  lemma {:induction false} GoodBuildAnswers(events: seq<Event>, id: nat) returns (j: nat)
    requires Feasible(EMPTY, events) && Awaited(Run(EMPTY, events), id)
    ensures var s := Run(EMPTY, events);
      var r := s.requests[id];
      && j < |events| && events[j].Complete? && events[j].build == r.phase.build
      && (events[j].outcome.Response? && events[j].outcome.status == 200 && r.now < events[j].now + 300_000 ==>
            var body, at := events[j].outcome.body, events[j].now;
            Step(s, Resume(id)).log ==
              s.log + [Served(id, r.key, 200, body, Some(Entry(body, at)), FromBuild(s.builds[r.phase.build].started), false)])
  {
    j := ResumeTells(events, id);
    hide Run, Feasible, Step;
  }

  /* ---- what memory holds ---- */

  /** The event puts a page of this key into memory. */
  predicate Stores(s: State, e: Event, key: Key)
    requires Enabled(s, e)
  {
    e.Complete? && s.builds[e.build].key == key && e.outcome.Response? && e.outcome.status == 200 && |e.outcome.body| <= 1_000_000
  }

  /** The last page of this key that a run put into memory. */
  function Newest(s: State, events: seq<Event>, key: Key, prior: Option<Entry>): Option<Entry>
    requires Feasible(s, events)
    decreases |events|
  {
    if events == [] then prior
    else
      var e := events[0];
      Newest(Step(s, e), events[1..], key, if Stores(s, e, key) then Some(Entry(e.outcome.body, e.now)) else prior)
  }

  lemma {:induction false} GetAppend(m: Memo, key: Key, p: (Key, Entry))
    ensures Get(m + [p], key) == if Get(m, key).Some? then Get(m, key) else if p.0 == key then Some(p.1) else None
  {
    if m == [] {
      assert [] + [p] == [p] && [p][1..] == [];
    } else {
      assert (m + [p])[1..] == m[1..] + [p];
      GetAppend(m[1..], key, p);
    }
  }

  lemma {:induction false} NotHeld(m: Memo, key: Key)
    requires forall p :: p in m ==> p.0 != key
    ensures Get(m, key) == None
  {
    if m != [] {
      NotHeld(m[1..], key);
    }
  }

  /** The first key of a memo is in no later place. */
  lemma {:induction false} TailKeys(m: Memo)
    requires Distinct(m) && m != []
    ensures Distinct(m[1..]) && forall p :: p in m[1..] ==> p.0 != m[0].0
  {
    assert forall i :: 0 <= i < |m| - 1 ==> m[1..][i] == m[i + 1];
  }

  lemma {:induction false} GetOther(m: Memo, key: Key, gone: Key)
    requires Distinct(m)
    ensures Get(Delete(m, gone), key) == if key == gone then None else Get(m, key)
  {
    if m != [] {
      TailKeys(m);
      GetOther(m[1..], key, gone);
      if m[0].0 == gone {
        NotHeld(m[1..], gone);
      }
    }
  }

  lemma {:induction false} GetSuffix(m: Memo, key: Key, k: nat)
    requires Distinct(m) && k <= |m|
    ensures Get(m[k..], key) in {None, Get(m, key)}
  {
    if k > 0 {
      TailKeys(m);
      GetSuffix(m[1..], key, k - 1);
      assert m[1..][k - 1..] == m[k..];
      if m[0].0 == key {
        NotHeld(m[k..], key);
      }
    } else {
      assert m[0..] == m;
    }
  }

  /** A store changes what memory holds for its own key, and at most drops what it holds for others. */
  lemma {:induction false} StoredHolds(m: Memo, key: Key, entry: Entry, other: Key)
    requires Distinct(m) && |entry.body| <= MAX_STORED_BODY
    ensures Get(Stored(m, key, entry), key) == Some(entry)
    ensures other != key ==> Get(Stored(m, key, entry), other) in {None, Get(m, other)}
  {
    var all := Delete(m, key) + [(key, entry)];
    DeleteDistinct(m, key);
    DeleteTotal(m, key);
    var k := EvictedLongest(all);
    GetSuffix(all, other, k);
    GetAppend(Delete(m, key), other, (key, entry));
    GetOther(m, other, key);
    StoredBounds(m, key, entry);
    LastHeld(Stored(m, key, entry), key, entry);
  }

  lemma {:induction false} LastHeld(m: Memo, key: Key, entry: Entry)
    requires Distinct(m) && m != [] && m[|m| - 1] == (key, entry)
    ensures Get(m, key) == Some(entry)
  {
    GetIn(m, key);
    assert (key, entry) in m;
    if Get(m, key).Some? {
      var e := Get(m, key).value;
      var i :| 0 <= i < |m| && m[i] == (key, e);
      assert i == |m| - 1;
    }
  }

  lemma {:induction false} MemoStep(s: State, e: Event, key: Key)
    requires MemoOk(s) && Enabled(s, e)
    ensures if Stores(s, e, key) then Get(Step(s, e).memo, key) == Some(Entry(e.outcome.body, e.now))
            else Get(Step(s, e).memo, key) in {None, Get(s.memo, key)}
    ensures !e.Complete? ==> Step(s, e).memo == s.memo
  {
    if e.Complete? && e.outcome.Response? && |e.outcome.body| <= MAX_STORED_BODY {
      StoredHolds(s.memo, s.builds[e.build].key, Entry(e.outcome.body, e.now), key);
    }
    hide Stored, Get, MemoOk;
  }

  /** Memory holds for a key the page that was put there last, or none. */
  lemma {:induction false} MemoIsNewest(s: State, events: seq<Event>, key: Key, prior: Option<Entry>)
    requires Inv(s) && Feasible(s, events) && Get(s.memo, key) in {None, prior}
    ensures Get(Run(s, events).memo, key) in {None, Newest(s, events, key, prior)}
    decreases |events|
  {
    if events != [] {
      var e := events[0];
      MemoStep(s, e, key);
      StepInv(s, e);
      hide Inv, Step, Enabled, Get, Stores;
      MemoIsNewest(Step(s, e), events[1..], key, if Stores(s, e, key) then Some(Entry(e.outcome.body, e.now)) else prior);
    }
  }

  /** A request is answered at once, unmarked, with the last page stored for its key when memory still holds one that is
      younger than the time to live, and only then; otherwise it goes on with that page as its stale page when it is within
      the stale window, and with none else. */
  lemma {:induction false} ArrivalTells(events: seq<Event>, key: Key, now: int)
    requires Feasible(EMPTY, events) && Enabled(Run(EMPTY, events), Arrive(key, now))
    ensures var s, newest := Run(EMPTY, events), Newest(EMPTY, events, key, None);
      var t, held, id := Step(s, Arrive(key, now)), Get(s.memo, key), s.nextRequest;
      && (held.Some? ==> held == newest)
      && t.memo == s.memo && t.nextRequest == id + 1
      && (if held.Some? && now - newest.value.at < 300_000
          then t.requests == s.requests && t.log == s.log + [Served(id, key, 200, newest.value.body, newest, FromMemo(now), false)]
          else t.log == s.log && id in t.requests && t.requests == s.requests[id := t.requests[id]]
               && t.requests[id].key == key && t.requests[id].now == now && t.requests[id].phase.Looking?
               && t.requests[id].stale == if held.Some? && now - newest.value.at <= 1_800_000 then newest else None)
  {
    assert Inv(EMPTY);
    MemoIsNewest(EMPTY, events, key, None);
    hide Inv, Run, Feasible, Newest, Get;
  }

  /* ---- the edge cache, and joining a build ---- */

  /** The last copy of this key that landed in the edge cache in a run. */
  function LastLanded(events: seq<Event>, key: Key): Option<Copy> {
    if events == [] then None
    else
      var e := events[|events| - 1];
      if e.Lands? && e.key == key then Some(Copy(e.entry, e.landed)) else LastLanded(events[..|events| - 1], key)
  }

  lemma {:induction false} EdgeStep(s: State, e: Event, key: Key)
    requires Enabled(s, e)
    ensures (if key in Step(s, e).edge then Some(Step(s, e).edge[key]) else None) ==
      if e.Lands? && e.key == key then Some(Copy(e.entry, e.landed)) else if key in s.edge then Some(s.edge[key]) else None
  {
    hide Stored, Get;
  }

  lemma {:induction false} LastOf(s: State, events: seq<Event>)
    requires Feasible(s, events) && events != []
    ensures var front := events[..|events| - 1];
      Feasible(s, front) && Enabled(Run(s, front), events[|events| - 1]) && Run(s, events) == Step(Run(s, front), events[|events| - 1])
    decreases |events|
  {
    hide Step, Enabled;
    if |events| > 1 {
      LastOf(Step(s, events[0]), events[1..]);
      assert events[1..][..|events| - 2] == events[..|events| - 1][1..];
    } else {
      assert events[..0] == [] && events[1..] == [];
    }
  }

  lemma {:induction false} EdgeHolds(events: seq<Event>, key: Key)
    requires Feasible(EMPTY, events)
    ensures var s := Run(EMPTY, events); (if key in s.edge then Some(s.edge[key]) else None) == LastLanded(events, key)
    decreases |events|
  {
    if events != [] {
      var front, e := events[..|events| - 1], events[|events| - 1];
      LastOf(EMPTY, events);
      hide Step, Enabled, Run, Feasible;
      EdgeHolds(front, key);
      EdgeStep(Run(EMPTY, front), e, key);
    }
  }

  /** A request that finds the edge cache filled is answered with the copy that landed last, unmarked; one that does not
      waits for the build in flight for its key, or for one of its own. */
  lemma {:induction false} LookupTells(events: seq<Event>, e: Event)
    requires Feasible(EMPTY, events) && (e.EdgeHit? || e.EdgeMiss?) && Enabled(Run(EMPTY, events), e)
    ensures var s, t := Run(EMPTY, events), Step(Run(EMPTY, events), e);
      var r := s.requests[e.id];
      if e.EdgeHit? then
        var copy := LastLanded(events, r.key);
        && copy.Some? && t.requests == s.requests - {e.id}
        && t.log == s.log + [Served(e.id, r.key, 200, copy.value.entry.body, Some(copy.value.entry), FromEdge(e.now, copy.value.landed), false)]
      else
        && t.log == s.log && e.id in t.requests && t.requests == s.requests[e.id := t.requests[e.id]]
        && t.requests[e.id] == r.(phase := Awaiting(if r.key in s.inflight then s.inflight[r.key] else s.nextBuild))
        && t.nextBuild == s.nextBuild + if r.key in s.inflight then 0 else 1
  {
    EdgeHolds(events, Run(EMPTY, events).requests[e.id].key);
    hide Run, Feasible, LastLanded;
  }
}

/** The catalog cache of the subscription Worker (sub-worker.js, cachedCatalog): a size-accounted memo,
    one build in flight per key, and stale answers when a build fails. Each await of the source is a
    point where other events may happen. */
module CatalogCache {
  import opened Bytes

  const CATALOG_TTL_MS: int := 5 * 60_000
  const CATALOG_STALE_IF_ERROR_MS: int := 30 * 60_000
  const MAX_ENTRIES: nat := 12
  const MAX_CHARS: nat := 2_000_000
  const MAX_STORED_BODY: nat := 1_000_000

  type Key = string

  /** A finished page (always status 200) and when it was finished. */
  datatype Entry = Entry(body: string, at: int)

  /** A page in the edge cache, with the time it landed there, from which max-age counts. */
  datatype Copy = Copy(entry: Entry, landed: int)

  /** What a build promise settles to; the last two are its rejections, by the source and by a body that breaks off. */
  datatype Result = Page(entry: Entry) | Plain(status: nat, body: string) | Threw | Broken

  datatype Build = Build(key: Key, stale: Option<Entry>, started: int, result: Option<Result>, forgotten: bool)

  datatype Phase = Looking | Awaiting(build: nat)

  datatype Request = Request(key: Key, now: int, stale: Option<Entry>, phase: Phase)

  /** Which clock reading bounds the age of a served page. */
  datatype Source = FromMemo(now: int) | FromEdge(now: int, landed: int) | FromBuild(started: int) | NoPage

  /** One response; `marked` when it carries the stale-if-error headers. */
  datatype Served = Served(id: nat, key: Key, status: nat, body: string, entry: Option<Entry>, source: Source, marked: bool)

  /** A JavaScript Map: pairs in insertion order, keys distinct. */
  type Memo = seq<(Key, Entry)>

  datatype State = State(
    clock: int,
    memo: Memo,
    chars: int,
    inflight: map<Key, nat>,
    builds: map<nat, Build>,
    nextBuild: nat,
    requests: map<nat, Request>,
    nextRequest: nat,
    edge: map<Key, Copy>,
    built: set<(Key, Entry)>,
    log: seq<Served>)

  const EMPTY: State := State(0, [], 0, map[], map[], 0, map[], 0, map[], {}, [])

  function Total(m: Memo): nat {
    if m == [] then 0 else |m[0].1.body| + Total(m[1..])
  }

  function Get(m: Memo, key: Key): Option<Entry> {
    if m == [] then None else if m[0].0 == key then Some(m[0].1) else Get(m[1..], key)
  }

  function Delete(m: Memo, key: Key): Memo {
    if m == [] then [] else if m[0].0 == key then m[1..] else [m[0]] + Delete(m[1..], key)
  }

  /** Oldest entries go first, until both bounds hold. */
  function Evicted(m: Memo): Memo {
    if m == [] || (|m| <= MAX_ENTRIES && Total(m) <= MAX_CHARS) then m else Evicted(m[1..])
  }

  function Stored(m: Memo, key: Key, entry: Entry): Memo {
    Evicted(Delete(m, key) + [(key, entry)])
  }

  /* ---- events ---- */

  /** How a build goes: its source throws, or responds with a body that cannot be read, or can. */
  datatype Outcome = Failed | Unreadable | Response(status: nat, body: string)

  datatype Event =
    | Arrive(key: Key, now: int)                 // a request reaches cachedCatalog
    | EdgeHit(id: nat, now: int)                 // the Cache API still holds an unexpired copy
    | EdgeMiss(id: nat)
    | Complete(build: nat, outcome: Outcome, now: int)
    | Forget(build: nat)                         // the finally of a settled build
    | Resume(id: nat)                            // a request awaiting a settled build
    | Elsewhere(key: Key, entry: Entry)          // another isolate has built a page
    | Lands(key: Key, entry: Entry, landed: int) // a put of some isolate reaches the edge cache

  function StaleAt(held: Option<Entry>, now: int): Option<Entry> {
    if held.Some? && now - held.value.at <= CATALOG_STALE_IF_ERROR_MS then held else None
  }

  function ArriveStep(s: State, key: Key, now: int): State {
    var held, id := Get(s.memo, key), s.nextRequest;
    var t := s.(clock := now, nextRequest := id + 1);
    if held.Some? && now - held.value.at < CATALOG_TTL_MS then
      t.(log := s.log + [Served(id, key, 200, held.value.body, held, FromMemo(now), false)])
    else t.(requests := s.requests[id := Request(key, now, StaleAt(held, now), Looking)])
  }

  function EdgeHitStep(s: State, id: nat, now: int): State
    requires id in s.requests && s.requests[id].key in s.edge
  {
    var key := s.requests[id].key;
    var c := s.edge[key];
    s.(clock := now, requests := s.requests - {id},
       log := s.log + [Served(id, key, 200, c.entry.body, Some(c.entry), FromEdge(now, c.landed), false)])
  }

  function EdgeMissStep(s: State, id: nat): State
    requires id in s.requests
  {
    var r := s.requests[id];
    if r.key in s.inflight then
      s.(requests := s.requests[id := r.(phase := Awaiting(s.inflight[r.key]))])
    else
      s.(requests := s.requests[id := r.(phase := Awaiting(s.nextBuild))],
         inflight := s.inflight[r.key := s.nextBuild],
         builds := s.builds[s.nextBuild := Build(r.key, r.stale, r.now, None, false)],
         nextBuild := s.nextBuild + 1)
  }

  function Settled(b: Build, outcome: Outcome, now: int): Result {
    match outcome
    case Failed => if b.stale.Some? then Page(b.stale.value) else Threw
    case Unreadable => Broken
    case Response(status, body) =>
      if status == 200 then Page(Entry(body, now))
      else if b.stale.Some? then Page(b.stale.value) else Plain(status, body)
  }

  function CompleteStep(s: State, id: nat, outcome: Outcome, now: int): State
    requires id in s.builds
  {
    var b := s.builds[id];
    var t := s.(clock := now, builds := s.builds[id := b.(result := Some(Settled(b, outcome, now)))]);
    if outcome.Response? && outcome.status == 200 then
      var e := Entry(outcome.body, now);
      var u := t.(built := s.built + {(b.key, e)});
      if |e.body| <= MAX_STORED_BODY then
        var m := Stored(s.memo, b.key, e);
        u.(memo := m, chars := Total(m))
      else u
    else t
  }

  function ForgetStep(s: State, id: nat): State
    requires id in s.builds
  {
    var b := s.builds[id];
    s.(inflight := s.inflight - {b.key}, builds := s.builds[id := b.(forgotten := true)])
  }

  function Answer(id: nat, r: Request, b: Build): seq<Served>
    requires b.result.Some?
  {
    match b.result.value
    case Page(e) => [Served(id, r.key, 200, e.body, Some(e), FromBuild(b.started), r.stale == Some(e))]
    case Plain(status, body) => [Served(id, r.key, status, body, None, NoPage, false)]
    case Threw => []
    case Broken => []
  }

  predicate Awaited(s: State, id: nat) {
    id in s.requests && s.requests[id].phase.Awaiting? && s.requests[id].phase.build in s.builds
    && s.builds[s.requests[id].phase.build].result.Some?
  }

  function ResumeStep(s: State, id: nat): State
    requires Awaited(s, id)
  {
    var r := s.requests[id];
    s.(requests := s.requests - {id}, log := s.log + Answer(id, r, s.builds[r.phase.build]))
  }

  function ElsewhereStep(s: State, key: Key, entry: Entry): State {
    s.(built := s.built + {(key, entry)})
  }

  function LandsStep(s: State, key: Key, entry: Entry, landed: int): State {
    s.(edge := s.edge[key := Copy(entry, landed)])
  }

  /** When an event can happen: the clock never runs back, the Cache API honours max-age=300, and only a page that was
      built, by this isolate or another, and is small enough to be put, lands in the edge cache, after it was built. */
  predicate Enabled(s: State, e: Event) {
    match e
    case Arrive(_, now) => now >= s.clock
    case EdgeHit(id, now) =>
      && now >= s.clock && id in s.requests && s.requests[id].phase.Looking?
      && s.requests[id].key in s.edge && now - s.edge[s.requests[id].key].landed <= CATALOG_TTL_MS
    case EdgeMiss(id) => id in s.requests && s.requests[id].phase.Looking?
    case Complete(id, _, now) => now >= s.clock && id in s.builds && s.builds[id].result.None?
    case Forget(id) => id in s.builds && s.builds[id].result.Some? && !s.builds[id].forgotten
    case Resume(id) => Awaited(s, id)
    case Elsewhere(_, entry) => entry.at <= s.clock
    case Lands(key, entry, landed) =>
      (key, entry) in s.built && |entry.body| <= MAX_STORED_BODY && entry.at <= landed <= s.clock
  }

  function Step(s: State, e: Event): State
    requires Enabled(s, e)
  {
    match e
    case Arrive(key, now) => ArriveStep(s, key, now)
    case EdgeHit(id, now) => EdgeHitStep(s, id, now)
    case EdgeMiss(id) => EdgeMissStep(s, id)
    case Complete(id, outcome, now) => CompleteStep(s, id, outcome, now)
    case Forget(id) => ForgetStep(s, id)
    case Resume(id) => ResumeStep(s, id)
    case Elsewhere(key, entry) => ElsewhereStep(s, key, entry)
    case Lands(key, entry, landed) => LandsStep(s, key, entry, landed)
  }

  /* ---- the Worker's module state ---- */

  class CatalogStore {
    var clock: int
    var memo: Memo
    var chars: int
    var inflight: map<Key, nat>
    var builds: map<nat, Build>
    var nextBuild: nat
    var requests: map<nat, Request>
    var nextRequest: nat
    var edge: map<Key, Copy>
    var built: set<(Key, Entry)>
    var log: seq<Served>

    ghost function View(): State
      reads this
    {
      State(clock, memo, chars, inflight, builds, nextBuild, requests, nextRequest, edge, built, log)
    }

    constructor ()
      ensures View() == EMPTY
    {
      clock, memo, chars, inflight, builds, nextBuild := 0, [], 0, map[], map[], 0;
      requests, nextRequest, edge, built, log := map[], 0, map[], {}, [];
    }

    method Arrives(key: Key, now: int)
      requires Enabled(View(), Arrive(key, now))
      modifies this
      ensures View() == Step(old(View()), Arrive(key, now))
    {
      var held := Get(memo, key);
      var id := nextRequest;
      clock, nextRequest := now, id + 1;
      var stale := if held.Some? && now - held.value.at <= CATALOG_STALE_IF_ERROR_MS then held else None;
      if held.Some? && now - held.value.at < CATALOG_TTL_MS {
        log := log + [Served(id, key, 200, held.value.body, held, FromMemo(now), false)];
      } else {
        requests := requests[id := Request(key, now, stale, Looking)];
      }
    }

    method Misses(id: nat)
      requires Enabled(View(), EdgeMiss(id))
      modifies this
      ensures View() == Step(old(View()), EdgeMiss(id))
    {
      var r := requests[id];
      if r.key !in inflight {
        builds := builds[nextBuild := Build(r.key, r.stale, r.now, None, false)];
        inflight := inflight[r.key := nextBuild];
        nextBuild := nextBuild + 1;
      }
      requests := requests[id := r.(phase := Awaiting(inflight[r.key]))];
    }

    /** Replaces the entry under `key`, counts its characters, and drops the oldest entries while either bound is exceeded. */
    method Store(key: Key, entry: Entry)
      requires chars == Total(memo)
      modifies this`memo, this`chars
      ensures memo == Stored(old(memo), key, entry) && chars == Total(memo)
    {
      DeleteTotal(memo, key);
      var previous := Get(memo, key);
      if previous.Some? {
        chars := chars - |previous.value.body|;
      }
      memo := Delete(memo, key);
      TotalSnoc(memo, (key, entry));
      memo := memo + [(key, entry)];
      chars := chars + |entry.body|;
      while |memo| > MAX_ENTRIES || chars > MAX_CHARS
        invariant chars == Total(memo) && Evicted(memo) == Stored(old(memo), key, entry)
        decreases |memo|
      {
        var first := memo[0];
        chars := chars - |first.1.body|;
        memo := memo[1..];
      }
    }

    method Completes(id: nat, outcome: Outcome, now: int)
      requires Enabled(View(), Complete(id, outcome, now)) && chars == Total(memo)
      modifies this
      ensures View() == Step(old(View()), Complete(id, outcome, now))
    {
      var b := builds[id];
      clock := now;
      var result: Result;
      match outcome {
        case Failed =>
          result := if b.stale.Some? then Page(b.stale.value) else Threw;
        case Unreadable =>
          result := Broken;
        case Response(status, body) =>
          if status != 200 {
            result := if b.stale.Some? then Page(b.stale.value) else Plain(status, body);
          } else {
            var entry := Entry(body, now);
            built := built + {(b.key, entry)};
            if |body| <= MAX_STORED_BODY {
              Store(b.key, entry);
            }
            result := Page(entry);
          }
      }
      builds := builds[id := b.(result := Some(result))];
    }

    method Forgets(id: nat)
      requires Enabled(View(), Forget(id))
      modifies this
      ensures View() == Step(old(View()), Forget(id))
    {
      inflight := inflight - {builds[id].key};
      builds := builds[id := builds[id].(forgotten := true)];
    }

    /** The put started for a finished page, here or in another isolate, takes effect. */
    method PutLands(key: Key, entry: Entry, landed: int)
      requires Enabled(View(), Lands(key, entry, landed))
      modifies this`edge
      ensures View() == Step(old(View()), Lands(key, entry, landed))
    {
      edge := edge[key := Copy(entry, landed)];
    }

    method Serves(e: Event)
      requires (e.EdgeHit? || e.Resume?) && Enabled(View(), e)
      modifies this
      ensures View() == Step(old(View()), e)
    {
      match e {
        case EdgeHit(id, now) =>
          var r := requests[id];
          clock := now;
          var c := edge[r.key];
          log := log + [Served(id, r.key, 200, c.entry.body, Some(c.entry), FromEdge(now, c.landed), false)];
          requests := requests - {id};
        case Resume(id) =>
          var r := requests[id];
          var b := builds[r.phase.build];
          match b.result.value {
            case Page(entry) =>
              log := log + [Served(id, r.key, 200, entry.body, Some(entry), FromBuild(b.started), r.stale == Some(entry))];
            case Plain(status, body) =>
              log := log + [Served(id, r.key, status, body, None, NoPage, false)];
            case Threw =>
              log := log + [];
            case Broken =>
              log := log + [];
          }
          requests := requests - {id};
      }
    }
  }

  /* ---- the memo ---- */

  ghost predicate Distinct(m: Memo) {
    forall i, j :: 0 <= i < j < |m| ==> m[i].0 != m[j].0
  }

  lemma {:induction false} TotalSnoc(m: Memo, p: (Key, Entry))
    ensures Total(m + [p]) == Total(m) + |p.1.body|
  {
    if m == [] {
      assert [p][1..] == [];
      assert [] + [p] == [p];
    } else {
      assert (m + [p])[1..] == m[1..] + [p];
      TotalSnoc(m[1..], p);
    }
  }

  lemma {:induction false} DeleteTotal(m: Memo, key: Key)
    ensures Total(Delete(m, key)) == Total(m) - (if Get(m, key).Some? then |Get(m, key).value.body| else 0)
    ensures forall p :: p in Delete(m, key) ==> p in m
  {
    if m != [] && m[0].0 != key {
      DeleteTotal(m[1..], key);
      assert Delete(m, key)[1..] == Delete(m[1..], key);
    }
  }

  lemma {:induction false} GetIn(m: Memo, key: Key)
    ensures Get(m, key).Some? ==> (key, Get(m, key).value) in m
    ensures Get(m, key).None? ==> forall p :: p in m ==> p.0 != key
  {
    if m != [] && m[0].0 != key {
      GetIn(m[1..], key);
    }
  }

  lemma {:induction false} DeleteDistinct(m: Memo, key: Key)
    requires Distinct(m)
    ensures Distinct(Delete(m, key))
    ensures forall p :: p in Delete(m, key) ==> p.0 != key
  {
    if m != [] {
      if m[0].0 == key {
        assert forall p :: p in m[1..] ==> p.0 != key;
      } else {
        assert forall i, j :: 0 <= i < j < |m[1..]| ==> m[1..][i].0 == m[i + 1].0 && m[1..][j].0 == m[j + 1].0;
        DeleteDistinct(m[1..], key);
        DeleteTotal(m[1..], key);
        var d := Delete(m[1..], key);
        forall i, j | 0 <= i < j < |[m[0]] + d| ensures ([m[0]] + d)[i].0 != ([m[0]] + d)[j].0 {
          if i == 0 {
            assert d[j - 1] in m[1..];
          } else {
            assert d[i - 1].0 != d[j - 1].0;
          }
        }
      }
    }
  }

  /** Eviction keeps the longest run of newest entries that meets both bounds. */
  lemma {:induction false} EvictedLongest(m: Memo) returns (k: nat)
    ensures k <= |m| && Evicted(m) == m[k..]
    ensures |m[k..]| <= 12 && Total(m[k..]) <= 2_000_000
    ensures forall j :: 0 <= j < k ==> |m[j..]| > 12 || Total(m[j..]) > 2_000_000
  {
    assert m[0..] == m;
    if m == [] || (|m| <= MAX_ENTRIES && Total(m) <= MAX_CHARS) {
      return 0;
    }
    var j := EvictedLongest(m[1..]);
    assert forall i :: 0 < i <= |m| ==> m[1..][i - 1..] == m[i..];
    k := j + 1;
    forall i | 0 <= i < k ensures |m[i..]| > 12 || Total(m[i..]) > 2_000_000 {
      if i > 0 {
        assert m[1..][i - 1..] == m[i..];
      }
    }
  }

  /** Storing an admissible page keeps the memo within its bounds, and the page just stored survives. */
  lemma {:induction false} StoredBounds(m: Memo, key: Key, entry: Entry)
    requires Distinct(m) && |entry.body| <= MAX_STORED_BODY
    ensures var n := Stored(m, key, entry);
      && |n| <= 12 && Total(n) <= 2_000_000 && Distinct(n)
      && n != [] && n[|n| - 1] == (key, entry)
      && (forall p :: p in n ==> p in m || p == (key, entry))
  {
    var d := Delete(m, key);
    var all := d + [(key, entry)];
    DeleteDistinct(m, key);
    DeleteTotal(m, key);
    var k := EvictedLongest(all);
    assert [(key, entry)][1..] == [];
    assert all[|d|..] == [(key, entry)];
    assert Total(all[|d|..]) == |entry.body|;
    assert forall p :: p in all[k..] ==> p in all;
  }
}

/** The cache of verified MASQUE gateways (main.rs, cache_masque_gateway): forget, append, stable sort by round trip, truncate. */
module GatewayCache {
  import opened Bytes
  import opened Lists

  const MAX_CACHED: nat := 12

  datatype Gateway = Gateway(ip: string, port: u16, rtt: nat) {
    function Key(): (string, u16) {
      (ip, port)
    }
  }

  function Without(gs: seq<Gateway>, key: (string, u16)): seq<Gateway> {
    if gs == [] then [] else if gs[0].Key() == key then Without(gs[1..], key) else [gs[0]] + Without(gs[1..], key)
  }

  /** Inserted behind everything that is not slower. */
  function Inserted(gs: seq<Gateway>, g: Gateway): seq<Gateway> {
    if gs == [] then [g] else if gs[0].rtt <= g.rtt then [gs[0]] + Inserted(gs[1..], g) else [g] + gs
  }

  function StableSorted(gs: seq<Gateway>): seq<Gateway> {
    if gs == [] then [] else Inserted(StableSorted(gs[..|gs| - 1]), gs[|gs| - 1])
  }

  function Take(gs: seq<Gateway>, n: nat): seq<Gateway> {
    if |gs| <= n then gs else gs[..n]
  }

  function Cached(gs: seq<Gateway>, g: Gateway): seq<Gateway> {
    Take(StableSorted(Without(gs, g.Key()) + [g]), MAX_CACHED)
  }

  /** The cache after every gateway of a history, starting empty. */
  function After(history: seq<Gateway>): seq<Gateway> {
    if history == [] then [] else Cached(After(history[..|history| - 1]), history[|history| - 1])
  }

  /* ---- the sort is a stable sort ---- */

  ghost predicate Sorted(gs: seq<Gateway>) {
    forall i, j :: 0 <= i < j < |gs| ==> gs[i].rtt <= gs[j].rtt
  }

  /** The gateways with one round trip, in order. */
  function WithRtt(gs: seq<Gateway>, rtt: nat): seq<Gateway> {
    if gs == [] then [] else if gs[0].rtt == rtt then [gs[0]] + WithRtt(gs[1..], rtt) else WithRtt(gs[1..], rtt)
  }

  lemma {:induction false} WithRttAppend(a: seq<Gateway>, b: seq<Gateway>, rtt: nat)
    ensures WithRtt(a + b, rtt) == WithRtt(a, rtt) + WithRtt(b, rtt)
  {
    if a == [] {
      assert a + b == b;
    } else {
      assert (a + b)[1..] == a[1..] + b;
      WithRttAppend(a[1..], b, rtt);
    }
  }

  lemma {:induction false} InsertedBag(gs: seq<Gateway>, g: Gateway)
    ensures multiset(Inserted(gs, g)) == multiset(gs) + multiset{g}
  {
    if gs != [] {
      assert gs == [gs[0]] + gs[1..];
      if gs[0].rtt <= g.rtt {
        InsertedBag(gs[1..], g);
      }
    }
  }

  lemma {:induction false} InsertedSorted(gs: seq<Gateway>, g: Gateway)
    requires Sorted(gs)
    ensures Sorted(Inserted(gs, g))
  {
    if gs != [] && gs[0].rtt <= g.rtt {
      InsertedSorted(gs[1..], g);
      InsertedBag(gs[1..], g);
      var r := Inserted(gs[1..], g);
      forall i | 0 <= i < |r| ensures gs[0].rtt <= r[i].rtt {
        assert r[i] in multiset(r);
        assert r[i] in gs[1..] || r[i] == g;
      }
    }
  }

  lemma {:induction false} InsertedStable(gs: seq<Gateway>, g: Gateway, rtt: nat)
    requires Sorted(gs)
    ensures WithRtt(Inserted(gs, g), rtt) == WithRtt(gs + [g], rtt)
  {
    if gs == [] {
      assert [] + [g] == [g];
    } else if gs[0].rtt <= g.rtt {
      assert (gs + [g])[1..] == gs[1..] + [g];
      InsertedStable(gs[1..], g, rtt);
      assert ([gs[0]] + Inserted(gs[1..], g))[1..] == Inserted(gs[1..], g);
    } else {
      assert ([g] + gs)[1..] == gs && [g][1..] == [];
      WithRttAppend(gs, [g], rtt);
      if g.rtt == rtt {
        NoneBelow(gs, rtt);
        assert [] + [g] == [g] + [];
      } else {
        assert WithRtt([g], rtt) == [];
        assert WithRtt(gs, rtt) + [] == WithRtt(gs, rtt);
      }
    }
  }

  lemma {:induction false} NoneBelow(gs: seq<Gateway>, rtt: nat)
    requires forall i :: 0 <= i < |gs| ==> gs[i].rtt > rtt
    ensures WithRtt(gs, rtt) == []
  {
    if gs != [] {
      NoneBelow(gs[1..], rtt);
    }
  }

  lemma {:induction false} StableSortShape(gs: seq<Gateway>)
    ensures Sorted(StableSorted(gs)) && multiset(StableSorted(gs)) == multiset(gs)
  {
    if gs != [] {
      var front, g := gs[..|gs| - 1], gs[|gs| - 1];
      StableSortShape(front);
      InsertedSorted(StableSorted(front), g);
      InsertedBag(StableSorted(front), g);
      assert gs == front + [g];
    }
  }

  lemma {:induction false} StableSortKeepsTies(gs: seq<Gateway>, rtt: nat)
    ensures WithRtt(StableSorted(gs), rtt) == WithRtt(gs, rtt)
  {
    if gs != [] {
      var front, g := gs[..|gs| - 1], gs[|gs| - 1];
      StableSortShape(front);
      StableSortKeepsTies(front, rtt);
      InsertedStable(StableSorted(front), g, rtt);
      WithRttAppend(StableSorted(front), [g], rtt);
      WithRttAppend(front, [g], rtt);
      assert gs == front + [g];
    }
  }

  /** Sorted, a permutation, and equal round trips keep their order: that determines the result. */
  lemma {:induction false} StableSortSpec(gs: seq<Gateway>)
    ensures Sorted(StableSorted(gs)) && multiset(StableSorted(gs)) == multiset(gs)
    ensures forall rtt: nat :: WithRtt(StableSorted(gs), rtt) == WithRtt(gs, rtt)
  {
    StableSortShape(gs);
    forall rtt: nat ensures WithRtt(StableSorted(gs), rtt) == WithRtt(gs, rtt) {
      StableSortKeepsTies(gs, rtt);
    }
  }

  lemma {:induction false} InsertedLast(gs: seq<Gateway>, g: Gateway)
    requires forall i :: 0 <= i < |gs| ==> gs[i].rtt <= g.rtt
    ensures Inserted(gs, g) == gs + [g]
  {
    if gs != [] {
      InsertedLast(gs[1..], g);
      assert gs == [gs[0]] + gs[1..];
    }
  }

  lemma {:induction false} SortedStays(gs: seq<Gateway>)
    requires Sorted(gs)
    ensures StableSorted(gs) == gs
  {
    if gs != [] {
      var front := gs[..|gs| - 1];
      SortedStays(front);
      InsertedLast(front, gs[|gs| - 1]);
      hide Inserted, Sorted;
      assert gs == front + [gs[|gs| - 1]];
    }
  }

  lemma {:induction false} SortedSnoc(gs: seq<Gateway>, g: Gateway)
    requires Sorted(gs)
    ensures StableSorted(gs + [g]) == Inserted(gs, g)
  {
    hide StableSorted;
    StableSnoc(gs, g);
    SortedStays(gs);
  }

  /* ---- every run ---- */

  ghost predicate UniqueKeys(gs: seq<Gateway>) {
    forall i, j :: 0 <= i < j < |gs| ==> gs[i].Key() != gs[j].Key()
  }

  lemma {:induction false} InFront(g: Gateway, gs: seq<Gateway>, x: Gateway)
    ensures x in [g] + gs <==> x == g || x in gs
  {
  }

  lemma {:induction false} WithoutMembers(gs: seq<Gateway>, key: (string, u16), x: Gateway)
    ensures x in Without(gs, key) <==> x in gs && x.Key() != key
  {
    if gs != [] {
      WithoutMembers(gs[1..], key, x);
      InFront(gs[0], gs[1..], x);
      InFront(gs[0], Without(gs[1..], key), x);
      assert gs == [gs[0]] + gs[1..];
    }
  }

  /** A list with one entry put in front of a list it may lead. */
  lemma {:induction false} LedBy(g: Gateway, gs: seq<Gateway>)
    requires Sorted(gs) && UniqueKeys(gs) && forall x :: x in gs ==> g.rtt <= x.rtt && g.Key() != x.Key()
    ensures Sorted([g] + gs) && UniqueKeys([g] + gs)
  {
    forall i, j | 0 <= i < j < |[g] + gs| ensures ([g] + gs)[i].rtt <= ([g] + gs)[j].rtt && ([g] + gs)[i].Key() != ([g] + gs)[j].Key() {
      assert gs[j - 1] in gs;
    }
  }

  lemma {:induction false} TailIsLed(gs: seq<Gateway>)
    requires gs != [] && Sorted(gs) && UniqueKeys(gs)
    ensures Sorted(gs[1..]) && UniqueKeys(gs[1..]) && forall x :: x in gs[1..] ==> gs[0].rtt <= x.rtt && gs[0].Key() != x.Key()
  {
    assert forall i :: 0 < i < |gs| ==> gs[i] == gs[1..][i - 1];
  }

  lemma {:induction false} WithoutOrdered(gs: seq<Gateway>, key: (string, u16))
    requires Sorted(gs) && UniqueKeys(gs)
    ensures Sorted(Without(gs, key)) && UniqueKeys(Without(gs, key)) && |Without(gs, key)| <= |gs|
  {
    if gs != [] {
      hide Sorted, UniqueKeys;
      TailIsLed(gs);
      WithoutOrdered(gs[1..], key);
      if gs[0].Key() != key {
        forall x | x in Without(gs[1..], key) ensures x in gs[1..] {
          WithoutMembers(gs[1..], key, x);
        }
        LedBy(gs[0], Without(gs[1..], key));
      }
    }
  }

  lemma {:induction false} WithoutKeeps(gs: seq<Gateway>, key: (string, u16))
    requires Sorted(gs) && UniqueKeys(gs)
    ensures Sorted(Without(gs, key)) && UniqueKeys(Without(gs, key)) && |Without(gs, key)| <= |gs|
    ensures forall x :: x in Without(gs, key) <==> x in gs && x.Key() != key
  {
    hide *;
    WithoutOrdered(gs, key);
    forall x ensures x in Without(gs, key) <==> x in gs && x.Key() != key {
      WithoutMembers(gs, key, x);
    }
  }

  lemma {:induction false} InsertedMembers(gs: seq<Gateway>, g: Gateway, x: Gateway)
    ensures x in Inserted(gs, g) <==> x in gs || x == g
  {
    if gs != [] {
      InsertedMembers(gs[1..], g, x);
      InFront(gs[0], gs[1..], x);
      InFront(gs[0], Inserted(gs[1..], g), x);
      InFront(g, gs, x);
      assert gs == [gs[0]] + gs[1..];
    }
  }

  lemma {:induction false} UniqueFront(g: Gateway, gs: seq<Gateway>)
    ensures UniqueKeys([g] + gs) <==> UniqueKeys(gs) && forall x :: x in gs ==> x.Key() != g.Key()
  {
    var all := [g] + gs;
    assert forall i :: 0 <= i < |gs| ==> all[i + 1] == gs[i];
    if UniqueKeys(all) {
      forall x | x in gs ensures x.Key() != g.Key() {
        var i :| 0 <= i < |gs| && gs[i] == x;
        assert all[0].Key() != all[i + 1].Key();
      }
      assert all[1..] == gs;
    }
  }

  lemma {:induction false} InsertedUnique(gs: seq<Gateway>, g: Gateway)
    requires UniqueKeys(gs) && forall x :: x in gs ==> x.Key() != g.Key()
    ensures UniqueKeys(Inserted(gs, g)) && |Inserted(gs, g)| == |gs| + 1
    ensures forall x :: x in Inserted(gs, g) <==> x in gs || x == g
  {
    hide UniqueKeys;
    UniqueFront(g, gs);
    forall x ensures x in Inserted(gs, g) <==> x in gs || x == g {
      InsertedMembers(gs, g, x);
    }
    if gs != [] && gs[0].rtt <= g.rtt {
      assert gs == [gs[0]] + gs[1..];
      UniqueFront(gs[0], gs[1..]);
      InsertedUnique(gs[1..], g);
      UniqueFront(gs[0], Inserted(gs[1..], g));
    } else {
      assert Inserted(gs, g) == [g] + gs;
    }
  }

  /** After any history: sorted by round trip, one entry per (ip, port), at most twelve, all of them from the history. */
  lemma {:induction false} CacheShape(history: seq<Gateway>)
    ensures Sorted(After(history)) && UniqueKeys(After(history)) && |After(history)| <= 12
    ensures forall x :: x in After(history) ==> x in history
  {
    if history != [] {
      var front, g := history[..|history| - 1], history[|history| - 1];
      CacheShape(front);
      hide Without, Inserted, StableSorted, Sorted, UniqueKeys;
      var kept := Without(After(front), g.Key());
      WithoutKeeps(After(front), g.Key());
      SortedSnoc(kept, g);
      InsertedSorted(kept, g);
      InsertedUnique(kept, g);
      TakeKeeps(Inserted(kept, g), MAX_CACHED);
    }
  }

  lemma {:induction false} TakeKeeps(gs: seq<Gateway>, n: nat)
    requires Sorted(gs) && UniqueKeys(gs)
    ensures Sorted(Take(gs, n)) && UniqueKeys(Take(gs, n)) && |Take(gs, n)| <= n
    ensures forall x :: x in Take(gs, n) ==> x in gs
  {
  }

  /** Truncating before an insertion loses nothing that truncating after it would keep. */
  lemma {:induction false} TakeInserted(gs: seq<Gateway>, g: Gateway, n: nat)
    ensures Take(Inserted(Take(gs, n), g), n) == Take(Inserted(gs, g), n)
    decreases n, |gs|
  {
    if gs != [] && n > 0 {
      assert Take(gs, n)[0] == gs[0] && Take(gs, n)[1..] == Take(gs[1..], n - 1);
      if gs[0].rtt <= g.rtt {
        TakeInserted(gs[1..], g, n - 1);
        TakeCons(gs[0], Inserted(Take(gs[1..], n - 1), g), n);
        TakeCons(gs[0], Inserted(gs[1..], g), n);
      } else {
        TakeCons(g, Take(gs, n), n);
        TakeCons(g, gs, n);
      }
    }
  }

  lemma {:induction false} TakeCons(g: Gateway, gs: seq<Gateway>, n: nat)
    requires n > 0
    ensures Take([g] + gs, n) == [g] + Take(gs, n - 1)
    ensures Take(Take(gs, n), n - 1) == Take(gs, n - 1)
  {
  }

  lemma {:induction false} WithoutAbsent(gs: seq<Gateway>, key: (string, u16))
    requires forall x :: x in gs ==> x.Key() != key
    ensures Without(gs, key) == gs
  {
    if gs != [] {
      assert forall x :: x in gs[1..] ==> x in gs;
      WithoutAbsent(gs[1..], key);
      assert gs == [gs[0]] + gs[1..];
    }
  }

  /** With no key measured twice, the cache is the first twelve of a stable sort of everything ever inserted. */
  lemma {:induction false} FirstTwelve(history: seq<Gateway>)
    requires UniqueKeys(history)
    ensures After(history) == Take(StableSorted(history), 12)
  {
    if history != [] {
      var front, g := history[..|history| - 1], history[|history| - 1];
      FirstTwelve(front);
      CacheShape(front);
      forall x | x in After(front) ensures x.Key() != g.Key() {
        var i :| 0 <= i < |front| && front[i] == x;
        assert history[i].Key() != history[|history| - 1].Key();
      }
      WithoutAbsent(After(front), g.Key());
      SortedSnoc(After(front), g);
      TakeInserted(StableSorted(front), g, MAX_CACHED);
    }
  }

  /** The latest measurement of every key, in order of measurement. */
  function Latest(history: seq<Gateway>): seq<Gateway> {
    if history == [] then []
    else
      var g := history[|history| - 1];
      Without(Latest(history[..|history| - 1]), g.Key()) + [g]
  }

  lemma {:induction false} WithoutInserted(gs: seq<Gateway>, g: Gateway, key: (string, u16))
    requires Sorted(gs)
    ensures Without(Inserted(gs, g), key) == if g.Key() == key then Without(gs, key) else Inserted(Without(gs, key), g)
  {
    if gs != [] {
      if gs[0].rtt <= g.rtt {
        WithoutInserted(gs[1..], g, key);
        assert ([gs[0]] + Inserted(gs[1..], g))[1..] == Inserted(gs[1..], g);
        var w := Without(gs[1..], key);
        assert ([gs[0]] + w)[1..] == w;
      } else {
        assert ([g] + gs)[1..] == gs;
        WithoutBelow(gs, g, key);
      }
    } else {
      assert [g][1..] == [];
    }
  }

  /** Dropping a key leaves a list whose head, if any, is still slower. */
  lemma {:induction false} WithoutBelow(gs: seq<Gateway>, g: Gateway, key: (string, u16))
    requires forall i :: 0 <= i < |gs| ==> gs[i].rtt > g.rtt
    ensures Inserted(Without(gs, key), g) == [g] + Without(gs, key)
  {
    if gs != [] && gs[0].Key() == key {
      WithoutBelow(gs[1..], g, key);
    }
  }

  lemma {:induction false} WithoutAppend(a: seq<Gateway>, b: seq<Gateway>, key: (string, u16))
    ensures Without(a + b, key) == Without(a, key) + Without(b, key)
  {
    if a == [] {
      assert a + b == b;
    } else {
      assert (a + b)[1..] == a[1..] + b;
      WithoutAppend(a[1..], b, key);
    }
  }

  lemma {:induction false} StableSnoc(front: seq<Gateway>, g: Gateway)
    ensures StableSorted(front + [g]) == Inserted(StableSorted(front), g)
  {
    assert (front + [g])[..|front|] == front;
  }

  lemma {:induction false} WithoutSorted(gs: seq<Gateway>, key: (string, u16))
    ensures Without(StableSorted(gs), key) == StableSorted(Without(gs, key))
  {
    if gs != [] {
      var front, g := gs[..|gs| - 1], gs[|gs| - 1];
      WithoutSorted(front, key);
      hide *;
      assert gs == front + [g];
      StableSortShape(front);
      WithoutInserted(StableSorted(front), g, key);
      WithoutSnoc(front, g, key);
      StableSnoc(front, g);
      StableSnoc(Without(front, key), g);
    }
  }

  lemma {:induction false} WithoutSnoc(gs: seq<Gateway>, g: Gateway, key: (string, u16))
    ensures Without(gs + [g], key) == if g.Key() == key then Without(gs, key) else Without(gs, key) + [g]
  {
    WithoutAppend(gs, [g], key);
    assert [g][1..] == [];
  }

  lemma {:induction false} WithoutLength(gs: seq<Gateway>, key: (string, u16))
    requires UniqueKeys(gs)
    ensures UniqueKeys(Without(gs, key)) && |Without(gs, key)| + 1 >= |gs|
    ensures forall x :: x in Without(gs, key) <==> x in gs && x.Key() != key
  {
    hide UniqueKeys;
    forall x ensures x in Without(gs, key) <==> x in gs && x.Key() != key {
      WithoutMembers(gs, key, x);
    }
    if gs != [] {
      var g, rest := gs[0], gs[1..];
      assert gs == [g] + rest;
      UniqueFront(g, rest);
      WithoutLength(rest, key);
      if g.Key() == key {
        WithoutAbsent(rest, key);
      } else {
        UniqueFront(g, Without(rest, key));
      }
    }
  }

  lemma {:induction false} LatestUnique(history: seq<Gateway>)
    ensures UniqueKeys(Latest(history))
  {
    if history != [] {
      LatestUnique(history[..|history| - 1]);
      WithoutLength(Latest(history[..|history| - 1]), history[|history| - 1].Key());
    }
  }

  /** While at most twelve gateways have ever been measured, the cache is the stable sort of the latest
      measurement of each: nothing is lost and no older measurement lingers. */
  lemma {:induction false} LatestOfEach(history: seq<Gateway>)
    requires |Latest(history)| <= 12
    ensures After(history) == StableSorted(Latest(history))
  {
    if history != [] {
      var front, g := history[..|history| - 1], history[|history| - 1];
      LatestUnique(front);
      WithoutLength(Latest(front), g.Key());
      LatestOfEach(front);
      WithoutSorted(Latest(front), g.Key());
      StableSortSpec(Without(Latest(front), g.Key()));
      var kept := StableSorted(Without(Latest(front), g.Key()));
      SortedSnoc(kept, g);
      var all := Without(Latest(front), g.Key()) + [g];
      assert all[..|all| - 1] == Without(Latest(front), g.Key());
      StableSortSpec(all);
      assert |multiset(StableSorted(all))| == |all|;
    }
  }

  /* ---- one insertion, whatever is cached ---- */

  predicate OtherKey(gs: seq<Gateway>, g: Gateway, k: nat) {
    k < |gs| && (gs[k].ip != g.ip || gs[k].port != g.port)
  }

  function OtherKeys(gs: seq<Gateway>, g: Gateway): nat -> bool {
    (k: nat) => OtherKey(gs, g, k)
  }

  lemma {:induction false} WithoutLast(gs: seq<Gateway>, g: Gateway, last: nat)
    requires |gs| == last + 1
    ensures Without(gs, g.Key()) == if OtherKeys(gs, g)(last) then Without(gs[..last], g.Key()) + [gs[last]] else Without(gs[..last], g.Key())
  {
    WithoutSnoc(gs[..last], gs[last], g.Key());
    hide Without;
    assert gs == gs[..last] + [gs[last]];
  }

  lemma {:induction false} WithoutPart(gs: seq<Gateway>, g: Gateway)
    ensures PartOf(Without(gs, g.Key()), gs, OtherKeys(gs, g))
    decreases |gs|
  {
    hide PartOf;
    if gs == [] {
      PartNone(gs, OtherKeys(gs, g));
    } else {
      var last: nat := |gs| - 1;
      var front := gs[..last];
      WithoutPart(front, g);
      WithoutLast(gs, g, last);
      hide Without;
      forall k: nat | k < last ensures OtherKeys(front, g)(k) == OtherKeys(gs, g)(k) {
        assert OtherKey(front, g, k) == OtherKey(gs, g, k);
      }
      PartSnoc(Without(front, g.Key()), gs, OtherKeys(front, g), OtherKeys(gs, g), last);
    }
  }

  /** What a gateway's insertion leaves: of the others and this one last, sorted by round trip with ties in order, the first
      twelve. */
  lemma {:induction false} CachedExact(gs: seq<Gateway>, g: Gateway) returns (others: seq<Gateway>, sorted: seq<Gateway>)
    ensures PartOf(others, gs, (k: nat) => k < |gs| && (gs[k].ip != g.ip || gs[k].port != g.port))
    ensures Sorted(sorted) && multiset(sorted) == multiset(others + [g])
    ensures forall rtt: nat :: WithRtt(sorted, rtt) == WithRtt(others + [g], rtt)
    ensures Cached(gs, g) <= sorted && |Cached(gs, g)| == Min(12, |sorted|)
  {
    others := Without(gs, g.Key());
    sorted := StableSorted(others + [g]);
    WithoutPart(gs, g);
    StableSortSpec(others + [g]);
    hide Without, StableSorted, PartOf, Sorted, WithRtt;
    PartSame(others, gs, OtherKeys(gs, g), (k: nat) => k < |gs| && (gs[k].ip != g.ip || gs[k].port != g.port));
  }
}

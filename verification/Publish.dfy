/** Which of the nodes that passed the checks are published (scanner.py, publish): guaranteed places for preferred
    countries, a share for nodes new to the list, and the fastest of the rest. The limits come from the environment and may
    be anything. */
module Publish {
  import opened Bytes
  import opened Lists

  /** Nodes are objects in the source; `id` is that identity. */
  datatype Node = Node(id: nat, country: string, latency: real, isNew: bool)

  function CountryIs(c: string): Node -> bool {
    (n: Node) => n.country == c
  }

  function NotIn(taken: seq<Node>): Node -> bool {
    (n: Node) => n !in taken
  }

  function New(): Node -> bool {
    (n: Node) => n.isNew
  }

  /** A limit below zero admits nothing. */
  function AtLeastZero(k: int): nat {
    if k < 0 then 0 else k
  }

  function Head(ns: seq<Node>, n: nat): seq<Node> {
    ns[..Min(n, |ns|)]
  }

  /** In order, every node of a preferred country that has a place left there. */
  function Quota(ns: seq<Node>, preferred: seq<string>, places: int): seq<Node> {
    if ns == [] then []
    else
      var kept, n := Quota(ns[..|ns| - 1], preferred, places), ns[|ns| - 1];
      if n.country in preferred && |Where(kept, CountryIs(n.country))| < places then kept + [n] else kept
  }

  function Left(ns: seq<Node>, taken: seq<Node>): seq<Node> {
    Where(ns, NotIn(taken))
  }

  /** How many places go to new nodes. */
  function NewPlaces(share: int, most: int, kept: nat): nat {
    AtLeastZero(if share < most - kept then share else most - kept)
  }

  function NewOnes(ns: seq<Node>, kept: seq<Node>, share: int, most: int): seq<Node> {
    Head(Where(Left(ns, kept), New()), NewPlaces(share, most, |kept|))
  }

  function Fill(ns: seq<Node>, taken: seq<Node>, most: int): seq<Node> {
    Head(Left(ns, taken), AtLeastZero(most - |taken|))
  }

  /** Everything published, before it is put in order. */
  function Published(ns: seq<Node>, preferred: seq<string>, places: int, share: int, most: int): seq<Node> {
    var kept := Quota(ns, preferred, places);
    var taken := kept + NewOnes(ns, kept, share, most);
    taken + Fill(ns, taken, most)
  }

  method Select(ns: seq<Node>, keep: Node -> bool) returns (out: seq<Node>)
    ensures out == Where(ns, keep)
  {
    out := [];
    for i := 0 to |ns|
      invariant out == Where(ns[..i], keep)
    {
      assert ns[..i + 1][..i] == ns[..i];
      if keep(ns[i]) {
        out := out + [ns[i]];
      }
    }
    assert ns[..|ns|] == ns;
  }

  /** The count the source keeps for a country is the number of its nodes that were kept. */
  ghost predicate Counts(perCountry: map<string, nat>, kept: seq<Node>) {
    forall c: string :: |Where(kept, CountryIs(c))| == if c in perCountry then perCountry[c] else 0
  }

  lemma {:induction false} CountsNext(perCountry: map<string, nat>, kept: seq<Node>, n: Node)
    requires Counts(perCountry, kept)
    ensures var k := if n.country in perCountry then perCountry[n.country] else 0;
      k == |Where(kept, CountryIs(n.country))| && Counts(perCountry[n.country := k + 1], kept + [n])
  {
    assert (kept + [n])[..|kept|] == kept;
  }

  lemma {:induction false} NothingCounted()
    ensures Counts(map[], [])
  {
  }

  method ChoosePublished(byLatency: seq<Node>, preferred: seq<string>, places: int, share: int, most: int) returns (out: seq<Node>)
    ensures out == Published(byLatency, preferred, places, share, most)
  {
    hide Counts, Where;
    var kept: seq<Node> := [];
    var perCountry: map<string, nat> := map[];
    NothingCounted();
    for i := 0 to |byLatency|
      invariant kept == Quota(byLatency[..i], preferred, places) && Counts(perCountry, kept)
    {
      var n := byLatency[i];
      CountsNext(perCountry, kept, n);
      assert byLatency[..i + 1][..i] == byLatency[..i];
      var count := if n.country in perCountry then perCountry[n.country] else 0;
      if n.country in preferred && count < places {
        perCountry := perCountry[n.country := count + 1];
        kept := kept + [n];
      }
    }
    assert byLatency[..|byLatency|] == byLatency;
    hide Quota;
    var others := Select(byLatency, NotIn(kept));
    var newcomers := Select(others, New());
    var newOnes := Head(newcomers, NewPlaces(share, most, |kept|));
    var taken := kept + newOnes;
    var rest := Select(byLatency, NotIn(taken));
    out := taken + Head(rest, AtLeastZero(most - |taken|));
  }

  /* ---- the guaranteed places ---- */

  lemma {:induction false} WhereSnoc(front: seq<Node>, n: Node, keep: Node -> bool)
    ensures Where(front + [n], keep) == if keep(n) then Where(front, keep) + [n] else Where(front, keep)
  {
    assert (front + [n])[..|front|] == front;
  }

  lemma {:induction false} HeadSnoc(w: seq<Node>, n: Node, k: nat)
    ensures Head(w + [n], k) == if |Head(w, k)| < k then Head(w, k) + [n] else Head(w, k)
  {
  }

  lemma {:induction false} QuotaSnoc(front: seq<Node>, n: Node, preferred: seq<string>, places: int)
    ensures var kept := Quota(front, preferred, places);
      Quota(front + [n], preferred, places) ==
        if n.country in preferred && |Where(kept, CountryIs(n.country))| < places then kept + [n] else kept
  {
    hide Where;
    assert (front + [n])[..|front|] == front;
  }

  /** Of a preferred country exactly the first nodes are kept, as many as there are places; of any other none. */
  lemma {:induction false} QuotaExact(ns: seq<Node>, preferred: seq<string>, places: int, c: string)
    ensures Where(Quota(ns, preferred, places), CountryIs(c)) ==
      if c in preferred then Head(Where(ns, CountryIs(c)), AtLeastZero(places)) else []
  {
    if ns != [] {
      hide Where, Quota, Head;
      var front, n := ns[..|ns| - 1], ns[|ns| - 1];
      assert ns == front + [n];
      QuotaExact(front, preferred, places, c);
      QuotaSnoc(front, n, preferred, places);
      WhereSnoc(front, n, CountryIs(c));
      WhereSnoc(Quota(front, preferred, places), n, CountryIs(c));
      HeadSnoc(Where(front, CountryIs(c)), n, AtLeastZero(places));
    } else {
      assert Where(ns, CountryIs(c)) == [];
    }
  }

  lemma {:induction false} QuotaWithin(ns: seq<Node>, preferred: seq<string>, places: int)
    requires Distinct(ns)
    ensures Distinct(Quota(ns, preferred, places)) && forall n :: n in Quota(ns, preferred, places) ==> n in ns
  {
    hide Where;
    if ns != [] {
      var front, n := ns[..|ns| - 1], ns[|ns| - 1];
      assert ns == front + [n];
      DistinctParts(front, [n]);
      QuotaWithin(front, preferred, places);
      assert n in [n];
      if Quota(ns, preferred, places) != Quota(front, preferred, places) {
        DistinctJoin(Quota(front, preferred, places), [n]);
      }
    }
  }

  /* ---- how many are published ---- */

  /** What is left has exactly the nodes not taken. */
  lemma {:induction false} LeftSize(ns: seq<Node>, taken: seq<Node>)
    requires Distinct(ns) && Distinct(taken) && forall n :: n in taken ==> n in ns
    ensures |Left(ns, taken)| == |ns| - |taken|
    ensures Distinct(Left(ns, taken)) && Apart(taken, Left(ns, taken)) && forall n :: n in Left(ns, taken) <==> n in ns && n !in taken
  {
    WhereSpec(ns, NotIn(taken));
    hide Where;
    DistinctJoin(taken, Left(ns, taken));
    SameSize(ns, taken + Left(ns, taken));
  }

  lemma {:induction false} SameSize(a: seq<Node>, b: seq<Node>)
    requires Distinct(a) && Distinct(b) && forall n :: n in a <==> n in b
    ensures |a| == |b|
  {
    AsSet(a);
    AsSet(b);
    assert (set n | n in a) == (set n | n in b);
  }

  lemma {:induction false} AsSet(a: seq<Node>)
    requires Distinct(a)
    ensures |set n | n in a| == |a|
  {
    if a != [] {
      var front, n := a[..|a| - 1], a[|a| - 1];
      assert a == front + [n];
      DistinctParts(front, [n]);
      AsSet(front);
      assert n in [n];
      assert (set m | m in a) == (set m | m in front) + {n};
    }
  }

  lemma {:induction false} HeadWithin(ns: seq<Node>, k: nat)
    requires Distinct(ns)
    ensures Distinct(Head(ns, k)) && |Head(ns, k)| == Min(k, |ns|) && forall n :: n in Head(ns, k) ==> n in ns
  {
    HeadSpec(ns, Min(k, |ns|));
  }

  /** The places for new nodes are filled with new nodes, as far as there are any outside the guaranteed places. */
  lemma {:induction false} NewGetTheirShare(ns: seq<Node>, preferred: seq<string>, places: int, share: int, most: int)
    requires Distinct(ns)
    ensures var kept := Quota(ns, preferred, places);
      var newOnes := NewOnes(ns, kept, share, most);
      && Distinct(kept + newOnes) && (forall n :: n in kept + newOnes ==> n in ns)
      && (forall n :: n in newOnes ==> n.isNew)
      && |newOnes| == Min(NewPlaces(share, most, |kept|), |Where(Left(ns, kept), New())|)
  {
    QuotaWithin(ns, preferred, places);
    hide Quota;
    var kept := Quota(ns, preferred, places);
    LeftSize(ns, kept);
    var others := Left(ns, kept);
    WhereSpec(others, New());
    hide Where, Left;
    HeadWithin(Where(others, New()), NewPlaces(share, most, |kept|));
    DistinctJoin(kept, NewOnes(ns, kept, share, most));
  }

  /** No node is published twice, and as many are published as the limit and the supply allow; only the guaranteed places
      may go past the limit, and then nothing else is published. */
  lemma {:induction false} PublishedSize(ns: seq<Node>, preferred: seq<string>, places: int, share: int, most: int)
    requires Distinct(ns)
    ensures var out, kept := Published(ns, preferred, places, share, most), Quota(ns, preferred, places);
      && Distinct(out) && (forall n :: n in out ==> n in ns) && kept <= out
      && |out| == if |kept| >= most then |kept| else Min(AtLeastZero(most), |ns|)
  {
    NewGetTheirShare(ns, preferred, places, share, most);
    hide Quota, NewOnes, Where;
    var kept := Quota(ns, preferred, places);
    var taken := kept + NewOnes(ns, kept, share, most);
    LeftSize(ns, taken);
    hide Left;
    HeadWithin(Left(ns, taken), AtLeastZero(most - |taken|));
    DistinctJoin(taken, Fill(ns, taken, most));
  }

  /* ---- the fastest of the rest ---- */

  ghost predicate ByLatency(ns: seq<Node>) {
    forall i, j :: 0 <= i < j < |ns| ==> ns[i].latency <= ns[j].latency
  }

  lemma {:induction false} WhereOrdered(ns: seq<Node>, keep: Node -> bool)
    requires ByLatency(ns)
    ensures ByLatency(Where(ns, keep)) && forall n :: n in Where(ns, keep) ==> n in ns
  {
    if ns != [] {
      var front, n := ns[..|ns| - 1], ns[|ns| - 1];
      WhereOrdered(front, keep);
      assert ns == front + [n];
      var w := Where(front, keep);
      forall i | 0 <= i < |w| ensures w[i].latency <= n.latency {
        assert w[i] in w;
        assert w[i] in front;
      }
    }
  }

  lemma {:induction false} FrontIn(ns: seq<Node>, h: nat)
    requires h <= |ns|
    ensures forall q :: 0 <= q < h ==> ns[q] in ns[..h]
  {
    assert forall q :: 0 <= q < h ==> ns[..h][q] == ns[q];
  }

  lemma {:induction false} HeadFastest(ns: seq<Node>, k: nat, m: Node, n: Node)
    requires ByLatency(ns) && m in Head(ns, k) && n in ns && n !in Head(ns, k)
    ensures m.latency <= n.latency
  {
    var h := Min(k, |ns|);
    var i :| 0 <= i < h && ns[i] == m;
    var j :| 0 <= j < |ns| && ns[j] == n;
    FrontIn(ns, h);
  }

  /** No node left unpublished is faster than one that fills the list up, and no new one than one of the new places. */
  lemma {:induction false} FillIsFastest(ns: seq<Node>, preferred: seq<string>, places: int, share: int, most: int, n: Node)
    requires ByLatency(ns) && n in ns && n !in Published(ns, preferred, places, share, most)
    ensures var kept := Quota(ns, preferred, places);
      var newOnes := NewOnes(ns, kept, share, most);
      && (forall m :: m in Fill(ns, kept + newOnes, most) ==> m.latency <= n.latency)
      && (n.isNew ==> forall m :: m in newOnes ==> m.latency <= n.latency)
  {
    hide Quota;
    var kept := Quota(ns, preferred, places);
    var newOnes := NewOnes(ns, kept, share, most);
    var taken := kept + newOnes;
    LeftOrdered(ns, taken, n);
    LeftOrdered(ns, kept, n);
    hide Left;
    forall m | m in Fill(ns, taken, most) ensures m.latency <= n.latency {
      HeadFastest(Left(ns, taken), AtLeastZero(most - |taken|), m, n);
    }
    if n.isNew {
      WhereOrdered(Left(ns, kept), New());
      WhereSpec(Left(ns, kept), New());
      hide Where;
      forall m | m in newOnes ensures m.latency <= n.latency {
        HeadFastest(Where(Left(ns, kept), New()), NewPlaces(share, most, |kept|), m, n);
      }
    }
  }

  lemma {:induction false} LeftOrdered(ns: seq<Node>, taken: seq<Node>, n: Node)
    requires ByLatency(ns) && n in ns && n !in taken
    ensures ByLatency(Left(ns, taken)) && n in Left(ns, taken)
  {
    WhereOrdered(ns, NotIn(taken));
    WhereSpec(ns, NotIn(taken));
  }

  /* ---- the published nodes, place by place ---- */

  /** A node of a preferred country with fewer nodes of its country before it than there are places. */
  function Placed(ns: seq<Node>, preferred: seq<string>, places: int): nat -> bool {
    (k: nat) => k < |ns| && ns[k].country in preferred && |Where(ns[..k], CountryIs(ns[k].country))| < places
  }

  lemma {:induction false} QuotaPart(ns: seq<Node>, preferred: seq<string>, places: int)
    ensures PartOf(Quota(ns, preferred, places), ns, Placed(ns, preferred, places))
  {
    hide PartOf, Where;
    if ns == [] {
      PartNone(ns, Placed(ns, preferred, places));
    } else {
      var front, last: nat := ns[..|ns| - 1], |ns| - 1;
      var c := ns[last].country;
      QuotaPart(front, preferred, places);
      QuotaExact(front, preferred, places, c);
      QuotaSnoc(front, ns[last], preferred, places);
      hide Quota;
      assert ns == front + [ns[last]];
      forall k: nat | k < last ensures Placed(front, preferred, places)(k) == Placed(ns, preferred, places)(k) {
        assert front[..k] == ns[..k];
      }
      PartSnoc(Quota(front, preferred, places), ns, Placed(front, preferred, places), Placed(ns, preferred, places), last);
    }
  }

  datatype Parts = Parts(kept: seq<Node>, newcomers: seq<Node>, newOnes: seq<Node>, left: seq<Node>, fill: seq<Node>)

  ghost predicate PartsAre(ns: seq<Node>, preferred: seq<string>, places: int, share: int, most: int, p: Parts) {
    && PartOf(p.kept, ns, Placed(ns, preferred, places))
    && PartOf(p.newcomers, ns, (k: nat) => k < |ns| && ns[k] !in p.kept && ns[k].isNew)
    && p.newOnes <= p.newcomers
    && |p.newOnes| == Min(|p.newcomers|, AtLeastZero(if share < most - |p.kept| then share else most - |p.kept|))
    && PartOf(p.left, ns, (k: nat) => k < |ns| && ns[k] !in p.kept + p.newOnes)
    && p.fill <= p.left && |p.fill| == Min(|p.left|, AtLeastZero(most - |p.kept| - |p.newOnes|))
  }

  lemma {:induction false} BothWhere(ns: seq<Node>, kept: seq<Node>, both: Node -> bool)
    requires forall n :: both(n) <==> n !in kept && n.isNew
    ensures Where(Left(ns, kept), New()) == Where(ns, both)
  {
    if ns != [] {
      BothWhere(ns[..|ns| - 1], kept, both);
      WhereLast(ns, NotIn(kept));
      WhereLast(ns, both);
      hide Where;
      var front, n := Left(ns[..|ns| - 1], kept), ns[|ns| - 1];
      WhereSnoc(front, n, New());
    } else {
      assert Left(ns, kept) == [];
    }
  }

  lemma {:induction false} NewcomersPart(ns: seq<Node>, kept: seq<Node>)
    ensures PartOf(Where(Left(ns, kept), New()), ns, (k: nat) => k < |ns| && ns[k] !in kept && ns[k].isNew)
  {
    var both := (n: Node) => n !in kept && n.isNew;
    BothWhere(ns, kept, both);
    WherePart(ns, both);
    hide PartOf, Where;
    PartSame(Where(ns, both), ns, KeptAt(ns, both), (k: nat) => k < |ns| && ns[k] !in kept && ns[k].isNew);
  }

  lemma {:induction false} LeftPart(ns: seq<Node>, taken: seq<Node>)
    ensures PartOf(Left(ns, taken), ns, (k: nat) => k < |ns| && ns[k] !in taken)
  {
    WherePart(ns, NotIn(taken));
    hide PartOf, Where;
    PartSame(Left(ns, taken), ns, KeptAt(ns, NotIn(taken)), (k: nat) => k < |ns| && ns[k] !in taken);
  }

  /** Everything published, before it is put in order: the guaranteed places, then new nodes, then the first of what is left. */
  lemma {:induction false} PublishedExact(ns: seq<Node>, preferred: seq<string>, places: int, share: int, most: int) returns (p: Parts)
    ensures Published(ns, preferred, places, share, most) == p.kept + p.newOnes + p.fill
    ensures PartsAre(ns, preferred, places, share, most, p)
  {
    var kept := Quota(ns, preferred, places);
    QuotaPart(ns, preferred, places);
    hide Quota, Where, PartOf, Placed;
    var newcomers := Where(Left(ns, kept), New());
    NewcomersPart(ns, kept);
    var newOnes := Head(newcomers, NewPlaces(share, most, |kept|));
    var left := Left(ns, kept + newOnes);
    LeftPart(ns, kept + newOnes);
    hide Left;
    p := Parts(kept, newcomers, newOnes, left, Head(left, AtLeastZero(most - |kept + newOnes|)));
  }
}

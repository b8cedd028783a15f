/** What the round robins of the aggregator come to, place by place (scanner.py, diversify and pick_candidates). */
module ScanExact {
  import opened Bytes
  import opened Lists
  import opened Scanner
  import opened TestPlan

  /* ---- the cap on a server ---- */

  /** How many nodes before the k-th are on its server. */
  function Earlier(ns: seq<Node>, k: nat): nat
    requires k < |ns|
  {
    OnServer(ns[..k], ns[k].server)
  }

  lemma {:induction false} CappedCounts(ns: seq<Node>, server: string)
    ensures OnServer(Capped(ns), server) == Min(OnServer(ns, server), 3)
  {
    if ns != [] {
      var front, n := ns[..|ns| - 1], ns[|ns| - 1];
      CappedCounts(front, server);
      CappedCounts(front, n.server);
      assert (Capped(front) + [n])[..|Capped(front)|] == Capped(front);
    }
  }

  /** A node passes when fewer than three nodes of its server come before it. */
  function Passes(ns: seq<Node>): nat -> bool {
    (k: nat) => k < |ns| && Earlier(ns, k) < 3
  }

  lemma {:induction false} EarlierInFront(ns: seq<Node>, last: nat, k: nat)
    requires k < last < |ns|
    ensures Earlier(ns[..last], k) == Earlier(ns, k)
  {
    assert ns[..last][..k] == ns[..k];
  }

  lemma {:induction false} CappedLast(ns: seq<Node>)
    requires ns != []
    ensures var front, last: nat := ns[..|ns| - 1], |ns| - 1;
      Capped(ns) == if Passes(ns)(last) then Capped(front) + [ns[last]] else Capped(front)
  {
    CappedCounts(ns[..|ns| - 1], ns[|ns| - 1].server);
  }

  /** The nodes that pass are kept, in order, and no others. */
  lemma {:induction false} CappedExact(ns: seq<Node>)
    ensures PartOf(Capped(ns), ns, Passes(ns))
  {
    hide PartOf, Earlier;
    if ns == [] {
      PartNone(ns, Passes(ns));
    } else {
      var front, last: nat := ns[..|ns| - 1], |ns| - 1;
      CappedExact(front);
      CappedLast(ns);
      hide Capped;
      forall k: nat | k < last ensures Passes(front)(k) == Passes(ns)(k) {
        EarlierInFront(ns, last, k);
      }
      PartSnoc(Capped(front), ns, Passes(front), Passes(ns), last);
    }
  }

  /* ---- rounds ---- */

  /** The `round`-th of queue `queue`. */
  datatype Seat = Seat(queue: nat, round: nat)

  predicate Sooner(a: Seat, b: Seat) {
    a.round < b.round || (a.round == b.round && a.queue < b.queue)
  }

  ghost predicate InTurn(seats: seq<Seat>) {
    forall i, j :: 0 <= i < j < |seats| ==> Sooner(seats[i], seats[j])
  }

  predicate Taken(qs: seq<Queue>, s: Seat) {
    s.queue < |qs| && s.round < |qs[s.queue].nodes|
  }

  ghost predicate Serves(out: seq<Node>, qs: seq<Queue>, seats: seq<Seat>) {
    |out| == |seats| && forall i :: 0 <= i < |seats| ==> Taken(qs, seats[i]) && out[i] == qs[seats[i].queue].nodes[seats[i].round]
  }

  ghost predicate SeatsFrom(qs: seq<Queue>, round: nat, from: nat, seats: seq<Seat>) {
    forall s :: s in seats <==> s.round == round && s.queue >= from && Taken(qs, s)
  }

  lemma {:induction false} SeatInFront(out: seq<Node>, qs: seq<Queue>, round: nat, from: nat, seats: seq<Seat>)
    requires from < |qs| && round < |qs[from].nodes|
    requires Serves(out, qs, seats) && InTurn(seats) && SeatsFrom(qs, round, from + 1, seats)
    ensures var s := Seat(from, round);
      Serves([qs[from].nodes[round]] + out, qs, [s] + seats) && InTurn([s] + seats) && SeatsFrom(qs, round, from, [s] + seats)
  {
    var s := Seat(from, round);
    var all := [s] + seats;
    forall i, j | 0 <= i < j < |all| ensures Sooner(all[i], all[j]) {
      assert all[j] in seats;
    }
    forall t ensures t in all <==> t.round == round && t.queue >= from && Taken(qs, t) {
      assert t in all <==> t == s || t in seats;
    }
  }

  lemma {:induction false} NoSeat(qs: seq<Queue>, round: nat, from: nat, seats: seq<Seat>)
    requires SeatsFrom(qs, round, from + 1, seats) && !Taken(qs, Seat(from, round))
    ensures SeatsFrom(qs, round, from, seats)
  {
    forall t ensures t in seats <==> t.round == round && t.queue >= from && Taken(qs, t) {
      assert t.round == round && t.queue == from ==> t == Seat(from, round);
    }
  }

  lemma {:induction false} OneRound(qs: seq<Queue>, round: nat, from: nat) returns (seats: seq<Seat>)
    requires from <= |qs|
    ensures Serves(Row(qs[from..], round), qs, seats) && InTurn(seats) && SeatsFrom(qs, round, from, seats)
    decreases |qs| - from
  {
    seats := [];
    if from < |qs| {
      seats := OneRound(qs, round, from + 1);
      RowFrom(qs, round, from);
      hide Row, SeatsFrom, Serves, InTurn;
      if Taken(qs, Seat(from, round)) {
        SeatInFront(Row(qs[from + 1..], round), qs, round, from, seats);
        seats := [Seat(from, round)] + seats;
      } else {
        NoSeat(qs, round, from, seats);
      }
    }
  }

  lemma {:induction false} RowFrom(qs: seq<Queue>, round: nat, from: nat)
    requires from < |qs|
    ensures var rest := Row(qs[from + 1..], round);
      Row(qs[from..], round) == if round < |qs[from].nodes| then [qs[from].nodes[round]] + rest else rest
  {
    assert qs[from..][1..] == qs[from + 1..];
  }

  /** Exactly the seats of the first rounds. */
  ghost predicate SeatsUpTo(qs: seq<Queue>, n: nat, seats: seq<Seat>) {
    forall s :: s in seats <==> s.round < n && Taken(qs, s)
  }

  ghost predicate SeatsOf(qs: seq<Queue>, round: nat, seats: seq<Seat>) {
    forall s :: s in seats <==> s.round == round && Taken(qs, s)
  }

  lemma {:induction false} SeatsJoin(qs: seq<Queue>, n: nat, a: seq<Seat>, b: seq<Seat>)
    requires SeatsUpTo(qs, n, a) && SeatsOf(qs, n, b)
    ensures SeatsUpTo(qs, n + 1, a + b)
  {
    hide Taken;
    forall s ensures s in a + b <==> s.round < n + 1 && Taken(qs, s) {
      assert s in a + b <==> s in a || s in b;
    }
  }

  lemma {:induction false} WholeRound(qs: seq<Queue>, round: nat) returns (seats: seq<Seat>)
    ensures Serves(Row(qs, round), qs, seats) && InTurn(seats) && SeatsOf(qs, round, seats)
    ensures forall s :: s in seats ==> s.round == round
  {
    assert qs[0..] == qs;
    seats := OneRound(qs, round, 0);
  }

  lemma {:induction false} NoRounds(qs: seq<Queue>, seats: seq<Seat>)
    requires seats == []
    ensures Serves(Rows(qs, 0), qs, seats) && InTurn(seats) && SeatsUpTo(qs, 0, seats)
  {
  }

  lemma {:induction false} SeatsBefore(qs: seq<Queue>, n: nat, seats: seq<Seat>)
    requires SeatsUpTo(qs, n, seats)
    ensures forall s :: s in seats ==> s.round < n
  {
  }

  lemma {:induction false} Rounds(qs: seq<Queue>, n: nat) returns (seats: seq<Seat>)
    ensures Serves(Rows(qs, n), qs, seats) && InTurn(seats) && SeatsUpTo(qs, n, seats)
  {
    hide *;
    if n == 0 {
      seats := [];
      NoRounds(qs, seats);
    } else {
      var before := Rounds(qs, n - 1);
      var last := WholeRound(qs, n - 1);
      seats := before + last;
      SeatsBefore(qs, n - 1, before);
      InTurnJoins(before, last, n - 1);
      SeatsJoin(qs, n - 1, before, last);
      ServesJoins(Rows(qs, n - 1), Row(qs, n - 1), qs, before, last);
      RowsLast(qs, n);
    }
  }

  lemma {:induction false} RowsLast(qs: seq<Queue>, n: nat)
    requires n > 0
    ensures Rows(qs, n) == Rows(qs, n - 1) + Row(qs, n - 1)
  {
  }

  lemma {:induction false} InTurnJoins(a: seq<Seat>, b: seq<Seat>, round: nat)
    requires InTurn(a) && InTurn(b) && (forall s :: s in a ==> s.round < round) && (forall s :: s in b ==> s.round == round)
    ensures InTurn(a + b)
  {
    forall i, j | 0 <= i < j < |a + b| ensures Sooner((a + b)[i], (a + b)[j]) {
      assert i < |a| ==> a[i] in a;
      assert j >= |a| ==> b[j - |a|] in b;
    }
  }

  lemma {:induction false} ServesJoins(x: seq<Node>, y: seq<Node>, qs: seq<Queue>, a: seq<Seat>, b: seq<Seat>)
    requires Serves(x, qs, a) && Serves(y, qs, b)
    ensures Serves(x + y, qs, a + b)
  {
  }

  lemma {:induction false} LongestIs(qs: seq<Queue>, q: nat)
    requires q < |qs|
    ensures |qs[q].nodes| <= Longest(qs)
  {
    if q > 0 {
      LongestIs(qs[1..], q - 1);
    }
  }

  /** A round robin serves every seat once: all first ones in order of the queues, then all second ones, and so on. */
  lemma {:induction false} RoundRobinExact(qs: seq<Queue>) returns (seats: seq<Seat>)
    ensures Serves(RoundRobin(qs), qs, seats) && InTurn(seats)
    ensures forall s :: Taken(qs, s) ==> s in seats
  {
    seats := Rounds(qs, Longest(qs));
    forall s | Taken(qs, s) ensures s in seats {
      LongestIs(qs, s.queue);
    }
  }

  /* ---- queues by source ---- */

  function SourceIs(source: string): Node -> bool {
    (n: Node) => n.source == source
  }

  /** The sources of a list, each where it first appears. */
  function Sources(ns: seq<Node>): seq<string> {
    if ns == [] then []
    else
      var front, source := Sources(ns[..|ns| - 1]), ns[|ns| - 1].source;
      if source in front then front else front + [source]
  }

  lemma {:induction false} AppendedAt(qs: seq<Queue>, key: string, n: Node)
    requires forall i, j :: 0 <= i < j < |qs| ==> qs[i].key != qs[j].key
    ensures var out := Appended(qs, key, n);
      && |out| == |qs| + (if exists i :: 0 <= i < |qs| && qs[i].key == key then 0 else 1)
      && (forall i :: 0 <= i < |qs| ==> out[i] == if qs[i].key == key then Queue(key, qs[i].nodes + [n]) else qs[i])
      && (|out| > |qs| ==> out[|qs|] == Queue(key, [n]))
  {
    if qs != [] && qs[0].key != key {
      var tail := qs[1..];
      AppendedAt(tail, key, n);
      forall i | 0 < i < |qs| ensures qs[i] == tail[i - 1] {
      }
      if i :| 0 <= i < |qs| && qs[i].key == key {
        assert tail[i - 1].key == key;
      }
    }
  }

  ghost predicate QueuesOf(qs: seq<Queue>, ns: seq<Node>) {
    |qs| == |Sources(ns)| && forall i :: 0 <= i < |qs| ==> qs[i] == Queue(Sources(ns)[i], Filter(ns, SourceIs(Sources(ns)[i])))
  }

  lemma {:induction false} SourcesDistinct(ns: seq<Node>)
    ensures forall i, j :: 0 <= i < j < |Sources(ns)| ==> Sources(ns)[i] != Sources(ns)[j]
    ensures forall s :: s in Sources(ns) <==> exists n :: n in ns && n.source == s
  {
    if ns != [] {
      var front, last := ns[..|ns| - 1], ns[|ns| - 1];
      SourcesDistinct(front);
      assert ns == front + [last];
      forall s | s in Sources(ns) ensures exists n :: n in ns && n.source == s {
        if s in Sources(front) {
          var n :| n in front && n.source == s;
          assert n in ns;
        } else {
          assert last in ns && last.source == s;
        }
      }
    }
  }

  lemma {:induction false} NoneOfSource(ns: seq<Node>, source: string)
    requires source !in Sources(ns)
    ensures Filter(ns, SourceIs(source)) == []
  {
    SourcesDistinct(ns);
    FilterNone(ns, SourceIs(source));
  }

  lemma {:induction false} FilterLast(front: seq<Node>, last: Node, source: string)
    ensures Filter(front + [last], SourceIs(source)) == Filter(front, SourceIs(source)) + if last.source == source then [last] else []
  {
    FilterAppend(front, [last], SourceIs(source));
    FilterOne(last, SourceIs(source));
  }

  lemma {:induction false} BySourceExact(ns: seq<Node>)
    ensures QueuesOf(BySource(ns), ns)
  {
    if ns != [] {
      var front, last := ns[..|ns| - 1], ns[|ns| - 1];
      var qs := BySource(front);
      BySourceExact(front);
      SourcesDistinct(front);
      assert ns == front + [last];
      AppendedAt(qs, last.source, last);
      if last.source !in Sources(front) {
        NoneOfSource(front, last.source);
      } else {
        var i :| 0 <= i < |qs| && Sources(front)[i] == last.source;
        assert qs[i].key == last.source;
      }
      forall i | 0 <= i < |Sources(ns)| ensures
        Filter(ns, SourceIs(Sources(ns)[i])) == Filter(front, SourceIs(Sources(ns)[i])) + if last.source == Sources(ns)[i] then [last] else []
      {
        FilterLast(front, last, Sources(ns)[i]);
      }
    }
  }

  /** First the first node of every source, in the order in which the sources first appear, then the second of every source
      that has one, and so on to the last. */
  ghost predicate SourcesInTurn(out: seq<Node>, kept: seq<Node>, seats: seq<Seat>) {
    && InTurn(seats) && |out| == |seats|
    && (forall i :: 0 <= i < |seats| ==> OwnAt(out[i], kept, seats[i]))
    && (forall q, r :: 0 <= q < |Sources(kept)| && 0 <= r < |Filter(kept, SourceIs(Sources(kept)[q]))| ==> Seat(q, r) in seats)
  }

  /** The node in a seat is this one of its source. */
  ghost predicate OwnAt(n: Node, kept: seq<Node>, s: Seat) {
    s.queue < |Sources(kept)| &&
    var own := Filter(kept, SourceIs(Sources(kept)[s.queue]));
    s.round < |own| && n == own[s.round]
  }

  lemma {:induction false} TurnsOfSources(out: seq<Node>, kept: seq<Node>, qs: seq<Queue>, seats: seq<Seat>)
    requires Serves(out, qs, seats) && InTurn(seats) && QueuesOf(qs, kept) && forall s :: Taken(qs, s) ==> s in seats
    ensures SourcesInTurn(out, kept, seats)
  {
    hide Sources, Filter, InTurn, SourceIs;
    forall i | 0 <= i < |seats| ensures OwnAt(out[i], kept, seats[i]) {
      assert Taken(qs, seats[i]);
    }
    forall q, r | 0 <= q < |Sources(kept)| && 0 <= r < |Filter(kept, SourceIs(Sources(kept)[q]))| ensures Seat(q, r) in seats {
      assert Taken(qs, Seat(q, r));
    }
  }

  /** diversify, whole: what passes the cap, with the sources taking turns. */
  lemma {:induction false} DiversifyExact(ns: seq<Node>) returns (kept: seq<Node>, seats: seq<Seat>)
    ensures PartOf(kept, ns, (k: nat) => k < |ns| && Earlier(ns, k) < 3)
    ensures SourcesInTurn(Diversified(ns), kept, seats)
  {
    hide *;
    CappedExact(ns);
    PassesIs(ns);
    kept := Capped(ns);
    BySourceExact(kept);
    seats := RoundRobinExact(BySource(kept));
    DiversifiedIs(ns);
    TurnsOfSources(Diversified(ns), kept, BySource(kept), seats);
  }

  lemma {:induction false} PassesIs(ns: seq<Node>)
    requires PartOf(Capped(ns), ns, Passes(ns))
    ensures PartOf(Capped(ns), ns, (k: nat) => k < |ns| && Earlier(ns, k) < 3)
  {
    hide Capped, PartOf, Earlier;
    PartSame(Capped(ns), ns, Passes(ns), (k: nat) => k < |ns| && Earlier(ns, k) < 3);
  }

  lemma {:induction false} DiversifiedIs(ns: seq<Node>)
    ensures Diversified(ns) == RoundRobin(BySource(Capped(ns)))
  {
  }

  /* ---- the test list ---- */

  lemma {:induction false} FilterLastOne(ns: seq<Node>, keep: Node -> bool, last: nat)
    requires |ns| == last + 1
    ensures Filter(ns, keep) == if keep(ns[last]) then Filter(ns[..last], keep) + [ns[last]] else Filter(ns[..last], keep)
  {
    FilterAppend(ns[..last], [ns[last]], keep);
    FilterOne(ns[last], keep);
    assert ns == ns[..last] + [ns[last]];
  }

  lemma {:induction false} FilterPart(ns: seq<Node>, keep: Node -> bool)
    ensures PartOf(Filter(ns, keep), ns, (k: nat) => k < |ns| && keep(ns[k]))
    decreases |ns|
  {
    hide PartOf;
    var chosen := (k: nat) => k < |ns| && keep(ns[k]);
    if ns == [] {
      PartNone(ns, chosen);
    } else {
      var last: nat := |ns| - 1;
      var front := ns[..last];
      FilterPart(front, keep);
      FilterLastOne(ns, keep, last);
      hide Filter;
      PartSnoc(Filter(front, keep), ns, (k: nat) => k < |front| && keep(front[k]), chosen, last);
    }
  }

  lemma {:induction false} ByHintAt(ns: seq<Node>, cs: seq<string>, i: nat)
    requires i < |cs|
    ensures |ByHint(ns, cs)| == |cs| && ByHint(ns, cs)[i] == Queue(cs[i], Filter(ns, HintIs(cs[i])))
  {
    hide Filter, HintIs;
    if |cs| > 1 {
      ByHintAt(ns, cs[1..], if i > 0 then i - 1 else 0);
    } else {
      assert ByHint(ns, cs[1..]) == [];
    }
  }

  /** The node in a seat is this one of its country. */
  ghost predicate OfCountry(n: Node, pref: seq<Node>, countries: seq<string>, s: Seat) {
    s.queue < |countries| &&
    var own := Filter(pref, HintIs(countries[s.queue]));
    s.round < |own| && n == own[s.round]
  }

  /** The first node of every listed country, in the order of the list, then the second of every country, and so on. */
  ghost predicate CountriesInTurn(out: seq<Node>, pref: seq<Node>, countries: seq<string>, seats: seq<Seat>) {
    && InTurn(seats) && |out| == |seats|
    && (forall i :: 0 <= i < |seats| ==> OfCountry(out[i], pref, countries, seats[i]))
    && (forall q, r :: 0 <= q < |countries| && 0 <= r < |Filter(pref, HintIs(countries[q]))| ==> Seat(q, r) in seats)
  }

  lemma {:induction false} TurnsOfCountries(pref: seq<Node>, countries: seq<string>) returns (seats: seq<Seat>)
    ensures CountriesInTurn(RoundRobin(ByHint(pref, countries)), pref, countries, seats)
  {
    var qs := ByHint(pref, countries);
    var out := RoundRobin(qs);
    seats := RoundRobinExact(qs);
    hide ByHint, Filter, HintIs, RoundRobin, InTurn;
    if countries == [] {
      NoCountries(pref, countries);
    } else {
      ByHintAt(pref, countries, 0);
    }
    forall i | 0 <= i < |seats| ensures OfCountry(out[i], pref, countries, seats[i]) {
      assert Taken(qs, seats[i]);
      ByHintAt(pref, countries, seats[i].queue);
    }
    forall q, r | 0 <= q < |countries| && 0 <= r < |Filter(pref, HintIs(countries[q]))| ensures Seat(q, r) in seats {
      ByHintAt(pref, countries, q);
      assert Taken(qs, Seat(q, r));
    }
  }

  lemma {:induction false} NoCountries(pref: seq<Node>, countries: seq<string>)
    requires countries == []
    ensures ByHint(pref, countries) == []
  {
  }

  /** What a test list is made of: the nodes of preferred countries, these dealt country by country, and the first of them; what is
      left besides those, diversified, in two kinds; and the first of each kind. */
  datatype Parts = Parts(wanted: seq<Node>, dealt: seq<Node>, seats: seq<Seat>, reserved: seq<Node>,
                         left: seq<Node>, allUnseen: seq<Node>, allSeen: seq<Node>, unseen: seq<Node>, seen: seq<Node>)

  ghost predicate ReservedAre(ns: seq<Node>, preferred: seq<string>, most: nat, p: Parts) {
    && PartOf(p.wanted, ns, (k: nat) => k < |ns| && ns[k].hint in preferred)
    && CountriesInTurn(p.dealt, Diversified(p.wanted), preferred, p.seats)
    && p.reserved <= p.dealt && |p.reserved| == Min(most, |p.dealt|)
  }

  /** The others come from what is left: as many as the budget and the supply allow, at least half of the budget from either
      kind if there are as many. */
  ghost predicate OthersAre(ns: seq<Node>, budget: nat, p: Parts) {
    && PartOf(p.left, ns, (k: nat) => k < |ns| && ns[k] !in p.reserved)
    && var rest := Diversified(p.left);
    && PartOf(p.allUnseen, rest, (k: nat) => k < |rest| && !rest[k].seenWorking)
    && PartOf(p.allSeen, rest, (k: nat) => k < |rest| && rest[k].seenWorking)
    && p.unseen <= p.allUnseen && p.seen <= p.allSeen && |p.unseen| + |p.seen| == Min(budget, |rest|)
    && |p.unseen| >= Min(|p.allUnseen|, budget / 2) && |p.seen| >= Min(|p.allSeen|, budget - budget / 2)
  }

  lemma {:induction false} WantedPart(ns: seq<Node>, preferred: seq<string>)
    ensures PartOf(Filter(ns, HintIn(preferred)), ns, (k: nat) => k < |ns| && ns[k].hint in preferred)
  {
    FilterPart(ns, HintIn(preferred));
    hide Filter, PartOf;
    PartSame(Filter(ns, HintIn(preferred)), ns, (k: nat) => k < |ns| && HintIn(preferred)(ns[k]), (k: nat) => k < |ns| && ns[k].hint in preferred);
  }

  lemma {:induction false} LeftPart(ns: seq<Node>, reserved: seq<Node>)
    ensures PartOf(Filter(ns, NotIn(reserved)), ns, (k: nat) => k < |ns| && ns[k] !in reserved)
  {
    FilterPart(ns, NotIn(reserved));
    hide Filter, PartOf;
    PartSame(Filter(ns, NotIn(reserved)), ns, (k: nat) => k < |ns| && NotIn(reserved)(ns[k]), (k: nat) => k < |ns| && ns[k] !in reserved);
  }

  lemma {:induction false} UnseenPart(ns: seq<Node>)
    ensures PartOf(Unknown(ns), ns, (k: nat) => k < |ns| && !ns[k].seenWorking)
  {
    FilterPart(ns, NeverSeen());
    hide Filter, PartOf;
    PartSame(Unknown(ns), ns, (k: nat) => k < |ns| && NeverSeen()(ns[k]), (k: nat) => k < |ns| && !ns[k].seenWorking);
  }

  lemma {:induction false} SeenPart(ns: seq<Node>)
    ensures PartOf(Known(ns), ns, (k: nat) => k < |ns| && ns[k].seenWorking)
  {
    FilterPart(ns, SeenBefore());
    hide Filter, PartOf;
    PartSame(Known(ns), ns, (k: nat) => k < |ns| && SeenBefore()(ns[k]), (k: nat) => k < |ns| && ns[k].seenWorking);
  }

  /** The nodes of one country. */
  lemma {:induction false} CountryPart(ns: seq<Node>, country: string)
    ensures PartOf(Filter(ns, HintIs(country)), ns, (k: nat) => k < |ns| && ns[k].hint == country)
  {
    FilterPart(ns, HintIs(country));
    hide Filter, PartOf;
    PartSame(Filter(ns, HintIs(country)), ns, (k: nat) => k < |ns| && HintIs(country)(ns[k]), (k: nat) => k < |ns| && ns[k].hint == country);
  }

  lemma {:induction false} SourcePart(ns: seq<Node>, source: string)
    ensures PartOf(Filter(ns, SourceIs(source)), ns, (k: nat) => k < |ns| && ns[k].source == source)
  {
    FilterPart(ns, SourceIs(source));
    hide Filter, PartOf;
    PartSame(Filter(ns, SourceIs(source)), ns, (k: nat) => k < |ns| && SourceIs(source)(ns[k]), (k: nat) => k < |ns| && ns[k].source == source);
  }

  lemma {:induction false} ReservedHold(ns: seq<Node>, preferred: seq<string>, most: nat, p: Parts)
    requires p.wanted == Filter(ns, HintIn(preferred)) && p.dealt == Dealt(ns, preferred) && p.reserved == Reserved(ns, preferred, most)
    requires CountriesInTurn(RoundRobin(ByHint(Diversified(p.wanted), preferred)), Diversified(p.wanted), preferred, p.seats)
    ensures ReservedAre(ns, preferred, most, p)
  {
    WantedPart(ns, preferred);
    hide Filter, Diversified, RoundRobin, ByHint, CountriesInTurn, HintIn, PartOf;
  }

  lemma {:induction false} SharesHold(unseen: seq<Node>, seen: seq<Node>, budget: nat)
    ensures var share := UnknownShare(budget, |unseen|, |seen|);
      var a, b := Head(unseen, share), Head(seen, budget - share);
      && a <= unseen && b <= seen && |a| + |b| == Min(budget, |unseen| + |seen|)
      && |a| >= Min(|unseen|, budget / 2) && |b| >= Min(|seen|, budget - budget / 2)
  {
  }

  lemma {:induction false} OthersHold(ns: seq<Node>, budget: nat, p: Parts)
    requires p.left == Filter(ns, NotIn(p.reserved))
    requires var rest := Rest(ns, p.reserved);
      var share := UnknownShare(budget, |Unknown(rest)|, |Known(rest)|);
      && p.allUnseen == Unknown(rest) && p.allSeen == Known(rest)
      && p.unseen == Head(p.allUnseen, share) && p.seen == Head(p.allSeen, budget - share)
    ensures OthersAre(ns, budget, p)
  {
    var rest := Rest(ns, p.reserved);
    assert rest == Diversified(p.left);
    hide Rest, Diversified;
    LeftPart(ns, p.reserved);
    UnseenPart(rest);
    SeenPart(rest);
    FilterSplit(rest);
    SharesHold(p.allUnseen, p.allSeen, budget);
    hide Unknown, Known, Filter, PartOf, Head, UnknownShare, NotIn;
  }

  lemma {:induction false} PickedParts(ns: seq<Node>, preferred: seq<string>, mostReserved: nat, mostTested: nat, seats: seq<Seat>) returns (p: Parts)
    ensures p.dealt == Dealt(ns, preferred) && p.seats == seats && p.reserved == Reserved(ns, preferred, mostReserved)
    ensures p.wanted == Filter(ns, HintIn(preferred)) && p.left == Filter(ns, NotIn(p.reserved))
    ensures var budget := if mostTested > |p.reserved| then mostTested - |p.reserved| else 0;
      var rest := Rest(ns, p.reserved);
      var share := UnknownShare(budget, |Unknown(rest)|, |Known(rest)|);
      && p.allUnseen == Unknown(rest) && p.allSeen == Known(rest)
      && p.unseen == Head(p.allUnseen, share) && p.seen == Head(p.allSeen, budget - share)
    ensures Picked(ns, preferred, mostReserved, mostTested) == p.reserved + p.unseen + p.seen
  {
    hide Dealt, Reserved, Rest, Unknown, Known, Head, Filter, HintIn, NotIn;
    var reserved := Reserved(ns, preferred, mostReserved);
    var budget: nat := if mostTested > |reserved| then mostTested - |reserved| else 0;
    var rest := Rest(ns, reserved);
    var unseen, seen := Unknown(rest), Known(rest);
    var share := UnknownShare(budget, |unseen|, |seen|);
    p := Parts(Filter(ns, HintIn(preferred)), Dealt(ns, preferred), seats, reserved,
      Filter(ns, NotIn(reserved)), unseen, seen, Head(unseen, share), Head(seen, budget - share));
  }

  /** The test list, whole. */
  lemma {:induction false} PlanExact(ns: seq<Node>, preferred: seq<string>, mostReserved: nat, mostTested: nat) returns (p: Parts)
    ensures Picked(ns, preferred, mostReserved, mostTested) == p.reserved + p.unseen + p.seen
    ensures ReservedAre(ns, preferred, mostReserved, p)
    ensures OthersAre(ns, if mostTested > |p.reserved| then mostTested - |p.reserved| else 0, p)
  {
    hide *;
    var seats := TurnsOfCountries(Diversified(Filter(ns, HintIn(preferred))), preferred);
    p := PickedParts(ns, preferred, mostReserved, mostTested, seats);
    ReservedHold(ns, preferred, mostReserved, p);
    OthersHold(ns, if mostTested > |p.reserved| then mostTested - |p.reserved| else 0, p);
  }
}

/** Filling the test budget and weeding out what sing-box rejects (scanner.py, pick_candidates and _valid_subset). */
module TestPlan {
  import opened Bytes
  import opened Scanner

  function Filter(ns: seq<Node>, keep: Node -> bool): seq<Node> {
    if ns == [] then [] else if keep(ns[0]) then [ns[0]] + Filter(ns[1..], keep) else Filter(ns[1..], keep)
  }

  function HintIs(country: string): Node -> bool {
    (n: Node) => n.hint == country
  }

  function HintIn(countries: seq<string>): Node -> bool {
    (n: Node) => n.hint in countries
  }

  function NotIn(reserved: seq<Node>): Node -> bool {
    (n: Node) => n !in reserved
  }

  function NeverSeen(): Node -> bool {
    (n: Node) => !n.seenWorking
  }

  function SeenBefore(): Node -> bool {
    (n: Node) => n.seenWorking
  }

  function Head(ns: seq<Node>, n: nat): seq<Node> {
    ns[..Min(n, |ns|)]
  }

  /** One queue per preferred country, in order of preference; a country nobody has gets an empty one. */
  function ByHint(ns: seq<Node>, countries: seq<string>): seq<Queue> {
    if countries == [] then []
    else [Queue(countries[0], Filter(ns, HintIs(countries[0])))] + ByHint(ns, countries[1..])
  }

  function Preferred(ns: seq<Node>, preferred: seq<string>): seq<Node> {
    Diversified(Filter(ns, HintIn(preferred)))
  }

  function Dealt(ns: seq<Node>, preferred: seq<string>): seq<Node> {
    RoundRobin(ByHint(Preferred(ns, preferred), preferred))
  }

  function Reserved(ns: seq<Node>, preferred: seq<string>, most: nat): seq<Node> {
    Head(Dealt(ns, preferred), most)
  }

  function Rest(ns: seq<Node>, reserved: seq<Node>): seq<Node> {
    Diversified(Filter(ns, NotIn(reserved)))
  }

  function Unknown(ns: seq<Node>): seq<Node> {
    Filter(ns, NeverSeen())
  }

  function Known(ns: seq<Node>): seq<Node> {
    Filter(ns, SeenBefore())
  }

  /** Never-seen nodes get half the budget, and whatever the known ones leave of the other half. */
  function UnknownShare(budget: nat, unknown: nat, known: nat): nat {
    Min(unknown, if known > budget - budget / 2 then budget / 2 else budget - known)
  }

  function Picked(ns: seq<Node>, preferred: seq<string>, mostReserved: nat, mostTested: nat): seq<Node> {
    var reserved := Reserved(ns, preferred, mostReserved);
    var budget := if mostTested > |reserved| then mostTested - |reserved| else 0;
    var rest := Rest(ns, reserved);
    var share := UnknownShare(budget, |Unknown(rest)|, |Known(rest)|);
    reserved + Head(Unknown(rest), share) + Head(Known(rest), budget - share)
  }

  /** No node twice. */
  ghost predicate Distinct(ns: seq<Node>) {
    forall n :: multiset(ns)[n] <= 1
  }

  /** No country listed twice is the hint of a preferred node that is dealt. */
  ghost predicate NoneRepeated(ns: seq<Node>, preferred: seq<string>) {
    forall n :: n in Preferred(ns, preferred) ==> multiset(preferred)[n.hint] <= 1
  }

  lemma {:induction false} FilterBag(ns: seq<Node>, keep: Node -> bool, n: Node)
    ensures multiset(Filter(ns, keep))[n] == if keep(n) then multiset(ns)[n] else 0
  {
    if ns != [] {
      FilterBag(ns[1..], keep, n);
      assert ns == [ns[0]] + ns[1..];
    }
  }

  lemma {:induction false} FilterSplit(ns: seq<Node>)
    ensures |Unknown(ns)| + |Known(ns)| == |ns|
  {
    if ns != [] {
      FilterSplit(ns[1..]);
    }
  }

  lemma {:induction false} ByHintStep(ns: seq<Node>, cs: seq<string>, n: Node)
    requires cs != []
    ensures Bag(ByHint(ns, cs))[n] == (if cs[0] == n.hint then multiset(ns)[n] else 0) + Bag(ByHint(ns, cs[1..]))[n]
  {
    FilterBag(ns, HintIs(cs[0]), n);
    hide Filter;
    assert ByHint(ns, cs)[1..] == ByHint(ns, cs[1..]);
  }

  lemma {:induction false} ListedStep(cs: seq<string>, c: string)
    requires cs != []
    ensures multiset(cs)[c] == (if cs[0] == c then 1 else 0) + multiset(cs[1..])[c]
  {
    assert cs == [cs[0]] + cs[1..];
  }

  lemma {:induction false} OneMoreTime(k: nat, m: nat)
    ensures (1 + k) * m == m + k * m
  {
  }

  /** A node is queued once for every time its country is listed. */
  lemma {:induction false} ByHintBag(ns: seq<Node>, cs: seq<string>, n: Node)
    ensures Bag(ByHint(ns, cs))[n] == multiset(cs)[n.hint] * multiset(ns)[n]
    decreases |cs|
  {
    if cs == [] {
      assert Bag(ByHint(ns, cs)) == multiset{};
    } else {
      hide *;
      ByHintStep(ns, cs, n);
      ListedStep(cs, n.hint);
      ByHintBag(ns, cs[1..], n);
      OneMoreTime(multiset(cs[1..])[n.hint], multiset(ns)[n]);
    }
  }

  lemma {:induction false} DealtBag(ns: seq<Node>, preferred: seq<string>, n: Node)
    ensures multiset(Dealt(ns, preferred))[n] == multiset(preferred)[n.hint] * multiset(Preferred(ns, preferred))[n]
    ensures multiset(Preferred(ns, preferred))[n] <= multiset(ns)[n]
    ensures n in Preferred(ns, preferred) ==> n.hint in preferred
  {
    var d, wanted := Preferred(ns, preferred), Filter(ns, HintIn(preferred));
    ByHintBag(d, preferred, n);
    RoundRobinBag(ByHint(d, preferred));
    DiversifiedWithin(wanted, n);
    FilterBag(ns, HintIn(preferred), n);
    hide Filter, ByHint, RoundRobin, Diversified;
    assert n in d <==> multiset(d)[n] > 0;
  }

  lemma {:induction false} DiversifiedWithin(ns: seq<Node>, n: Node)
    ensures multiset(Diversified(ns))[n] <= multiset(ns)[n]
  {
    DiversifyKeeps(ns, "");
    CappedWithin(ns);
  }

  lemma {:induction false} HeadWithin(ns: seq<Node>, k: nat, n: Node)
    ensures multiset(Head(ns, k))[n] <= multiset(ns)[n]
  {
    var m := Min(k, |ns|);
    assert ns == ns[..m] + ns[m..];
  }

  lemma {:induction false} ReservedWithin(ns: seq<Node>, preferred: seq<string>, most: nat, n: Node)
    requires NoneRepeated(ns, preferred)
    ensures multiset(Reserved(ns, preferred, most))[n] <= multiset(ns)[n]
  {
    DealtBag(ns, preferred, n);
    HeadWithin(Dealt(ns, preferred), most, n);
    hide Dealt, Preferred, Head;
    var m := multiset(Preferred(ns, preferred))[n];
    if m > 0 {
      assert n in multiset(Preferred(ns, preferred));
      assert multiset(preferred)[n.hint] <= 1;
    }
    AtMostOnce(multiset(preferred)[n.hint], m);
  }

  lemma {:induction false} AtMostOnce(k: nat, m: nat)
    requires m > 0 ==> k <= 1
    ensures k * m <= m
  {
  }

  lemma {:induction false} RestOutside(ns: seq<Node>, reserved: seq<Node>, n: Node)
    ensures multiset(Rest(ns, reserved))[n] <= if n in reserved then 0 else multiset(ns)[n]
  {
    FilterBag(ns, NotIn(reserved), n);
    DiversifiedWithin(Filter(ns, NotIn(reserved)), n);
  }

  /** The test list, for distinct nodes and a preferred list that repeats none of their countries: as many as the budget and the
      supply allow, and no node twice. */
  lemma {:induction false} PlanFillsBudget(ns: seq<Node>, preferred: seq<string>, mostReserved: nat, mostTested: nat)
    requires Distinct(ns) && NoneRepeated(ns, preferred)
    ensures var reserved := Reserved(ns, preferred, mostReserved);
      var budget := if mostTested > |reserved| then mostTested - |reserved| else 0;
      var rest, picked := Rest(ns, reserved), Picked(ns, preferred, mostReserved, mostTested);
      && Distinct(picked) && (forall n :: n in picked ==> n in ns)
      && |picked| == |reserved| + Min(budget, |rest|)
  {
    hide Reserved, Rest, Filter;
    var reserved := Reserved(ns, preferred, mostReserved);
    var budget := if mostTested > |reserved| then mostTested - |reserved| else 0;
    var rest, picked := Rest(ns, reserved), Picked(ns, preferred, mostReserved, mostTested);
    FilterSplit(rest);
    forall n ensures multiset(picked)[n] <= multiset(ns)[n] {
      PickedOnce(ns, preferred, mostReserved, UnknownShare(budget, |Unknown(rest)|, |Known(rest)|), budget, n);
    }
    forall n | n in picked ensures n in ns {
      assert multiset(picked)[n] > 0;
      assert n in multiset(ns);
    }
  }

  /** The preferred nodes lead, and after them at least half of the budget goes to nodes never seen working,
      or all of those there are. */
  lemma {:induction false} UnseenGetHalf(ns: seq<Node>, preferred: seq<string>, mostReserved: nat, mostTested: nat)
    ensures var reserved := Reserved(ns, preferred, mostReserved);
      var budget := if mostTested > |reserved| then mostTested - |reserved| else 0;
      var rest, picked := Rest(ns, reserved), Picked(ns, preferred, mostReserved, mostTested);
      && reserved <= picked && (forall n :: n in reserved ==> n.hint in preferred)
      && |Unknown(picked[|reserved|..])| >= Min(|Unknown(rest)|, budget / 2)
  {
    hide Reserved, Rest, Filter;
    var reserved := Reserved(ns, preferred, mostReserved);
    var budget := if mostTested > |reserved| then mostTested - |reserved| else 0;
    var rest, picked := Rest(ns, reserved), Picked(ns, preferred, mostReserved, mostTested);
    var share := UnknownShare(budget, |Unknown(rest)|, |Known(rest)|);
    assert picked[|reserved|..] == Head(Unknown(rest), share) + Head(Known(rest), budget - share);
    UnseenFirst(rest, share, budget - share);
    forall n | n in reserved ensures n.hint in preferred {
      ReservedHint(ns, preferred, mostReserved, n);
    }
  }

  lemma {:induction false} UnseenFirst(rest: seq<Node>, k: nat, l: nat)
    ensures Unknown(Head(Unknown(rest), k) + Head(Known(rest), l)) == Head(Unknown(rest), k)
  {
    var a, b := Head(Unknown(rest), k), Head(Known(rest), l);
    forall n | n in a ensures !n.seenWorking {
      FilterBag(rest, NeverSeen(), n);
      assert n in multiset(Unknown(rest));
    }
    forall n | n in b ensures n.seenWorking {
      FilterBag(rest, SeenBefore(), n);
      assert n in multiset(Known(rest));
    }
    FilterAppend(a, b, NeverSeen());
    FilterAll(a, NeverSeen());
    FilterNone(b, NeverSeen());
  }

  lemma {:induction false} FilterNone(ns: seq<Node>, keep: Node -> bool)
    requires forall n :: n in ns ==> !keep(n)
    ensures Filter(ns, keep) == []
  {
    if ns != [] {
      FilterNone(ns[1..], keep);
    }
  }

  lemma {:induction false} ReservedHint(ns: seq<Node>, preferred: seq<string>, most: nat, n: Node)
    requires n in Reserved(ns, preferred, most)
    ensures n.hint in preferred
  {
    DealtBag(ns, preferred, n);
    HeadWithin(Dealt(ns, preferred), most, n);
    assert n in multiset(Reserved(ns, preferred, most));
    hide Dealt, Preferred, Head;
  }

  /** With none of their countries listed twice, as many nodes are reserved as there are preferred ones after
      diversifying, up to the limit. */
  lemma {:induction false} ReservedFills(ns: seq<Node>, preferred: seq<string>, most: nat)
    requires NoneRepeated(ns, preferred)
    ensures |Reserved(ns, preferred, most)| == Min(most, |Preferred(ns, preferred)|)
  {
    hide *;
    var d, dealt := Preferred(ns, preferred), Dealt(ns, preferred);
    forall n ensures multiset(dealt)[n] == multiset(d)[n] {
      DealtOnce(ns, preferred, n);
    }
    SameLength(dealt, d);
    HeadLength(ns, preferred, most);
  }

  lemma {:induction false} HeadLength(ns: seq<Node>, preferred: seq<string>, most: nat)
    ensures |Reserved(ns, preferred, most)| == Min(most, |Dealt(ns, preferred)|)
  {
    hide Dealt;
  }

  lemma {:induction false} SameLength(a: seq<Node>, b: seq<Node>)
    requires forall n :: multiset(a)[n] == multiset(b)[n]
    ensures |a| == |b|
  {
    assert multiset(a) == multiset(b);
    assert |multiset(a)| == |multiset(b)|;
  }

  lemma {:induction false} DealtOnce(ns: seq<Node>, preferred: seq<string>, n: Node)
    requires NoneRepeated(ns, preferred)
    ensures multiset(Dealt(ns, preferred))[n] == multiset(Preferred(ns, preferred))[n]
  {
    DealtBag(ns, preferred, n);
    hide Dealt, Preferred;
    var d := Preferred(ns, preferred);
    if n in d {
      assert n.hint in multiset(preferred);
      OnceEach(multiset(preferred)[n.hint], multiset(d)[n]);
    } else {
      assert n !in multiset(d);
    }
  }

  lemma {:induction false} OnceEach(k: nat, m: nat)
    requires k == 1
    ensures k * m == m
  {
  }

  lemma {:induction false} PickedOnce(ns: seq<Node>, preferred: seq<string>, mostReserved: nat, share: nat, budget: nat, n: Node)
    requires NoneRepeated(ns, preferred) && share <= budget
    ensures var reserved := Reserved(ns, preferred, mostReserved);
      var rest := Rest(ns, reserved);
      multiset(reserved + Head(Unknown(rest), share) + Head(Known(rest), budget - share))[n] <= multiset(ns)[n]
  {
    hide *;
    var reserved := Reserved(ns, preferred, mostReserved);
    var rest := Rest(ns, reserved);
    ReservedWithin(ns, preferred, mostReserved, n);
    RestOutside(ns, reserved, n);
    HalvesBag(rest, n);
    HeadWithin(Unknown(rest), share, n);
    HeadWithin(Known(rest), budget - share, n);
    BagAppend(reserved, Head(Unknown(rest), share));
    BagAppend(reserved + Head(Unknown(rest), share), Head(Known(rest), budget - share));
    assert n in reserved <==> n in multiset(reserved);
  }

  lemma {:induction false} HalvesBag(ns: seq<Node>, n: Node)
    ensures multiset(Unknown(ns))[n] + multiset(Known(ns))[n] == multiset(ns)[n]
  {
    FilterBag(ns, NeverSeen(), n);
    FilterBag(ns, SeenBefore(), n);
    hide Filter;
  }

  lemma {:induction false} FilterOne(n: Node, keep: Node -> bool)
    ensures Filter([n], keep) == if keep(n) then [n] else []
  {
    assert [n][1..] == [];
  }

  lemma {:induction false} DiversifiedOne(n: Node)
    ensures Diversified([n]) == [n]
  {
    var qs := [Queue(n.source, [n])];
    assert [n][..0] == [] && Capped([]) == [] && OnServer([], n.server) == 0;
    assert Capped([n]) == [n];
    assert BySource([n]) == qs;
    OneRow(qs, [n]);
  }

  /** Queues of one node each are dealt in a single row. */
  lemma {:induction false} OneRow(qs: seq<Queue>, row: seq<Node>)
    requires Longest(qs) == 1 && Row(qs, 0) == row
    ensures RoundRobin(qs) == row
  {
    assert Rows(qs, 0) == [];
    assert Rows(qs, 1) == [] + row;
  }

  /** For distinct nodes and a limit that cuts none of the preferred ones off, no node is tested twice if and only if no
      country listed twice is the hint of a node that is dealt. */
  lemma {:induction false} TestedTwice(ns: seq<Node>, preferred: seq<string>, mostReserved: nat, mostTested: nat)
    requires Distinct(ns) && |Dealt(ns, preferred)| <= mostReserved
    ensures Distinct(Picked(ns, preferred, mostReserved, mostTested)) <==> NoneRepeated(ns, preferred)
  {
    if NoneRepeated(ns, preferred) {
      PlanFillsBudget(ns, preferred, mostReserved, mostTested);
    } else {
      var n :| n in Preferred(ns, preferred) && multiset(preferred)[n.hint] > 1;
      hide *;
      DealtBag(ns, preferred, n);
      assert n in multiset(Preferred(ns, preferred));
      AtLeastTwice(multiset(preferred)[n.hint], multiset(Preferred(ns, preferred))[n]);
      UncutReserved(ns, preferred, mostReserved, mostTested);
      PrefixBag(Dealt(ns, preferred), Picked(ns, preferred, mostReserved, mostTested), n);
      NotDistinct(Picked(ns, preferred, mostReserved, mostTested), n);
    }
  }

  lemma {:induction false} PrefixBag(a: seq<Node>, b: seq<Node>, n: Node)
    requires a <= b
    ensures multiset(a)[n] <= multiset(b)[n]
  {
    assert b == a + b[|a|..];
  }

  lemma {:induction false} NotDistinct(ns: seq<Node>, n: Node)
    requires multiset(ns)[n] > 1
    ensures !Distinct(ns)
  {
  }

  lemma {:induction false} AtLeastTwice(k: nat, m: nat)
    requires k > 1 && m > 0
    ensures k * m > 1
  {
  }

  lemma {:induction false} UncutReserved(ns: seq<Node>, preferred: seq<string>, mostReserved: nat, mostTested: nat)
    requires |Dealt(ns, preferred)| <= mostReserved
    ensures Dealt(ns, preferred) <= Picked(ns, preferred, mostReserved, mostTested)
  {
    hide Dealt, Rest, Unknown, Known;
    assert Reserved(ns, preferred, mostReserved) == Dealt(ns, preferred);
  }

  /** A node whose country is listed twice is the whole test list twice over. */
  lemma {:induction false} RepeatedCountry(n: Node, mostTested: nat)
    ensures Picked([n], [n.hint, n.hint], 2, mostTested) == [n, n]
  {
    TwiceReserved(n);
    FilterOne(n, NotIn([n, n]));
    NothingToDeal();
    hide Reserved, Filter, Diversified;
    assert Rest([n], [n, n]) == [];
    NothingToFilter(NeverSeen());
    NothingToFilter(SeenBefore());
    assert [n, n] + [] + [] == [n, n];
  }

  lemma {:induction false} NothingToFilter(keep: Node -> bool)
    ensures Filter([], keep) == []
  {
  }

  lemma {:induction false} NothingToDeal()
    ensures Diversified([]) == []
  {
    assert Capped([]) == [] && BySource([]) == [];
    assert Longest([]) == 0 && Rows([], 0) == [];
  }

  lemma {:induction false} TwiceReserved(n: Node)
    ensures Reserved([n], [n.hint, n.hint], 2) == [n, n]
  {
    var cs, q := [n.hint, n.hint], Queue(n.hint, [n]);
    FilterOne(n, HintIn(cs));
    DiversifiedOne(n);
    ByHintTwice(n);
    TwoQueues(n, q);
    hide Filter, Diversified, RoundRobin, ByHint;
    assert Head([n, n], 2) == [n, n];
  }

  lemma {:induction false} TwoQueues(n: Node, q: Queue)
    requires q.nodes == [n]
    ensures RoundRobin([q, q]) == [n, n]
  {
    assert [q, q][1..] == [q] && [q][1..] == [];
    assert Row([], 0) == [] && [n] + [] == [n] && [n] + [n] == [n, n];
    assert Row([q], 0) == [n];
    assert Row([q, q], 0) == [n, n];
    assert Longest([q]) == 1 && Longest([q, q]) == 1;
    OneRow([q, q], [n, n]);
  }

  lemma {:induction false} ByHintTwice(n: Node)
    ensures ByHint([n], [n.hint, n.hint]) == [Queue(n.hint, [n]), Queue(n.hint, [n])]
  {
    var cs := [n.hint, n.hint];
    FilterOne(n, HintIs(n.hint));
    assert cs[1..] == [n.hint] && [n.hint][1..] == [];
    assert ByHint([n], []) == [];
    assert ByHint([n], [n.hint]) == [Queue(n.hint, [n])] + [];
    assert ByHint([n], cs) == [Queue(n.hint, [n])] + ByHint([n], [n.hint]);
  }

  /* ---- _valid_subset ---- */

  /** What a config check says of a batch: fine, or rejected, perhaps naming an outbound by number. */
  datatype Verdict = Accepted | Rejected(index: Option<nat>)

  /** A check that looks at each node on its own, and blames only nodes that are at fault. */
  ghost predicate PerNode(check: seq<Node> -> Verdict, good: Node -> bool) {
    && (forall b :: check(b).Accepted? <==> forall n :: n in b ==> good(n))
    && (forall b :: check(b).Rejected? && check(b).index.Some? && check(b).index.value < |b| ==> !good(b[check(b).index.value]))
  }

  lemma {:induction false} FilterAppend(a: seq<Node>, b: seq<Node>, keep: Node -> bool)
    ensures Filter(a + b, keep) == Filter(a, keep) + Filter(b, keep)
  {
    if a == [] {
      assert a + b == b;
    } else {
      assert (a + b)[1..] == a[1..] + b;
      FilterAppend(a[1..], b, keep);
    }
  }

  method Select(ns: seq<Node>, keep: Node -> bool) returns (kept: seq<Node>)
    ensures kept == Filter(ns, keep)
  {
    kept := [];
    for i := 0 to |ns|
      invariant kept == Filter(ns[..i], keep)
    {
      FilterAppend(ns[..i], [ns[i]], keep);
      assert ns[..i + 1] == ns[..i] + [ns[i]];
      if keep(ns[i]) {
        kept := kept + [ns[i]];
      }
    }
    assert ns[..|ns|] == ns;
  }

  /** The default dictionary of lists: what a key holds, nothing when it is absent. */
  function ListAt(lists: map<string, seq<Node>>, key: string): seq<Node> {
    if key in lists then lists[key] else []
  }

  method GroupByHint(ns: seq<Node>, countries: seq<string>) returns (queues: seq<Queue>)
    ensures queues == ByHint(ns, countries)
  {
    var lists: map<string, seq<Node>> := map[];
    for i := 0 to |ns|
      invariant forall c :: ListAt(lists, c) == Filter(ns[..i], HintIs(c))
    {
      var n := ns[i];
      forall c ensures Filter(ns[..i + 1], HintIs(c)) == Filter(ns[..i], HintIs(c)) + if n.hint == c then [n] else [] {
        FilterAppend(ns[..i], [n], HintIs(c));
        assert ns[..i + 1] == ns[..i] + [n];
      }
      lists := lists[n.hint := ListAt(lists, n.hint) + [n]];
    }
    assert ns[..|ns|] == ns;
    queues := [];
    for k := |countries| downto 0
      invariant queues == ByHint(ns, countries[k..])
    {
      queues := [Queue(countries[k], ListAt(lists, countries[k]))] + queues;
    }
  }

  /** The test list as the script builds it. */
  method PickCandidates(ns: seq<Node>, preferred: seq<string>, mostReserved: nat, mostTested: nat) returns (picked: seq<Node>)
    ensures picked == Picked(ns, preferred, mostReserved, mostTested)
  {
    hide Filter, ByHint, RoundRobin, Diversified;
    var hinted := Select(ns, HintIn(preferred));
    var pref := Diversify(hinted);
    var queues := GroupByHint(pref, preferred);
    var dealt := Deal(queues);
    var reserved := Head(dealt, mostReserved);
    var budget := if mostTested > |reserved| then mostTested - |reserved| else 0;
    var left := Select(ns, NotIn(reserved));
    var rest := Diversify(left);
    var unknown := Select(rest, NeverSeen());
    var known := Select(rest, SeenBefore());
    var share := UnknownShare(budget, |unknown|, |known|);
    picked := reserved + Head(unknown, share) + Head(known, budget - share);
  }

  lemma {:induction false} FilterAll(ns: seq<Node>, keep: Node -> bool)
    requires forall n :: n in ns ==> keep(n)
    ensures Filter(ns, keep) == ns
  {
    if ns != [] {
      assert ns[0] in ns && forall n :: n in ns[1..] ==> n in ns;
      FilterAll(ns[1..], keep);
      assert ns == [ns[0]] + ns[1..];
    }
  }

  lemma {:induction false} FilterWithout(ns: seq<Node>, k: nat, keep: Node -> bool)
    requires k < |ns| && !keep(ns[k])
    ensures Filter(ns[..k] + ns[k + 1..], keep) == Filter(ns, keep)
  {
    assert ns == ns[..k] + ([ns[k]] + ns[k + 1..]);
    FilterAppend(ns[..k], [ns[k]] + ns[k + 1..], keep);
    FilterAppend(ns[..k], ns[k + 1..], keep);
    assert ([ns[k]] + ns[k + 1..])[1..] == ns[k + 1..];
  }

  lemma {:induction false} AcceptedAll(check: seq<Node> -> Verdict, good: Node -> bool, ns: seq<Node>)
    requires PerNode(check, good) && check(ns).Accepted?
    ensures Filter(ns, good) == ns
  {
    FilterAll(ns, good);
  }

  lemma {:induction false} BlamedOut(check: seq<Node> -> Verdict, good: Node -> bool, ns: seq<Node>)
    requires PerNode(check, good) && check(ns).Rejected? && check(ns).index.Some? && check(ns).index.value < |ns|
    ensures var k := check(ns).index.value; Filter(ns[..k] + ns[k + 1..], good) == Filter(ns, good)
  {
    FilterWithout(ns, check(ns).index.value, good);
  }

  lemma {:induction false} RejectedOne(check: seq<Node> -> Verdict, good: Node -> bool, n: Node)
    requires PerNode(check, good) && check([n]).Rejected?
    ensures Filter([n], good) == []
  {
    FilterOne(n, good);
  }

  lemma {:induction false} Halves(ns: seq<Node>, mid: nat, keep: Node -> bool)
    requires mid <= |ns|
    ensures Filter(ns[..mid], keep) + Filter(ns[mid..], keep) == Filter(ns, keep)
  {
    FilterAppend(ns[..mid], ns[mid..], keep);
    assert ns[..mid] + ns[mid..] == ns;
  }

  /** What is left of a list when some of its nodes are dropped. */
  predicate Sublist(a: seq<Node>, b: seq<Node>) {
    if a == [] then true
    else if b == [] then false
    else if a[0] == b[0] && Sublist(a[1..], b[1..]) then true
    else Sublist(a, b[1..])
  }

  lemma {:induction false} SublistSelf(a: seq<Node>)
    ensures Sublist(a, a)
  {
    if a != [] {
      SublistSelf(a[1..]);
    }
  }

  lemma {:induction false} SublistWider(a: seq<Node>, b: seq<Node>, n: Node)
    requires Sublist(a, b)
    ensures Sublist(a, [n] + b)
  {
    assert ([n] + b)[1..] == b;
  }

  lemma {:induction false} SublistTrans(a: seq<Node>, b: seq<Node>, c: seq<Node>)
    requires Sublist(a, b) && Sublist(b, c)
    ensures Sublist(a, c)
    decreases |b| + |c|
  {
    if a != [] {
      if b[0] == c[0] && Sublist(b[1..], c[1..]) {
        if a[0] == b[0] && Sublist(a[1..], b[1..]) {
          SublistTrans(a[1..], b[1..], c[1..]);
        } else {
          SublistTrans(a, b[1..], c[1..]);
        }
      } else {
        SublistTrans(a, b, c[1..]);
      }
    }
  }

  lemma {:induction false} SublistJoin(a: seq<Node>, b: seq<Node>, c: seq<Node>, d: seq<Node>)
    requires Sublist(a, b) && Sublist(c, d)
    ensures Sublist(a + c, b + d)
    decreases |b|
  {
    if b == [] {
      assert a + c == c && b + d == d;
    } else {
      assert (b + d)[1..] == b[1..] + d;
      if a != [] && a[0] == b[0] && Sublist(a[1..], b[1..]) {
        SublistJoin(a[1..], b[1..], c, d);
        assert (a + c)[1..] == a[1..] + c;
      } else {
        SublistJoin(a, b[1..], c, d);
      }
    }
  }

  lemma {:induction false} SublistDrop(ns: seq<Node>, k: nat)
    requires k < |ns|
    ensures Sublist(ns[..k] + ns[k + 1..], ns)
  {
    SublistSelf(ns[..k]);
    SublistSelf(ns[k + 1..]);
    SublistWider(ns[k + 1..], ns[k + 1..], ns[k]);
    SublistJoin(ns[..k], ns[..k], ns[k + 1..], [ns[k]] + ns[k + 1..]);
    assert ns[..k] + ([ns[k]] + ns[k + 1..]) == ns;
  }

  /** Parts of a batch that the check accepted, and their join. */
  ghost predicate Accepts(check: seq<Node> -> Verdict, parts: seq<seq<Node>>, kept: seq<Node>) {
    Concat(parts) == kept && forall i :: 0 <= i < |parts| ==> check(parts[i]).Accepted?
  }

  lemma {:induction false} AcceptsJoin(check: seq<Node> -> Verdict, a: seq<seq<Node>>, b: seq<seq<Node>>, low: seq<Node>, high: seq<Node>)
    requires Accepts(check, a, low) && Accepts(check, b, high)
    ensures Accepts(check, a + b, low + high)
  {
    ConcatAppend(a, b);
    hide Concat;
  }

  lemma {:induction false} AcceptsOne(check: seq<Node> -> Verdict, part: seq<Node>)
    requires check(part).Accepted?
    ensures Accepts(check, [part], part)
  {
    assert [part][1..] == [] && part + [] == part;
  }

  /** For any check: what is kept is the batch less some nodes, in parts each of which the check accepted. For one that
      judges nodes one by one and blames only faulty ones, exactly the good nodes are kept, in order. */
  method ValidSubset(batch: seq<Node>, check: seq<Node> -> Verdict, ghost good: Node -> bool)
    returns (kept: seq<Node>, ghost parts: seq<seq<Node>>)
    ensures Sublist(kept, batch) && Accepts(check, parts, kept)
    ensures PerNode(check, good) ==> kept == Filter(batch, good)
    decreases |batch|
  {
    NothingToFilter(good);
    SublistSelf(batch);
    assert Accepts(check, [], []);
    hide Filter, PerNode, Sublist, Accepts;
    var left := batch;
    while left != []
      invariant |left| <= |batch| && Sublist(left, batch)
      invariant PerNode(check, good) ==> Filter(left, good) == Filter(batch, good)
      decreases |left|
    {
      var verdict := check(left);
      if verdict.Accepted? {
        if PerNode(check, good) {
          AcceptedAll(check, good, left);
        }
        AcceptsOne(check, left);
        return left, [left];
      }
      if verdict.index.Some? && verdict.index.value < |left| {
        if PerNode(check, good) {
          BlamedOut(check, good, left);
        }
        SublistDrop(left, verdict.index.value);
        SublistTrans(left[..verdict.index.value] + left[verdict.index.value + 1..], left, batch);
        left := left[..verdict.index.value] + left[verdict.index.value + 1..];
        continue;
      }
      if |left| == 1 {
        assert left == [left[0]];
        if PerNode(check, good) {
          RejectedOne(check, good, left[0]);
        }
        SublistNone(batch);
        return [], [];
      }
      var mid := |left| / 2;
      ghost var lowParts, highParts;
      var low, high;
      low, lowParts := ValidSubset(left[..mid], check, good);
      high, highParts := ValidSubset(left[mid..], check, good);
      Halves(left, mid, good);
      SublistJoin(low, left[..mid], high, left[mid..]);
      assert left[..mid] + left[mid..] == left;
      SublistTrans(low + high, left, batch);
      AcceptsJoin(check, lowParts, highParts, low, high);
      return low + high, lowParts + highParts;
    }
    return [], [];
  }

  lemma {:induction false} SublistNone(b: seq<Node>)
    ensures Sublist([], b)
  {
  }
}

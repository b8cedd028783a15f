/** Choosing what the aggregator tests (scanner.py): a capped round robin over sources, and the split of the test budget. */
module Scanner {
  import opened Bytes

  const MAX_PER_SERVER: nat := 3

  /** Nodes are objects in the source; `id` is that identity. */
  datatype Node = Node(id: nat, server: string, source: string, hint: string, seenWorking: bool)

  /* ---- diversify ---- */

  function OnServer(ns: seq<Node>, server: string): nat {
    if ns == [] then 0 else OnServer(ns[..|ns| - 1], server) + (if ns[|ns| - 1].server == server then 1 else 0)
  }

  /** The nodes that pass the cap on their server, in order. */
  function Capped(ns: seq<Node>): seq<Node> {
    if ns == [] then []
    else
      var front, n := Capped(ns[..|ns| - 1]), ns[|ns| - 1];
      if OnServer(front, n.server) < MAX_PER_SERVER then front + [n] else front
  }

  /** A dictionary of lists: queues in the order their keys first appeared. */
  datatype Queue = Queue(key: string, nodes: seq<Node>)

  function Appended(qs: seq<Queue>, key: string, n: Node): seq<Queue> {
    if qs == [] then [Queue(key, [n])]
    else if qs[0].key == key then [Queue(key, qs[0].nodes + [n])] + qs[1..]
    else [qs[0]] + Appended(qs[1..], key, n)
  }

  function BySource(ns: seq<Node>): seq<Queue> {
    if ns == [] then [] else Appended(BySource(ns[..|ns| - 1]), ns[|ns| - 1].source, ns[|ns| - 1])
  }

  /** The i-th of every queue that has one. */
  function Row(qs: seq<Queue>, i: nat): seq<Node> {
    if qs == [] then [] else (if i < |qs[0].nodes| then [qs[0].nodes[i]] else []) + Row(qs[1..], i)
  }

  function Rows(qs: seq<Queue>, n: nat): seq<Node> {
    if n == 0 then [] else Rows(qs, n - 1) + Row(qs, n - 1)
  }

  function Longest(qs: seq<Queue>): nat {
    if qs == [] then 0 else Max(|qs[0].nodes|, Longest(qs[1..]))
  }

  function Max(a: nat, b: nat): nat {
    if a >= b then a else b
  }

  function RoundRobin(qs: seq<Queue>): seq<Node> {
    Rows(qs, Longest(qs))
  }

  function Diversified(ns: seq<Node>): seq<Node> {
    RoundRobin(BySource(Capped(ns)))
  }

  method Group(ns: seq<Node>) returns (queues: seq<Queue>)
    ensures queues == BySource(Capped(ns))
  {
    var perServer: map<string, nat> := map[];
    queues := [];
    for i := 0 to |ns|
      invariant queues == BySource(Capped(ns[..i]))
      invariant Counts(perServer, Capped(ns[..i]))
    {
      var n := ns[i];
      assert ns[..i + 1][..i] == ns[..i];
      ghost var kept := Capped(ns[..i]);
      assert (kept + [n])[..|kept|] == kept;
      var count := if n.server in perServer then perServer[n.server] else 0;
      assert count == OnServer(kept, n.server);
      if count < MAX_PER_SERVER {
        CountsStep(perServer, kept, n);
        perServer := perServer[n.server := count + 1];
        queues := Appended(queues, n.source, n);
      }
    }
    assert ns[..|ns|] == ns;
  }

  ghost predicate Counts(perServer: map<string, nat>, kept: seq<Node>) {
    forall server :: OnServer(kept, server) == if server in perServer then perServer[server] else 0
  }

  lemma {:induction false} CountsStep(perServer: map<string, nat>, kept: seq<Node>, n: Node)
    requires Counts(perServer, kept)
    ensures Counts(perServer[n.server := OnServer(kept, n.server) + 1], kept + [n])
  {
    assert (kept + [n])[..|kept|] == kept;
  }

  method Deal(queues: seq<Queue>) returns (result: seq<Node>)
    ensures result == RoundRobin(queues)
  {
    result := [];
    for i := 0 to Longest(queues)
      invariant result == Rows(queues, i)
    {
      var row := [];
      assert [] + Row(queues, i) == Row(queues, i) && queues[0..] == queues;
      for q := 0 to |queues|
        invariant row + Row(queues[q..], i) == Row(queues, i)
      {
        assert queues[q..][1..] == queues[q + 1..];
        RowStep(row, queues[q..], i);
        if i < |queues[q].nodes| {
          row := row + [queues[q].nodes[i]];
        }
      }
      assert queues[|queues|..] == [] && row + [] == row;
      result := result + row;
    }
  }

  method Diversify(ns: seq<Node>) returns (result: seq<Node>)
    ensures result == Diversified(ns)
  {
    var queues := Group(ns);
    result := Deal(queues);
  }

  lemma {:induction false} RowStep(row: seq<Node>, qs: seq<Queue>, i: nat)
    requires qs != []
    ensures row + Row(qs, i) == (if i < |qs[0].nodes| then row + [qs[0].nodes[i]] else row) + Row(qs[1..], i)
  {
  }

  /* ---- at most three configurations per server ---- */

  lemma {:induction false} CappedBound(ns: seq<Node>, server: string)
    ensures OnServer(Capped(ns), server) <= MAX_PER_SERVER
  {
    if ns != [] {
      var front, n := ns[..|ns| - 1], ns[|ns| - 1];
      CappedBound(front, server);
      assert (Capped(front) + [n])[..|Capped(front)|] == Capped(front);
    }
  }

  lemma {:induction false} OnServerAppend(x: seq<Node>, y: seq<Node>, server: string)
    ensures OnServer(x + y, server) == OnServer(x, server) + OnServer(y, server)
  {
    if y == [] {
      assert x + y == x;
    } else {
      var z := y[..|y| - 1];
      assert (x + y)[..|x + y| - 1] == x + z;
      OnServerAppend(x, z, server);
    }
  }

  /** Taking one node out of a list. */
  lemma {:induction false} OneOut(ns: seq<Node>, k: nat, server: string)
    requires k < |ns|
    ensures var rest := ns[..k] + ns[k + 1..];
      && multiset(rest) == multiset(ns) - multiset{ns[k]}
      && OnServer(ns, server) == OnServer(rest, server) + OnServer([ns[k]], server)
  {
    hide OnServer;
    var x, y := ns[..k], ns[k + 1..];
    assert ns == x + ([ns[k]] + y);
    OnServerAppend(x, [ns[k]] + y, server);
    OnServerAppend([ns[k]], y, server);
    OnServerAppend(x, y, server);
  }

  lemma {:induction false} OnServerBag(a: seq<Node>, b: seq<Node>, server: string)
    requires multiset(a) == multiset(b)
    ensures OnServer(a, server) == OnServer(b, server)
    decreases |a|
  {
    if a == [] {
      assert |multiset(b)| == 0;
    } else {
      assert a[0] in multiset(b);
      var k :| 0 <= k < |b| && b[k] == a[0];
      hide OnServer;
      OneOut(a, 0, server);
      OneOut(b, k, server);
      OnServerBag(a[..0] + a[1..], b[..k] + b[k + 1..], server);
    }
  }

  /* ---- nothing lost, nothing added ---- */

  function Bag(qs: seq<Queue>): multiset<Node> {
    if qs == [] then multiset{} else multiset(qs[0].nodes) + Bag(qs[1..])
  }

  lemma {:induction false} AppendedBag(qs: seq<Queue>, key: string, n: Node)
    ensures Bag(Appended(qs, key, n)) == Bag(qs) + multiset{n}
  {
    if qs == [] {
      assert [Queue(key, [n])][1..] == [];
    } else if qs[0].key != key {
      AppendedBag(qs[1..], key, n);
      assert Appended(qs, key, n)[1..] == Appended(qs[1..], key, n);
    } else {
      assert Appended(qs, key, n)[1..] == qs[1..];
    }
  }

  lemma {:induction false} BySourceBag(ns: seq<Node>)
    ensures Bag(BySource(ns)) == multiset(ns)
  {
    if ns != [] {
      var front, n := ns[..|ns| - 1], ns[|ns| - 1];
      BySourceBag(front);
      AppendedBag(BySource(front), n.source, n);
      assert ns == front + [n];
    }
  }

  function Heads(qs: seq<Queue>, n: nat): multiset<Node> {
    if qs == [] then multiset{} else multiset(qs[0].nodes[..Min(n, |qs[0].nodes|)]) + Heads(qs[1..], n)
  }

  lemma {:induction false} HeadsStep(qs: seq<Queue>, n: nat)
    requires n > 0
    ensures Heads(qs, n) == Heads(qs, n - 1) + multiset(Row(qs, n - 1))
  {
    if qs != [] {
      HeadsStep(qs[1..], n);
      OneMoreHead(qs[0].nodes, n - 1);
      RowFirst(qs, n - 1);
      hide Row;
    }
  }

  lemma {:induction false} RowFirst(qs: seq<Queue>, i: nat)
    requires qs != []
    ensures multiset(Row(qs, i)) == multiset(if i < |qs[0].nodes| then [qs[0].nodes[i]] else []) + multiset(Row(qs[1..], i))
  {
    var first := if i < |qs[0].nodes| then [qs[0].nodes[i]] else [];
    assert Row(qs, i) == first + Row(qs[1..], i);
    hide Row;
    BagAppend(first, Row(qs[1..], i));
  }

  lemma {:induction false} OneMoreHead(q: seq<Node>, n: nat)
    ensures multiset(q[..Min(n + 1, |q|)]) == multiset(q[..Min(n, |q|)]) + multiset(if n < |q| then [q[n]] else [])
  {
    if n < |q| {
      assert q[..n + 1] == q[..n] + [q[n]];
    }
  }

  lemma {:induction false} HeadsNone(qs: seq<Queue>)
    ensures Heads(qs, 0) == multiset{}
  {
    if qs != [] {
      HeadsNone(qs[1..]);
    }
  }

  lemma {:induction false} HeadsAll(qs: seq<Queue>, n: nat)
    requires n >= Longest(qs)
    ensures Heads(qs, n) == Bag(qs)
  {
    if qs != [] {
      HeadsAll(qs[1..], n);
      assert qs[0].nodes[..|qs[0].nodes|] == qs[0].nodes;
    }
  }

  lemma {:induction false} BagAppend(a: seq<Node>, b: seq<Node>)
    ensures multiset(a + b) == multiset(a) + multiset(b)
  {
  }

  lemma {:induction false} RowsSnoc(qs: seq<Queue>, n: nat)
    requires n > 0
    ensures multiset(Rows(qs, n)) == multiset(Rows(qs, n - 1)) + multiset(Row(qs, n - 1))
  {
    hide Row;
    BagAppend(Rows(qs, n - 1), Row(qs, n - 1));
  }

  lemma {:induction false} RowsBag(qs: seq<Queue>, n: nat)
    ensures multiset(Rows(qs, n)) == Heads(qs, n)
  {
    if n == 0 {
      HeadsNone(qs);
    } else {
      hide *;
      RowsBag(qs, n - 1);
      HeadsStep(qs, n);
      RowsSnoc(qs, n);
    }
  }

  lemma {:induction false} RoundRobinBag(qs: seq<Queue>)
    ensures multiset(RoundRobin(qs)) == Bag(qs)
  {
    RowsBag(qs, Longest(qs));
    HeadsAll(qs, Longest(qs));
  }

  /** diversify returns exactly the nodes that pass the cap, so no server appears more than three times. */
  lemma {:induction false} DiversifyKeeps(ns: seq<Node>, server: string)
    ensures multiset(Diversified(ns)) == multiset(Capped(ns))
    ensures OnServer(Diversified(ns), server) <= MAX_PER_SERVER
  {
    RoundRobinBag(BySource(Capped(ns)));
    BySourceBag(Capped(ns));
    OnServerBag(Diversified(ns), Capped(ns), server);
    CappedBound(ns, server);
  }

  lemma {:induction false} CappedWithin(ns: seq<Node>)
    ensures multiset(Capped(ns)) <= multiset(ns)
  {
    if ns != [] {
      CappedWithin(ns[..|ns| - 1]);
      assert ns == ns[..|ns| - 1] + [ns[|ns| - 1]];
    }
  }

  /* ---- fairness between sources ---- */

  function FromSource(ns: seq<Node>, source: string): nat {
    if ns == [] then 0 else (if ns[0].source == source then 1 else 0) + FromSource(ns[1..], source)
  }

  /** Queues by source: keys distinct, every node in the queue of its source. */
  ghost predicate Sorted(qs: seq<Queue>) {
    && (forall i, j :: 0 <= i < j < |qs| ==> qs[i].key != qs[j].key)
    && (forall i :: 0 <= i < |qs| ==> forall n :: n in qs[i].nodes ==> n.source == qs[i].key)
  }

  lemma {:induction false} SortedTail(qs: seq<Queue>)
    requires Sorted(qs) && qs != []
    ensures Sorted(qs[1..]) && (forall n :: n in qs[0].nodes ==> n.source == qs[0].key) && forall q :: q in qs[1..] ==> q.key != qs[0].key
  {
    assert forall i :: 0 < i < |qs| ==> qs[i] == qs[1..][i - 1];
  }

  lemma {:induction false} SortedFront(q: Queue, qs: seq<Queue>)
    requires Sorted(qs) && (forall n :: n in q.nodes ==> n.source == q.key) && forall p :: p in qs ==> p.key != q.key
    ensures Sorted([q] + qs)
  {
    var all := [q] + qs;
    forall i, j | 0 <= i < j < |all| ensures all[i].key != all[j].key {
      assert all[j] == qs[j - 1] && qs[j - 1] in qs;
    }
  }

  lemma {:induction false} AppendedKeys(qs: seq<Queue>, key: string, n: Node, q: Queue)
    requires q in Appended(qs, key, n)
    ensures q.key == key || exists p :: p in qs && p.key == q.key
  {
    if qs != [] {
      assert qs[0] in qs && forall p :: p in qs[1..] ==> p in qs;
      if qs[0].key != key && q != qs[0] {
        AppendedKeys(qs[1..], key, n, q);
      }
    }
  }

  lemma {:induction false} AppendedSorted(qs: seq<Queue>, n: Node)
    requires Sorted(qs)
    ensures Sorted(Appended(qs, n.source, n))
  {
    if qs != [] {
      SortedTail(qs);
      if qs[0].key == n.source {
        hide Sorted;
        SortedFront(Queue(n.source, qs[0].nodes + [n]), qs[1..]);
      } else {
        hide Sorted;
        AppendedSorted(qs[1..], n);
        var more := Appended(qs[1..], n.source, n);
        forall q | q in more ensures q.key != qs[0].key {
          AppendedKeys(qs[1..], n.source, n, q);
        }
        SortedFront(qs[0], more);
      }
    }
  }

  lemma {:induction false} BySourceSorted(ns: seq<Node>)
    ensures Sorted(BySource(ns))
  {
    if ns != [] {
      BySourceSorted(ns[..|ns| - 1]);
      AppendedSorted(BySource(ns[..|ns| - 1]), ns[|ns| - 1]);
    }
  }

  /** How many nodes the queue of a source holds. */
  function Held(qs: seq<Queue>, source: string): nat {
    if qs == [] then 0 else if qs[0].key == source then |qs[0].nodes| else Held(qs[1..], source)
  }

  lemma {:induction false} FromSourceAppend(a: seq<Node>, b: seq<Node>, source: string)
    ensures FromSource(a + b, source) == FromSource(a, source) + FromSource(b, source)
  {
    if a == [] {
      assert a + b == b;
    } else {
      assert (a + b)[1..] == a[1..] + b;
      FromSourceAppend(a[1..], b, source);
    }
  }

  lemma {:induction false} RowCount(qs: seq<Queue>, i: nat, source: string)
    requires Sorted(qs)
    ensures FromSource(Row(qs, i), source) == if i < Held(qs, source) then 1 else 0
  {
    if qs != [] {
      assert forall k :: 0 < k < |qs| ==> qs[k] == qs[1..][k - 1];
      RowCount(qs[1..], i, source);
      var first := if i < |qs[0].nodes| then [qs[0].nodes[i]] else [];
      FromSourceAppend(first, Row(qs[1..], i), source);
      if qs[0].key == source {
        OtherKeys(qs[1..], source);
      }
    }
  }

  lemma {:induction false} OtherKeys(qs: seq<Queue>, source: string)
    requires forall i :: 0 <= i < |qs| ==> qs[i].key != source
    ensures Held(qs, source) == 0
  {
    if qs != [] {
      OtherKeys(qs[1..], source);
    }
  }

  lemma {:induction false} NothingFrom(source: string)
    ensures FromSource([], source) == 0
  {
  }

  lemma {:induction false} RowsCount(qs: seq<Queue>, n: nat, source: string)
    requires Sorted(qs)
    ensures FromSource(Rows(qs, n), source) == Min(n, Held(qs, source))
  {
    hide Sorted, Row, FromSource;
    if n > 0 {
      RowsCount(qs, n - 1, source);
      RowCount(qs, n - 1, source);
      FromSourceAppend(Rows(qs, n - 1), Row(qs, n - 1), source);
    } else {
      NothingFrom(source);
    }
  }

  /** A prefix of the round robin is some whole rows and a part of the next. */
  lemma {:induction false} PrefixRow(qs: seq<Queue>, n: nat, p: nat) returns (i: nat, part: seq<Node>)
    requires p <= |Rows(qs, n)|
    ensures i <= n && Rows(qs, n)[..p] == Rows(qs, i) + part
    ensures if i == n then part == [] else |part| <= |Row(qs, i)| && part == Row(qs, i)[..|part|]
  {
    hide Row;
    var all := Rows(qs, n);
    if p == |all| {
      i, part := n, [];
      assert all[..p] == all + [];
    } else {
      var front := Rows(qs, n - 1);
      assert all == front + Row(qs, n - 1);
      if p >= |front| {
        i, part := n - 1, Row(qs, n - 1)[..p - |front|];
      } else {
        i, part := PrefixRow(qs, n - 1, p);
        assert all[..p] == front[..p];
        assert front[..p] == Rows(qs, i) + part;
      }
    }
  }

  lemma {:induction false} FromSourcePart(ns: seq<Node>, k: nat, source: string)
    requires k <= |ns|
    ensures FromSource(ns[..k], source) <= FromSource(ns, source)
  {
    FromSourceAppend(ns[..k], ns[k..], source);
    assert ns[..k] + ns[k..] == ns;
  }

  /** In every prefix of diversify's output two sources are at most one apart, unless the one behind has
      nothing left to give. */
  lemma {:induction false} Fair(ns: seq<Node>, p: nat, a: string, b: string)
    requires p <= |Diversified(ns)|
    ensures var prefix := Diversified(ns)[..p];
      FromSource(prefix, a) <= FromSource(prefix, b) + 1 || FromSource(prefix, b) == FromSource(Diversified(ns), b)
  {
    var qs := BySource(Capped(ns));
    var n := Longest(qs);
    BySourceSorted(Capped(ns));
    var i, part := PrefixRow(qs, n, p);
    RowsCount(qs, n, b);
    HeldBound(qs, b);
    if i == n {
      assert Rows(qs, n) + [] == Rows(qs, n);
    } else {
      RowsCount(qs, i, a);
      RowsCount(qs, i, b);
      FromSourceAppend(Rows(qs, i), part, a);
      FromSourceAppend(Rows(qs, i), part, b);
      RowCount(qs, i, a);
      RowCount(qs, i, b);
      FromSourcePart(Row(qs, i), |part|, a);
      FromSourcePart(Row(qs, i), |part|, b);
    }
  }

  lemma {:induction false} HeldBound(qs: seq<Queue>, source: string)
    ensures Held(qs, source) <= Longest(qs)
  {
    if qs != [] {
      HeldBound(qs[1..], source);
    }
  }
}

/** Ranking servers by reports, and the memo of their fingerprints (sub-worker.js, nodeFingerprint and rankByReports).
    The digest is an arbitrary function; rates are exact rationals. */
module Reports {
  import opened Bytes
  import opened Lists

  type Line = string

  /* ---- the fingerprint memo ---- */

  const MEMO_ENTRIES: nat := 4096
  const MEMO_CHARS: nat := 1_000_000
  const LONGEST_CORE: nat := 4096

  datatype Entry = Entry(core: Line, fp: string)

  function Chars(memo: seq<Entry>): nat {
    if memo == [] then 0 else Chars(memo[..|memo| - 1]) + |memo[|memo| - 1].core|
  }

  predicate Fits(memo: seq<Entry>) {
    |memo| <= MEMO_ENTRIES && Chars(memo) <= MEMO_CHARS
  }

  /** What is left when the oldest go until the rest fits. */
  function Evicted(memo: seq<Entry>): seq<Entry> {
    if Fits(memo) then memo else Evicted(memo[1..])
  }

  predicate Has(memo: seq<Entry>, core: Line) {
    exists i :: 0 <= i < |memo| && memo[i].core == core
  }

  /** The memo after a digest of `core` has come back, whatever happened meanwhile. */
  function Remembered(memo: seq<Entry>, core: Line, fp: string): seq<Entry> {
    if |core| > LONGEST_CORE then memo
    else Evicted(if Has(memo, core) then memo else memo + [Entry(core, fp)])
  }

  /** One entry a core, each the digest of its core, within both bounds. */
  ghost predicate Sound(memo: seq<Entry>, digest: Line -> string) {
    && (forall i, j :: 0 <= i < j < |memo| ==> memo[i].core != memo[j].core)
    && (forall i :: 0 <= i < |memo| ==> memo[i].fp == digest(memo[i].core) && |memo[i].core| <= LONGEST_CORE)
    && Fits(memo)
  }

  lemma {:induction false} CharsHead(memo: seq<Entry>)
    requires memo != []
    ensures Chars(memo) == |memo[0].core| + Chars(memo[1..])
  {
    if |memo| > 1 {
      CharsHead(memo[..|memo| - 1]);
      assert memo[1..][..|memo| - 2] == memo[..|memo| - 1][1..];
    }
  }

  /** Eviction drops a prefix, and never the newest entry when that is no longer than a core may be. */
  lemma {:induction false} EvictedSuffix(memo: seq<Entry>) returns (k: nat)
    ensures k <= |memo| && Evicted(memo) == memo[k..] && Fits(Evicted(memo))
    ensures forall i :: 0 <= i < k ==> !Fits(memo[i..])
    ensures memo != [] && |memo[|memo| - 1].core| <= LONGEST_CORE ==> k < |memo|
  {
    if Fits(memo) {
      k := 0;
    } else {
      k := EvictedSuffix(memo[1..]);
      assert forall i :: 0 < i < k + 1 ==> memo[i..] == memo[1..][i - 1..];
      assert memo[0..] == memo;
      k := k + 1;
    }
  }

  /** Whatever digests come back in whatever order, and however often the same one, the memo stays sound, and a
      core just stored is still there. */
  lemma {:induction false} RememberedSound(memo: seq<Entry>, core: Line, digest: Line -> string)
    requires Sound(memo, digest)
    ensures Sound(Remembered(memo, core, digest(core)), digest)
    ensures |core| <= LONGEST_CORE ==> Has(Remembered(memo, core, digest(core)), core)
  {
    if |core| <= LONGEST_CORE {
      var all := if Has(memo, core) then memo else memo + [Entry(core, digest(core))];
      var k := EvictedSuffix(all);
      hide Fits, Evicted;
      if Has(memo, core) {
        assert all[0..] == all;
        assert k == 0;
      } else {
        assert all[k..][|all| - 1 - k] == Entry(core, digest(core));
      }
    }
  }

  /** A core of up to 4096 characters is put last unless it is there already, and then the fewest oldest entries go that
      leave no more than 4096 entries and 1,000,000 characters; a longer one is not kept. */
  lemma {:induction false} RememberedExact(memo: seq<Entry>, core: Line, fp: string) returns (all: seq<Entry>, k: nat)
    ensures |core| > 4096 ==> Remembered(memo, core, fp) == memo
    ensures |core| <= 4096 ==>
      && all == (if exists i :: 0 <= i < |memo| && memo[i].core == core then memo else memo + [Entry(core, fp)])
      && k <= |all| && Remembered(memo, core, fp) == all[k..] && |all[k..]| <= 4096 && Chars(all[k..]) <= 1_000_000
      && forall i :: 0 <= i < k ==> |all[i..]| > 4096 || Chars(all[i..]) > 1_000_000
  {
    all := if Has(memo, core) then memo else memo + [Entry(core, fp)];
    k := EvictedSuffix(all);
    hide Evicted, Chars;
  }

  /** The memo after a run of completed digests. */
  function After(cores: seq<Line>, digest: Line -> string): seq<Entry> {
    if cores == [] then [] else Remembered(After(cores[..|cores| - 1], digest), cores[|cores| - 1], digest(cores[|cores| - 1]))
  }

  lemma {:induction false} RunSound(cores: seq<Line>, digest: Line -> string)
    ensures Sound(After(cores, digest), digest)
  {
    if cores != [] {
      RunSound(cores[..|cores| - 1], digest);
      RememberedSound(After(cores[..|cores| - 1], digest), cores[|cores| - 1], digest);
    }
  }

  class FingerprintMemo {
    var memo: seq<Entry>
    var chars: nat
    ghost const digest: Line -> string

    ghost predicate Valid()
      reads this
    {
      Sound(memo, digest) && chars == Chars(memo)
    }

    constructor (ghost digest: Line -> string)
      ensures Valid() && memo == [] && this.digest == digest
    {
      memo, chars := [], 0;
      this.digest := digest;
    }

    /** The first half of a call: an answer from the memo, if there is one. */
    method Begin(core: Line) returns (hit: Option<string>)
      requires Valid()
      ensures hit.Some? <==> Has(memo, core)
      ensures hit.Some? ==> hit.value == digest(core)
    {
      for i := 0 to |memo|
        invariant forall j :: 0 <= j < i ==> memo[j].core != core
      {
        if memo[i].core == core {
          return Some(memo[i].fp);
        }
      }
      hit := None;
    }

    /** The second half, when the digest has come back. */
    method Finish(core: Line, fp: string)
      requires Valid() && fp == digest(core)
      modifies `memo, `chars
      ensures Valid() && memo == Remembered(old(memo), core, fp)
    {
      RememberedSound(memo, core, digest);
      if |core| > LONGEST_CORE {
        return;
      }
      var known := Begin(core);
      hide Sound, Has, Fits, Evicted;
      if known.None? {
        assert (memo + [Entry(core, fp)])[..|memo|] == memo;
        memo, chars := memo + [Entry(core, fp)], chars + |core|;
      }
      Evict();
    }

    /** The oldest entries go until the rest fits. */
    method Evict()
      requires chars == Chars(memo)
      modifies `memo, `chars
      ensures memo == Evicted(old(memo)) && chars == Chars(memo)
    {
      ghost var all := memo;
      while |memo| > MEMO_ENTRIES || chars > MEMO_CHARS
        invariant chars == Chars(memo) && Evicted(memo) == Evicted(all)
        decreases |memo|
      {
        CharsHead(memo);
        memo, chars := memo[1..], chars - |memo[0].core|;
      }
    }
  }

  /* ---- ranking ---- */

  datatype Score = Score(ok: nat, fail: nat)

  datatype Item = Item(line: Line, index: nat)

  /** 0 worked, 1 no report, 2 reports and no success. */
  function Tier(s: Option<Score>): nat {
    if s.None? then 1 else if s.value.ok > 0 then 0 else 2
  }

  /** The smoothed success rate, which only orders what has worked. */
  function Rate(s: Option<Score>): real {
    if Tier(s) == 0 then (s.value.ok + 1) as real / (s.value.ok + s.value.fail + 2) as real else 0.0
  }

  predicate Precedes(a: Item, b: Item, score: Line -> Option<Score>) {
    var x, y := score(a.line), score(b.line);
    || Tier(x) < Tier(y)
    || (Tier(x) == Tier(y) && Rate(x) > Rate(y))
    || (Tier(x) == Tier(y) && Rate(x) == Rate(y) && a.index < b.index)
  }

  function Items(lines: seq<Line>): (its: seq<Item>)
    ensures |its| == |lines| && forall i :: 0 <= i < |its| ==> its[i] == Item(lines[i], i)
  {
    if lines == [] then [] else Items(lines[..|lines| - 1]) + [Item(lines[|lines| - 1], |lines| - 1)]
  }

  function Lines(its: seq<Item>): (lines: seq<Line>)
    ensures |lines| == |its|
  {
    if its == [] then [] else Lines(its[..|its| - 1]) + [its[|its| - 1].line]
  }

  function Inserted(its: seq<Item>, x: Item, score: Line -> Option<Score>): seq<Item> {
    if its == [] then [x]
    else
      var front, last := its[..|its| - 1], its[|its| - 1];
      if Precedes(last, x, score) then its + [x] else Inserted(front, x, score) + [last]
  }

  function Sorted(its: seq<Item>, score: Line -> Option<Score>): seq<Item> {
    if its == [] then [] else Inserted(Sorted(its[..|its| - 1], score), its[|its| - 1], score)
  }

  function Rank(lines: seq<Line>, score: Line -> Option<Score>): seq<Line> {
    Lines(Sorted(Items(lines), score))
  }

  ghost predicate InOrder(its: seq<Item>, score: Line -> Option<Score>) {
    forall i, j :: 0 <= i < j < |its| ==> Precedes(its[i], its[j], score)
  }

  /** No two items have one number. */
  ghost predicate Numbered(its: seq<Item>) {
    forall i, j :: 0 <= i < j < |its| ==> its[i].index != its[j].index
  }

  /** The comparison orders any two items with different numbers one way, and chains. */
  lemma {:induction false} Total(a: Item, b: Item, score: Line -> Option<Score>)
    ensures a.index != b.index ==> Precedes(a, b, score) || Precedes(b, a, score)
    ensures !(Precedes(a, b, score) && Precedes(b, a, score))
  {
    hide Rate, Tier;
  }

  lemma {:induction false} Chains(a: Item, b: Item, c: Item, score: Line -> Option<Score>)
    requires Precedes(a, b, score) && Precedes(b, c, score)
    ensures Precedes(a, c, score)
  {
    hide Rate, Tier;
  }

  lemma {:induction false} OrderSnoc(its: seq<Item>, x: Item, score: Line -> Option<Score>)
    requires InOrder(its, score) && forall i :: 0 <= i < |its| ==> Precedes(its[i], x, score)
    ensures InOrder(its + [x], score)
  {
    hide Precedes;
  }

  lemma {:induction false} InsertedBag(its: seq<Item>, x: Item, score: Line -> Option<Score>)
    ensures multiset(Inserted(its, x, score)) == multiset(its) + multiset{x}
  {
    hide Precedes;
    if its != [] {
      InsertedBag(its[..|its| - 1], x, score);
      assert its == its[..|its| - 1] + [its[|its| - 1]];
    }
  }

  lemma {:induction false} InsertedMembers(its: seq<Item>, x: Item, score: Line -> Option<Score>, y: Item)
    ensures y in Inserted(its, x, score) <==> y in its || y == x
  {
    hide Inserted;
    InsertedBag(its, x, score);
    assert y in Inserted(its, x, score) <==> y in multiset(Inserted(its, x, score));
    assert y in its <==> y in multiset(its);
  }

  lemma {:induction false} InsertedOrder(its: seq<Item>, x: Item, score: Line -> Option<Score>)
    requires InOrder(its, score) && forall y :: y in its ==> y.index != x.index
    ensures InOrder(Inserted(its, x, score), score)
  {
    hide Precedes;
    if its != [] {
      var front, last := its[..|its| - 1], its[|its| - 1];
      assert its == front + [last];
      if Precedes(last, x, score) {
        forall i | 0 <= i < |its| ensures Precedes(its[i], x, score) {
          if i < |its| - 1 {
            Chains(its[i], last, x, score);
          }
        }
        OrderSnoc(its, x, score);
      } else {
        InsertedOrder(front, x, score);
        Total(x, last, score);
        var r := Inserted(front, x, score);
        forall i | 0 <= i < |r| ensures Precedes(r[i], last, score) {
          InsertedMembers(front, x, score, r[i]);
        }
        OrderSnoc(r, last, score);
      }
    }
  }

  lemma {:induction false} InsertedSpec(its: seq<Item>, x: Item, score: Line -> Option<Score>)
    requires InOrder(its, score) && forall y :: y in its ==> y.index != x.index
    ensures InOrder(Inserted(its, x, score), score)
    ensures multiset(Inserted(its, x, score)) == multiset(its) + multiset{x}
    ensures forall y :: y in Inserted(its, x, score) <==> y in its || y == x
  {
    hide InOrder, Inserted;
    InsertedOrder(its, x, score);
    InsertedBag(its, x, score);
    forall y ensures y in Inserted(its, x, score) <==> y in its || y == x {
      InsertedMembers(its, x, score, y);
    }
  }

  lemma {:induction false} SortedSpec(its: seq<Item>, score: Line -> Option<Score>)
    requires Numbered(its)
    ensures InOrder(Sorted(its, score), score) && multiset(Sorted(its, score)) == multiset(its)
    ensures forall y :: y in Sorted(its, score) <==> y in its
  {
    if its != [] {
      var front, last := its[..|its| - 1], its[|its| - 1];
      SortedSpec(front, score);
      assert its == front + [last];
      InsertedSpec(Sorted(front, score), last, score);
    }
  }

  /** There is only one way to order distinct items by the comparison. */
  lemma {:induction false} OneOrder(a: seq<Item>, b: seq<Item>, score: Line -> Option<Score>)
    requires InOrder(a, score) && InOrder(b, score) && multiset(a) == multiset(b)
    ensures a == b
    decreases |a|
  {
    hide Precedes;
    assert |multiset(a)| == |multiset(b)|;
    if a != [] {
      SameLast(a, b, score);
      FrontBag(a, b);
      OneOrder(a[..|a| - 1], b[..|b| - 1], score);
      hide InOrder;
      assert a == a[..|a| - 1] + [a[|a| - 1]];
    }
  }

  lemma {:induction false} SameLast(a: seq<Item>, b: seq<Item>, score: Line -> Option<Score>)
    requires InOrder(a, score) && InOrder(b, score) && multiset(a) == multiset(b) && a != [] && b != []
    ensures a[|a| - 1] == b[|b| - 1]
  {
    hide Precedes, InOrder;
    var x, y := a[|a| - 1], b[|b| - 1];
    assert x in multiset(a) && y in multiset(b);
    LastOf(a, y, score);
    LastOf(b, x, score);
    Total(x, y, score);
  }

  lemma {:induction false} FrontBag<T>(a: seq<T>, b: seq<T>)
    requires a != [] && b != [] && multiset(a) == multiset(b) && a[|a| - 1] == b[|b| - 1]
    ensures multiset(a[..|a| - 1]) == multiset(b[..|b| - 1])
  {
    FrontLast(a);
    FrontLast(b);
    var c, d, x := multiset(a[..|a| - 1]), multiset(b[..|b| - 1]), multiset{a[|a| - 1]};
    BagCancel(c, d, x);
  }

  lemma {:induction false} FrontLast<T>(a: seq<T>)
    requires a != []
    ensures multiset(a) == multiset(a[..|a| - 1]) + multiset{a[|a| - 1]}
  {
    assert a == a[..|a| - 1] + [a[|a| - 1]];
  }

  lemma {:induction false} LastOf(its: seq<Item>, x: Item, score: Line -> Option<Score>)
    requires InOrder(its, score) && x in multiset(its)
    ensures its != [] && (x == its[|its| - 1] || Precedes(x, its[|its| - 1], score))
  {
    hide Precedes;
    var i :| 0 <= i < |its| && its[i] == x;
  }

  /** Any sort that leaves the numbered lines in the order of the comparison ranks them so. */
  lemma {:induction false} AnySort(lines: seq<Line>, sorted: seq<Item>, score: Line -> Option<Score>)
    requires InOrder(sorted, score) && multiset(sorted) == multiset(Items(lines))
    ensures Lines(sorted) == Rank(lines, score)
  {
    SortedSpec(Items(lines), score);
    OneOrder(sorted, Sorted(Items(lines), score), score);
  }

  lemma {:induction false} BagCancel<T>(c: multiset<T>, d: multiset<T>, x: multiset<T>)
    requires c + x == d + x
    ensures c == d
  {
    assert c == (c + x) - x && d == (d + x) - x;
  }

  lemma {:induction false} SameSize<T>(a: seq<T>, b: seq<T>)
    requires multiset(a) == multiset(b)
    ensures |a| == |b|
  {
    assert |multiset(a)| == |multiset(b)|;
  }

  lemma {:induction false} LinesBag(a: seq<Item>, b: seq<Item>)
    requires multiset(a) == multiset(b)
    ensures multiset(Lines(a)) == multiset(Lines(b))
    decreases |a|
  {
    hide Lines;
    SameSize(a, b);
    if a == [] {
      assert a == b;
    } else {
      var last := a[|a| - 1];
      FrontLast(a);
      assert last in multiset(a);
      var rest := Taken(b, last);
      BagCancel(multiset(a[..|a| - 1]), multiset(rest), multiset{last});
      LinesBag(a[..|a| - 1], rest);
      LinesFront(a);
    }
  }

  lemma {:induction false} LinesFront(a: seq<Item>)
    requires a != []
    ensures multiset(Lines(a)) == multiset(Lines(a[..|a| - 1])) + multiset{a[|a| - 1].line}
  {
  }

  /** One item out of a list: what is left, and what that does to the lines. */
  lemma {:induction false} Taken(b: seq<Item>, x: Item) returns (rest: seq<Item>)
    requires x in multiset(b)
    ensures multiset(b) == multiset(rest) + multiset{x} && multiset(Lines(b)) == multiset(Lines(rest)) + multiset{x.line}
  {
    hide Lines;
    var k :| 0 <= k < |b| && b[k] == x;
    rest := b[..k] + b[k + 1..];
    assert b == b[..k] + [x] + b[k + 1..];
    LinesAround(b[..k], x, b[k + 1..]);
  }

  lemma {:induction false} LinesAround(before: seq<Item>, x: Item, after: seq<Item>)
    ensures multiset(Lines(before + [x] + after)) == multiset(Lines(before + after)) + multiset{x.line}
  {
    LinesJoin(before, after);
    LinesJoin(before, [x]);
    LinesJoin(before + [x], after);
    assert Lines([x]) == [x.line];
  }

  lemma {:induction false} LinesJoin(a: seq<Item>, b: seq<Item>)
    ensures Lines(a + b) == Lines(a) + Lines(b)
  {
    if b == [] {
      assert a + b == a;
    } else {
      assert (a + b)[..|a + b| - 1] == a + b[..|b| - 1];
      LinesJoin(a, b[..|b| - 1]);
    }
  }

  /** Ranking only reorders. */
  lemma {:induction false} RankReorders(lines: seq<Line>, score: Line -> Option<Score>)
    ensures multiset(Rank(lines, score)) == multiset(lines)
  {
    SortedSpec(Items(lines), score);
    LinesBag(Sorted(Items(lines), score), Items(lines));
    LinesOfItems(lines);
  }

  lemma {:induction false} LinesOfItems(lines: seq<Line>)
    ensures Lines(Items(lines)) == lines
  {
    if lines != [] {
      LinesOfItems(lines[..|lines| - 1]);
      assert Items(lines)[..|lines| - 1] == Items(lines[..|lines| - 1]);
    }
  }

  /* ---- the three tiers ---- */

  function InTier(t: nat, score: Line -> Option<Score>): Line -> bool {
    (line: Line) => Tier(score(line)) == t
  }

  function OfTier(its: seq<Item>, t: nat, score: Line -> Option<Score>): seq<Item> {
    if its == [] then []
    else
      var front, last := OfTier(its[..|its| - 1], t, score), its[|its| - 1];
      if Tier(score(last.line)) == t then front + [last] else front
  }

  lemma {:induction false} OfTierLines(lines: seq<Line>, t: nat, score: Line -> Option<Score>)
    ensures Lines(OfTier(Items(lines), t, score)) == Where(lines, InTier(t, score))
  {
    if lines != [] {
      OfTierLines(lines[..|lines| - 1], t, score);
      assert Items(lines)[..|lines| - 1] == Items(lines[..|lines| - 1]);
    }
  }

  lemma {:induction false} OfTierSpec(its: seq<Item>, t: nat, score: Line -> Option<Score>)
    ensures forall y :: y in OfTier(its, t, score) <==> y in its && Tier(score(y.line)) == t
  {
    if its != [] {
      OfTierSpec(its[..|its| - 1], t, score);
      assert its == its[..|its| - 1] + [its[|its| - 1]];
    }
  }

  /** Numbered in the order they stand. */
  ghost predicate Ascending(its: seq<Item>) {
    forall i, j :: 0 <= i < j < |its| ==> its[i].index < its[j].index
  }

  /** An item goes in front of every item it precedes. */
  lemma {:induction false} InsertedPast(its: seq<Item>, tail: seq<Item>, x: Item, score: Line -> Option<Score>)
    requires forall y :: y in tail ==> !Precedes(y, x, score)
    ensures Inserted(its + tail, x, score) == Inserted(its, x, score) + tail
  {
    hide Precedes;
    if tail == [] {
      assert its + tail == its;
    } else {
      var front, last := tail[..|tail| - 1], tail[|tail| - 1];
      assert (its + tail)[..|its + tail| - 1] == its + front;
      InsertedPast(its, front, x, score);
    }
  }

  lemma {:induction false} InsertedLast(its: seq<Item>, x: Item, score: Line -> Option<Score>)
    requires forall y :: y in its ==> Precedes(y, x, score)
    ensures Inserted(its, x, score) == its + [x]
  {
    hide Precedes;
    if its != [] {
      assert its[|its| - 1] in its;
    }
  }

  lemma {:induction false} OfTierSnoc(front: seq<Item>, x: Item, t: nat, score: Line -> Option<Score>)
    ensures OfTier(front + [x], t, score) == if Tier(score(x.line)) == t then OfTier(front, t, score) + [x] else OfTier(front, t, score)
  {
    assert (front + [x])[..|front|] == front;
  }

  lemma {:induction false} SortedSnoc(front: seq<Item>, x: Item, score: Line -> Option<Score>)
    ensures Sorted(front + [x], score) == Inserted(Sorted(front, score), x, score)
  {
    assert (front + [x])[..|front|] == front;
  }

  lemma {:induction false} SortedTiers(its: seq<Item>, score: Line -> Option<Score>)
    requires Ascending(its)
    ensures Sorted(its, score) == Sorted(OfTier(its, 0, score), score) + OfTier(its, 1, score) + OfTier(its, 2, score)
  {
    if its != [] {
      var front, x := its[..|its| - 1], its[|its| - 1];
      SortedTiers(front, score);
      hide Sorted, OfTier, Inserted, Tier;
      assert its == front + [x];
      var a, b, c := Sorted(OfTier(front, 0, score), score), OfTier(front, 1, score), OfTier(front, 2, score);
      OfTierSpec(front, 1, score);
      OfTierSpec(front, 2, score);
      SortedTier0(front, score);
      InsertTier(front, a, b, c, x, score);
      OfTierSnoc(front, x, 0, score);
      OfTierSnoc(front, x, 1, score);
      OfTierSnoc(front, x, 2, score);
      SortedSnoc(front, x, score);
      SortedSnoc(OfTier(front, 0, score), x, score);
      TierRange(score(x.line));
    }
  }

  lemma {:induction false} TierRange(s: Option<Score>)
    ensures Tier(s) <= 2
  {
  }

  lemma {:induction false} SortedTier0(its: seq<Item>, score: Line -> Option<Score>)
    requires Ascending(its)
    ensures forall y :: y in Sorted(OfTier(its, 0, score), score) <==> y in its && Tier(score(y.line)) == 0
  {
    OfTierSpec(its, 0, score);
    OfTierAscends(its, score);
    SortedSpec(OfTier(its, 0, score), score);
  }

  lemma {:induction false} OfTierAscends(its: seq<Item>, score: Line -> Option<Score>)
    requires Ascending(its)
    ensures Numbered(OfTier(its, 0, score))
  {
    if its != [] {
      var front, x := its[..|its| - 1], its[|its| - 1];
      OfTierAscends(front, score);
      OfTierSpec(front, 0, score);
      var r := OfTier(front, 0, score);
      forall i | 0 <= i < |r| ensures r[i].index < x.index {
        assert r[i] in r;
        assert r[i] in front;
      }
    }
  }

  lemma {:induction false} InsertTier(its: seq<Item>, a: seq<Item>, b: seq<Item>, c: seq<Item>, x: Item, score: Line -> Option<Score>)
    requires forall y :: y in its ==> y.index < x.index
    requires (forall y :: y in a ==> y in its && Tier(score(y.line)) == 0)
    requires (forall y :: y in b ==> y in its && Tier(score(y.line)) == 1)
    requires (forall y :: y in c ==> y in its && Tier(score(y.line)) == 2)
    ensures Inserted(a + b + c, x, score) ==
      if Tier(score(x.line)) == 0 then Inserted(a, x, score) + b + c
      else if Tier(score(x.line)) == 1 then a + (b + [x]) + c
      else a + b + (c + [x])
  {
    var t := Tier(score(x.line));
    if t == 0 {
      InsertedPast(a, b + c, x, score);
      assert a + b + c == a + (b + c);
      assert Inserted(a, x, score) + (b + c) == Inserted(a, x, score) + b + c;
    } else if t == 1 {
      InsertedPast(a + b, c, x, score);
      InsertedLast(a + b, x, score);
      assert a + b + [x] + c == a + (b + [x]) + c;
    } else {
      InsertedLast(a + b + c, x, score);
      assert a + b + c + [x] == a + b + (c + [x]);
    }
  }

  /** What worked comes first, best rate first; what nobody reported and what only failed keep their order. */
  lemma {:induction false} RankTiers(lines: seq<Line>, score: Line -> Option<Score>)
    ensures Rank(lines, score) ==
      Lines(Sorted(OfTier(Items(lines), 0, score), score)) + Where(lines, InTier(1, score)) + Where(lines, InTier(2, score))
  {
    var its := Items(lines);
    SortedTiers(its, score);
    var a, b, c := Sorted(OfTier(its, 0, score), score), OfTier(its, 1, score), OfTier(its, 2, score);
    LinesJoin(a + b, c);
    LinesJoin(a, b);
    OfTierLines(lines, 1, score);
    OfTierLines(lines, 2, score);
  }

  /** Without any report the ranking is the list as it came, which is what an empty score table returns at once. */
  lemma {:induction false} NoReports(lines: seq<Line>, score: Line -> Option<Score>)
    requires forall l :: l in lines ==> score(l).None?
    ensures Rank(lines, score) == lines
  {
    RankTiers(lines, score);
    hide Rank, Sorted, Where, OfTier;
    UnreportedTier(lines, score);
    NoneOfTier(Items(lines), 0, score);
    NothingSorted(score);
    WhereAll(lines, InTier(1, score), true);
    WhereAll(lines, InTier(2, score), false);
    assert [] + lines + [] == lines;
  }

  lemma {:induction false} NothingSorted(score: Line -> Option<Score>)
    ensures Sorted([], score) == [] && Lines([]) == []
  {
  }

  lemma {:induction false} UnreportedTier(lines: seq<Line>, score: Line -> Option<Score>)
    requires forall l :: l in lines ==> score(l).None?
    ensures forall y :: y in Items(lines) ==> Tier(score(y.line)) == 1
    ensures forall l :: l in lines ==> InTier(1, score)(l) && !InTier(2, score)(l)
  {
    hide Items;
    forall y | y in Items(lines) ensures y.line in lines {
      var i :| 0 <= i < |lines| && Items(lines)[i] == y;
    }
  }

  lemma {:induction false} NoneOfTier(its: seq<Item>, t: nat, score: Line -> Option<Score>)
    requires forall y :: y in its ==> Tier(score(y.line)) != t
    ensures OfTier(its, t, score) == []
  {
    if its != [] {
      NoneOfTier(its[..|its| - 1], t, score);
    }
  }

  lemma {:induction false} WhereAll(lines: seq<Line>, keep: Line -> bool, all: bool)
    requires forall l :: l in lines ==> keep(l) == all
    ensures Where(lines, keep) == if all then lines else []
  {
    if lines != [] {
      WhereAll(lines[..|lines| - 1], keep, all);
    }
  }

  /* ---- the order, in terms of the reports alone ---- */

  predicate Worked(s: Option<Score>) {
    s.Some? && s.value.ok > 0
  }

  /** Line `a` goes before line `b`: what worked before what has no report before what only failed; of two that worked the one
      with the higher smoothed rate, the fractions being compared crosswise; otherwise the one that came first. */
  predicate Ahead(lines: seq<Line>, score: Line -> Option<Score>, a: nat, b: nat)
    requires a < |lines| && b < |lines|
  {
    var x, y := score(lines[a]), score(lines[b]);
    if Worked(x) && Worked(y) then
      var l, r := (x.value.ok + 1) * (y.value.ok + y.value.fail + 2), (y.value.ok + 1) * (x.value.ok + x.value.fail + 2);
      l > r || (l == r && a < b)
    else if Worked(x) || Worked(y) then Worked(x)
    else if x.None? == y.None? then a < b
    else x.None?
  }

  lemma {:induction false} Crosswise(p: nat, q: nat, r: nat, s: nat)
    requires q > 0 && s > 0
    ensures p as real / q as real > r as real / s as real <==> p * s > r * q
    ensures p as real / q as real == r as real / s as real <==> p * s == r * q
  {
    var x, y := p as real / q as real, r as real / s as real;
    assert x * q as real == p as real && y * s as real == r as real;
    var qs := q as real * s as real;
    assert qs > 0.0;
    assert x * qs == (p * s) as real by {
      assert x * qs == (x * q as real) * s as real;
    }
    assert y * qs == (r * q) as real by {
      assert y * qs == (y * s as real) * q as real;
    }
    Scaled(x, y, qs);
  }

  lemma {:induction false} Scaled(x: real, y: real, k: real)
    requires k > 0.0
    ensures x > y <==> x * k > y * k
    ensures x == y <==> x * k == y * k
  {
    if x > y {
      assert (x - y) * k > 0.0;
    } else if x < y {
      assert (y - x) * k > 0.0;
    }
  }

  lemma {:induction false} AheadIs(lines: seq<Line>, score: Line -> Option<Score>, a: nat, b: nat)
    requires a < |lines| && b < |lines| && Precedes(Item(lines[a], a), Item(lines[b], b), score)
    ensures Ahead(lines, score, a, b)
  {
    var x, y := score(lines[a]), score(lines[b]);
    if Worked(x) && Worked(y) {
      Crosswise(x.value.ok + 1, x.value.ok + x.value.fail + 2, y.value.ok + 1, y.value.ok + y.value.fail + 2);
    }
  }

  ghost predicate InAhead(lines: seq<Line>, score: Line -> Option<Score>, order: seq<nat>) {
    (forall i :: 0 <= i < |order| ==> order[i] < |lines|) &&
    forall i, j :: 0 <= i < j < |order| ==> Ahead(lines, score, order[i], order[j])
  }

  function Indices(its: seq<Item>): (order: seq<nat>)
    ensures |order| == |its| && forall i :: 0 <= i < |its| ==> order[i] == its[i].index
  {
    if its == [] then [] else Indices(its[..|its| - 1]) + [its[|its| - 1].index]
  }

  lemma {:induction false} LinesAt(its: seq<Item>, i: nat)
    requires i < |its|
    ensures Lines(its)[i] == its[i].line
  {
    if i < |its| - 1 {
      LinesAt(its[..|its| - 1], i);
    }
  }

  ghost predicate Numbers(lines: seq<Line>, sorted: seq<Item>, order: seq<nat>) {
    |order| == |sorted| && forall i :: 0 <= i < |sorted| ==> order[i] < |lines| && sorted[i] == Item(lines[order[i]], order[i])
  }

  lemma {:induction false} ItemsNumbered(lines: seq<Line>, sorted: seq<Item>)
    requires forall y :: y in sorted ==> y in Items(lines)
    ensures Numbers(lines, sorted, Indices(sorted))
  {
    hide Items, Indices;
    var its := Items(lines);
    forall i | 0 <= i < |sorted| ensures sorted[i].index < |lines| && sorted[i] == Item(lines[sorted[i].index], sorted[i].index) {
      assert sorted[i] in sorted;
      var k :| 0 <= k < |its| && its[k] == sorted[i];
    }
  }

  lemma {:induction false} EveryNumber(lines: seq<Line>, sorted: seq<Item>, order: seq<nat>, k: nat)
    requires Numbers(lines, sorted, order) && k < |lines| && forall y :: y in Items(lines) ==> y in sorted
    ensures k in order
  {
    hide Items;
    assert Items(lines)[k] in Items(lines);
    var i :| 0 <= i < |sorted| && sorted[i] == Items(lines)[k];
    assert order[i] == k;
  }

  lemma {:induction false} NumbersAhead(lines: seq<Line>, score: Line -> Option<Score>, sorted: seq<Item>, order: seq<nat>)
    requires Numbers(lines, sorted, order) && InOrder(sorted, score)
    ensures InAhead(lines, score, order)
  {
    hide Precedes, Ahead;
    forall i, j | 0 <= i < j < |order| ensures Ahead(lines, score, order[i], order[j]) {
      assert Precedes(sorted[i], sorted[j], score);
      AheadIs(lines, score, order[i], order[j]);
    }
  }

  /** The ranking, whole: every line once, in this order. */
  lemma {:induction false} RankExact(lines: seq<Line>, score: Line -> Option<Score>) returns (order: seq<nat>)
    ensures |order| == |lines| == |Rank(lines, score)| && forall k :: 0 <= k < |lines| ==> k in order
    ensures InAhead(lines, score, order) && forall i :: 0 <= i < |order| ==> Rank(lines, score)[i] == lines[order[i]]
  {
    var its := Items(lines);
    assert Numbered(its);
    var sorted := Sorted(its, score);
    assert Rank(lines, score) == Lines(sorted);
    SortedSpec(its, score);
    hide Sorted, Items, Lines, InOrder, Numbers, InAhead, Indices, Rank, Numbered;
    ItemsNumbered(lines, sorted);
    order := Indices(sorted);
    SameSize(sorted, its);
    NumbersAhead(lines, score, sorted, order);
    forall k: nat | k < |lines| ensures k in order {
      EveryNumber(lines, sorted, order, k);
    }
    forall i | 0 <= i < |order| ensures Rank(lines, score)[i] == lines[order[i]] {
      LineAt(lines, sorted, order, i);
    }
  }

  lemma {:induction false} LineAt(lines: seq<Line>, sorted: seq<Item>, order: seq<nat>, i: nat)
    requires Numbers(lines, sorted, order) && i < |order|
    ensures order[i] < |lines| && Lines(sorted)[i] == lines[order[i]]
  {
    LinesAt(sorted, i);
  }
}

/** Dealing the server list into the five subscription links (sub-worker.js, subRoute and dropIranFailed).
    A line stands for its share link without the name; ranking is any reordering, failure reports any predicate. */
module SubLinks {
  import opened Bytes
  import opened Lists

  type Line = string

  const SUB_LINKS: nat := 5
  const SUB_MIN: nat := 50
  const SUB_MAX: nat := 100
  const BUCKET_MAX: nat := SUB_MAX - 20
  const DEALT: nat := SUB_LINKS * BUCKET_MAX

  /* ---- the pool ---- */

  /** A deduplicating pass that adds to a set shared between passes. */
  method Dedupe(ls: seq<Line>, before: set<Line>) returns (kept: seq<Line>, seen: set<Line>)
    ensures kept == Fresh(ls, before) && seen == before + (set l | l in kept)
  {
    kept, seen := [], before;
    for i := 0 to |ls|
      invariant kept == Fresh(ls[..i], before) && seen == before + (set l | l in kept)
    {
      assert ls[..i + 1][..i] == ls[..i];
      if ls[i] !in seen {
        seen := seen + {ls[i]};
        kept := kept + [ls[i]];
      }
    }
    assert ls[..|ls|] == ls;
  }

  method Split(ls: seq<Line>, isStrong: Line -> bool) returns (strong: seq<Line>, rest: seq<Line>)
    ensures strong == Where(ls, isStrong) && rest == Where(ls, Not(isStrong))
  {
    strong, rest := [], [];
    for i := 0 to |ls|
      invariant strong == Where(ls[..i], isStrong) && rest == Where(ls[..i], Not(isStrong))
    {
      assert ls[..i + 1][..i] == ls[..i];
      if isStrong(ls[i]) {
        strong := strong + [ls[i]];
      } else {
        rest := rest + [ls[i]];
      }
    }
    assert ls[..|ls|] == ls;
  }

  /** The CDN lines and the rest of the pool: no line twice, the shard's lines against the full list's others. */
  ghost predicate PoolOf(shard: seq<Line>, full: seq<Line>, cdn: seq<Line>, pool: seq<Line>) {
    && Distinct(cdn + pool)
    && (forall l :: l in cdn <==> l in shard)
    && (forall l :: l in pool <==> l in full && l !in shard)
    && |cdn| == |Fresh(shard, {})| && |pool| == |Fresh(full, set l | l in shard)|
  }

  ghost predicate ByTransport(strong: seq<Line>, rest: seq<Line>, isStrong: Line -> bool) {
    forall l :: l in strong + rest ==> (l in strong <==> isStrong(l))
  }

  /** The lines of the full list that are not CDN lines, each once. */
  function Others(shard: seq<Line>, full: seq<Line>): seq<Line> {
    Fresh(full, set l | l in shard)
  }

  /** The CDN lines, then the lines of the full list that are not among them, strong transports apart from the rest. */
  method BuildPool(shard: seq<Line>, full: seq<Line>, isStrong: Line -> bool)
    returns (cdn: seq<Line>, strong: seq<Line>, rest: seq<Line>)
    ensures PoolOf(shard, full, cdn, strong + rest)
    ensures ByTransport(strong, rest, isStrong)
    ensures cdn == Fresh(shard, {}) && strong == Where(Others(shard, full), isStrong) && rest == Where(Others(shard, full), Not(isStrong))
  {
    hide Fresh, Where;
    var seen, all, others;
    cdn, seen := Dedupe(shard, {});
    others, all := Dedupe(full, seen);
    strong, rest := Split(others, isStrong);
    FreshSpec(shard, {});
    FreshSpec(full, seen);
    assert seen == set l | l in shard;
    WhereSpec(others, isStrong);
    WhereSpec(others, Not(isStrong));
    WhereHalves(others, isStrong);
    DistinctJoin(strong, rest);
    DistinctJoin(cdn, strong + rest);
  }

  /* ---- dealing ---- */

  /** What one bucket gets: every fifth line from its own on, eighty at most. */
  function Bucket(ranked: seq<Line>, b: nat): seq<Line>
    requires b < SUB_LINKS
  {
    if ranked == [] then []
    else
      var front, i := Bucket(ranked[..|ranked| - 1], b), |ranked| - 1;
      if i % SUB_LINKS == b && |front| < BUCKET_MAX then front + [ranked[i]] else front
  }

  method Deal(ranked: seq<Line>) returns (buckets: seq<seq<Line>>)
    ensures |buckets| == SUB_LINKS && forall b :: 0 <= b < SUB_LINKS ==> buckets[b] == Bucket(ranked, b)
  {
    buckets := [[], [], [], [], []];
    for i := 0 to |ranked|
      invariant |buckets| == SUB_LINKS && forall b :: 0 <= b < SUB_LINKS ==> buckets[b] == Bucket(ranked[..i], b)
    {
      assert ranked[..i + 1][..i] == ranked[..i];
      var mine := buckets[i % SUB_LINKS];
      if |mine| < BUCKET_MAX {
        buckets := buckets[i % SUB_LINKS := mine + [ranked[i]]];
      }
    }
    assert ranked[..|ranked|] == ranked;
  }

  /** How many of n ranked lines bucket b gets. */
  function BucketSize(n: nat, b: nat): nat
    requires b < SUB_LINKS
  {
    Min(BUCKET_MAX, if n <= b then 0 else (n - b + SUB_LINKS - 1) / SUB_LINKS)
  }

  lemma {:induction false} OneMore(n: nat, b: nat)
    requires b < SUB_LINKS
    ensures var size := BucketSize(n, b);
      if n % SUB_LINKS == b && size < BUCKET_MAX
      then BucketSize(n + 1, b) == size + 1 && SUB_LINKS * size + b == n
      else BucketSize(n + 1, b) == size
  {
    var q, r := n / SUB_LINKS, n % SUB_LINKS;
    assert n == SUB_LINKS * q + r;
  }

  /** Where each dealt line lies: the j-th line of bucket b is ranked number 5j + b, for as long as there are such. */
  lemma {:induction false} BucketAt(ranked: seq<Line>, b: nat)
    requires b < SUB_LINKS
    ensures |Bucket(ranked, b)| == BucketSize(|ranked|, b)
    ensures forall j :: 0 <= j < |Bucket(ranked, b)| ==> SUB_LINKS * j + b < |ranked| && Bucket(ranked, b)[j] == ranked[SUB_LINKS * j + b]
  {
    if ranked != [] {
      var n := |ranked| - 1;
      var front, all := Bucket(ranked[..n], b), Bucket(ranked, b);
      assert all == if n % SUB_LINKS == b && |front| < BUCKET_MAX then front + [ranked[n]] else front;
      hide Bucket, BucketSize;
      BucketAt(ranked[..n], b);
      OneMore(n, b);
      forall j | 0 <= j < |all| ensures SUB_LINKS * j + b <= n && all[j] == ranked[SUB_LINKS * j + b] {
        assert j < |front| ==> SUB_LINKS * j + b < |ranked[..n]|;
      }
    }
  }

  lemma {:induction false} BucketLines(ranked: seq<Line>, line: Line, b: nat)
    requires b < SUB_LINKS
    ensures line in Bucket(ranked, b) <==> exists i :: 0 <= i < Min(DEALT, |ranked|) && ranked[i] == line && i % SUB_LINKS == b
  {
    BucketAt(ranked, b);
    hide Bucket;
    var mine := Bucket(ranked, b);
    if line in mine {
      var j :| 0 <= j < |mine| && mine[j] == line;
      var i := SUB_LINKS * j + b;
      assert ranked[i] == line && i % SUB_LINKS == b;
    }
    if i :| 0 <= i < Min(DEALT, |ranked|) && ranked[i] == line && i % SUB_LINKS == b {
      var j := i / SUB_LINKS;
      assert i == SUB_LINKS * j + b && j < |mine|;
      assert mine[j] == line;
    }
  }

  /** Every one of the first 400 ranked lines is in the bucket of its number modulo five, and in no other;
      nothing else is dealt. */
  lemma {:induction false} DealtOnce(ranked: seq<Line>, line: Line, b: nat)
    requires Distinct(ranked) && b < SUB_LINKS
    ensures line in Bucket(ranked, b) <==> exists i :: 0 <= i < Min(DEALT, |ranked|) && ranked[i] == line && i % SUB_LINKS == b
    ensures line in Bucket(ranked, b) ==> forall c :: 0 <= c < SUB_LINKS && c != b ==> line !in Bucket(ranked, c)
  {
    hide Bucket;
    BucketLines(ranked, line, b);
    if line in Bucket(ranked, b) {
      var i :| 0 <= i < Min(DEALT, |ranked|) && ranked[i] == line && i % SUB_LINKS == b;
      forall c | 0 <= c < SUB_LINKS && c != b ensures line !in Bucket(ranked, c) {
        BucketLines(ranked, line, c);
      }
    }
  }

  /* ---- one link ---- */

  /** The CDN lines whose number is, or is not, the link's own modulo five. */
  function Share(cdn: seq<Line>, b: nat, own: bool): seq<Line> {
    if cdn == [] then []
    else
      var front, i := Share(cdn[..|cdn| - 1], b, own), |cdn| - 1;
      if (i % SUB_LINKS == b) == own then front + [cdn[i]] else front
  }

  function ToppedUp(lines: seq<Line>, others: seq<Line>): seq<Line> {
    lines + others[..Min(|others|, if |lines| < SUB_MIN then SUB_MIN - |lines| else 0)]
  }

  method TopUp(lines: seq<Line>, others: seq<Line>) returns (r: seq<Line>)
    ensures r == ToppedUp(lines, others)
  {
    r := lines;
    var left := others;
    while |r| < SUB_MIN && left != []
      invariant |left| <= |others| && left == others[|others| - |left|..] && r == lines + others[..|others| - |left|]
      invariant |r| <= SUB_MIN || r == lines
      decreases |left|
    {
      assert others[..|others| - |left| + 1] == others[..|others| - |left|] + [left[0]];
      r := r + [left[0]];
      left := left[1..];
    }
  }

  function DropFailed(lines: seq<Line>, failed: Line -> bool, min: nat): seq<Line> {
    var kept := Where(lines, Not(failed));
    if |kept| >= min then kept else lines
  }

  /** The lines of link b before they are ranked again: its own CDN share, its bucket, other links' CDN lines. */
  function Gathered(ranked: seq<Line>, cdn: seq<Line>, b: nat): seq<Line>
    requires b < SUB_LINKS
  {
    ToppedUp(Share(cdn, b, true) + Bucket(ranked, b), Share(cdn, b, false))
  }

  function Finished(lines: seq<Line>, rank: seq<Line> -> seq<Line>, failed: Line -> bool): seq<Line> {
    var clean := DropFailed(rank(lines), failed, SUB_MIN);
    clean[..Min(|clean|, SUB_MAX)]
  }

  function Link(ranked: seq<Line>, cdn: seq<Line>, b: nat, rank: seq<Line> -> seq<Line>, failed: Line -> bool): seq<Line>
    requires b < SUB_LINKS
  {
    Finished(Gathered(ranked, cdn, b), rank, failed)
  }

  lemma {:induction false} ShareSpec(cdn: seq<Line>, b: nat)
    requires Distinct(cdn)
    ensures |Share(cdn, b, true)| + |Share(cdn, b, false)| == |cdn|
    ensures forall l :: l in cdn <==> l in Share(cdn, b, true) || l in Share(cdn, b, false)
    ensures Distinct(Share(cdn, b, true)) && Distinct(Share(cdn, b, false)) && Apart(Share(cdn, b, true), Share(cdn, b, false))
  {
    if cdn != [] {
      var front := cdn[..|cdn| - 1];
      DistinctParts(front, [cdn[|cdn| - 1]]);
      ShareSpec(front, b);
      assert cdn == front + [cdn[|cdn| - 1]];
      DistinctJoin(Share(front, b, (|cdn| - 1) % SUB_LINKS == b), [cdn[|cdn| - 1]]);
    }
  }

  /** A CDN line's own share is the one its number says. */
  lemma {:induction false} ShareAt(cdn: seq<Line>, b: nat, i: nat)
    requires Distinct(cdn) && i < |cdn|
    ensures cdn[i] in Share(cdn, b, true) <==> i % SUB_LINKS == b
  {
    var front, last := cdn[..|cdn| - 1], |cdn| - 1;
    if i < last {
      ShareAt(front, b, i);
    } else {
      ShareSpec(front, b);
    }
  }

  /** Every CDN line is in the share of exactly one link. */
  lemma {:induction false} OneShareEach(cdn: seq<Line>, line: Line)
    requires Distinct(cdn) && line in cdn
    ensures exists b ::
      (0 <= b < SUB_LINKS && line in Share(cdn, b, true) && forall c :: 0 <= c < SUB_LINKS && line in Share(cdn, c, true) ==> c == b)
  {
    var i :| 0 <= i < |cdn| && cdn[i] == line;
    var b := i % SUB_LINKS;
    ShareAt(cdn, b, i);
    forall c | 0 <= c < SUB_LINKS && line in Share(cdn, c, true) ensures c == b {
      ShareAt(cdn, c, i);
    }
  }

  ghost predicate Reorders(rank: seq<Line> -> seq<Line>) {
    forall ls :: multiset(rank(ls)) == multiset(ls)
  }

  lemma {:induction false} RankSpec(rank: seq<Line> -> seq<Line>, ls: seq<Line>)
    requires Reorders(rank) && Distinct(ls)
    ensures Distinct(rank(ls)) && |rank(ls)| == |ls| && forall l :: l in rank(ls) <==> l in ls
  {
    SameBag(rank(ls), ls);
  }

  /** A link never repeats a line, offers only its bucket and CDN lines, has at most 100 of them, and at
      least 50 whenever its bucket and the CDN lines together come to 50, all of them otherwise. */
  lemma {:induction false} LinkSize(ranked: seq<Line>, cdn: seq<Line>, b: nat, rank: seq<Line> -> seq<Line>, failed: Line -> bool)
    requires Distinct(ranked + cdn) && b < SUB_LINKS
    requires Reorders(rank)
    ensures var link := Link(ranked, cdn, b, rank, failed);
      && Distinct(link) && (forall l :: l in link ==> l in Bucket(ranked, b) || l in cdn)
      && Min(SUB_MIN, |Bucket(ranked, b)| + |cdn|) <= |link| <= SUB_MAX
  {
    hide Gathered, Finished, Bucket, Distinct, Reorders;
    GatheredSpec(ranked, cdn, b);
    FinishedSpec(Gathered(ranked, cdn, b), rank, failed);
  }

  lemma {:induction false} GatheredSpec(ranked: seq<Line>, cdn: seq<Line>, b: nat)
    requires Distinct(ranked + cdn) && b < SUB_LINKS
    ensures var lines := Gathered(ranked, cdn, b);
      && Distinct(lines) && (forall l :: l in lines ==> l in Bucket(ranked, b) || l in cdn)
      && |lines| >= Min(SUB_MIN, |Bucket(ranked, b)| + |cdn|)
  {
    DistinctParts(ranked, cdn);
    hide Share, Bucket, Distinct, ToppedUp;
    ShareSpec(cdn, b);
    BucketDistinct(ranked, b);
    ToppedUpSpec(Share(cdn, b, true), Bucket(ranked, b), Share(cdn, b, false));
  }

  lemma {:induction false} FinishedSpec(lines: seq<Line>, rank: seq<Line> -> seq<Line>, failed: Line -> bool)
    requires Distinct(lines) && Reorders(rank)
    ensures var link := Finished(lines, rank, failed);
      Distinct(link) && (forall l :: l in link ==> l in lines) && Min(SUB_MIN, |lines|) <= |link| <= SUB_MAX
  {
    hide Distinct, Reorders, DropFailed;
    RankSpec(rank, lines);
    CleanSpec(rank(lines), failed);
    var clean := DropFailed(rank(lines), failed, SUB_MIN);
    HeadSpec(clean, Min(|clean|, SUB_MAX));
  }

  lemma {:induction false} ToppedUpSpec(own: seq<Line>, mine: seq<Line>, others: seq<Line>)
    requires Distinct(own) && Distinct(mine) && Distinct(others) && Apart(own, others) && Apart(mine, own) && Apart(mine, others)
    ensures var lines := ToppedUp(own + mine, others);
      && Distinct(lines) && |lines| >= Min(SUB_MIN, |own| + |mine| + |others|)
      && forall l :: l in lines ==> l in own || l in mine || l in others
  {
    var extra := others[..Min(|others|, if |own + mine| < SUB_MIN then SUB_MIN - |own + mine| else 0)];
    HeadSpec(others, |extra|);
    DistinctJoin(own, mine);
    DistinctJoin(own + mine, extra);
  }

  lemma {:induction false} CleanSpec(ls: seq<Line>, failed: Line -> bool)
    requires Distinct(ls)
    ensures var clean := DropFailed(ls, failed, SUB_MIN);
      Distinct(clean) && (forall l :: l in clean ==> l in ls) && |clean| >= Min(SUB_MIN, |ls|)
  {
    WhereSpec(ls, Not(failed));
  }

  lemma {:induction false} BucketDistinct(ranked: seq<Line>, b: nat)
    requires Distinct(ranked) && b < SUB_LINKS
    ensures Distinct(Bucket(ranked, b)) && forall l :: l in Bucket(ranked, b) ==> l in ranked
  {
    BucketAt(ranked, b);
  }

  /* ---- a request for one link ---- */

  method SplitShare(cdn: seq<Line>, b: nat) returns (own: seq<Line>, others: seq<Line>)
    ensures own == Share(cdn, b, true) && others == Share(cdn, b, false)
  {
    own, others := [], [];
    for i := 0 to |cdn|
      invariant own == Share(cdn[..i], b, true) && others == Share(cdn[..i], b, false)
    {
      assert cdn[..i + 1][..i] == cdn[..i];
      if i % SUB_LINKS == b {
        own := own + [cdn[i]];
      } else {
        others := others + [cdn[i]];
      }
    }
    assert cdn[..|cdn|] == cdn;
  }

  datatype Answer = NotFound | Unavailable | Served(lines: seq<Line>)

  /** What a request for link n may be answered with, given the two source lists. */
  ghost predicate GoodAnswer(shard: seq<Line>, full: seq<Line>, n: int, a: Answer) {
    match a
    case NotFound => !(1 <= n <= SUB_LINKS)
    case Unavailable => 1 <= n <= SUB_LINKS && shard == [] && |Fresh(full, {})| < n
    case Served(lines) =>
      && 1 <= n <= SUB_LINKS && Distinct(lines) && (forall l :: l in lines ==> l in shard || l in full)
      && Min(SUB_MIN, |Fresh(shard, {})| + BucketSize(|Fresh(full, set l | l in shard)|, n - 1)) <= |lines| <= SUB_MAX
      && lines != []
  }

  function Answering(ranked: seq<Line>, cdn: seq<Line>, b: nat, rank: seq<Line> -> seq<Line>, failed: Line -> bool): Answer
    requires b < SUB_LINKS
  {
    if Gathered(ranked, cdn, b) == [] then Unavailable else Served(Link(ranked, cdn, b, rank, failed))
  }

  lemma {:induction false} Answered(shard: seq<Line>, full: seq<Line>, cdn: seq<Line>, pool: seq<Line>, n: nat,
                                    rank: seq<Line> -> seq<Line>, failed: Line -> bool)
    requires 1 <= n <= SUB_LINKS && Reorders(rank) && PoolOf(shard, full, cdn, pool)
    ensures GoodAnswer(shard, full, n, Answering(rank(pool), rank(cdn), n - 1, rank, failed))
  {
    var ranked, cdnRanked, b := rank(pool), rank(cdn), n - 1;
    hide Fresh, Share, Bucket, Where, BucketSize, Distinct, Link, DropFailed, Reorders, ToppedUp;
    RankedPool(shard, full, cdn, pool, rank);
    if Gathered(ranked, cdnRanked, b) == [] {
      NothingGathered(ranked, cdnRanked, b);
      NothingIn(shard, cdnRanked);
    } else {
      SomethingGathered(ranked, cdnRanked, b);
      hide Gathered;
      LinkSize(ranked, cdnRanked, b, rank, failed);
      BucketAt(ranked, b);
      BucketDistinct(ranked, b);
    }
  }

  lemma {:induction false} NothingGathered(ranked: seq<Line>, cdn: seq<Line>, b: nat)
    requires b < SUB_LINKS && Distinct(cdn) && Gathered(ranked, cdn, b) == []
    ensures |ranked| <= b && cdn == []
  {
    BucketAt(ranked, b);
    ShareSpec(cdn, b);
    hide Bucket, Share;
  }

  lemma {:induction false} SomethingGathered(ranked: seq<Line>, cdn: seq<Line>, b: nat)
    requires b < SUB_LINKS && Distinct(cdn) && Gathered(ranked, cdn, b) != []
    ensures |Bucket(ranked, b)| + |cdn| > 0
  {
    ShareSpec(cdn, b);
    hide Bucket, Share;
  }

  lemma {:induction false} RankedPool(shard: seq<Line>, full: seq<Line>, cdn: seq<Line>, pool: seq<Line>, rank: seq<Line> -> seq<Line>)
    requires Reorders(rank) && PoolOf(shard, full, cdn, pool)
    ensures PoolOf(shard, full, rank(cdn), rank(pool)) && Distinct(rank(cdn)) && Distinct(rank(pool)) && Distinct(rank(pool) + rank(cdn))
  {
    hide Fresh;
    DistinctParts(cdn, pool);
    hide Distinct, Reorders;
    RankSpec(rank, pool);
    RankSpec(rank, cdn);
    DistinctJoin(rank(pool), rank(cdn));
    DistinctJoin(rank(cdn), rank(pool));
  }

  lemma {:induction false} NothingIn(ls: seq<Line>, none: seq<Line>)
    requires none == [] && forall l :: l in ls ==> l in none
    ensures ls == [] && (set l | l in ls) == {}
  {
    FirstIn(ls);
  }

  lemma {:induction false} FirstIn(ls: seq<Line>)
    ensures ls != [] ==> ls[0] in ls
  {
  }

  /** The answer to a request for link n. */
  function SubAnswer(shard: seq<Line>, full: seq<Line>, n: int, isStrong: Line -> bool,
                     rank: seq<Line> -> seq<Line>, failed: Line -> bool): Answer
  {
    if !(1 <= n <= SUB_LINKS) then NotFound
    else
      var others := Others(shard, full);
      Answering(rank(Where(others, isStrong) + Where(others, Not(isStrong))), rank(Fresh(shard, {})), n - 1, rank, failed)
  }

  method SubRoute(shard: seq<Line>, full: seq<Line>, n: int, isStrong: Line -> bool,
                  rank: seq<Line> -> seq<Line>, failed: Line -> bool) returns (a: Answer)
    requires Reorders(rank)
    ensures GoodAnswer(shard, full, n, a) && a == SubAnswer(shard, full, n, isStrong, rank, failed)
  {
    if !(1 <= n <= SUB_LINKS) {
      return NotFound;
    }
    a := LinkRoute(shard, full, n, isStrong, rank, failed);
  }

  lemma {:induction false} AnswerIs(shard: seq<Line>, full: seq<Line>, n: nat, isStrong: Line -> bool,
                                    rank: seq<Line> -> seq<Line>, failed: Line -> bool)
    requires 1 <= n <= SUB_LINKS
    ensures n - 1 < SUB_LINKS
    ensures var others := Others(shard, full);
      SubAnswer(shard, full, n, isStrong, rank, failed)
        == Answering(rank(Where(others, isStrong) + Where(others, Not(isStrong))), rank(Fresh(shard, {})), n - 1, rank, failed)
  {
  }

  /** A request for a link there is. */
  method LinkRoute(shard: seq<Line>, full: seq<Line>, n: nat, isStrong: Line -> bool,
                   rank: seq<Line> -> seq<Line>, failed: Line -> bool) returns (a: Answer)
    requires 1 <= n <= SUB_LINKS && Reorders(rank)
    ensures GoodAnswer(shard, full, n, a) && a == SubAnswer(shard, full, n, isStrong, rank, failed)
  {
    hide *;
    AnswerIs(shard, full, n, isStrong, rank, failed);
    var cdn, strong, rest := BuildPool(shard, full, isStrong);
    var ranked, cdnRanked := rank(strong + rest), rank(cdn);
    Answered(shard, full, cdn, strong + rest, n, rank, failed);
    a := Respond(ranked, cdnRanked, n - 1, rank, failed);
  }

  /** The rest of a request once the pool is ranked. */
  method Respond(ranked: seq<Line>, cdn: seq<Line>, b: nat, rank: seq<Line> -> seq<Line>, failed: Line -> bool)
    returns (a: Answer)
    requires b < SUB_LINKS
    ensures a == Answering(ranked, cdn, b, rank, failed)
  {
    hide Share, Bucket, Where, ToppedUp, DropFailed;
    var buckets := Deal(ranked);
    var own, others := SplitShare(cdn, b);
    var lines := TopUp(own + buckets[b], others);
    if lines == [] {
      return Unavailable;
    }
    var clean := DropFailed(rank(lines), failed, SUB_MIN);
    return Served(clean[..Min(|clean|, SUB_MAX)]);
  }
}

/** What a subscription link holds, line by line (sub-worker.js, subRoute). */
module LinkExact {
  import opened Bytes
  import opened Lists
  import opened SubLinks

  /** Every fifth line from one's own on, or all the others. */
  function Fifth(n: nat, b: nat, own: bool): nat -> bool {
    (k: nat) => k < n && (k % 5 == b) == own
  }

  lemma {:induction false} SharePart(cdn: seq<Line>, b: nat, own: bool)
    ensures PartOf(Share(cdn, b, own), cdn, Fifth(|cdn|, b, own))
  {
    hide PartOf;
    if cdn == [] {
      PartNone(cdn, Fifth(|cdn|, b, own));
    } else {
      var last: nat := |cdn| - 1;
      SharePart(cdn[..last], b, own);
      PartSnoc(Share(cdn[..last], b, own), cdn, Fifth(last, b, own), Fifth(|cdn|, b, own), last);
    }
  }

  /** Lines dealt to a link: every fifth from its own on, as long as there are any, but eighty at most. */
  ghost predicate DealtTo(mine: seq<Line>, ranked: seq<Line>, b: nat) {
    && |mine| <= 80 && (forall j :: 0 <= j < |mine| ==> 5 * j + b < |ranked| && mine[j] == ranked[5 * j + b])
    && (|mine| == 80 || 5 * |mine| + b >= |ranked|)
  }

  lemma {:induction false} BucketExact(ranked: seq<Line>, b: nat)
    requires b < 5
    ensures DealtTo(Bucket(ranked, b), ranked, b)
  {
    BucketAt(ranked, b);
    hide Bucket;
  }

  /** How an answer comes about. */
  datatype Steps = Steps(cdn: seq<Line>, others: seq<Line>, strong: seq<Line>, rest: seq<Line>, own: seq<Line>, mine: seq<Line>,
                         foreign: seq<Line>, more: seq<Line>, again: seq<Line>, sound: seq<Line>)

  /** The CDN lines and the others, each once where it first appears; of the others the strong ones apart. */
  ghost predicate Sources(shard: seq<Line>, full: seq<Line>, isStrong: Line -> bool, s: Steps) {
    && PartOf(s.cdn, shard, (k: nat) => k < |shard| && shard[k] !in shard[..k])
    && PartOf(s.others, full, (k: nat) => k < |full| && full[k] !in shard && full[k] !in full[..k])
    && PartOf(s.strong, s.others, (k: nat) => k < |s.others| && isStrong(s.others[k]))
    && PartOf(s.rest, s.others, (k: nat) => k < |s.others| && !isStrong(s.others[k]))
  }

  /** One's own fifth of the CDN lines and of the ranked ones, and then as many of the other CDN lines as it takes to come to 50. */
  ghost predicate Gathers(b: nat, rank: seq<Line> -> seq<Line>, s: Steps) {
    var cdn := rank(s.cdn);
    && PartOf(s.own, cdn, (k: nat) => k < |cdn| && k % 5 == b)
    && PartOf(s.foreign, cdn, (k: nat) => k < |cdn| && k % 5 != b)
    && DealtTo(s.mine, rank(s.strong + s.rest), b)
    && s.more <= s.foreign && |s.more| == Min(|s.foreign|, if |s.own + s.mine| < 50 then 50 - |s.own + s.mine| else 0)
  }

  /** The answer: the lines gathered, ranked again, without failed ones if 50 others are left, and 100 at most. */
  ghost predicate Gives(a: Answer, rank: seq<Line> -> seq<Line>, failed: Line -> bool, s: Steps) {
    && s.again == rank(s.own + s.mine + s.more)
    && PartOf(s.sound, s.again, (k: nat) => k < |s.again| && !failed(s.again[k]))
    && (s.own + s.mine + s.more == [] ==> a.Unavailable?)
    && (s.own + s.mine + s.more != [] ==> a.Served? && a.lines <= Offered(s) && |a.lines| == Min(|Offered(s)|, 100))
  }

  function Offered(s: Steps): seq<Line> {
    if |s.sound| >= 50 then s.sound else s.again
  }

  lemma {:induction false} SourcesHold(shard: seq<Line>, full: seq<Line>, isStrong: Line -> bool, s: Steps)
    requires s.cdn == Fresh(shard, {}) && s.others == Others(shard, full)
    requires s.strong == Where(s.others, isStrong) && s.rest == Where(s.others, Not(isStrong))
    ensures Sources(shard, full, isStrong, s)
  {
    FreshPart(shard, {});
    FreshPart(full, (set l | l in shard));
    WherePart(s.others, isStrong);
    WherePart(s.others, Not(isStrong));
    hide PartOf, Fresh, Where;
    PartSame(s.cdn, shard, (k: nat) => NewAt(shard, {}, k), (k: nat) => k < |shard| && shard[k] !in shard[..k]);
    PartSame(s.others, full, (k: nat) => NewAt(full, (set l | l in shard), k), (k: nat) => k < |full| && full[k] !in shard && full[k] !in full[..k]);
    PartSame(s.strong, s.others, KeptAt(s.others, isStrong), (k: nat) => k < |s.others| && isStrong(s.others[k]));
    PartSame(s.rest, s.others, KeptAt(s.others, Not(isStrong)), (k: nat) => k < |s.others| && !isStrong(s.others[k]));
  }

  lemma {:induction false} GathersHold(b: nat, rank: seq<Line> -> seq<Line>, s: Steps)
    requires b < 5 && s.own == Share(rank(s.cdn), b, true) && s.foreign == Share(rank(s.cdn), b, false)
    requires s.mine == Bucket(rank(s.strong + s.rest), b) && ToppedUp(s.own + s.mine, s.foreign) == s.own + s.mine + s.more
    ensures Gathers(b, rank, s)
  {
    var cdn := rank(s.cdn);
    SharePart(cdn, b, true);
    SharePart(cdn, b, false);
    BucketExact(rank(s.strong + s.rest), b);
    hide PartOf, Share, Bucket, DealtTo;
    PartSame(s.own, cdn, Fifth(|cdn|, b, true), (k: nat) => k < |cdn| && k % 5 == b);
    PartSame(s.foreign, cdn, Fifth(|cdn|, b, false), (k: nat) => k < |cdn| && k % 5 != b);
    TopUpIs(s.own + s.mine, s.foreign, s.more);
  }

  lemma {:induction false} TopUpIs(lines: seq<Line>, others: seq<Line>, more: seq<Line>)
    requires ToppedUp(lines, others) == lines + more
    ensures more <= others && |more| == Min(|others|, if |lines| < 50 then 50 - |lines| else 0)
  {
    var k := Min(|others|, if |lines| < SUB_MIN then SUB_MIN - |lines| else 0);
    assert more == (lines + more)[|lines|..] == (lines + others[..k])[|lines|..] == others[..k];
  }

  lemma {:induction false} GivesHold(a: Answer, rank: seq<Line> -> seq<Line>, failed: Line -> bool, s: Steps)
    requires s.again == rank(s.own + s.mine + s.more) && s.sound == Where(s.again, Not(failed))
    requires a == if s.own + s.mine + s.more == [] then Unavailable else Served(Finished(s.own + s.mine + s.more, rank, failed))
    ensures Gives(a, rank, failed, s)
  {
    WherePart(s.again, Not(failed));
    hide PartOf, Where;
    PartSame(s.sound, s.again, KeptAt(s.again, Not(failed)), (k: nat) => k < |s.again| && !failed(s.again[k]));
  }

  /** The answer to a request for any of the links, whole. */
  lemma {:induction false} AnswerExact(shard: seq<Line>, full: seq<Line>, n: int, isStrong: Line -> bool,
                                       rank: seq<Line> -> seq<Line>, failed: Line -> bool) returns (s: Steps)
    ensures var a := SubAnswer(shard, full, n, isStrong, rank, failed);
      && (a.NotFound? <==> !(1 <= n <= 5))
      && (1 <= n <= 5 ==> Sources(shard, full, isStrong, s) && Gathers(n - 1, rank, s) && Gives(a, rank, failed, s))
  {
    hide PartOf, Fresh, Where, Share, Bucket, Gathers, Gives, Sources, Finished;
    var others := Others(shard, full);
    var cdn, strong, rest := Fresh(shard, {}), Where(others, isStrong), Where(others, Not(isStrong));
    s := Steps(cdn, others, strong, rest, [], [], [], [], [], []);
    if 1 <= n <= 5 {
      var b := n - 1;
      var own, mine, foreign := Share(rank(cdn), b, true), Bucket(rank(strong + rest), b), Share(rank(cdn), b, false);
      var lines := ToppedUp(own + mine, foreign);
      var more := lines[|own + mine|..];
      assert own + mine + more == lines;
      s := Steps(cdn, others, strong, rest, own, mine, foreign, more, rank(lines), Where(rank(lines), Not(failed)));
      hide ToppedUp;
      SourcesHold(shard, full, isStrong, s);
      GathersHold(b, rank, s);
      GivesHold(SubAnswer(shard, full, n, isStrong, rank, failed), rank, failed, s);
    }
  }
}

/** Incremental capsule reassembly under a hard buffer cap (masque.rs, CapsuleParser) and the drain loop of its callers. */
module CapsuleStream {
  import opened Bytes
  import opened Masque
  import Varint

  const MAX_CAPSULE_BUF: nat := 256 * 1024

  /** The capsule at the front of a buffer, not yet interpreted. */
  datatype Frame = Incomplete | Whole(kind: nat, value: seq<byte>, size: nat)

  function NextFrame(buf: seq<byte>): (f: Frame)
    ensures f.Whole? ==> 2 <= f.size <= |buf| && f.kind < Varint.LIMIT
  {
    match Varint.Decode(buf)
    case None => Incomplete
    case Some((kind, a)) =>
      Varint.DecodeCanonical(buf);
      match Varint.Decode(buf[a..])
      case None => Incomplete
      case Some((len, b)) =>
        Varint.DecodeCanonical(buf[a..]);
        if |buf| < a + b + len then Incomplete else Whole(kind, buf[a + b..a + b + len], a + b + len)
  }

  datatype Step = NeedMore | Parsed(capsule: Capsule) | Malformed

  function Interpret(kind: nat, value: seq<byte>): (s: Step)
    ensures !s.NeedMore?
  {
    if kind == CAPSULE_ADDRESS_ASSIGN then
      (match Addresses(value) case None => Malformed case Some(list) => Parsed(AddressAssign(list)))
    else if kind == CAPSULE_ADDRESS_REQUEST then Parsed(AddressRequest)
    else if kind == CAPSULE_ROUTE_ADVERTISEMENT then
      (match RouteList(value) case None => Malformed case Some(list) => Parsed(Routes(list)))
    else if kind == CAPSULE_DATAGRAM then Parsed(Datagram(value))
    else Parsed(Unknown(kind, value))
  }

  /** Every complete capsule of a byte string, decoded in one go. */
  function DecodeAll(buf: seq<byte>): seq<Step>
    decreases |buf|
  {
    match NextFrame(buf)
    case Incomplete => []
    case Whole(kind, value, size) => [Interpret(kind, value)] + DecodeAll(buf[size..])
  }

  /** What one drain delivers and leaves: it stops at the first incomplete or malformed capsule. */
  function Drained(buf: seq<byte>): (seq<Step>, seq<byte>)
    decreases |buf|
  {
    match NextFrame(buf)
    case Incomplete => ([], buf)
    case Whole(kind, value, size) =>
      if Interpret(kind, value).Malformed? then ([Malformed], buf[size..])
      else
        var (steps, rest) := Drained(buf[size..]);
        ([Interpret(kind, value)] + steps, rest)
  }

  lemma {:induction false} DrainOne(buf: seq<byte>)
    requires NextFrame(buf).Whole?
    ensures var Whole(kind, value, size) := NextFrame(buf);
      var step, rest := Interpret(kind, value), Drained(buf[size..]);
      Drained(buf) == if step.Malformed? then ([step], buf[size..]) else ([step] + rest.0, rest.1)
  {
  }

  function Pushed(buf: seq<byte>, data: seq<byte>): seq<byte> {
    if |buf| + |data| > MAX_CAPSULE_BUF then [] else buf + data
  }

  /** The reads of one turn, all pushed before anything is drained. */
  function PushedAll(buf: seq<byte>, batch: seq<seq<byte>>): seq<byte>
    decreases |batch|
  {
    if batch == [] then buf else PushedAll(Pushed(buf, batch[0]), batch[1..])
  }

  /** A receive loop: push a batch of reads, drain, repeat. */
  function Received(buf: seq<byte>, batches: seq<seq<seq<byte>>>): (seq<Step>, seq<byte>)
    decreases |batches|
  {
    if batches == [] then ([], buf)
    else
      var (steps, rest) := Drained(PushedAll(buf, batches[0]));
      var (more, last) := Received(rest, batches[1..]);
      (steps + more, last)
  }

  class CapsuleParser {
    var buf: seq<byte>

    ghost predicate Valid()
      reads this
    {
      |buf| <= MAX_CAPSULE_BUF
    }

    constructor ()
      ensures Valid() && buf == []
    {
      buf := [];
    }

    method Push(data: seq<byte>)
      requires Valid()
      modifies this
      ensures Valid()
      ensures buf == Pushed(old(buf), data)
    {
      if |buf| + |data| > MAX_CAPSULE_BUF {
        buf := [];
        return;
      }
      buf := buf + data;
    }

    /** One capsule off the front; its bytes are gone even when its body is malformed. */
    method Next() returns (step: Step)
      requires Valid()
      modifies this
      ensures Valid()
      ensures match NextFrame(old(buf))
        case Incomplete => step == NeedMore && buf == old(buf)
        case Whole(kind, value, size) => step == Interpret(kind, value) && buf == old(buf)[size..]
    {
      hide Varint.Decode, Addresses, RouteList;
      var kindField := Varint.Decode(buf);
      if kindField.None? {
        return NeedMore;
      }
      var (kind, a) := kindField.value;
      Varint.DecodeCanonical(buf);
      var lenField := Varint.Decode(buf[a..]);
      if lenField.None? {
        return NeedMore;
      }
      var (len, b) := lenField.value;
      Varint.DecodeCanonical(buf[a..]);
      if |buf| - a - b < len {
        return NeedMore;
      }
      var value := buf[a + b..a + b + len];
      buf := buf[a + b + len..];
      if kind == CAPSULE_ADDRESS_ASSIGN {
        var list := ParseAddressAssign(value);
        step := if list.None? then Malformed else Parsed(AddressAssign(list.value));
      } else if kind == CAPSULE_ADDRESS_REQUEST {
        step := Parsed(AddressRequest);
      } else if kind == CAPSULE_ROUTE_ADVERTISEMENT {
        var list := ParseRouteAdvertisement(value);
        step := if list.None? then Malformed else Parsed(Routes(list.value));
      } else if kind == CAPSULE_DATAGRAM {
        step := Parsed(Datagram(value));
      } else {
        step := Parsed(Unknown(kind, value));
      }
    }

    method Drain() returns (steps: seq<Step>)
      requires Valid()
      modifies this
      ensures Valid()
      ensures (steps, buf) == Drained(old(buf))
    {
      hide Interpret;
      steps := [];
      assert [] + Drained(buf).0 == Drained(buf).0;
      while true
        invariant Valid()
        invariant Drained(old(buf)) == (steps + Drained(buf).0, Drained(buf).1)
        decreases |buf|
      {
        ghost var before, had := buf, steps;
        var step := Next();
        if step.NeedMore? {
          assert steps + [] == steps;
          break;
        }
        DrainOne(before);
        steps := steps + [step];
        if step.Malformed? {
          return;
        }
        assert had + ([step] + Drained(buf).0) == steps + Drained(buf).0;
      }
    }

    method PushAll(batch: seq<seq<byte>>)
      requires Valid()
      modifies this
      ensures Valid()
      ensures buf == PushedAll(old(buf), batch)
    {
      hide Pushed;
      assert batch[0..] == batch;
      for i := 0 to |batch|
        invariant Valid()
        invariant PushedAll(old(buf), batch) == PushedAll(buf, batch[i..])
      {
        assert batch[i..][1..] == batch[i + 1..];
        Push(batch[i]);
      }
      assert batch[|batch|..] == [];
    }

    method Receive(batches: seq<seq<seq<byte>>>) returns (steps: seq<Step>)
      requires Valid()
      modifies this
      ensures Valid()
      ensures (steps, buf) == Received(old(buf), batches)
    {
      hide Drained, PushedAll;
      steps := [];
      assert batches[0..] == batches;
      assert [] + Received(buf, batches).0 == Received(buf, batches).0;
      for i := 0 to |batches|
        invariant Valid()
        invariant Received(old(buf), batches) == (steps + Received(buf, batches[i..]).0, Received(buf, batches[i..]).1)
      {
        ghost var before, had := buf, steps;
        PushAll(batches[i]);
        var more := Drain();
        steps := steps + more;
        assert batches[i..][1..] == batches[i + 1..];
        assert Received(before, batches[i..]).0 == more + Received(buf, batches[i + 1..]).0;
        assert had + (more + Received(buf, batches[i + 1..]).0) == steps + Received(buf, batches[i + 1..]).0;
      }
      assert batches[|batches|..] == [] && steps + [] == steps;
    }
  }

  /* ---- what a capsule means does not depend on what follows it ---- */

  /** A frame whose two fields are read. */
  lemma {:induction false} FrameIs(s: seq<byte>, kind: nat, a: nat, len: nat, b: nat)
    requires Varint.Decode(s) == Some((kind, a)) && a <= |s| && Varint.Decode(s[a..]) == Some((len, b))
    ensures NextFrame(s) == if |s| < a + b + len then Incomplete else Whole(kind, s[a + b..a + b + len], a + b + len)
  {
    Varint.DecodeCanonical(s);
    Varint.DecodeCanonical(s[a..]);
    hide Varint.Decode;
  }

  lemma {:induction false} FrameFields(s: seq<byte>) returns (kind: nat, a: nat, len: nat, b: nat)
    requires NextFrame(s).Whole?
    ensures Varint.Decode(s) == Some((kind, a)) && a <= |s| && Varint.Decode(s[a..]) == Some((len, b))
    ensures b <= |s[a..]| && a + b + len <= |s|
  {
    kind, a := Varint.Decode(s).value.0, Varint.Decode(s).value.1;
    Varint.DecodeCanonical(s);
    len, b := Varint.Decode(s[a..]).value.0, Varint.Decode(s[a..]).value.1;
    Varint.DecodeCanonical(s[a..]);
    hide Varint.Decode;
  }

  lemma {:induction false} FrameLocal(s: seq<byte>, t: seq<byte>)
    requires NextFrame(s).Whole?
    ensures NextFrame(s + t) == NextFrame(s)
  {
    hide *;
    var kind, a, len, b := FrameFields(s);
    Varint.DecodeLocal(s, t);
    Varint.DecodeLocal(s[a..], t);
    assert (s + t)[a..] == s[a..] + t;
    FrameIs(s, kind, a, len, b);
    FrameIs(s + t, kind, a, len, b);
    assert (s + t)[a + b..a + b + len] == s[a + b..a + b + len];
  }

  /** A frame from its two fields. */
  lemma {:induction false} FrameFromFields(k: seq<byte>, n: seq<byte>, kind: nat, value: seq<byte>, rest: seq<byte>)
    requires Varint.Decode(k + (n + value + rest)) == Some((kind, |k|)) && kind < Varint.LIMIT
    requires Varint.Decode(n + (value + rest)) == Some((|value|, |n|))
    requires |k| >= 1 && |n| >= 1
    ensures NextFrame(k + n + value + rest) == Whole(kind, value, |k| + |n| + |value|)
  {
    hide *;
    var s := k + n + value + rest;
    assert s == k + (n + value + rest);
    assert s[|k|..] == n + (value + rest);
    assert s[|k| + |n|..|k| + |n| + |value|] == value;
    FrameIs(s, kind, |k|, |value|, |n|);
  }

  /** An encoded capsule is read back whole, whatever trails it. */
  lemma {:induction false} CapsuleRoundTrip(kind: nat, value: seq<byte>, rest: seq<byte>)
    requires kind < Varint.LIMIT && |value| < Varint.LIMIT
    ensures NextFrame(EncodeCapsule(kind, value) + rest) == Whole(kind, value, |EncodeCapsule(kind, value)|)
  {
    var k, n := Varint.Encode(kind), Varint.Encode(|value|);
    Varint.RoundTrip(kind, n + value + rest);
    Varint.RoundTrip(|value|, value + rest);
    FrameFromFields(k, n, kind, value, rest);
    assert EncodeCapsule(kind, value) == k + n + value;
  }

  /** A capsule with a malformed body costs its own bytes and nothing else. */
  lemma {:induction false} MalformedCostsItself(kind: nat, value: seq<byte>, rest: seq<byte>)
    requires kind < Varint.LIMIT && |value| < Varint.LIMIT && Interpret(kind, value).Malformed?
    ensures Drained(EncodeCapsule(kind, value) + rest) == ([Malformed], rest)
    ensures DecodeAll(EncodeCapsule(kind, value) + rest) == [Malformed] + DecodeAll(rest)
  {
    CapsuleRoundTrip(kind, value, rest);
    var e := EncodeCapsule(kind, value);
    assert (e + rest)[|e|..] == rest;
  }

  lemma {:induction false} DecodeOne(buf: seq<byte>, f: Frame, step: Step, rest: seq<byte>)
    requires NextFrame(buf) == f && f.Whole? && step == Interpret(f.kind, f.value) && rest == buf[f.size..]
    ensures DecodeAll(buf) == [step] + DecodeAll(rest)
  {
  }

  /** One whole capsule in front, with or without more bytes behind. */
  lemma {:induction false} FrontCapsule(s: seq<byte>, t: seq<byte>, step: Step, rest: seq<byte>)
    requires NextFrame(s).Whole?
    requires step == Interpret(NextFrame(s).kind, NextFrame(s).value) && rest == s[NextFrame(s).size..]
    ensures DecodeAll(s + t) == [step] + DecodeAll(rest + t)
    ensures Drained(s) == if step.Malformed? then ([step], rest) else ([step] + Drained(rest).0, Drained(rest).1)
  {
    hide NextFrame, Interpret, DecodeAll, Drained;
    var f := NextFrame(s);
    FrameLocal(s, t);
    DrainOne(s);
    assert (s + t)[f.size..] == rest + t;
    DecodeOne(s + t, f, step, rest + t);
  }

  lemma {:induction false} NothingDrained(s: seq<byte>)
    requires NextFrame(s).Incomplete?
    ensures Drained(s) == ([], s)
  {
  }

  lemma {:induction false} DrainThenMore(s: seq<byte>, t: seq<byte>)
    ensures DecodeAll(s + t) == Drained(s).0 + DecodeAll(Drained(s).1 + t)
    ensures Malformed !in Drained(s).0 ==> NextFrame(Drained(s).1).Incomplete?
    decreases |s|
  {
    hide NextFrame, Interpret, DecodeAll, Drained;
    var f := NextFrame(s);
    if f.Whole? {
      var step, rest := Interpret(f.kind, f.value), s[f.size..];
      FrontCapsule(s, t, step, rest);
      if !step.Malformed? {
        DrainThenMore(rest, t);
        Regroup([step], Drained(rest).0, DecodeAll(Drained(rest).1 + t), DecodeAll(rest + t));
      }
    } else {
      NothingDrained(s);
      assert [] + DecodeAll(s + t) == DecodeAll(s + t);
    }
  }

  /** No batch of the run meets the cap. */
  predicate NoDiscard(buf: seq<byte>, batches: seq<seq<seq<byte>>>)
    decreases |batches|
  {
    batches == [] ||
    (|buf| + |Concat(batches[0])| <= MAX_CAPSULE_BUF && NoDiscard(Drained(buf + Concat(batches[0])).1, batches[1..]))
  }

  /** Every byte of a run, in order. */
  function Sent(batches: seq<seq<seq<byte>>>): seq<byte> {
    if batches == [] then [] else Concat(batches[0]) + Sent(batches[1..])
  }

  /** A batch is pushed whole exactly when it fits as a whole. */
  lemma {:induction false} PushesFit(buf: seq<byte>, batch: seq<seq<byte>>)
    requires |buf| + |Concat(batch)| <= MAX_CAPSULE_BUF
    ensures PushedAll(buf, batch) == buf + Concat(batch)
    decreases |batch|
  {
    if batch == [] {
      assert buf + [] == buf;
    } else {
      PushesFit(buf + batch[0], batch[1..]);
      assert buf + batch[0] + Concat(batch[1..]) == buf + (batch[0] + Concat(batch[1..]));
    }
  }

  /** However any byte stream is cut into reads, and the reads into batches, what was delivered followed by what a drain
      of the rest would still deliver is the decoding of the whole stream. Nothing is left to deliver unless
      a malformed capsule stopped a drain early. */
  lemma {:induction false} CutInvariance(buf: seq<byte>, batches: seq<seq<seq<byte>>>)
    requires NoDiscard(buf, batches)
    ensures var (steps, rest) := Received(buf, batches);
      && steps + DecodeAll(rest) == DecodeAll(buf + Sent(batches))
      && (NextFrame(buf).Incomplete? && Malformed !in steps ==> steps == DecodeAll(buf + Sent(batches)))
    decreases |batches|
  {
    if batches == [] {
      assert buf + [] == buf;
      assert [] + DecodeAll(buf) == DecodeAll(buf);
      if NextFrame(buf).Incomplete? {
        NothingWhole(buf);
      }
    } else {
      hide Concat, PushedAll, Drained, DecodeAll, NextFrame;
      var batch, more := batches[0], batches[1..];
      var whole := buf + Concat(batch);
      PushesFit(buf, batch);
      assert buf + Sent(batches) == whole + Sent(more);
      DrainThenMore(whole, Sent(more));
      var rest := Drained(whole).1;
      CutInvariance(rest, more);
      hide Received, NoDiscard, Sent;
      Regroup(Drained(whole).0, Received(rest, more).0, DecodeAll(Received(rest, more).1), DecodeAll(rest + Sent(more)));
    }
  }

  lemma {:induction false} NothingWhole(buf: seq<byte>)
    requires NextFrame(buf).Incomplete?
    ensures DecodeAll(buf) == []
  {
  }

  lemma {:induction false} Regroup(a: seq<Step>, b: seq<Step>, c: seq<Step>, tail: seq<Step>)
    requires b + c == tail
    ensures (a + b) + c == a + tail
  {
  }

  /* ---- streams of well-formed capsules never meet the cap ---- */

  datatype RawCapsule = RawCapsule(kind: nat, value: seq<byte>)

  predicate Sendable(c: RawCapsule) {
    c.kind < Varint.LIMIT && |c.value| < Varint.LIMIT && !Interpret(c.kind, c.value).Malformed?
  }

  predicate AllSendable(cs: seq<RawCapsule>) {
    forall i :: 0 <= i < |cs| ==> Sendable(cs[i])
  }

  function Encoded(c: RawCapsule): seq<byte>
    requires Sendable(c)
  {
    EncodeCapsule(c.kind, c.value)
  }

  function Stream(cs: seq<RawCapsule>): seq<byte>
    requires AllSendable(cs)
  {
    if cs == [] then [] else
      assert Sendable(cs[0]);
      Encoded(cs[0]) + Stream(cs[1..])
  }

  function Meanings(cs: seq<RawCapsule>): seq<Step> {
    if cs == [] then [] else [Interpret(cs[0].kind, cs[0].value)] + Meanings(cs[1..])
  }

  lemma {:induction false} StrictPrefixIncomplete(c: RawCapsule, p: seq<byte>)
    requires Sendable(c) && p <= Encoded(c) && |p| < |Encoded(c)|
    ensures NextFrame(p).Incomplete?
  {
    var e := Encoded(c);
    CapsuleRoundTrip(c.kind, c.value, []);
    assert e + [] == e == p + e[|p|..];
    if NextFrame(p).Whole? {
      FrameLocal(p, e[|p|..]);
    }
  }

  lemma {:induction false} DrainFront(c: RawCapsule, p: seq<byte>)
    requires Sendable(c)
    ensures Drained(Encoded(c) + p) == ([Interpret(c.kind, c.value)] + Drained(p).0, Drained(p).1)
  {
    CapsuleRoundTrip(c.kind, c.value, p);
    DrainOne(Encoded(c) + p);
    assert (Encoded(c) + p)[|Encoded(c)|..] == p;
  }

  /** Draining a prefix of a well-formed stream yields its complete capsules and keeps less than the next one. */
  lemma {:induction false} DrainPrefix(cs: seq<RawCapsule>, p: seq<byte>, later: seq<byte>) returns (k: nat)
    requires AllSendable(cs) && p + later == Stream(cs)
    ensures k <= |cs| && AllSendable(cs[k..])
    ensures Drained(p).0 == Meanings(cs[..k])
    ensures Drained(p).1 + later == Stream(cs[k..])
    ensures if k == |cs| then Drained(p).1 == [] else |Drained(p).1| < |Encoded(cs[k])|
    decreases |cs|
  {
    k := 0;
    assert cs[0..] == cs;
    if cs == [] {
      assert p == [] && later == [];
    } else {
      var c, e, tail := cs[0], Encoded(cs[0]), Stream(cs[1..]);
      TwoSplits(p, later, e, tail);
      if |p| < |e| {
        StrictPrefixIncomplete(c, p);
      } else {
        var p' := p[|e|..];
        DrainFront(c, p');
        var j := DrainPrefix(cs[1..], p', later);
        k := j + 1;
        assert cs[1..][j..] == cs[k..];
        MeaningsFront(cs, k);
      }
    }
  }

  lemma {:induction false} MeaningsFront(cs: seq<RawCapsule>, k: nat)
    requires 0 < k <= |cs|
    ensures Meanings(cs[..k]) == [Interpret(cs[0].kind, cs[0].value)] + Meanings(cs[1..][..k - 1])
  {
    assert cs[..k][1..] == cs[1..][..k - 1];
  }

  lemma {:induction false} MeaningsSplit(cs: seq<RawCapsule>, k: nat)
    requires k <= |cs|
    ensures Meanings(cs) == Meanings(cs[..k]) + Meanings(cs[k..])
  {
    if k > 0 {
      MeaningsSplit(cs[1..], k - 1);
      assert cs[..k][1..] == cs[1..][..k - 1];
      assert cs[1..][k - 1..] == cs[k..];
    } else {
      assert cs[0..] == cs;
    }
  }

  lemma {:induction false} OneBatch(buf: seq<byte>, batches: seq<seq<seq<byte>>>)
    requires batches != [] && |buf| + |Concat(batches[0])| <= MAX_CAPSULE_BUF
    ensures var (steps, rest) := Drained(buf + Concat(batches[0]));
      var (more, last) := Received(rest, batches[1..]);
      && Received(buf, batches) == (steps + more, last) && (NoDiscard(buf, batches) <==> NoDiscard(rest, batches[1..]))
  {
    PushesFit(buf, batches[0]);
    hide Drained, PushedAll, Concat;
  }

  lemma {:induction false} SentNext(buf: seq<byte>, batches: seq<seq<seq<byte>>>)
    requires batches != []
    ensures buf + Sent(batches) == (buf + Concat(batches[0])) + Sent(batches[1..])
  {
    hide Concat;
  }

  lemma {:induction false} NothingSent(buf: seq<byte>, cs: seq<RawCapsule>)
    requires AllSendable(cs) && buf + Sent([]) == Stream(cs)
    requires if cs == [] then buf == [] else |buf| < |Encoded(cs[0])|
    ensures NoDiscard(buf, []) && Received(buf, []) == (Meanings(cs), [])
  {
    hide Encoded;
    assert buf == Stream(cs);
  }

  /** A well-formed stream, cut into batches of at most `widest` bytes and drained after each. */
  lemma {:induction false} StreamRun(buf: seq<byte>, cs: seq<RawCapsule>, batches: seq<seq<seq<byte>>>, widest: nat)
    requires AllSendable(cs) && buf + Sent(batches) == Stream(cs)
    requires if cs == [] then buf == [] else |buf| < |Encoded(cs[0])|
    requires widest <= MAX_CAPSULE_BUF
    requires forall i :: 0 <= i < |batches| ==> |Concat(batches[i])| <= widest
    requires forall i :: 0 <= i < |cs| ==> |Encoded(cs[i])| + widest <= MAX_CAPSULE_BUF
    ensures NoDiscard(buf, batches)
    ensures Received(buf, batches) == (Meanings(cs), [])
    decreases |batches|
  {
    hide *;
    if batches == [] {
      NothingSent(buf, cs);
    } else {
      var p, later := buf + Concat(batches[0]), Sent(batches[1..]);
      FitsUnder(buf, cs, Concat(batches[0]), widest);
      OneBatch(buf, batches);
      SentNext(buf, batches);
      var k := DrainPrefix(cs, p, later);
      RoomLater(cs, k, widest);
      StreamRun(Drained(p).1, cs[k..], batches[1..], widest);
      MeaningsSplit(cs, k);
    }
  }

  lemma {:induction false} RoomLater(cs: seq<RawCapsule>, k: nat, widest: nat)
    requires AllSendable(cs) && k <= |cs| && forall i :: 0 <= i < |cs| ==> |Encoded(cs[i])| + widest <= MAX_CAPSULE_BUF
    ensures AllSendable(cs[k..]) && forall i :: 0 <= i < |cs[k..]| ==> |Encoded(cs[k..][i])| + widest <= MAX_CAPSULE_BUF
  {
    hide Encoded, Sendable;
    assert forall i :: 0 <= i < |cs[k..]| ==> cs[k..][i] == cs[k + i];
  }

  lemma {:induction false} FitsUnder(buf: seq<byte>, cs: seq<RawCapsule>, chunk: seq<byte>, widest: nat)
    requires AllSendable(cs) && |chunk| <= widest <= MAX_CAPSULE_BUF
    requires if cs == [] then buf == [] else |buf| < |Encoded(cs[0])|
    requires forall i :: 0 <= i < |cs| ==> |Encoded(cs[i])| + widest <= MAX_CAPSULE_BUF
    ensures |buf| + |chunk| <= MAX_CAPSULE_BUF
  {
    if cs != [] {
      assert |Encoded(cs[0])| + widest <= MAX_CAPSULE_BUF;
    }
  }

  /** The promise of the parser: any cut of a well-formed stream into reads, and of the reads into batches, whose
      capsules leave room for one batch under the cap, delivers exactly the capsules sent, with nothing dropped or left
      over. */
  lemma {:induction false} AnyCutDeliversAll(cs: seq<RawCapsule>, batches: seq<seq<seq<byte>>>, widest: nat)
    requires AllSendable(cs) && Sent(batches) == Stream(cs) && widest <= 0x4_0000
    requires forall i :: 0 <= i < |batches| ==> |Concat(batches[i])| <= widest
    requires forall i :: 0 <= i < |cs| ==> |Encoded(cs[i])| + widest <= 0x4_0000
    ensures NoDiscard([], batches)
    ensures Received([], batches) == (Meanings(cs), [])
    ensures DecodeAll(Stream(cs)) == Meanings(cs)
  {
    if cs != [] {
      EncodedSome(cs[0]);
    }
    hide Encoded, Stream, Drained, Meanings, Concat, PushedAll, Sendable;
    assert [] + Sent(batches) == Sent(batches);
    StreamRun([], cs, batches, widest);
    hide Received, NoDiscard;
    CutInvariance([], batches);
    NothingDecoded();
    assert Meanings(cs) + [] == Meanings(cs);
  }

  lemma {:induction false} EncodedSome(c: RawCapsule)
    requires Sendable(c)
    ensures |Encoded(c)| > 0
  {
    CapsuleRoundTrip(c.kind, c.value, []);
    assert Encoded(c) + [] == Encoded(c);
  }

  lemma {:induction false} NothingDecoded()
    ensures DecodeAll([]) == []
  {
  }

  /* ---- a burst ---- */

  function Copies<T>(x: T, n: nat): seq<T> {
    if n == 0 then [] else [x] + Copies(x, n - 1)
  }

  /** The fewest copies of a read that are too many for one batch. */
  function TooMany(read: seq<byte>): nat
    requires read != []
  {
    MAX_CAPSULE_BUF / |read| + 1
  }

  /** Copies that fit, and one more. */
  lemma {:induction false} OneTooMany(buf: seq<byte>, x: seq<byte>, n: nat)
    requires x != [] && |buf| + n * |x| <= MAX_CAPSULE_BUF < |buf| + (n + 1) * |x|
    ensures PushedAll(buf, Copies(x, n + 1)) == []
    decreases n
  {
    var batch := Copies(x, n + 1);
    assert batch[0] == x && batch[1..] == Copies(x, n);
    assert (n + 1) * |x| == n * |x| + |x|;
    if n == 0 {
      assert Pushed(buf, x) == [];
    } else {
      assert n * |x| == (n - 1) * |x| + |x|;
      MoreThanNone(n - 1, |x|);
      assert Pushed(buf, x) == buf + x;
      OneTooMany(buf + x, x, n - 1);
    }
  }

  lemma {:induction false} MoreThanNone(n: nat, k: nat)
    ensures n * k >= 0
  {
  }

  lemma {:induction false} QuotientFits(m: nat, k: nat)
    requires k > 0
    ensures (m / k) * k <= m < (m / k + 1) * k
  {
  }

  /** The same capsules, one read each: drained read by read all are delivered, in one batch over the cap none is. */
  lemma {:induction false} BurstIsLost(c: RawCapsule)
    requires Sendable(c) && 2 * |Encoded(c)| <= 0x4_0000
    ensures Encoded(c) != []
    ensures var read := Encoded(c);
      var burst := Copies(read, TooMany(read));
      && Received([], [burst]) == ([], [])
      && Received([], Copies([read], TooMany(read))) == (Copies(Interpret(c.kind, c.value), TooMany(read)), [])
  {
    EncodedSome(c);
    var read := Encoded(c);
    var n := TooMany(read);
    QuotientFits(MAX_CAPSULE_BUF, |read|);
    OneTooMany([], read, n - 1);
    OneBatchLost(Copies(read, n));
    SentSingly(c, n);
    hide *;
    AnyCutDeliversAll(Copies(c, n), Copies([read], n), |read|);
  }

  lemma {:induction false} OneBatchLost(batch: seq<seq<byte>>)
    requires PushedAll([], batch) == []
    ensures Received([], [batch]) == ([], [])
  {
    NothingDrained([]);
    hide PushedAll, Drained;
    var batches := [batch];
    assert batches[1..] == [] && Received([], []) == ([], []);
    var none: seq<Step> := [];
    assert none + none == none;
    assert Received([], batches) == (none + none, []);
  }

  lemma {:induction false} SentSingly(c: RawCapsule, n: nat)
    requires Sendable(c)
    ensures var read := Encoded(c);
      && AllSendable(Copies(c, n)) && Sent(Copies([read], n)) == Stream(Copies(c, n))
      && Meanings(Copies(c, n)) == Copies(Interpret(c.kind, c.value), n)
      && (forall i :: 0 <= i < |Copies([read], n)| ==> |Concat(Copies([read], n)[i])| <= |read|)
      && (forall i :: 0 <= i < |Copies(c, n)| ==> |Encoded(Copies(c, n)[i])| == |read|)
  {
    if n > 0 {
      SentSingly(c, n - 1);
      var read := Encoded(c);
      var one := [read];
      assert one[1..] == [] && Concat(one) == read + [] == read;
      hide Encoded, Sendable, Interpret;
      assert Copies(c, n)[1..] == Copies(c, n - 1) && Copies(one, n)[1..] == Copies(one, n - 1);
    }
  }
}

/** Exactly which texts make the chunked decoder panic. */
module DechunkPanics {
  import opened Bytes
  import opened Utf8
  import opened Dechunk
  import opened DechunkProofs

  /** What the cursor steps over in one turn of the loop: a size line, as many bytes of data, and any two bytes. */
  datatype Stride = Stride(line: seq<byte>, data: seq<byte>, gap: seq<byte>)

  /** A line that ends where its line ending is, and gives the size `n`. */
  predicate GivesSize(line: seq<byte>, n: nat) {
    LineEnd(line + [CR, LF]) == Some(|line|) && SizeOf(line) == Some(n)
  }

  predicate Stepped(p: Stride) {
    p.data != [] && GivesSize(p.line, |p.data|) && |p.gap| == 2
  }

  predicate AllStepped(ps: seq<Stride>) {
    forall i :: 0 <= i < |ps| ==> Stepped(ps[i])
  }

  function StrideBytes(p: Stride): seq<byte> {
    p.line + ([CR, LF] + (p.data + p.gap))
  }

  function Over(ps: seq<Stride>): seq<byte> {
    if ps == [] then [] else StrideBytes(ps[0]) + Over(ps[1..])
  }

  /** The place where the loop breaks: after some strides, a size in front of a text `t` whose data would end past what
      a usize counts or inside a character, or is followed by two bytes that end inside one. `at` is the cursor in front
      of all this. */
  predicate BreaksAt(body: seq<byte>, at: nat, ps: seq<Stride>, line: seq<byte>, n: nat, t: seq<byte>) {
    && AllStepped(ps) && body == Over(ps) + (line + ([CR, LF] + t))
    && n > 0 && GivesSize(line, n)
    && (at + |Over(ps)| + |line| + 2 + n >= USIZE || Inside(t, n) || Inside(t, n + 2))
  }

  ghost predicate Breaks(body: seq<byte>, at: nat) {
    exists ps, line, n, t :: BreaksAt(body, at, ps, line, n, t)
  }

  /* ---- one turn of the loop ---- */

  /** Where the first line of a text ends depends on nothing behind it. */
  lemma {:induction false} LineAlone(line: seq<byte>, t: seq<byte>)
    ensures LineEnd(line + [CR, LF]) == Some(|line|) <==> LineEnd(line + ([CR, LF] + t)) == Some(|line|)
  {
    var a, b := line + [CR, LF], line + ([CR, LF] + t);
    forall j | 0 <= j <= |line| ensures CrlfAt(a, j) <==> CrlfAt(b, j) {
      assert a[j] == b[j] && a[j + 1] == b[j + 1];
    }
    assert CrlfAt(a, |line|) && CrlfAt(b, |line|);
  }

  /** The decoder in front of a line that gives a size. */
  lemma {:induction false} AtStride(line: seq<byte>, n: nat, t: seq<byte>, at: nat)
    requires GivesSize(line, n) && n > 0
    ensures var s := line + ([CR, LF] + t);
      Unchunk(s, at) == if at > 0 && Inside(s, 0) then Panic else TakeData(t, n, at + |line| + 2)
  {
    LineAlone(line, t);
    hide LineEnd, SizeOf, TakeData;
    var s := line + ([CR, LF] + t);
    assert s[..|line|] == line && s[|line| + 2..] == t;
  }

  lemma {:induction false} StrideParts(p: Stride, rest: seq<byte>)
    requires Stepped(p)
    ensures p.data != [] && GivesSize(p.line, |p.data|) && |p.gap| == 2
    ensures StrideBytes(p) + rest == p.line + ([CR, LF] + (p.data + (p.gap + rest)))
    ensures |StrideBytes(p)| == |p.line| + 2 + |p.data| + 2
  {
    hide GivesSize;
  }

  lemma {:induction false} DataPanicsLater(data: seq<byte>, gap: seq<byte>, rest: seq<byte>, at: nat)
    requires data != [] && |gap| == 2 && Unchunk(rest, at + |data| + 2) == Panic
    ensures TakeData(data + (gap + rest), |data|, at) == Panic
  {
    hide Unchunk;
    var t := data + (gap + rest);
    assert t[..|data|] == data && Skip(t, |data| + 2) == rest;
  }

  /** A stride in front of a place where the decoder panics. */
  lemma {:induction false} StridePanics(p: Stride, rest: seq<byte>, at: nat)
    requires Stepped(p) && Unchunk(rest, at + |StrideBytes(p)|) == Panic
    ensures Unchunk(StrideBytes(p) + rest, at) == Panic
  {
    hide *;
    StrideParts(p, rest);
    DataPanicsLater(p.data, p.gap, rest, at + |p.line| + 2);
    AtStride(p.line, |p.data|, p.data + (p.gap + rest), at);
  }

  lemma {:induction false} BreakPanics(line: seq<byte>, n: nat, t: seq<byte>, at: nat)
    requires GivesSize(line, n) && n > 0 && (at + |line| + 2 + n >= USIZE || Inside(t, n) || Inside(t, n + 2))
    ensures Unchunk(line + ([CR, LF] + t), at) == Panic
  {
    AtStride(line, n, t, at);
    if n + 2 <= |t| {
      InsidePanics(Skip(t, n + 2), at + |line| + 2 + n + 2);
    }
    hide GivesSize, Unchunk;
  }

  lemma {:induction false} FirstStride(ps: seq<Stride>, tail: seq<byte>)
    requires ps != [] && AllStepped(ps)
    ensures Stepped(ps[0]) && AllStepped(ps[1..]) && Over(ps) + tail == StrideBytes(ps[0]) + (Over(ps[1..]) + tail)
    ensures |Over(ps)| == |StrideBytes(ps[0])| + |Over(ps[1..])|
  {
    hide Stepped, StrideBytes;
  }

  lemma {:induction false} BreakIsPanic(body: seq<byte>, at: nat, ps: seq<Stride>, line: seq<byte>, n: nat, t: seq<byte>)
    requires BreaksAt(body, at, ps, line, n, t)
    ensures Unchunk(body, at) == Panic
    decreases |ps|
  {
    hide GivesSize, Inside, Unchunk, StrideBytes, Stepped;
    var tail := line + ([CR, LF] + t);
    if ps == [] {
      assert Over(ps) + tail == tail;
      BreakPanics(line, n, t, at);
    } else {
      FirstStride(ps, tail);
      hide AllStepped, Over;
      var p := ps[0];
      BreakIsPanic(Over(ps[1..]) + tail, at + |StrideBytes(p)|, ps[1..], line, n, t);
      StridePanics(p, Over(ps[1..]) + tail, at);
    }
  }

  /* ---- the other way ---- */

  /** A decoder that panics on a text that begins with a character has read a size. */
  lemma {:induction false} PanicReads(s: seq<byte>, at: nat) returns (line: seq<byte>, n: nat, t: seq<byte>)
    requires Unchunk(s, at) == Panic && !Inside(s, 0)
    ensures n > 0 && s == line + ([CR, LF] + t) && GivesSize(line, n) && TakeData(t, n, at + |line| + 2) == Panic
  {
    var k := LineEnd(s).value;
    line, t := s[..k], s[k + 2..];
    n := SizeOf(line).value;
    assert CrlfAt(s, k);
    assert s == line + ([CR, LF] + t);
    LineAlone(line, t);
    hide LineEnd, SizeOf, TakeData;
  }

  lemma {:induction false} BehindLine(s: seq<byte>, line: seq<byte>, t: seq<byte>)
    requires WellFormed(s) && s == line + ([CR, LF] + t)
    ensures WellFormed(t) && !Inside(t, 0)
  {
    assert s[|line| + 1] == LF && s[|line| + 2..] == t;
    AfterAscii(s, |line| + 1);
    if t != [] {
      WellFormedFront(t);
    }
  }

  lemma {:induction false} RestPanics(t: seq<byte>, n: nat, start: nat)
    requires n > 0 && !Inside(t, 0) && TakeData(t, n, start) == Panic
    requires !(start + n >= USIZE || Inside(t, n) || Inside(t, n + 2))
    ensures n + 2 < |t| && Unchunk(t[n + 2..], start + n + 2) == Panic
  {
    if n <= |t| {
      NothingThere(start + n + 2);
    }
    hide Unchunk;
  }

  lemma {:induction false} BreaksNow(s: seq<byte>, at: nat, line: seq<byte>, n: nat, t: seq<byte>)
    requires s == line + ([CR, LF] + t) && n > 0 && GivesSize(line, n)
    requires at + |line| + 2 + n >= USIZE || Inside(t, n) || Inside(t, n + 2)
    ensures Breaks(s, at)
  {
    hide GivesSize, Inside;
    assert [] + s == s;
    assert BreaksAt(s, at, [], line, n, t);
  }

  lemma {:induction false} OneMoreStride(p: Stride, ps: seq<Stride>, tail: seq<byte>)
    requires Stepped(p) && AllStepped(ps)
    ensures AllStepped([p] + ps) && Over([p] + ps) + tail == StrideBytes(p) + (Over(ps) + tail)
    ensures |Over([p] + ps)| == |StrideBytes(p)| + |Over(ps)|
  {
    hide Stepped, StrideBytes;
    assert ([p] + ps)[1..] == ps;
  }

  lemma {:induction false} BreaksBehind(p: Stride, rest: seq<byte>, at: nat, ps: seq<Stride>, line: seq<byte>, n: nat, t: seq<byte>)
    requires Stepped(p) && BreaksAt(rest, at + |StrideBytes(p)|, ps, line, n, t)
    ensures BreaksAt(StrideBytes(p) + rest, at, [p] + ps, line, n, t)
  {
    hide Stepped, StrideBytes, GivesSize, Inside, AllStepped, Over;
    OneMoreStride(p, ps, line + ([CR, LF] + t));
  }

  lemma {:induction false} BreaksLater(p: Stride, rest: seq<byte>, at: nat)
    requires Stepped(p) && Breaks(rest, at + |StrideBytes(p)|)
    ensures Breaks(StrideBytes(p) + rest, at)
  {
    var ps, line, n, t :| BreaksAt(rest, at + |StrideBytes(p)|, ps, line, n, t);
    BreaksBehind(p, rest, at, ps, line, n, t);
    hide BreaksAt, StrideBytes, Stepped;
  }

  lemma {:induction false} PanicBreaks(s: seq<byte>, at: nat)
    requires WellFormed(s) && Unchunk(s, at) == Panic
    ensures Breaks(s, at)
    decreases |s|
  {
    hide *;
    NotInside(s);
    var line, n, t := PanicReads(s, at);
    BehindLine(s, line, t);
    if at + |line| + 2 + n >= USIZE || Inside(t, n) || Inside(t, n + 2) {
      BreaksNow(s, at, line, n, t);
    } else {
      RestPanics(t, n, at + |line| + 2);
      var p, rest := Stride(line, t[..n], t[n..n + 2]), t[n + 2..];
      StrideIs(line, n, t);
      RestWell(t, n + 2);
      PanicBreaks(rest, at + |StrideBytes(p)|);
      BreaksLater(p, rest, at);
    }
  }

  lemma {:induction false} NotInside(s: seq<byte>)
    requires WellFormed(s)
    ensures !Inside(s, 0)
  {
    if s != [] {
      WellFormedFront(s);
    }
  }

  lemma {:induction false} RestWell(t: seq<byte>, i: nat)
    requires WellFormed(t) && i <= |t| && !Inside(t, i)
    ensures WellFormed(t[i..])
  {
    SuffixWell(t, i);
  }

  lemma {:induction false} StrideIs(line: seq<byte>, n: nat, t: seq<byte>)
    requires n > 0 && n + 2 <= |t| && GivesSize(line, n)
    ensures var p := Stride(line, t[..n], t[n..n + 2]);
      && Stepped(p) && |StrideBytes(p)| == |line| + 2 + n + 2
      && StrideBytes(p) + t[n + 2..] == line + ([CR, LF] + t)
  {
    hide GivesSize;
    assert t == t[..n] + t[n..n + 2] + t[n + 2..];
  }

  /** The decoder panics on a text if and only if the text is some strides, of any chunks and any two bytes after each,
      and then a size n in front of a text in which the data would end past what a usize counts, or inside a character,
      or two bytes short of the inside of one. */
  lemma {:induction false} PanicsExactly(body: seq<byte>)
    requires WellFormed(body)
    ensures Unchunk(body, 0) == Panic <==> Breaks(body, 0)
  {
    if Unchunk(body, 0) == Panic {
      PanicBreaks(body, 0);
    }
    if Breaks(body, 0) {
      var ps, line, n, t :| BreaksAt(body, 0, ps, line, n, t);
      hide *;
      BreakIsPanic(body, 0, ps, line, n, t);
    }
  }

  /** Every body that is decoded is such a text: what a server sends is made into one before its head is cut off. */
  lemma {:induction false} ResponsePanics(raw: seq<byte>, split: nat)
    requires split + 4 <= |Lossy(raw)| && Lossy(raw)[split + 3] == LF
    ensures var body := Lossy(raw)[split + 4..]; WellFormed(body) && (Unchunk(body, 0) == Panic <==> Breaks(body, 0))
  {
    LossyIsText(raw);
    AfterAscii(Lossy(raw), split + 3);
    PanicsExactly(Lossy(raw)[split + 4..]);
  }
}

/** What the chunked decoder makes of any body at all, well coded or not. */
module DechunkTexts {
  import opened Bytes
  import opened Utf8
  import opened Dechunk
  import opened DechunkPanics

  function Datas(ps: seq<Stride>): seq<byte> {
    if ps == [] then [] else ps[0].data + Datas(ps[1..])
  }

  /** The first line of some bytes, and what follows it. */
  predicate FirstLine(s: seq<byte>, line: seq<byte>, t: seq<byte>) {
    s == line + ([CR, LF] + t) && forall j :: 0 <= j < |line| ==> !CrlfAt(s, j)
  }

  /** Where a text ends: no line is left, or a line that gives no size, or zero, or more than is left; or data with less than two
      bytes behind it, which are the last that is taken. */
  ghost predicate Ends(s: seq<byte>, last: seq<byte>) {
    || (last == [] && forall j :: 0 <= j ==> !CrlfAt(s, j))
    || exists line, t :: FirstLine(s, line, t) && EndsBehind(line, t, last)
  }

  predicate EndsBehind(line: seq<byte>, t: seq<byte>, last: seq<byte>) {
    match SizeOf(line)
    case None => last == []
    case Some(n) => if n == 0 || n > |t| then last == [] else n > |t| - 2 && last == t[..n]
  }

  lemma {:induction false} LineOf(s: seq<byte>, k: nat) returns (line: seq<byte>, t: seq<byte>)
    requires LineEnd(s) == Some(k)
    ensures k + 2 <= |s| && line == s[..k] && t == s[k + 2..] && FirstLine(s, line, t)
    ensures LineEnd(line + [CR, LF]) == Some(|line|)
  {
    line, t := s[..k], s[k + 2..];
    assert CrlfAt(s, k);
    assert s == line + ([CR, LF] + t);
    LineAlone(line, t);
  }

  lemma {:induction false} EndsHere(s: seq<byte>, line: seq<byte>, t: seq<byte>, last: seq<byte>)
    requires FirstLine(s, line, t) && EndsBehind(line, t, last)
    ensures Ends(s, last)
  {
    hide SizeOf, FirstLine, EndsBehind;
  }

  lemma {:induction false} NoText(t: seq<byte>, at: nat)
    requires t == []
    ensures Unchunk(t, at) == Text([])
  {
  }

  lemma {:induction false} EndsNoLine(s: seq<byte>, at: nat)
    requires Unchunk(s, at).Text? && (s == [] || LineEnd(s).None?)
    ensures Unchunk(s, at).text == [] && Ends(s, [])
  {
    if s == [] {
      assert forall j :: 0 <= j ==> !CrlfAt(s, j);
    }
  }

  lemma {:induction false} EndsNoData(s: seq<byte>, at: nat, k: nat, line: seq<byte>, t: seq<byte>)
    requires Unchunk(s, at).Text? && s != [] && LineEnd(s) == Some(k) && k + 2 <= |s| && line == s[..k] && t == s[k + 2..]
    requires FirstLine(s, line, t) && !(SizeOf(line).Some? && 0 < SizeOf(line).value <= |t|)
    ensures Unchunk(s, at).text == [] && Ends(s, [])
  {
    hide SizeOf, FirstLine, LineEnd;
    EndsHere(s, line, t, []);
    hide Ends;
  }

  lemma {:induction false} EndsShort(s: seq<byte>, at: nat, k: nat, line: seq<byte>, t: seq<byte>, n: nat)
    requires Unchunk(s, at).Text? && s != [] && LineEnd(s) == Some(k) && k + 2 <= |s| && line == s[..k] && t == s[k + 2..]
    requires FirstLine(s, line, t) && SizeOf(line) == Some(n) && 0 < n <= |t| < n + 2
    ensures Unchunk(s, at).text == t[..n] && Ends(s, t[..n])
  {
    DataTaken(s, at, k, n, t);
    NoText(Skip(t, n + 2), at + k + 2 + n + 2);
    hide SizeOf, FirstLine, LineEnd, Unchunk;
    EndsHere(s, line, t, t[..n]);
    hide Ends;
    assert t[..n] + [] == t[..n];
  }

  /** A stride is taken in front of the rest. */
  predicate Steps(s: seq<byte>, at: nat, p: Stride, rest: seq<byte>) {
    Stepped(p) && s == StrideBytes(p) + rest && |rest| < |s| && Gives(s, at, p.data, rest, at + |StrideBytes(p)|)
  }

  lemma {:induction false} StepsOver(s: seq<byte>, at: nat, p: Stride, rest: seq<byte>, there: nat)
    requires Stepped(p) && s == StrideBytes(p) + rest && there == at + |StrideBytes(p)| && Gives(s, at, p.data, rest, there)
    ensures Steps(s, at, p, rest)
  {
    StrideParts(p, rest);
    hide Gives, Stepped, StrideBytes;
  }

  lemma {:induction false} Skipped(t: seq<byte>, n: nat)
    requires n <= |t|
    ensures Skip(t, n) == t[n..]
  {
  }

  lemma {:induction false} Strides(s: seq<byte>, at: nat, k: nat, line: seq<byte>, t: seq<byte>, n: nat) returns (p: Stride, rest: seq<byte>)
    requires Unchunk(s, at).Text? && s != [] && LineEnd(s) == Some(k) && k + 2 <= |s| && line == s[..k] && t == s[k + 2..]
    requires FirstLine(s, line, t) && LineEnd(line + [CR, LF]) == Some(|line|) && SizeOf(line) == Some(n) && 0 < n && n + 2 <= |t|
    ensures Steps(s, at, p, rest)
  {
    hide *;
    p, rest := Stride(line, t[..n], t[n..n + 2]), t[n + 2..];
    DataTaken(s, at, k, n, t);
    Skipped(t, n + 2);
    GivesIt(line, n);
    StrideIs(line, n, t);
    LineAndRest(s, line, t);
    StepsOver(s, at, p, rest, at + k + 2 + n + 2);
  }

  /** One turn of the loop that does not panic: it ends there, or takes a stride. */
  lemma {:induction false} OneTurn(s: seq<byte>, at: nat) returns (ends: bool, p: Stride, rest: seq<byte>, last: seq<byte>)
    requires Unchunk(s, at).Text?
    ensures if ends then Ends(s, last) && Unchunk(s, at).text == last else Steps(s, at, p, rest)
  {
    hide *;
    ends, p, rest, last := true, Stride([], [], []), [], [];
    if s == [] || LineEnd(s).None? {
      EndsNoLine(s, at);
    } else {
      var k := LineEnd(s).value;
      var line, t := LineOf(s, k);
      if !(SizeOf(line).Some? && 0 < SizeOf(line).value <= |t|) {
        EndsNoData(s, at, k, line, t);
      } else {
        var n := SizeOf(line).value;
        if |t| < n + 2 {
          last := t[..n];
          EndsShort(s, at, k, line, t, n);
        } else {
          ends := false;
          p, rest := Strides(s, at, k, line, t, n);
        }
      }
    }
  }

  lemma {:induction false} LineAndRest(s: seq<byte>, line: seq<byte>, t: seq<byte>)
    requires FirstLine(s, line, t)
    ensures s == line + ([CR, LF] + t) && |s| == |line| + 2 + |t|
  {
  }

  lemma {:induction false} GivesIt(line: seq<byte>, n: nat)
    requires LineEnd(line + [CR, LF]) == Some(|line|) && SizeOf(line) == Some(n)
    ensures GivesSize(line, n)
  {
  }

  /** What is decoded here is this data and what is decoded of the rest there. */
  predicate Gives(s: seq<byte>, at: nat, data: seq<byte>, rest: seq<byte>, there: nat) {
    Unchunk(s, at).Text? && Unchunk(rest, there).Text? && Unchunk(s, at).text == data + Unchunk(rest, there).text
  }

  /** The decoder in front of a line whose data is there. */
  lemma {:induction false} DataTaken(s: seq<byte>, at: nat, k: nat, n: nat, t: seq<byte>)
    requires Unchunk(s, at).Text? && s != [] && LineEnd(s) == Some(k) && k + 2 <= |s| && t == s[k + 2..]
    requires SizeOf(s[..k]) == Some(n) && 0 < n <= |t|
    ensures Gives(s, at, t[..n], Skip(t, n + 2), at + k + 2 + n + 2)
  {
    hide SizeOf, LineEnd;
    assert Unchunk(s, at) == TakeData(t, n, at + k + 2);
    hide Unchunk;
  }

  lemma {:induction false} NoStride(s: seq<byte>, last: seq<byte>)
    ensures AllStepped([]) && s == Over([]) + s && last == Datas([]) + last
  {
  }

  /** Any body that does not make the decoder panic: some strides, whose data is returned, and then where it ends. */
  lemma {:induction false} TextExact(body: seq<byte>, at: nat) returns (ps: seq<Stride>, tail: seq<byte>, last: seq<byte>)
    requires Unchunk(body, at).Text?
    ensures AllStepped(ps) && body == Over(ps) + tail && Ends(tail, last) && Unchunk(body, at).text == Datas(ps) + last
    decreases |body|
  {
    hide *;
    var ends, p, rest;
    ends, p, rest, last := OneTurn(body, at);
    if ends {
      ps, tail := [], body;
      NoStride(body, last);
    } else {
      StepsIs(body, at, p, rest);
      ps, tail, last := TextExact(rest, at + |StrideBytes(p)|);
      OneMore(p, ps, tail, last);
      ps := [p] + ps;
    }
  }

  lemma {:induction false} StepsIs(s: seq<byte>, at: nat, p: Stride, rest: seq<byte>)
    requires Steps(s, at, p, rest)
    ensures Stepped(p) && s == StrideBytes(p) + rest && |rest| < |s|
    ensures Unchunk(rest, at + |StrideBytes(p)|).Text? && Unchunk(s, at).Text?
    ensures Unchunk(s, at).text == p.data + Unchunk(rest, at + |StrideBytes(p)|).text
  {
    hide Unchunk, StrideBytes, Stepped;
  }

  lemma {:induction false} OneMore(p: Stride, ps: seq<Stride>, tail: seq<byte>, last: seq<byte>)
    requires Stepped(p) && AllStepped(ps)
    ensures AllStepped([p] + ps) && Over([p] + ps) + tail == StrideBytes(p) + (Over(ps) + tail)
    ensures Datas([p] + ps) + last == p.data + (Datas(ps) + last)
  {
    OneMoreStride(p, ps, tail);
    hide Stepped, StrideBytes, AllStepped, Over;
    DatasFront(p, ps);
  }

  lemma {:induction false} DatasFront(p: Stride, ps: seq<Stride>)
    ensures Datas([p] + ps) == p.data + Datas(ps)
  {
    assert ([p] + ps)[1..] == ps;
  }
}

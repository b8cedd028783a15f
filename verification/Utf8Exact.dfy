/** What the readings of UTF-8 come to, in terms of the scalar values of Unicode and their encodings (RFC 3629, section 3). */
module Utf8Exact {
  import opened Bytes
  import opened Utf8

  /** Code points up to U+10FFFF that are not surrogates. */
  predicate Scalar(c: nat) {
    c < 0xD800 || 0xE000 <= c < 0x11_0000
  }

  function Encode(c: nat): (s: seq<byte>)
    requires c < 0x11_0000
    ensures 1 <= |s| <= 4
  {
    if c < 0x80 then [c]
    else if c < 0x800 then [0xC0 + c / 64, 0x80 + c % 64]
    else if c < 0x1_0000 then [0xE0 + c / 4096, 0x80 + c / 64 % 64, 0x80 + c % 64]
    else [0xF0 + c / 0x4_0000, 0x80 + c / 4096 % 64, 0x80 + c / 64 % 64, 0x80 + c % 64]
  }

  predicate Scalars(cs: seq<nat>) {
    forall i :: 0 <= i < |cs| ==> Scalar(cs[i])
  }

  function EncodeAll(cs: seq<nat>): seq<byte>
    requires Scalars(cs)
  {
    if cs == [] then [] else Encode(cs[0]) + EncodeAll(cs[1..])
  }

  lemma {:induction false} Encoded(c: nat)
    requires Scalar(c)
    ensures WholeFirst(Encode(c)) && Matched(Encode(c)) == |Encode(c)| == Width(Encode(c)[0])
  {
    var s := Encode(c);
    assert c < 0x800 || Width(s[0]) == |s|;
  }

  /** The value of a character of two, three or four bytes. */
  function Value(s: seq<byte>): nat
    requires s != [] && WholeFirst(s)
  {
    var a: int := s[0];
    var w := Width(s[0]);
    if w == 1 then a
    else if w == 2 then (a - 0xC0) * 64 + Low(s[1])
    else if w == 3 then (a - 0xE0) * 4096 + Low(s[1]) * 64 + Low(s[2])
    else (a - 0xF0) * 0x4_0000 + Low(s[1]) * 4096 + Low(s[2]) * 64 + Low(s[3])
  }

  function Low(b: byte): nat
    requires Continuation(b)
  {
    var v: int := b;
    v - 0x80
  }

  lemma {:induction false} Digits(a: nat, b: nat, c: nat, d: nat)
    requires b < 64 && c < 64 && d < 64
    ensures var v := a * 0x4_0000 + b * 4096 + c * 64 + d;
      v / 0x4_0000 == a && v / 4096 % 64 == b && v / 64 % 64 == c && v % 64 == d
  {
    var v := a * 0x4_0000 + b * 4096 + c * 64 + d;
    assert v / 64 == a * 4096 + b * 64 + c;
    assert v / 4096 == a * 64 + b;
  }

  /** A whole character at the front is the encoding of its value. */
  lemma {:induction false} Decoded(s: seq<byte>) returns (c: nat)
    requires s != [] && WholeFirst(s)
    ensures Scalar(c) && Encode(c) == s[..Matched(s)]
  {
    c := Value(s);
    var a: int := s[0];
    var w := Width(s[0]);
    if w == 2 {
      Digits(0, 0, a - 0xC0, Low(s[1]));
    } else if w == 3 {
      Digits(0, a - 0xE0, Low(s[1]), Low(s[2]));
    } else if w == 4 {
      Digits(a - 0xF0, Low(s[1]), Low(s[2]), Low(s[3]));
    }
  }

  ghost predicate Spells(s: seq<byte>, cs: seq<nat>) {
    Scalars(cs) && EncodeAll(cs) == s
  }

  /** A text is well formed if and only if it is the encodings of scalar values one after the other. */
  lemma {:induction false} WellFormedExact(s: seq<byte>)
    ensures WellFormed(s) <==> exists cs :: Spells(s, cs)
  {
    if WellFormed(s) {
      var cs := ReadOff(s);
      assert Spells(s, cs);
    }
    if cs :| Spells(s, cs) {
      EncodedWell(cs);
    }
  }

  lemma {:induction false} ReadOff(s: seq<byte>) returns (cs: seq<nat>)
    requires WellFormed(s)
    ensures Spells(s, cs)
  {
    if s == [] {
      cs := [];
    } else {
      var c := Decoded(s);
      hide WholeFirst, Encode;
      var more := ReadOff(s[Matched(s)..]);
      cs := [c] + more;
      assert cs[1..] == more && s == s[..Matched(s)] + s[Matched(s)..];
    }
  }

  lemma {:induction false} EncodedWell(cs: seq<nat>)
    requires Scalars(cs)
    ensures WellFormed(EncodeAll(cs))
  {
    if cs != [] {
      assert Scalar(cs[0]);
      Encoded(cs[0]);
      EncodedWell(cs[1..]);
      hide Matched, WholeFirst, Encode, WellFormed, Width;
      var e, rest := Encode(cs[0]), EncodeAll(cs[1..]);
      WellPrepend(e, |e|, rest);
      assert e[..|e|] == e;
    }
  }

  /* ---- what is read of anything else ---- */

  /** Bytes that some encoding of a scalar value begins with. */
  ghost predicate Begins(u: seq<byte>) {
    exists c :: Scalar(c) && u <= Encode(c)
  }

  /** The rest of some character that begins with these bytes. */
  function Completion(u: seq<byte>): seq<byte>
    requires u != []
  {
    var w := Width(u[0]);
    var second: seq<byte> := if u[0] == 0xE0 then [0xA0] else if u[0] == 0xF0 then [0x90] else [0x80];
    if |u| == 1 then (if w == 2 then second else if w == 3 then second + [0x80] else if w == 4 then second + [0x80, 0x80] else [])
    else if |u| == 2 then (if w == 3 then [0x80] else if w == 4 then [0x80, 0x80] else [])
    else if |u| == 3 && w == 4 then [0x80]
    else []
  }

  lemma {:induction false} Completed(u: seq<byte>)
    requires u != [] && Matched(u) == |u| && Width(u[0]) > 0
    ensures var t := u + Completion(u); WholeFirst(t) && Matched(t) == |t|
  {
  }

  lemma {:induction false} MatchedOfPrefix(s: seq<byte>, n: nat)
    requires 1 <= n <= |s|
    ensures Matched(s[..n]) == if n <= Matched(s) then n else Matched(s)
  {
  }

  /** Of any bytes at all, the longest front that begins a character is as long as the reader says. */
  lemma {:induction false} MatchedExact(s: seq<byte>, n: nat)
    requires 1 <= n <= |s|
    ensures Begins(s[..n]) <==> n <= Matched(s)
  {
    var u := s[..n];
    MatchedOfPrefix(s, n);
    if n <= Matched(s) {
      Completed(u);
      var t := u + Completion(u);
      hide Matched, Completion;
      var c := Decoded(t);
      assert t[..|t|] == t;
      assert u <= Encode(c);
    }
    if c :| Scalar(c) && u <= Encode(c) {
      Encoded(c);
      var e := Encode(c);
      hide Matched, Encode, Width;
      assert u == e[..n];
      MatchedOfPrefix(e, n);
    }
  }

  /** The front that gives one character or one replacement: the longest that begins a character, or one byte. */
  ghost predicate Front(s: seq<byte>, n: nat) {
    && 1 <= n <= |s| && (n == 1 || Begins(s[..n]))
    && forall m :: n < m <= |s| ==> !Begins(s[..m])
  }

  lemma {:induction false} EncodedFront(s: seq<byte>, n: nat, c: nat)
    requires n <= |s| && Scalar(c) && Encode(c) == s[..n]
    ensures s != [] && WholeFirst(s)
  {
    Encoded(c);
    hide Matched, WholeFirst, Encode, Width;
    MatchedWhole(s[..n], s[n..]);
    assert s[..n] + s[n..] == s;
  }

  /** For any bytes at all: the front is kept if it is an encoding and becomes the replacement character otherwise, and then the rest
      is read. */
  lemma {:induction false} LossyExact(s: seq<byte>) returns (n: nat)
    requires s != []
    ensures Front(s, n)
    ensures Lossy(s) == (if exists c :: Scalar(c) && Encode(c) == s[..n] then s[..n] else [0xEF, 0xBF, 0xBD]) + Lossy(s[n..])
  {
    n := Taken(s);
    FrontIs(s);
    forall c | Scalar(c) && Encode(c) == s[..n] ensures WholeFirst(s) {
      EncodedFront(s, n, c);
    }
    if WholeFirst(s) {
      var c := Decoded(s);
      assert Encode(c) == s[..n];
    }
  }

  lemma {:induction false} FrontIs(s: seq<byte>)
    requires s != []
    ensures Front(s, Taken(s))
  {
    forall m | 1 <= m <= |s| ensures Begins(s[..m]) <==> m <= Matched(s) {
      MatchedExact(s, m);
    }
    hide Begins, Matched;
  }
}

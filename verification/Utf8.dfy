/** UTF-8 as from_utf8_lossy reads it: whole characters are kept, and every longest run of bytes that could begin one
    but does not become one gives a replacement character. */
module Utf8 {
  import opened Bytes

  const REPLACEMENT: seq<byte> := [0xEF, 0xBF, 0xBD]

  predicate Continuation(b: byte) {
    0x80 <= b < 0xC0
  }

  /** How many bytes a character with this first byte has; no character begins with the bytes that give 0. */
  function Width(b: byte): (n: nat)
    ensures n <= 4
  {
    if b < 0x80 then 1
    else if 0xC2 <= b < 0xE0 then 2
    else if 0xE0 <= b < 0xF0 then 3
    else if 0xF0 <= b < 0xF5 then 4
    else 0
  }

  predicate SecondFits(a: byte, b: byte) {
    && Continuation(b)
    && (a == 0xE0 ==> b >= 0xA0) && (a == 0xED ==> b < 0xA0)
    && (a == 0xF0 ==> b >= 0x90) && (a == 0xF4 ==> b < 0x90)
  }

  /** How many bytes at the front could be the beginning of the character that the first one announces. */
  function Matched(s: seq<byte>): (n: nat)
    requires s != []
    ensures n <= |s| && n <= Width(s[0]) && (Width(s[0]) > 0 ==> n > 0)
  {
    var w := Width(s[0]);
    if w <= 1 then w
    else if |s| < 2 || !SecondFits(s[0], s[1]) then 1
    else if w == 2 || |s| < 3 || !Continuation(s[2]) then 2
    else if w == 3 || |s| < 4 || !Continuation(s[3]) then 3
    else 4
  }

  predicate WholeFirst(s: seq<byte>)
    requires s != []
  {
    0 < Matched(s) == Width(s[0])
  }

  predicate WellFormed(s: seq<byte>) {
    s == [] || (WholeFirst(s) && WellFormed(s[Matched(s)..]))
  }

  /** The bytes used up at the front, and what they give. */
  function Taken(s: seq<byte>): (n: nat)
    requires s != []
    ensures 0 < n <= |s|
  {
    if Matched(s) == 0 then 1 else Matched(s)
  }

  function Emitted(s: seq<byte>): seq<byte>
    requires s != []
  {
    if WholeFirst(s) then s[..Matched(s)] else REPLACEMENT
  }

  function Lossy(s: seq<byte>): seq<byte> {
    if s == [] then [] else Emitted(s) + Lossy(s[Taken(s)..])
  }

  lemma {:induction false} LossyFront(s: seq<byte>)
    requires s != []
    ensures Lossy(s) != [] && !Continuation(Lossy(s)[0])
  {
  }

  lemma {:induction false} WellFormedFront(s: seq<byte>)
    requires WellFormed(s) && s != []
    ensures !Continuation(s[0])
  {
  }

  lemma {:induction false} WholeStep(s: seq<byte>)
    requires s != [] && WholeFirst(s)
    ensures Emitted(s) == s[..Matched(s)] && Taken(s) == Matched(s)
  {
    hide Matched;
  }

  lemma {:induction false} LossyWell(s: seq<byte>, t: seq<byte>)
    requires WellFormed(s)
    ensures Lossy(s + t) == s + Lossy(t)
  {
    hide Matched, WholeFirst, Emitted, Taken;
    if s == [] {
      assert s + t == t;
    } else {
      MatchedWhole(s, t);
      WholeStep(s + t);
      var n := Matched(s);
      var rest := s[n..];
      LossyWell(rest, t);
      hide WellFormed;
      assert (s + t)[..n] == s[..n] && (s + t)[n..] == rest + t;
      assert Lossy(s + t) == s[..n] + (rest + Lossy(t));
      assert s[..n] + (rest + Lossy(t)) == s + Lossy(t);
    }
  }

  lemma {:induction false} MatchedWhole(s: seq<byte>, t: seq<byte>)
    requires s != [] && WholeFirst(s)
    ensures WholeFirst(s + t) && Matched(s + t) == Matched(s)
  {
  }

  lemma {:induction false} LossyItself(s: seq<byte>)
    requires WellFormed(s)
    ensures Lossy(s) == s
  {
    LossyWell(s, []);
    assert s + [] == s;
  }

  lemma {:induction false} MatchedBefore(s: seq<byte>, x: byte, t: seq<byte>)
    requires s != [] && x < 0x80
    ensures Matched(s + ([x] + t)) == Matched(s)
    ensures Taken(s + ([x] + t)) == Taken(s) && Emitted(s + ([x] + t)) == Emitted(s)
  {
  }

  lemma {:induction false} LossyOne(s: seq<byte>)
    requires s != []
    ensures 0 < Taken(s) <= |s| && Lossy(s) == Emitted(s) + Lossy(s[Taken(s)..])
  {
  }

  lemma {:induction false} Joins(a: seq<byte>, b: seq<byte>, c: seq<byte>)
    ensures a + (b + c) == (a + b) + c
  {
  }

  lemma {:induction false} LossyFirst(x: byte, t: seq<byte>)
    requires x < 0x80
    ensures Lossy([x] + t) == [x] + Lossy(t)
  {
    var all := [x] + t;
    assert all[1..] == t;
    assert Emitted(all) == [x] && Taken(all) == 1;
    hide *;
    LossyOne(all);
  }

  lemma {:induction false} NothingLossy()
    ensures Lossy([]) == []
  {
  }

  lemma {:induction false} RestBefore(s: seq<byte>, n: nat, x: byte, t: seq<byte>)
    requires n <= |s|
    ensures (s + ([x] + t))[n..] == s[n..] + ([x] + t)
  {
  }

  /** An ASCII byte stands for itself, and what is before and after it is read apart. */
  lemma {:induction false} LossyAscii(s: seq<byte>, x: byte, t: seq<byte>)
    requires x < 0x80
    ensures Lossy(s + ([x] + t)) == Lossy(s) + ([x] + Lossy(t))
  {
    if s == [] {
      LossyFirst(x, t);
      NothingLossy();
      hide *;
      assert s + ([x] + t) == [x] + t;
      assert [] + ([x] + Lossy(t)) == [x] + Lossy(t);
    } else {
      hide *;
      LossyOne(s);
      LossyOne(s + ([x] + t));
      MatchedBefore(s, x, t);
      RestBefore(s, Taken(s), x, t);
      LossyAscii(s[Taken(s)..], x, t);
      Joins(Emitted(s), Lossy(s[Taken(s)..]), [x] + Lossy(t));
    }
  }

  lemma {:induction false} AsciiWell(s: seq<byte>)
    requires forall i :: 0 <= i < |s| ==> s[i] < 0x80
    ensures WellFormed(s)
  {
    if s != [] {
      AsciiWell(s[1..]);
    }
  }

  /** ASCII bytes are neither lost nor made up. */
  lemma {:induction false} LossyKeepsAscii(s: seq<byte>, x: byte)
    requires x < 0x80
    ensures x in Lossy(s) <==> x in s
    ensures s != [] && s[0] < 0x80 ==> Lossy(s)[0] == s[0]
  {
    if s != [] {
      var n := Taken(s);
      assert s == s[..n] + s[n..];
      TakenAscii(s, x);
      LossyKeepsAscii(s[n..], x);
      hide Emitted, Taken;
      assert Lossy(s) == Emitted(s) + Lossy(s[n..]);
    }
  }

  lemma {:induction false} TakenAscii(s: seq<byte>, x: byte)
    requires x < 0x80 && s != []
    ensures x in Emitted(s) <==> x in s[..Taken(s)]
    ensures Emitted(s) != [] && (s[0] < 0x80 ==> Emitted(s)[0] == s[0])
  {
  }

  /** A character that has begun and is not finished. */
  predicate Unfinished(u: seq<byte>) {
    u != [] && Matched(u) == |u| < Width(u[0])
  }

  /** An unfinished character gives one replacement, at the end or in front of an ASCII byte. */
  lemma {:induction false} LossyUnfinished(u: seq<byte>)
    requires Unfinished(u)
    ensures Lossy(u) == REPLACEMENT && 1 <= |u| <= 3
  {
    assert u[|u|..] == [];
  }

  /** Where the character begins that a cut after `m` bytes is in, or the cut itself when it is between two. */
  function CharStart(d: seq<byte>, m: nat): (s: nat)
    requires WellFormed(d) && m <= |d|
    ensures s <= m
  {
    if m == 0 || m < Matched(d) then 0 else Matched(d) + CharStart(d[Matched(d)..], m - Matched(d))
  }

  lemma {:induction false} CutInTwo(d: seq<byte>, m: nat)
    requires WellFormed(d) && m <= |d|
    ensures var s := CharStart(d, m); WellFormed(d[..s]) && (s < m ==> Unfinished(d[s..m]))
  {
    hide Matched, Unfinished;
    if m > 0 && m < Matched(d) {
      assert d[0..m] == d[..m];
      UnfinishedPrefix(d, m);
    } else if m > 0 {
      var n := Matched(d);
      CutInTwo(d[n..], m - n);
      var s := CharStart(d[n..], m - n);
      assert CharStart(d, m) == n + s;
      hide CharStart, WellFormed;
      Slices(d, n, s, m);
      WellPrepend(d, n, d[n..][..s]);
    }
  }

  lemma {:induction false} Slices(d: seq<byte>, n: nat, s: nat, m: nat)
    requires n + s <= m <= |d|
    ensures d[..n + s] == d[..n] + d[n..][..s] && d[n + s..m] == d[n..][s..m - n]
  {
  }

  lemma {:induction false} UnfinishedPrefix(d: seq<byte>, m: nat)
    requires d != [] && WholeFirst(d) && 0 < m < Matched(d)
    ensures Unfinished(d[..m])
  {
  }

  lemma {:induction false} MatchedPrefix(d: seq<byte>, n: nat)
    requires d != [] && WholeFirst(d) && n == Matched(d)
    ensures WholeFirst(d[..n]) && Matched(d[..n]) == n
  {
  }

  lemma {:induction false} WellPrepend(d: seq<byte>, n: nat, t: seq<byte>)
    requires d != [] && WholeFirst(d) && n == Matched(d) && WellFormed(t)
    ensures WellFormed(d[..n] + t)
  {
    MatchedPrefix(d, n);
    MatchedWhole(d[..n], t);
    hide Matched, WholeFirst;
    assert (d[..n] + t)[n..] == t;
  }

  /** A well-formed text cut anywhere: a character the cut falls in becomes a replacement. */
  lemma {:induction false} LossyCut(d: seq<byte>, m: nat)
    requires WellFormed(d) && m <= |d|
    ensures var s := CharStart(d, m); Lossy(d[..m]) == d[..s] + if s < m then REPLACEMENT else []
  {
    var s := CharStart(d, m);
    CutInTwo(d, m);
    assert d[..m] == d[..s] + d[s..m];
    LossyWell(d[..s], d[s..m]);
    if s < m {
      LossyUnfinished(d[s..m]);
    }
  }

  /* ---- parts of a well-formed text ---- */

  lemma {:induction false} MatchedContinues(s: seq<byte>, i: nat)
    requires s != [] && 0 < i < Matched(s)
    ensures Continuation(s[i])
  {
  }

  /** What begins between two characters of a well-formed text is one too. */
  lemma {:induction false} SuffixWell(s: seq<byte>, i: nat)
    requires WellFormed(s) && i <= |s| && (i < |s| ==> !Continuation(s[i]))
    ensures WellFormed(s[i..])
  {
    if i == 0 {
      assert s[0..] == s;
    } else if i < Matched(s) {
      MatchedContinues(s, i);
    } else {
      hide Matched, WholeFirst;
      var n := Matched(s);
      SuffixWell(s[n..], i - n);
      assert s[n..][i - n..] == s[i..];
    }
  }

  /** Behind an ASCII byte a character begins. */
  lemma {:induction false} AfterAscii(s: seq<byte>, i: nat)
    requires WellFormed(s) && i < |s| && s[i] < 0x80
    ensures WellFormed(s[i + 1..])
  {
    SuffixWell(s, i);
    assert s[i..][0] == s[i] && Matched(s[i..]) == 1;
    hide Matched, WholeFirst;
    assert s[i..][1..] == s[i + 1..];
  }

  lemma {:induction false} WellDrop(a: seq<byte>, b: seq<byte>)
    requires WellFormed(a) && WellFormed(a + b)
    ensures WellFormed(b)
  {
    hide Matched, WholeFirst;
    if a == [] {
      assert a + b == b;
    } else {
      MatchedWhole(a, b);
      var n := Matched(a);
      assert (a + b)[n..] == a[n..] + b;
      WellDrop(a[n..], b);
    }
  }

  lemma {:induction false} EmittedWell(s: seq<byte>)
    requires s != []
    ensures WellFormed(Emitted(s))
  {
    if WholeFirst(s) {
      WellPrepend(s, Matched(s), []);
      assert s[..Matched(s)] + [] == s[..Matched(s)];
    } else {
      assert Matched(REPLACEMENT) == 3 && REPLACEMENT[3..] == [];
    }
  }

  lemma {:induction false} WellJoin(a: seq<byte>, b: seq<byte>)
    requires WellFormed(a) && WellFormed(b)
    ensures WellFormed(a + b)
  {
    hide Matched, WholeFirst;
    if a == [] {
      assert a + b == b;
    } else {
      MatchedWhole(a, b);
      var n := Matched(a);
      assert (a + b)[n..] == a[n..] + b;
      WellJoin(a[n..], b);
    }
  }

  /** Whatever the bytes, what they are read as is a well-formed text. */
  lemma {:induction false} LossyIsText(s: seq<byte>)
    ensures WellFormed(Lossy(s))
  {
    if s != [] {
      EmittedWell(s);
      LossyIsText(s[Taken(s)..]);
      hide *;
      LossyOne(s);
      WellJoin(Emitted(s), Lossy(s[Taken(s)..]));
    }
  }
}
